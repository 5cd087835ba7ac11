/**
 * The collector script (GeminiToBI.py): it lists the TextGrid files under an
 * input tree, drops those whose `<base>.json` already exists in the output
 * directory, sends each remaining file to the language model and stores the
 * reply as JSON. The file system and the model call are parameters.
 */
module Collector {
  import opened Wrappers
  import opened Strings
  import opened Paths
  import opened JsonValues
  import opened Seqs

  /** The suffix that marks an annotation file, and that naming strips. */
  const ResultSuffix := "_result.TextGrid"

  /** One triple yielded by `os.walk`: a directory, its sub-directories, its files. */
  datatype WalkEntry = WalkEntry(subdir: string, dirs: seq<string>, files: seq<string>)

  // ---------------------------------------------------------------- get_file_list

  /** The paths `subdir + os.sep + file` of one directory, in listing order. */
  function JoinAll(subdir: string, files: seq<string>): seq<string> {
    if files == [] then []
    else JoinAll(subdir, files[..|files| - 1]) + [subdir + "/" + files[|files| - 1]]
  }

  /** Every file path of a walk, in walk order. */
  function WalkPaths(walk: seq<WalkEntry>): seq<string> {
    if walk == [] then []
    else
      var e := walk[|walk| - 1];
      WalkPaths(walk[..|walk| - 1]) + JoinAll(e.subdir, e.files)
  }

  /** The paths that end with `suffix`, in their order. */
  function EndingWith(paths: seq<string>, suffix: string): seq<string> {
    Filter(paths, p => EndsWith(p, suffix))
  }

  lemma JoinAllStep(subdir: string, files: seq<string>, j: nat)
    requires j < |files|
    ensures JoinAll(subdir, files[..j + 1]) == JoinAll(subdir, files[..j]) + [subdir + "/" + files[j]]
  {
    assert files[..j + 1][..j] == files[..j];
  }

  lemma WalkPathsStep(walk: seq<WalkEntry>, i: nat)
    requires i < |walk|
    ensures WalkPaths(walk[..i + 1]) == WalkPaths(walk[..i]) + JoinAll(walk[i].subdir, walk[i].files)
  {
    assert walk[..i + 1][..i] == walk[..i];
  }

  /** One iteration of the inner loop of `get_file_list`. */
  lemma FileListStep(done: seq<string>, subdir: string, files: seq<string>, j: nat, suffix: string)
    requires j < |files|
    ensures EndingWith(done + JoinAll(subdir, files[..j + 1]), suffix) ==
      EndingWith(done + JoinAll(subdir, files[..j]), suffix) +
        (if EndsWith(subdir + "/" + files[j], suffix) then [subdir + "/" + files[j]] else [])
  {
    JoinAllStep(subdir, files, j);
    assert done + JoinAll(subdir, files[..j + 1]) == (done + JoinAll(subdir, files[..j])) + [subdir + "/" + files[j]];
    FilterStep(done + JoinAll(subdir, files[..j]), subdir + "/" + files[j], p => EndsWith(p, suffix));
  }

  /** `get_file_list`: the nested loops over the walk that append matching paths. */
  method GetFileList(walk: seq<WalkEntry>, suffix: string) returns (fileList: seq<string>)
    ensures fileList == EndingWith(WalkPaths(walk), suffix)
  {
    fileList := [];
    for i := 0 to |walk|
      invariant fileList == EndingWith(WalkPaths(walk[..i]), suffix)
    {
      var entry := walk[i];
      ghost var done := WalkPaths(walk[..i]);
      assert done + JoinAll(entry.subdir, entry.files[..0]) == done;
      for j := 0 to |entry.files|
        invariant fileList == EndingWith(done + JoinAll(entry.subdir, entry.files[..j]), suffix)
      {
        var filepath := entry.subdir + "/" + entry.files[j];
        FileListStep(done, entry.subdir, entry.files, j, suffix);
        if EndsWith(filepath, suffix) {
          fileList := fileList + [filepath];
        }
      }
      assert entry.files[..|entry.files|] == entry.files;
      WalkPathsStep(walk, i);
    }
    assert walk[..|walk|] == walk;
  }

  /** A path is listed exactly when some directory of the walk holds a file giving it. */
  ghost predicate InWalk(walk: seq<WalkEntry>, p: string) {
    exists i, k :: 0 <= i < |walk| && 0 <= k < |walk[i].files| && p == walk[i].subdir + "/" + walk[i].files[k]
  }

  lemma {:induction false} JoinAllMembers(subdir: string, files: seq<string>, p: string)
    ensures p in JoinAll(subdir, files) <==> exists k :: 0 <= k < |files| && p == subdir + "/" + files[k]
  {
    if files != [] {
      var init := files[..|files| - 1];
      JoinAllMembers(subdir, init, p);
      if exists k :: 0 <= k < |files| && p == subdir + "/" + files[k] {
        var k :| 0 <= k < |files| && p == subdir + "/" + files[k];
        if k < |files| - 1 { assert files[k] == init[k]; }
      }
    }
  }

  lemma {:induction false} WalkPathsMembers(walk: seq<WalkEntry>, p: string)
    ensures p in WalkPaths(walk) <==> InWalk(walk, p)
  {
    if walk != [] {
      var init := walk[..|walk| - 1];
      var e := walk[|walk| - 1];
      WalkPathsMembers(init, p);
      JoinAllMembers(e.subdir, e.files, p);
      if InWalk(walk, p) {
        var i, k :| 0 <= i < |walk| && 0 <= k < |walk[i].files| && p == walk[i].subdir + "/" + walk[i].files[k];
        if i < |walk| - 1 { assert walk[i] == init[i]; }
      }
      if InWalk(init, p) {
        var i, k :| 0 <= i < |init| && 0 <= k < |init[i].files| && p == init[i].subdir + "/" + init[i].files[k];
        assert walk[i] == init[i];
      }
    }
  }

  /**
   * What `get_file_list` returns: the walk's paths that end with the suffix,
   * in walk order, and no other path.
   */
  lemma FileListIsFilteredWalk(walk: seq<WalkEntry>, suffix: string, p: string)
    ensures p in EndingWith(WalkPaths(walk), suffix) <==> InWalk(walk, p) && EndsWith(p, suffix)
    ensures IsSubsequence(EndingWith(WalkPaths(walk), suffix), WalkPaths(walk))
  {
    FilterMembers(WalkPaths(walk), p => EndsWith(p, suffix), p);
    WalkPathsMembers(walk, p);
    FilterInOrder(WalkPaths(walk), p => EndsWith(p, suffix));
  }

  // ---------------------------------------------------------------- base names

  /** The base of an input file: its basename with every `_result.TextGrid` removed. */
  function SourceBase(path: string): string {
    Replace(Basename(path), ResultSuffix, "")
  }

  /** The base of an output file: its basename without the last extension. */
  function OutputBase(path: string): string {
    SplitExt(Basename(path)).0
  }

  /**
   * Every occurrence of the suffix is removed from the base, not only the
   * trailing one: `<x>_result.TextGrid<y>_result.TextGrid` has base `<x><y>`.
   */
  lemma SourceBaseDropsEveryOccurrence(dir: string, x: string, y: string)
    requires '/' !in x && '/' !in y
    requires forall k: nat :: k < |x| ==> !OccursAt(x + ResultSuffix + (y + ResultSuffix), ResultSuffix, k)
    requires forall k: nat :: k < |y| ==> !OccursAt(y + ResultSuffix, ResultSuffix, k)
    ensures SourceBase(dir + "/" + (x + ResultSuffix + (y + ResultSuffix))) == x + y
  {
    var name := x + ResultSuffix + (y + ResultSuffix);
    assert '/' !in name;
    BasenameOfName(dir, name);
    ReplaceTwoOccurrences(x, y, ResultSuffix, "");
    assert x + "" == x && y + "" == y;
  }

  /** `file_bases` (computed by the script, never read by it). */
  function FileBases(fileList: seq<string>): set<string> {
    set f | f in fileList :: SourceBase(f)
  }

  /** `output_bases`. */
  function OutputBases(outputList: seq<string>): set<string> {
    set f | f in outputList :: OutputBase(f)
  }

  /** `filtered_files`: the inputs whose base has no output yet, in list order. */
  function Pending(fileList: seq<string>, outputBases: set<string>): seq<string> {
    Filter(fileList, f => SourceBase(f) !in outputBases)
  }

  /** A file is pending exactly when it is listed and its base has no output. */
  lemma PendingMembers(fileList: seq<string>, outputBases: set<string>, f: string)
    ensures f in Pending(fileList, outputBases) <==> f in fileList && SourceBase(f) !in outputBases
  {
    FilterMembers(fileList, f => SourceBase(f) !in outputBases, f);
  }

  /**
   * The pending list keeps the order of the file list and so is no longer
   * than it; with no outputs at all it is the whole file list.
   */
  lemma PendingIsSublist(fileList: seq<string>, outputBases: set<string>)
    ensures IsSubsequence(Pending(fileList, outputBases), fileList)
    ensures |Pending(fileList, outputBases)| <= |fileList|
    ensures outputBases == {} ==> Pending(fileList, outputBases) == fileList
  {
    FilterInOrder(fileList, f => SourceBase(f) !in outputBases);
    if outputBases == {} {
      FilterKeepsAll(fileList, f => SourceBase(f) !in outputBases);
    }
  }

  /** Every pending file's base is one of `file_bases` and none of `output_bases`. */
  lemma PendingBases(fileList: seq<string>, outputBases: set<string>, f: string)
    requires f in Pending(fileList, outputBases)
    ensures SourceBase(f) in FileBases(fileList) - outputBases
  {
    PendingMembers(fileList, outputBases, f);
  }

  // ---------------------------------------------------------------- output naming

  /** `output_path`: the output directory joined with the basename, suffix renamed to `.json`. */
  function OutputPath(outputDir: string, filepath: string): string {
    Join(outputDir, Replace(Basename(filepath), ResultSuffix, JsonSuffix))
  }

  /** The file written for an input is named after the input's renamed basename. */
  lemma OutputPathName(outputDir: string, filepath: string)
    ensures Basename(OutputPath(outputDir, filepath)) == Replace(Basename(filepath), ResultSuffix, JsonSuffix)
  {
    ReplaceAvoids(Basename(filepath), ResultSuffix, JsonSuffix, '/');
    JoinBasename(outputDir, Replace(Basename(filepath), ResultSuffix, JsonSuffix));
  }

  /**
   * A name the skip logic handles: it ends in `_result.TextGrid`, holds no
   * earlier occurrence of it, and its stem is not made of dots only.
   */
  predicate WellNamed(name: string) {
    && |ResultSuffix| <= |name|
    && name[|name| - |ResultSuffix|..] == ResultSuffix
    && (forall k: nat :: k < |name| - |ResultSuffix| ==> !OccursAt(name, ResultSuffix, k))
    && (exists k :: 0 <= k < |name| - |ResultSuffix| && name[k] != '.')
  }

  /** The stem of a well-named file: the name without its trailing suffix. */
  function Stem(name: string): string
    requires |ResultSuffix| <= |name|
  {
    name[..|name| - |ResultSuffix|]
  }

  /** In a well-named file the only occurrence of the suffix is the trailing one. */
  lemma WellNamedReplace(name: string, rep: string)
    requires WellNamed(name)
    ensures Replace(name, ResultSuffix, rep) == Stem(name) + rep
  {
    assert name == Stem(name) + ResultSuffix;
    ReplaceTrailing(Stem(name), ResultSuffix, rep);
  }

  /** An output file named `<stem>.json` has base `<stem>` unless the stem is all dots. */
  lemma OutputBaseOfJsonName(path: string, stem: string)
    requires Basename(path) == stem + JsonSuffix
    requires exists k :: 0 <= k < |stem| && stem[k] != '.'
    ensures OutputBase(path) == stem
  {
    assert JsonSuffix == "." + "json";
    assert forall c :: c in stem ==> c in Basename(path);
    SplitExtOfName(stem, "json");
  }

  /** An output file named `<dots>.json` keeps its whole name as base, so it matches no input's base. */
  lemma OutputBaseOfDotsJsonName(path: string, stem: string)
    requires Basename(path) == stem + JsonSuffix
    requires forall k :: 0 <= k < |stem| ==> stem[k] == '.'
    ensures OutputBase(path) == stem + JsonSuffix
  {
    assert '/' !in stem by {
      forall k | 0 <= k < |stem|
        ensures stem[k] != '/'
      {
      }
    }
    assert JsonSuffix == "." + "json";
    SplitExtOfDotsOnly(stem, "json");
  }

  /**
   * Idempotent skip: for a well-named input, the base of the file it is
   * written to equals its own base, so the next run leaves it out.
   */
  lemma SkipIsIdempotent(outputDir: string, filepath: string)
    requires WellNamed(Basename(filepath))
    ensures OutputBase(OutputPath(outputDir, filepath)) == SourceBase(filepath)
  {
    var name := Basename(filepath);
    var stem := Stem(name);
    assert SourceBase(filepath) == stem by {
      WellNamedReplace(name, "");
      assert stem + "" == stem;
    }
    assert Basename(OutputPath(outputDir, filepath)) == stem + JsonSuffix by {
      WellNamedReplace(name, JsonSuffix);
      OutputPathName(outputDir, filepath);
    }
    assert exists k :: 0 <= k < |stem| && stem[k] != '.' by {
      var k :| 0 <= k < |name| - |ResultSuffix| && name[k] != '.';
      assert stem[k] == name[k];
    }
    OutputBaseOfJsonName(OutputPath(outputDir, filepath), stem);
  }

  /** Once an input's output file is listed, a re-run does not select it. */
  lemma RerunSkips(fileList: seq<string>, outputList: seq<string>, outputDir: string, filepath: string, o: string)
    requires WellNamed(Basename(filepath))
    requires o in outputList && Basename(o) == Basename(OutputPath(outputDir, filepath))
    ensures filepath !in Pending(fileList, OutputBases(outputList))
  {
    SkipIsIdempotent(outputDir, filepath);
    assert OutputBase(o) in OutputBases(outputList);
    PendingMembers(fileList, OutputBases(outputList), filepath);
  }

  // ---------------------------------------------------------------- processing

  /** What is dumped for a reply: the parsed JSON, or `{"response": text}` when it does not parse. */
  function Stored(text: string, parse: string -> Option<Json>): Json {
    match parse(text)
    case Some(v) => v
    case None => JObject(map["response" := JString(text)])
  }

  /**
   * A reply that parses is stored as the parsed value; one that does not is
   * kept whole, as the one field `response`.
   */
  lemma StoredReply(text: string, parse: string -> Option<Json>)
    ensures parse(text).Some? ==> Stored(text, parse) == parse(text).value
    ensures parse(text).None? ==>
      Stored(text, parse).JObject? && Stored(text, parse).fields.Keys == {"response"} &&
      Stored(text, parse).fields["response"] == JString(text)
  {
  }

  /** One file written by the main loop. */
  datatype Written = Written(path: string, data: Json)

  /**
   * What one iteration of the main loop writes for `f`; `respond` reads the
   * file and asks the model, None standing for any exception on the way.
   */
  function WriteOf(f: string, outputDir: string, respond: string -> Option<string>,
                   parse: string -> Option<Json>): Option<Written>
  {
    match respond(f)
    case None => None
    case Some(text) => Some(Written(OutputPath(outputDir, f), Stored(text, parse)))
  }

  /** The writes of the main loop over the pending files, in order. */
  function Writes(pending: seq<string>, outputDir: string, respond: string -> Option<string>,
                  parse: string -> Option<Json>): seq<Written>
  {
    FilterMap(pending, f => WriteOf(f, outputDir, respond, parse))
  }

  /** One iteration of the main loop. */
  lemma WritesStep(pending: seq<string>, i: nat, outputDir: string, respond: string -> Option<string>,
                   parse: string -> Option<Json>)
    requires i < |pending|
    ensures Writes(pending[..i + 1], outputDir, respond, parse) ==
      Writes(pending[..i], outputDir, respond, parse) +
        (if respond(pending[i]).Some?
         then [Written(OutputPath(outputDir, pending[i]), Stored(respond(pending[i]).value, parse))]
         else [])
  {
    assert pending[..i + 1] == pending[..i] + [pending[i]];
    FilterMapStep(pending[..i], pending[i], f => WriteOf(f, outputDir, respond, parse));
  }

  /** The main `for filepath in filtered_files` loop. */
  method ProcessPending(pending: seq<string>, outputDir: string, respond: string -> Option<string>,
                        parse: string -> Option<Json>) returns (written: seq<Written>)
    ensures written == Writes(pending, outputDir, respond, parse)
  {
    written := [];
    for i := 0 to |pending|
      invariant written == Writes(pending[..i], outputDir, respond, parse)
    {
      var filepath := pending[i];
      WritesStep(pending, i, outputDir, respond, parse);
      var reply := respond(filepath);
      if reply.Some? {
        var outputPath := OutputPath(outputDir, filepath);
        var jsonData := Stored(reply.value, parse);
        written := written + [Written(outputPath, jsonData)];
      }
    }
    assert pending[..|pending|] == pending;
  }

  /**
   * A write is one a pending file's successful call gives, and there are no
   * more writes than pending files.
   */
  lemma WritesPerFile(pending: seq<string>, outputDir: string, respond: string -> Option<string>,
                      parse: string -> Option<Json>, w: Written)
    ensures |Writes(pending, outputDir, respond, parse)| <= |pending|
    ensures w in Writes(pending, outputDir, respond, parse) <==>
      exists f :: f in pending && respond(f).Some? &&
        w == Written(OutputPath(outputDir, f), Stored(respond(f).value, parse))
  {
    FilterMapMembers(pending, f => WriteOf(f, outputDir, respond, parse), w);
  }

  /** The pending files whose read and call succeeded, in pending order. */
  function Succeeded(pending: seq<string>, respond: string -> Option<string>): seq<string> {
    Filter(pending, f => respond(f).Some?)
  }

  /**
   * The writes are exactly one per successful pending file, in pending
   * order: the i-th write goes to the i-th successful file's output path
   * and holds its stored reply.
   */
  lemma {:induction false} WritesInOrder(pending: seq<string>, outputDir: string, respond: string -> Option<string>,
                                         parse: string -> Option<Json>)
    ensures forall f :: f in Succeeded(pending, respond) ==> respond(f).Some?
    ensures |Writes(pending, outputDir, respond, parse)| == |Succeeded(pending, respond)|
    ensures forall i :: 0 <= i < |Succeeded(pending, respond)| ==>
      var f := Succeeded(pending, respond)[i];
      Writes(pending, outputDir, respond, parse)[i] == Written(OutputPath(outputDir, f), Stored(respond(f).value, parse))
  {
    forall f | f in Succeeded(pending, respond)
      ensures respond(f).Some?
    {
      FilterMembers(pending, g => respond(g).Some?, f);
    }
    if pending != [] {
      var init, last := pending[..|pending| - 1], pending[|pending| - 1];
      assert pending == init + [last];
      WritesInOrder(init, outputDir, respond, parse);
      FilterMapStep(init, last, f => WriteOf(f, outputDir, respond, parse));
      FilterStep(init, last, f => respond(f).Some?);
      if respond(last).None? {
        assert Writes(pending, outputDir, respond, parse) == Writes(init, outputDir, respond, parse) + [];
        assert Succeeded(pending, respond) == Succeeded(init, respond) + [];
      }
    }
  }

  /** Of two listed inputs, only the one whose base has no output is pending. */
  lemma PendingOfTwo(f: string, g: string, outputBases: set<string>)
    requires SourceBase(f) !in outputBases && SourceBase(g) in outputBases
    ensures Pending([f, g], outputBases) == [f]
  {
    assert Pending([f], outputBases) == [f] by {
      FilterStep([], f, h => SourceBase(h) !in outputBases);
      assert [] + [f] == [f];
    }
    FilterStep([f], g, h => SourceBase(h) !in outputBases);
    assert [f] + [g] == [f, g];
  }

  /** A single pending input whose call succeeds gives a single write. */
  lemma WritesOfOne(f: string, outputDir: string, respond: string -> Option<string>, parse: string -> Option<Json>)
    requires respond(f).Some?
    ensures Writes([f], outputDir, respond, parse) == [Written(OutputPath(outputDir, f), Stored(respond(f).value, parse))]
  {
    assert [] + [f] == [f];
    FilterMapStep([], f, h => WriteOf(h, outputDir, respond, parse));
  }

  /**
   * Two listed inputs, one of which already has its output: the run writes
   * exactly one file, the other input's, when its call succeeds.
   */
  lemma OneOfTwoDone(f: string, g: string, outputList: seq<string>, outputDir: string,
                     respond: string -> Option<string>, parse: string -> Option<Json>)
    requires SourceBase(f) !in OutputBases(outputList) && SourceBase(g) in OutputBases(outputList)
    requires respond(f).Some?
    ensures Pending([f, g], OutputBases(outputList)) == [f]
    ensures Writes(Pending([f, g], OutputBases(outputList)), outputDir, respond, parse) ==
      [Written(OutputPath(outputDir, f), Stored(respond(f).value, parse))]
  {
    PendingOfTwo(f, g, OutputBases(outputList));
    WritesOfOne(f, outputDir, respond, parse);
  }

  /** The paths of the written files. */
  function WrittenPaths(ws: seq<Written>): seq<string> {
    seq(|ws|, i requires 0 <= i < |ws| => ws[i].path)
  }

  /**
   * The whole collector: list the inputs and the existing outputs, keep the
   * pending inputs, and process them in order.
   */
  method Run(inputWalk: seq<WalkEntry>, outputWalk: seq<WalkEntry>, outputDir: string,
             respond: string -> Option<string>, parse: string -> Option<Json>) returns (written: seq<Written>)
    ensures written == Writes(Pending(EndingWith(WalkPaths(inputWalk), ResultSuffix),
                                      OutputBases(EndingWith(WalkPaths(outputWalk), JsonSuffix))),
                              outputDir, respond, parse)
  {
    var fileList := GetFileList(inputWalk, ResultSuffix);
    var outputList := GetFileList(outputWalk, JsonSuffix);
    var outputBases := set f | f in outputList :: OutputBase(f);
    var filteredFiles := Pending(fileList, outputBases);
    written := ProcessPending(filteredFiles, outputDir, respond, parse);
  }

  /** A well-named input is written to a path the next listing of `.json` outputs picks up. */
  lemma OutputPathIsListed(outputDir: string, filepath: string)
    requires WellNamed(Basename(filepath))
    ensures EndsWith(OutputPath(outputDir, filepath), JsonSuffix)
  {
    var p := OutputPath(outputDir, filepath);
    var stem := Stem(Basename(filepath));
    assert Basename(p) == stem + JsonSuffix by {
      WellNamedReplace(Basename(filepath), JsonSuffix);
      OutputPathName(outputDir, filepath);
    }
    EndsWithConcat(stem, JsonSuffix);
    EndsWithTail(p, Basename(p), JsonSuffix);
  }

  /**
   * After a run, a listed file's base is among the outputs the next run
   * lists (the `.json` files of the output tree, now including the new
   * writes) if its call succeeded or it was skipped.
   */
  lemma RerunCoversFile(fileList: seq<string>, outputFiles: seq<string>, outputDir: string,
                        respond: string -> Option<string>, parse: string -> Option<Json>, f: string)
    requires f in fileList && WellNamed(Basename(f))
    requires f in Pending(fileList, OutputBases(EndingWith(outputFiles, JsonSuffix))) ==> respond(f).Some?
    ensures
      var pending := Pending(fileList, OutputBases(EndingWith(outputFiles, JsonSuffix)));
      var after := outputFiles + WrittenPaths(Writes(pending, outputDir, respond, parse));
      SourceBase(f) in OutputBases(EndingWith(after, JsonSuffix))
  {
    var before := EndingWith(outputFiles, JsonSuffix);
    var pending := Pending(fileList, OutputBases(before));
    var ws := Writes(pending, outputDir, respond, parse);
    var after := outputFiles + WrittenPaths(ws);
    PendingMembers(fileList, OutputBases(before), f);
    if SourceBase(f) in OutputBases(before) {
      var o :| o in before && OutputBase(o) == SourceBase(f);
      assert o in EndingWith(after, JsonSuffix) by {
        FilterMembers(outputFiles, p => EndsWith(p, JsonSuffix), o);
        assert o in after;
        FilterMembers(after, p => EndsWith(p, JsonSuffix), o);
      }
    } else {
      var w := Written(OutputPath(outputDir, f), Stored(respond(f).value, parse));
      assert w.path in after by {
        WritesPerFile(pending, outputDir, respond, parse, w);
        var i :| 0 <= i < |ws| && ws[i] == w;
        assert WrittenPaths(ws)[i] == w.path;
      }
      assert w.path in EndingWith(after, JsonSuffix) by {
        OutputPathIsListed(outputDir, f);
        FilterMembers(after, p => EndsWith(p, JsonSuffix), w.path);
      }
      SkipIsIdempotent(outputDir, f);
    }
  }

  /**
   * A run in which every call succeeds leaves nothing for the next run,
   * provided every listed input is well named.
   */
  lemma RerunAfterSuccess(fileList: seq<string>, outputFiles: seq<string>, outputDir: string,
                          respond: string -> Option<string>, parse: string -> Option<Json>)
    requires forall f :: f in fileList ==> WellNamed(Basename(f))
    requires forall f :: f in Pending(fileList, OutputBases(EndingWith(outputFiles, JsonSuffix))) ==> respond(f).Some?
    ensures
      var pending := Pending(fileList, OutputBases(EndingWith(outputFiles, JsonSuffix)));
      var after := outputFiles + WrittenPaths(Writes(pending, outputDir, respond, parse));
      Pending(fileList, OutputBases(EndingWith(after, JsonSuffix))) == []
  {
    var pending := Pending(fileList, OutputBases(EndingWith(outputFiles, JsonSuffix)));
    var after := outputFiles + WrittenPaths(Writes(pending, outputDir, respond, parse));
    forall f | f in fileList
      ensures SourceBase(f) in OutputBases(EndingWith(after, JsonSuffix))
    {
      RerunCoversFile(fileList, outputFiles, outputDir, respond, parse, f);
    }
    var next := Pending(fileList, OutputBases(EndingWith(after, JsonSuffix)));
    if next != [] {
      PendingMembers(fileList, OutputBases(EndingWith(after, JsonSuffix)), next[0]);
    }
  }
}
