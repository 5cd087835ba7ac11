/**
 * The scorer script (GeminivAnnotations.py): it reads the human averages per
 * audio file, pulls the three model scores out of every stored reply, joins
 * the two on the file name and hands the matched columns to a correlation.
 * The CSV reader, the JSON parser, the directory listing and the statistics
 * library are parameters or left out.
 */
module Scorer {
  import opened Wrappers
  import opened Strings
  import opened JsonValues
  import opened Seqs

  /** The opening and closing fences of the pattern ```json\n(.*?)\n```. */
  const OpenFence := "```json\n"
  const CloseFence := "\n```"
  /** The extension stripped from the audio names of the annotation table. */
  const WavSuffix := ".wav"

  // ---------------------------------------------------------------- fenced block

  /** A match of the fenced-block pattern: opening fence at `i`, closing fence at `j`. */
  predicate IsFenceMatch(s: string, i: nat, j: nat) {
    OccursAt(s, OpenFence, i) && i + |OpenFence| <= j && OccursAt(s, CloseFence, j)
  }

  /**
   * `re.search(r'```json\n(.*?)\n```', s, re.DOTALL).group(1)`: the text
   * after the first opening fence, up to the first closing fence after it.
   */
  function FindFence(s: string): Option<string> {
    match Find(s, OpenFence, 0)
    case None => None
    case Some(i) =>
      match Find(s, CloseFence, i + |OpenFence|)
      case None => None
      case Some(j) => Some(s[i + |OpenFence|..j])
  }

  /**
   * FindFence is the regular-expression search: it finds something exactly
   * when the pattern matches somewhere, and then returns the group of the
   * match that starts first and, among those, ends first.
   */
  lemma FindFenceIsLeftmostShortest(s: string)
    ensures FindFence(s).None? <==> forall i: nat, j: nat :: !IsFenceMatch(s, i, j)
    ensures FindFence(s).Some? ==>
      exists i: nat, j: nat :: IsFenceMatch(s, i, j) && FindFence(s).value == s[i + |OpenFence|..j] &&
        forall i2: nat, j2: nat :: IsFenceMatch(s, i2, j2) ==> i < i2 || (i == i2 && j <= j2)
  {
    match Find(s, OpenFence, 0)
    case None =>
      forall i: nat, j: nat | IsFenceMatch(s, i, j)
        ensures false
      {
        FindIsFirst(s, OpenFence, 0, i);
      }
    case Some(i) =>
      match Find(s, CloseFence, i + |OpenFence|)
      case None =>
        forall i2: nat, j2: nat | IsFenceMatch(s, i2, j2)
          ensures false
        {
          FindIsFirst(s, OpenFence, 0, i2);
          FindIsFirst(s, CloseFence, i + |OpenFence|, j2);
        }
      case Some(j) =>
        assert IsFenceMatch(s, i, j);
        forall i2: nat, j2: nat | IsFenceMatch(s, i2, j2)
          ensures i < i2 || (i == i2 && j <= j2)
        {
          FindIsFirst(s, OpenFence, 0, i2);
          if i == i2 {
            FindIsFirst(s, CloseFence, i + |OpenFence|, j2);
          }
        }
    }

  /** The first occurrence of `pat` in `pre + pat + rest`, when `pre` starts none. */
  lemma FindAfterPrefix(pre: string, rest: string, pat: string, from: nat)
    requires from <= |pre|
    requires forall k: nat :: from <= k < |pre| ==> !OccursAt(pre + pat, pat, k)
    ensures Find(pre + pat + rest, pat, from) == Some(|pre|)
  {
    var s := pre + pat + rest;
    assert s == [] + (pre + pat) + rest;
    forall k: nat | from <= k < |pre|
      ensures !OccursAt(s, pat, k)
    {
      OccursAtShift([], pre + pat, rest, pat, k);
    }
    OccursAtShift([], pre + pat, rest, pat, |pre|);
    assert (pre + pat)[|pre|..] == pat;
    FindFirst(s, pat, from, |pre|);
  }

  /**
   * A block fenced once, with no opening fence before it and no closing
   * fence inside it, is returned exactly; the body may be empty or hold
   * newlines.
   */
  lemma FindFenceOfFenced(pre: string, body: string, post: string)
    requires forall k: nat :: k < |pre| ==> !OccursAt(pre + OpenFence, OpenFence, k)
    requires forall k: nat :: k < |body| ==> !OccursAt(body + CloseFence, CloseFence, k)
    ensures FindFence(pre + OpenFence + body + CloseFence + post) == Some(body)
  {
    var s := pre + OpenFence + body + CloseFence + post;
    var start := |pre| + |OpenFence|;
    var head := pre + OpenFence + body;
    assert s == pre + OpenFence + (body + CloseFence + post);
    FindAfterPrefix(pre, body + CloseFence + post, OpenFence, 0);
    forall k: nat | start <= k < |head|
      ensures !OccursAt(head + CloseFence, CloseFence, k)
    {
      assert head + CloseFence == (pre + OpenFence) + (body + CloseFence) + [];
      OccursAtShift(pre + OpenFence, body + CloseFence, [], CloseFence, k - start);
    }
    assert s == head + CloseFence + post;
    FindAfterPrefix(head, post, CloseFence, start);
    assert s[start..|head|] == body;
  }

  // ---------------------------------------------------------------- three scores

  /** The model's three scores for one file, kept as the JSON values they are. */
  datatype Scores = Scores(accuracy: Json, fluency: Json, prosody: Json)

  /**
   * `inner.get(dimension, {}).get('score', None)`, with None also standing
   * for the AttributeError raised when the dimension is present but is not an
   * object: both send the file to the missing list.
   */
  function ScoreOf(inner: map<string, Json>, dimension: string): Option<Json> {
    if dimension !in inner then None
    else
      match inner[dimension]
      case JObject(fields) =>
        if "score" in fields && fields["score"] != JNull then Some(fields["score"]) else None
      case _ => None
  }

  /** The chain finds a score: the dimension is an object holding a non-null `score`. */
  predicate HasScore(inner: map<string, Json>, dimension: string) {
    ScoreOf(inner, dimension).Some?
  }

  /** The three scores of a parsed block, only when all three are there. */
  function ScoresOfInner(inner: Json): Option<Scores> {
    if !inner.JObject? then None
    else
      var accuracy := ScoreOf(inner.fields, "Accuracy");
      var fluency := ScoreOf(inner.fields, "Fluency");
      var prosody := ScoreOf(inner.fields, "Prosody");
      if accuracy.Some? && fluency.Some? && prosody.Some? then
        Some(Scores(accuracy.value, fluency.value, prosody.value))
      else
        None
  }

  /** The scores in a reply text: fenced block, parsed, three scores. */
  function ScoresOfText(response: string, parse: string -> Option<Json>): Option<Scores> {
    match FindFence(response)
    case None => None
    case Some(block) =>
      match parse(block)
      case None => None
      case Some(inner) => ScoresOfInner(inner)
  }

  /** The scores of a stored document, read from its `response` text. */
  function ScoresOfDocument(doc: Json, parse: string -> Option<Json>): Option<Scores> {
    if doc.JObject? && "response" in doc.fields && doc.fields["response"].JString? then
      ScoresOfText(doc.fields["response"].s, parse)
    else
      None
  }

  /** The try block for one `.json` file: read, parse, extract; None is "missing". */
  function ExtractScores(content: Option<string>, parse: string -> Option<Json>): Option<Scores> {
    match content
    case None => None
    case Some(text) =>
      match parse(text)
      case None => None
      case Some(doc) => ScoresOfDocument(doc, parse)
  }

  /**
   * The extraction the collector's prompt calls for: a stored document
   * without a `response` text is the model's reply itself, and is read as the
   * object holding the three scores.
   */
  function ScoresOfDocumentFixed(doc: Json, parse: string -> Option<Json>): Option<Scores> {
    if doc.JObject? && "response" in doc.fields && doc.fields["response"].JString? then
      ScoresOfText(doc.fields["response"].s, parse)
    else
      ScoresOfInner(doc)
  }

  /** The try block with the corrected reading of a stored document. */
  function ExtractScoresFixed(content: Option<string>, parse: string -> Option<Json>): Option<Scores> {
    match content
    case None => None
    case Some(text) =>
      match parse(text)
      case None => None
      case Some(doc) => ScoresOfDocumentFixed(doc, parse)
  }

  /**
   * The correction only adds scores: every file the script scores is scored
   * alike, and a file that is now scored and was not holds no `response` text.
   */
  lemma ExtractScoresFixedExtends(content: Option<string>, parse: string -> Option<Json>)
    ensures ExtractScores(content, parse).Some? ==> ExtractScoresFixed(content, parse) == ExtractScores(content, parse)
    ensures ExtractScoresFixed(content, parse).Some? && ExtractScores(content, parse).None? ==>
      var doc := parse(content.value).value;
      !(doc.JObject? && "response" in doc.fields && doc.fields["response"].JString?)
  {
  }

  /**
   * A reply yields scores exactly when it holds a fenced block that parses to
   * an object with all three non-null scores, and the scores are those values
   * unchanged; a reply without a block yields none.
   */
  lemma ScoresNeedAllThree(response: string, parse: string -> Option<Json>)
    ensures ScoresOfText(response, parse).Some? <==>
      && FindFence(response).Some?
      && parse(FindFence(response).value).Some?
      && parse(FindFence(response).value).value.JObject?
      && var m := parse(FindFence(response).value).value.fields;
         HasScore(m, "Accuracy") && HasScore(m, "Fluency") && HasScore(m, "Prosody")
    ensures ScoresOfText(response, parse).Some? ==>
      var m := parse(FindFence(response).value).value.fields;
      ScoresOfText(response, parse).value ==
        Scores(m["Accuracy"].fields["score"], m["Fluency"].fields["score"], m["Prosody"].fields["score"])
  {
  }

  /**
   * A reply that fences a JSON object with three scores gives back exactly
   * those three values.
   */
  lemma FencedScoresExtracted(pre: string, body: string, post: string, parse: string -> Option<Json>,
                              m: map<string, Json>)
    requires forall k: nat :: k < |pre| ==> !OccursAt(pre + OpenFence, OpenFence, k)
    requires forall k: nat :: k < |body| ==> !OccursAt(body + CloseFence, CloseFence, k)
    requires parse(body) == Some(JObject(m))
    requires HasScore(m, "Accuracy") && HasScore(m, "Fluency") && HasScore(m, "Prosody")
    ensures ScoresOfText(pre + OpenFence + body + CloseFence + post, parse) ==
      Some(Scores(m["Accuracy"].fields["score"], m["Fluency"].fields["score"], m["Prosody"].fields["score"]))
  {
    FindFenceOfFenced(pre, body, post);
  }

  // ---------------------------------------------------------------- json_scores and missing_files

  /** What the try block stores for one listed name: scores, for a `.json` name that yields them. */
  function ListedScores(f: string, contents: string -> Option<string>, parse: string -> Option<Json>): Option<Scores> {
    if EndsWith(f, JsonSuffix) then ExtractScores(contents(f), parse) else None
  }

  /** `json_scores` after the loop over the listed names. */
  function ScoredMap(files: seq<string>, contents: string -> Option<string>,
                     parse: string -> Option<Json>): map<string, Scores>
  {
    Collect(files, f => ListedScores(f, contents, parse))
  }

  /** `missing_files` after the loop over the listed names. */
  function MissingFiles(files: seq<string>, contents: string -> Option<string>,
                        parse: string -> Option<Json>): seq<string>
  {
    Filter(files, f => EndsWith(f, JsonSuffix) && ExtractScores(contents(f), parse).None?)
  }

  /**
   * The loop over `os.listdir(json_dir)`; `contents` gives the text of each
   * listed name, None when it cannot be opened.
   */
  method ExtractAll(files: seq<string>, contents: string -> Option<string>, parse: string -> Option<Json>)
    returns (jsonScores: map<string, Scores>, missingFiles: seq<string>)
    ensures jsonScores == ScoredMap(files, contents, parse)
    ensures missingFiles == MissingFiles(files, contents, parse)
  {
    jsonScores, missingFiles := map[], [];
    for i := 0 to |files|
      invariant jsonScores == ScoredMap(files[..i], contents, parse)
      invariant missingFiles == MissingFiles(files[..i], contents, parse)
    {
      var filename := files[i];
      assert files[..i + 1] == files[..i] + [filename];
      CollectStep(files[..i], filename, f => ListedScores(f, contents, parse));
      FilterStep(files[..i], filename, f => EndsWith(f, JsonSuffix) && ExtractScores(contents(f), parse).None?);
      if EndsWith(filename, JsonSuffix) {
        var scores := ExtractScores(contents(filename), parse);
        if scores.Some? {
          jsonScores := jsonScores[filename := scores.value];
        } else {
          missingFiles := missingFiles + [filename];
        }
      }
    }
    assert files[..|files|] == files;
  }

  /**
   * Every listed `.json` name lands in exactly one of `json_scores` and
   * `missing_files`, other names in neither; scores are stored unchanged and
   * the missing list keeps the listing order.
   */
  lemma ExtractionPartition(files: seq<string>, contents: string -> Option<string>,
                            parse: string -> Option<Json>, f: string)
    ensures f in ScoredMap(files, contents, parse) <==>
      f in files && EndsWith(f, JsonSuffix) && ExtractScores(contents(f), parse).Some?
    ensures f in MissingFiles(files, contents, parse) <==>
      f in files && EndsWith(f, JsonSuffix) && ExtractScores(contents(f), parse).None?
    ensures f in ScoredMap(files, contents, parse) ==>
      ScoredMap(files, contents, parse)[f] == ExtractScores(contents(f), parse).value
    ensures f in files && EndsWith(f, JsonSuffix) ==>
      (f in ScoredMap(files, contents, parse) <==> f !in MissingFiles(files, contents, parse))
    ensures IsSubsequence(MissingFiles(files, contents, parse), files)
  {
    CollectMembers(files, f => ListedScores(f, contents, parse), f);
    FilterMembers(files, f => EndsWith(f, JsonSuffix) && ExtractScores(contents(f), parse).None?, f);
    FilterInOrder(files, f => EndsWith(f, JsonSuffix) && ExtractScores(contents(f), parse).None?);
  }

  // ---------------------------------------------------------------- annotations

  /** The three human averages of one audio file. */
  datatype Averages = Averages(accuracy: real, fluency: real, prosody: real)

  /** One CSV row, its three averages already converted by `float`. */
  datatype Row = Row(audio: string, averages: Averages)

  /** The `annotations` dict: its keys in insertion order and its entries. */
  datatype Annotations = Annotations(keys: seq<string>, entries: map<string, Averages>) {
    /** Keys are distinct and are exactly the entries' keys. */
    predicate Valid() {
      && (forall i, j :: 0 <= i < j < |keys| ==> keys[i] != keys[j])
      && (forall k :: k in keys ==> k in entries)
      && (forall k :: k in entries ==> k in keys)
    }
  }

  /** `annotations[audio] = averages`: a new key goes last, an old key keeps its place. */
  function Put(d: Annotations, audio: string, averages: Averages): (r: Annotations)
    requires d.Valid()
    ensures r.Valid()
    ensures r.entries == d.entries[audio := averages]
    ensures audio in d.entries ==> r.keys == d.keys
    ensures audio !in d.entries ==> r.keys == d.keys + [audio]
  {
    if audio in d.entries then
      Annotations(d.keys, d.entries[audio := averages])
    else
      var keys := d.keys + [audio];
      assert forall i, j :: 0 <= i < j < |keys| ==> keys[i] != keys[j] by {
        forall i, j | 0 <= i < j < |keys|
          ensures keys[i] != keys[j]
        {
          if j == |d.keys| { assert d.keys[i] in d.keys; }
        }
      }
      Annotations(keys, d.entries[audio := averages])
  }

  /** The dict after reading the given rows. */
  function Loaded(rows: seq<Row>): (r: Annotations)
    ensures r.Valid()
  {
    if rows == [] then Annotations([], map[])
    else
      var r := rows[|rows| - 1];
      Put(Loaded(rows[..|rows| - 1]), r.audio, r.averages)
  }

  /** The loop over the CSV rows. */
  method LoadAnnotations(rows: seq<Row>) returns (annotations: Annotations)
    ensures annotations == Loaded(rows)
  {
    annotations := Annotations([], map[]);
    for i := 0 to |rows|
      invariant annotations == Loaded(rows[..i])
    {
      var row := rows[i];
      assert rows[..i + 1][..i] == rows[..i];
      annotations := Put(annotations, row.audio, row.averages);
    }
    assert rows[..|rows|] == rows;
  }

  /** The loaded dict holds an entry for every audio name of the rows and for no other. */
  lemma {:induction false} LoadedKeys(rows: seq<Row>, audio: string)
    ensures audio in Loaded(rows).entries <==> exists i :: 0 <= i < |rows| && rows[i].audio == audio
  {
    if rows != [] {
      var init := rows[..|rows| - 1];
      LoadedKeys(init, audio);
      if exists i :: 0 <= i < |rows| && rows[i].audio == audio {
        var i :| 0 <= i < |rows| && rows[i].audio == audio;
        if i < |rows| - 1 { assert init[i] == rows[i]; }
      }
      if exists i :: 0 <= i < |init| && init[i].audio == audio {
        var i :| 0 <= i < |init| && init[i].audio == audio;
        assert rows[i] == init[i];
      }
    }
  }

  /** A repeated audio name keeps the averages of its last row. */
  lemma {:induction false} LoadedLastWins(rows: seq<Row>, i: nat)
    requires i < |rows|
    requires forall j :: i < j < |rows| ==> rows[j].audio != rows[i].audio
    ensures rows[i].audio in Loaded(rows).entries
    ensures Loaded(rows).entries[rows[i].audio] == rows[i].averages
  {
    if i < |rows| - 1 {
      var init := rows[..|rows| - 1];
      assert init[i] == rows[i];
      LoadedLastWins(init, i);
    }
  }

  /** Some row names `x` before any row names `y`. */
  ghost predicate AppearsBefore(rows: seq<Row>, x: string, y: string) {
    exists a :: 0 <= a < |rows| && rows[a].audio == x && forall b :: 0 <= b <= a ==> rows[b].audio != y
  }

  /**
   * The dict's keys list each audio name once, in the order of its first
   * row: of two keys, the earlier one appears in the rows before the later one.
   */
  lemma {:induction false} LoadedFirstAppearanceOrder(rows: seq<Row>)
    ensures forall i, j :: 0 <= i < j < |Loaded(rows).keys| ==>
      AppearsBefore(rows, Loaded(rows).keys[i], Loaded(rows).keys[j])
  {
    if rows != [] {
      var init, r := rows[..|rows| - 1], rows[|rows| - 1];
      assert rows == init + [r];
      var keys0 := Loaded(init).keys;
      var keys := Loaded(rows).keys;
      LoadedFirstAppearanceOrder(init);
      forall i, j | 0 <= i < j < |keys|
        ensures AppearsBefore(rows, keys[i], keys[j])
      {
        if j < |keys0| {
          assert keys[i] == keys0[i] && keys[j] == keys0[j];
          assert AppearsBefore(init, keys0[i], keys0[j]);
          var a :| 0 <= a < |init| && init[a].audio == keys0[i] &&
                   forall b :: 0 <= b <= a ==> init[b].audio != keys0[j];
          assert rows[a] == init[a];
          assert forall b :: 0 <= b <= a ==> rows[b] == init[b];
        } else {
          // A key added by the last row: that name is in no earlier row.
          assert r.audio !in Loaded(init).entries && keys == keys0 + [r.audio] && keys[j] == r.audio;
          LoadedKeys(init, r.audio);
          assert keys[i] == keys0[i] && keys0[i] in Loaded(init).entries;
          LoadedKeys(init, keys0[i]);
          var a :| 0 <= a < |init| && init[a].audio == keys0[i];
          assert rows[a] == init[a];
          assert forall b :: 0 <= b <= a ==> rows[b] == init[b];
        }
      }
    }
  }

  // ---------------------------------------------------------------- join

  /** The reply name an audio name is looked up under: every `.wav` removed, `.json` appended. */
  function JsonKey(audio: string): string {
    Replace(audio, WavSuffix, "") + JsonSuffix
  }

  /** `x.wav` is looked up as `x.json` when `.wav` occurs only at the end. */
  lemma JsonKeyOfWav(stem: string)
    requires forall k: nat :: k < |stem| ==> !OccursAt(stem + WavSuffix, WavSuffix, k)
    ensures JsonKey(stem + WavSuffix) == stem + JsonSuffix
  {
    ReplaceTrailing(stem, WavSuffix, "");
    assert stem + "" == stem;
  }

  /** An audio name without `.wav` is looked up as itself followed by `.json`. */
  lemma JsonKeyWithoutWav(audio: string)
    requires forall k: nat :: !OccursAt(audio, WavSuffix, k)
    ensures JsonKey(audio) == audio + JsonSuffix
  {
    ReplaceNoOccurrence(audio, WavSuffix, "");
  }

  /** One entry of `matched_pairs`. */
  datatype MatchedPair = MatchedPair(audio: string, json: Scores, annotation: Averages)

  /** `annotations.items()`: each key with its averages, in insertion order. */
  function Items(d: Annotations): seq<(string, Averages)>
    requires d.Valid()
  {
    seq(|d.keys|, i requires 0 <= i < |d.keys| => (d.keys[i], d.entries[d.keys[i]]))
  }

  /** One iteration of the join: a pair when the reply name of the item has scores. */
  function PairOf(item: (string, Averages), jsonScores: map<string, Scores>): Option<MatchedPair> {
    var jsonFile := JsonKey(item.0);
    if jsonFile in jsonScores then Some(MatchedPair(item.0, jsonScores[jsonFile], item.1)) else None
  }

  /** `matched_pairs` for the given items, in their order. */
  function Matches(items: seq<(string, Averages)>, jsonScores: map<string, Scores>): seq<MatchedPair> {
    FilterMap(items, item => PairOf(item, jsonScores))
  }

  /** The loop over `annotations.items()`. */
  method MatchPairs(annotations: Annotations, jsonScores: map<string, Scores>) returns (pairs: seq<MatchedPair>)
    requires annotations.Valid()
    ensures pairs == Matches(Items(annotations), jsonScores)
  {
    var items := Items(annotations);
    pairs := [];
    for i := 0 to |items|
      invariant pairs == Matches(items[..i], jsonScores)
    {
      var (audioFile, annoScores) := items[i];
      var jsonFile := JsonKey(audioFile);
      assert items[..i + 1] == items[..i] + [items[i]];
      FilterMapStep(items[..i], items[i], item => PairOf(item, jsonScores));
      if jsonFile in jsonScores {
        pairs := pairs + [MatchedPair(audioFile, jsonScores[jsonFile], annoScores)];
      }
    }
    assert items[..|items|] == items;
  }

  /**
   * The join holds a pair exactly for each annotated audio name whose reply
   * name has scores, carrying that reply's scores and that name's averages
   * unchanged; there are at most as many pairs as annotated names.
   */
  lemma MatchesMembers(d: Annotations, jsonScores: map<string, Scores>, p: MatchedPair)
    requires d.Valid()
    ensures p in Matches(Items(d), jsonScores) <==>
      p.audio in d.entries && JsonKey(p.audio) in jsonScores &&
      p.json == jsonScores[JsonKey(p.audio)] && p.annotation == d.entries[p.audio]
    ensures |Matches(Items(d), jsonScores)| <= |d.keys|
  {
    var items := Items(d);
    FilterMapMembers(items, item => PairOf(item, jsonScores), p);
    if p.audio in d.entries && JsonKey(p.audio) in jsonScores &&
       p.json == jsonScores[JsonKey(p.audio)] && p.annotation == d.entries[p.audio] {
      var i :| 0 <= i < |d.keys| && d.keys[i] == p.audio;
      assert items[i] in items && PairOf(items[i], jsonScores) == Some(p);
    }
  }

  /** The audio name of a pair, and the key of an item. */
  function AudioOf(p: MatchedPair): string { p.audio }
  function KeyOf(item: (string, Averages)): string { item.0 }

  /** The pairs follow the insertion order of the annotation dict. */
  lemma MatchesInOrder(d: Annotations, jsonScores: map<string, Scores>)
    requires d.Valid()
    ensures IsSubsequence(Map(Matches(Items(d), jsonScores), AudioOf), d.keys)
  {
    FilterMapInOrder(Items(d), item => PairOf(item, jsonScores), AudioOf, KeyOf);
    assert Map(Items(d), KeyOf) == d.keys;
  }

  /** With one annotation `x.wav` and one reply `x.json`, the join gives exactly one pair. */
  lemma OneMatchedPair(stem: string, averages: Averages, scores: Scores)
    requires forall k: nat :: k < |stem| ==> !OccursAt(stem + WavSuffix, WavSuffix, k)
    ensures Matches([(stem + WavSuffix, averages)], map[stem + JsonSuffix := scores]) ==
      [MatchedPair(stem + WavSuffix, scores, averages)]
  {
    JsonKeyOfWav(stem);
    var item := (stem + WavSuffix, averages);
    FilterMapStep([], item, item => PairOf(item, map[stem + JsonSuffix := scores]));
    assert [] + [item] == [item];
  }

  // ---------------------------------------------------------------- correlation

  /** The three scored dimensions. */
  datatype Dimension = Accuracy | Fluency | Prosody

  function JsonScore(s: Scores, d: Dimension): Json {
    match d
    case Accuracy => s.accuracy
    case Fluency => s.fluency
    case Prosody => s.prosody
  }

  function AnnotationAverage(a: Averages, d: Dimension): real {
    match d
    case Accuracy => a.accuracy
    case Fluency => a.fluency
    case Prosody => a.prosody
  }

  /** The two arrays handed to `pearsonr` for one dimension. */
  datatype Columns = Columns(json: seq<Json>, annotation: seq<real>)

  function Column(pairs: seq<MatchedPair>, d: Dimension): Columns {
    Columns(seq(|pairs|, i requires 0 <= i < |pairs| => JsonScore(pairs[i].json, d)),
            seq(|pairs|, i requires 0 <= i < |pairs| => AnnotationAverage(pairs[i].annotation, d)))
  }

  /** What the end of the script does with the matched pairs. */
  datatype Report =
    | NoMatches
    | InsufficientData
    | Correlate(accuracy: Columns, fluency: Columns, prosody: Columns)

  /** `if matched_pairs:` as written: any non-empty list goes to the correlation. */
  function ReportOf(pairs: seq<MatchedPair>): Report {
    if pairs == [] then NoMatches
    else Correlate(Column(pairs, Accuracy), Column(pairs, Fluency), Column(pairs, Prosody))
  }

  /**
   * The correlation is attempted exactly when there is a pair, on columns
   * that line up with the pairs.
   */
  lemma ReportOfCorrelatesPairs(pairs: seq<MatchedPair>, d: Dimension)
    ensures ReportOf(pairs).NoMatches? <==> pairs == []
    ensures ReportOf(pairs).Correlate? <==> pairs != []
    ensures ReportOf(pairs).Correlate? ==>
      var c := match d case Accuracy => ReportOf(pairs).accuracy
                       case Fluency => ReportOf(pairs).fluency
                       case Prosody => ReportOf(pairs).prosody;
      |c.json| == |c.annotation| == |pairs| &&
      forall i :: 0 <= i < |pairs| ==>
        c.json[i] == JsonScore(pairs[i].json, d) && c.annotation[i] == AnnotationAverage(pairs[i].annotation, d)
  {
  }

  /** As written, a single matched pair reaches the correlation with columns of length one. */
  lemma SinglePairReachesCorrelation(pair: MatchedPair)
    ensures ReportOf([pair]).Correlate?
    ensures |ReportOf([pair]).accuracy.json| == 1
  {
  }

  /** The guard the correlation needs: at least two pairs. */
  function GuardedReportOf(pairs: seq<MatchedPair>): Report {
    if pairs == [] then NoMatches
    else if |pairs| < 2 then InsufficientData
    else Correlate(Column(pairs, Accuracy), Column(pairs, Fluency), Column(pairs, Prosody))
  }

  /**
   * The guarded report correlates only columns of at least two values, and
   * otherwise agrees with the script.
   */
  lemma GuardedReportNeedsTwo(pairs: seq<MatchedPair>)
    ensures GuardedReportOf(pairs).Correlate? <==> |pairs| >= 2
    ensures GuardedReportOf(pairs).Correlate? ==>
      |GuardedReportOf(pairs).accuracy.json| >= 2 && |GuardedReportOf(pairs).fluency.json| >= 2 &&
      |GuardedReportOf(pairs).prosody.json| >= 2
    ensures |pairs| != 1 ==> GuardedReportOf(pairs) == ReportOf(pairs)
  {
  }

  /** The whole scorer as written: load, extract, join, and correlate any non-empty join. */
  method Score(rows: seq<Row>, files: seq<string>, contents: string -> Option<string>,
               parse: string -> Option<Json>) returns (report: Report)
    ensures report == ReportOf(Matches(Items(Loaded(rows)), ScoredMap(files, contents, parse)))
  {
    var annotations := LoadAnnotations(rows);
    var jsonScores, missingFiles := ExtractAll(files, contents, parse);
    var matchedPairs := MatchPairs(annotations, jsonScores);
    report := ReportOf(matchedPairs);
  }

  /** The whole scorer with the correlation guarded by the two-pair minimum. */
  method ScoreGuarded(rows: seq<Row>, files: seq<string>, contents: string -> Option<string>,
                      parse: string -> Option<Json>) returns (report: Report)
    ensures report == GuardedReportOf(Matches(Items(Loaded(rows)), ScoredMap(files, contents, parse)))
  {
    var annotations := LoadAnnotations(rows);
    var jsonScores, missingFiles := ExtractAll(files, contents, parse);
    var matchedPairs := MatchPairs(annotations, jsonScores);
    report := GuardedReportOf(matchedPairs);
  }
}
