/**
 * The two scripts together: the collector writes one `.json` file per
 * annotation file, and the scorer reads those files back. The lemmas here
 * follow a reply from the first script into the second.
 */
module Pipeline {
  import opened Wrappers
  import opened Strings
  import opened Paths
  import opened JsonValues
  import opened Seqs
  import C = Collector
  import S = Scorer

  /**
   * A reply that is not JSON is stored as `{"response": text}`, and the
   * scorer reads that text back: it finds in the stored file exactly the
   * scores the reply holds. `parse(content) == Some(...)` says that the file
   * reads back as what was dumped.
   */
  lemma FallbackReplyIsRead(text: string, content: string, parse: string -> Option<Json>)
    requires parse(text).None?
    requires parse(content) == Some(C.Stored(text, parse))
    ensures S.ExtractScores(Some(content), parse) == S.ScoresOfText(text, parse)
  {
    C.StoredReply(text, parse);
  }

  /**
   * A reply that is itself JSON is stored as it is; unless it happens to be
   * an object with a string `response`, the scorer counts the file as
   * missing.
   */
  lemma ParsedReplyIsMissing(text: string, content: string, parse: string -> Option<Json>, doc: Json)
    requires parse(text) == Some(doc)
    requires !(doc.JObject? && "response" in doc.fields && doc.fields["response"].JString?)
    requires parse(content) == Some(C.Stored(text, parse))
    ensures S.ExtractScores(Some(content), parse) == None
  {
  }

  /**
   * As written, a reply in the very format the prompt asks for (a bare JSON
   * object with the three scores) is stored as that object and then counted
   * as missing, although its scores are all there.
   */
  lemma BareReplyLosesScores(text: string, content: string, parse: string -> Option<Json>, m: map<string, Json>)
    requires parse(text) == Some(JObject(m)) && "response" !in m
    requires S.HasScore(m, "Accuracy") && S.HasScore(m, "Fluency") && S.HasScore(m, "Prosody")
    requires parse(content) == Some(C.Stored(text, parse))
    ensures S.ExtractScores(Some(content), parse) == None
    ensures S.ScoresOfInner(JObject(m)).Some?
  {
    ParsedReplyIsMissing(text, content, parse, JObject(m));
  }

  /** With the corrected reading, the same reply yields exactly its three scores. */
  lemma BareReplyIsScoredWhenFixed(text: string, content: string, parse: string -> Option<Json>, m: map<string, Json>)
    requires parse(text) == Some(JObject(m)) && "response" !in m
    requires S.HasScore(m, "Accuracy") && S.HasScore(m, "Fluency") && S.HasScore(m, "Prosody")
    requires parse(content) == Some(C.Stored(text, parse))
    ensures S.ExtractScoresFixed(Some(content), parse) ==
      Some(S.Scores(m["Accuracy"].fields["score"], m["Fluency"].fields["score"], m["Prosody"].fields["score"]))
  {
    C.StoredReply(text, parse);
  }

  /**
   * The names agree: the file the collector writes for `<stem>_result.TextGrid`
   * is the one the scorer looks up for the audio `<stem>.wav`.
   */
  lemma NamesAgree(outputDir: string, filepath: string, stem: string)
    requires Basename(filepath) == stem + C.ResultSuffix && C.WellNamed(Basename(filepath))
    requires forall k: nat :: k < |stem| ==> !OccursAt(stem + S.WavSuffix, S.WavSuffix, k)
    ensures Basename(C.OutputPath(outputDir, filepath)) == S.JsonKey(stem + S.WavSuffix)
  {
    C.WellNamedReplace(Basename(filepath), JsonSuffix);
    C.OutputPathName(outputDir, filepath);
    S.JsonKeyOfWav(stem);
  }

  /**
   * A file the collector writes from a non-JSON reply, once listed in the
   * reply directory, ends up in `json_scores` exactly when the reply holds
   * the three scores, and in `missing_files` otherwise.
   */
  lemma WrittenReplyIsScored(outputDir: string, filepath: string, text: string, files: seq<string>,
                             contents: string -> Option<string>, parse: string -> Option<Json>)
    requires C.WellNamed(Basename(filepath))
    requires parse(text).None?
    requires Basename(C.OutputPath(outputDir, filepath)) in files
    requires contents(Basename(C.OutputPath(outputDir, filepath))).Some?
    requires parse(contents(Basename(C.OutputPath(outputDir, filepath))).value) == Some(C.Stored(text, parse))
    ensures
      var name := Basename(C.OutputPath(outputDir, filepath));
      (name in S.ScoredMap(files, contents, parse) <==> S.ScoresOfText(text, parse).Some?) &&
      (name in S.MissingFiles(files, contents, parse) <==> S.ScoresOfText(text, parse).None?)
  {
    var name := Basename(C.OutputPath(outputDir, filepath));
    var stem := C.Stem(Basename(filepath));
    C.WellNamedReplace(Basename(filepath), JsonSuffix);
    C.OutputPathName(outputDir, filepath);
    assert name == stem + JsonSuffix;
    EndsWithConcat(stem, JsonSuffix);
    FallbackReplyIsRead(text, contents(name).value, parse);
    S.ExtractionPartition(files, contents, parse, name);
  }
}
