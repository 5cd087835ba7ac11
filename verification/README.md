# MultiPA Gemini scoring scripts in Dafny

This project models the two scripts of MultiPA's language-model scoring workflow.

- **Collector** (`MultiPA/Code/GeminiToBI.py`). It walks a tree of ToBI `*_result.TextGrid` annotation files. It skips every file whose `<base>.json` reply already exists in the output directory. It sends each remaining file to the Gemini model and writes the reply to the output directory under the input's basename with `_result.TextGrid` replaced by `.json` (that is `<base>.json` when the suffix occurs only at the end of the name): the parsed JSON when the reply parses, and `{"response": <text>}` otherwise.
- **Scorer** (`MultiPA/Code/GeminivAnnotations.py`). It reads a CSV table of human averages per audio file. For each stored reply it takes the first fenced block `` ```json\n … \n``` ``, parses it, and keeps the file's three `score` values only when all three are present. It joins the two on `audio.replace('.wav', '') + '.json'` and hands the matched columns to a Pearson correlation.

## Modules

- `Wrappers`: the `Option` datatype.
- `Strings`: Python's `str.endswith` and `str.replace`, and the left-to-right search underneath both the regular expression and `replace`.
- `Paths`: POSIX `os.path.basename`, two-argument `os.path.join` and `os.path.splitext`, with `/` as `os.sep`.
- `JsonValues`: JSON values as a datatype.
- `Seqs`: the list and dict shapes the loops build, each with its lemmas:
  - a filter (`[x for x in xs if keep(x)]`);
  - a filter that also transforms;
  - a dict filled key by key;
  - order-preserving sublists.
- `Collector`: the collector. `get_file_list` and the main loop are methods whose loops carry invariants against specification functions. The list comprehensions are functions.
- `Scorer`: the scorer. Its three loops are methods proved against specification functions:
  - the CSV loop;
  - the `os.listdir` loop;
  - the join over `annotations.items()`.

  `Score` composes them into the script as written. `ScoreGuarded` is the same pipeline with the correlation guard from "## Findings".

  The per-file extraction is a pure function. The `annotations` dict is a datatype of keys in insertion order plus entries, so Python's ordering rule (reassigning a key keeps its place) is explicit.
- `Pipeline`: lemmas that follow a reply from the collector into the scorer.

Everything the scripts get from outside is a parameter of the model:

- `os.walk` is a sequence of `WalkEntry(subdir, dirs, files)`.
- `os.listdir` is a sequence of names.
- Reading a file is `contents: string -> Option<string>`.
- `json.loads` is `parse: string -> Option<Json>`, with None for a decode error.
- Reading a TextGrid plus the Gemini call is `respond: string -> Option<string>`, with None for any exception on the way.
- The CSV rows arrive as `Row(audio, Averages(...))`, already converted by `float`.

## Model

| member | source | states |
|---|---|---|
| Strings.EndsWith | MultiPA/Code/GeminiToBI.py:26 | `endswith` holds exactly when the string is its own head followed by the suffix |
| Strings.FindIsFirst | MultiPA/Code/GeminivAnnotations.py:37 | the search finds an occurrence at or before any occurrence after the start, so it never skips the first one |
| Strings.Find | MultiPA/Code/GeminivAnnotations.py:37 | the left-to-right search under the regular expression and `replace`; its result is an occurrence at or after the start, and `Strings.FindIsFirst` shows it is the first |
| Strings.Replace | MultiPA/Code/GeminiToBI.py:53 | `str.replace`, also used at GeminiToBI.py:58 and :76 and GeminivAnnotations.py:70; its behaviour is stated by `ReplaceFirstOccurrence`, `ReplaceTrailing`, `ReplaceTwoOccurrences`, `ReplaceNoOccurrence` and `ReplaceAvoids` |
| Strings.ReplaceFirstOccurrence | MultiPA/Code/GeminiToBI.py:58 | `replace` rewrites the first occurrence wherever it stands, then resumes after it |
| Strings.ReplaceTrailing | MultiPA/Code/GeminiToBI.py:76 | a name ending in the pattern, with no earlier occurrence, becomes its stem followed by the replacement |
| Strings.ReplaceTwoOccurrences | MultiPA/Code/GeminiToBI.py:53 | both occurrences in `x + pat + y + pat` are replaced, not only the last |
| Strings.ReplaceNoOccurrence | MultiPA/Code/GeminivAnnotations.py:70 | `replace` changes nothing when the pattern does not occur |
| Strings.ReplaceAvoids | MultiPA/Code/GeminiToBI.py:76 | a character absent from both the text and the replacement is absent from the result |
| Paths.Basename | MultiPA/Code/GeminiToBI.py:53 | `basename` is a tail of the path with no `/` in it |
| Paths.BasenameIsLongest | MultiPA/Code/GeminiToBI.py:53 | the basename is the longest such tail: the character before it is `/` |
| Paths.BasenameOfName | MultiPA/Code/GeminiToBI.py:25 | a plain name is its own basename, and so is `subdir + os.sep + name` |
| Paths.LastIndexOf | MultiPA/Code/GeminiToBI.py:53 | the last index of a character (`rfind`) under `basename` and `splitext`: -1 or an index holding it, with none after |
| Paths.Join | MultiPA/Code/GeminiToBI.py:74-77 | two-argument `os.path.join`; `Paths.JoinBasename` states its effect on the basename |
| Paths.JoinBasename | MultiPA/Code/GeminiToBI.py:74-77 | joining a plain name onto any directory gives a path whose basename is that name |
| Paths.SplitExt | MultiPA/Code/GeminiToBI.py:54 | `splitext` cuts the path into root and extension; the extension is empty or a dot followed by neither dot nor `/` |
| Paths.SplitExtOfDotsOnly | MultiPA/Code/GeminiToBI.py:54 | a name whose part before its last dot is all dots has no extension and is left whole |
| Paths.SplitExtOfName | MultiPA/Code/GeminiToBI.py:54 | `<stem>.<ext>` splits into `<stem>` and `.<ext>` when the stem is not all dots |
| Collector.GetFileList | MultiPA/Code/GeminiToBI.py:21-28 | the nested loops return the walk's `subdir/file` paths that end with the suffix, in walk order |
| Collector.FileListIsFilteredWalk | MultiPA/Code/GeminiToBI.py:21-28 | a path is listed iff some directory of the walk holds a file giving it and it ends with the suffix; the list keeps walk order |
| Collector.SourceBaseDropsEveryOccurrence | MultiPA/Code/GeminiToBI.py:53 | every `_result.TextGrid` is removed from the base, including one in the middle of the name |
| Collector.SourceBase | MultiPA/Code/GeminiToBI.py:53 | the base of an input (also at line 58); stated by `SourceBaseDropsEveryOccurrence`, `WellNamedReplace` and `SkipIsIdempotent` |
| Collector.OutputBase | MultiPA/Code/GeminiToBI.py:54 | the base of an output file; stated by `OutputBaseOfJsonName` and `SkipIsIdempotent` |
| Collector.FileBases | MultiPA/Code/GeminiToBI.py:53 | `file_bases`, the source bases of the listed inputs; stated by `PendingBases` |
| Collector.OutputBases | MultiPA/Code/GeminiToBI.py:54 | `output_bases`, the bases of the listed outputs; stated by `PendingMembers` and `RerunSkips` |
| Collector.Pending | MultiPA/Code/GeminiToBI.py:57-59 | `filtered_files`; stated by `PendingMembers`, `PendingIsSublist` and `PendingBases` |
| Collector.OutputPath | MultiPA/Code/GeminiToBI.py:74-77 | `output_path`; stated by `OutputPathName` and `SkipIsIdempotent` |
| Collector.Stored | MultiPA/Code/GeminiToBI.py:83-88 | `json_data`; stated by `StoredReply` |
| Collector.Writes | MultiPA/Code/GeminiToBI.py:65-96 | the writes of the main loop; stated by `WritesInOrder` and `WritesPerFile`, and the loop is `ProcessPending` |
| Collector.PendingMembers | MultiPA/Code/GeminiToBI.py:57-59 | a file is pending iff it is listed and its base is not among the output bases |
| Collector.PendingIsSublist | MultiPA/Code/GeminiToBI.py:57-63 | the pending list is an order-preserving sublist of the file list, no longer than it, and is all of it when there are no outputs |
| Collector.PendingBases | MultiPA/Code/GeminiToBI.py:53-58 | a pending file's base is in `file_bases` and not in `output_bases` |
| Collector.OutputPathName | MultiPA/Code/GeminiToBI.py:74-77 | the written file's basename is the input's basename with the suffix renamed to `.json` |
| Collector.WellNamedReplace | MultiPA/Code/GeminiToBI.py:58 | in a name whose only occurrence of the suffix is the trailing one, `replace` swaps just that suffix |
| Collector.OutputBaseOfDotsJsonName | MultiPA/Code/GeminiToBI.py:54 | an output file `<dots>.json` keeps its whole name as base, since `splitext` finds no extension |
| Collector.OutputBaseOfJsonName | MultiPA/Code/GeminiToBI.py:54 | an output file `<stem>.json` has base `<stem>` unless the stem is all dots |
| Collector.SkipIsIdempotent | MultiPA/Code/GeminiToBI.py:54-58 | for a well-named input, the base of the file it is written to equals its own base |
| Collector.RerunSkips | MultiPA/Code/GeminiToBI.py:51-59 | once an input's output file is listed, a re-run does not select that input |
| Collector.StoredReply | MultiPA/Code/GeminiToBI.py:83-88 | a reply that parses is stored as parsed; otherwise it is stored whole as the one field `response` |
| Collector.ProcessPending | MultiPA/Code/GeminiToBI.py:65-96 | the main loop writes, in order, one file per pending input whose call succeeded, to its output path, holding the stored reply |
| Collector.WritesInOrder | MultiPA/Code/GeminiToBI.py:65-96 | the writes are exactly one per pending input whose call succeeded, in pending order: the i-th write goes to the i-th such input's output path and holds its stored reply |
| Collector.OneOfTwoDone | MultiPA/Code/GeminiToBI.py:51-96 | with two listed inputs of which one already has its output, the run leaves one input pending and writes exactly one file, that input's |
| Collector.WritesPerFile | MultiPA/Code/GeminiToBI.py:65-96 | a write happens iff some pending input's call succeeded and the write is that input's; there are no more writes than pending inputs |
| Collector.Run | MultiPA/Code/GeminiToBI.py:45-96 | the script lists inputs and outputs, keeps the pending inputs and writes their replies |
| Collector.OutputPathIsListed | MultiPA/Code/GeminiToBI.py:51 | a well-named input is written to a path ending in `.json`, so the next listing of outputs picks it up |
| Collector.RerunCoversFile | MultiPA/Code/GeminiToBI.py:51-92 | after a run, every well-named listed input whose call succeeded, or that was skipped, has its base among the `.json` outputs the next run lists |
| Collector.RerunAfterSuccess | MultiPA/Code/GeminiToBI.py:51-92 | if every input is well named and every call succeeds, a second run, listing the `.json` outputs again, finds nothing pending |
| Scorer.FindFence | MultiPA/Code/GeminivAnnotations.py:37-39 | the regular-expression search and `group(1)`; stated by `FindFenceIsLeftmostShortest` and `FindFenceOfFenced` |
| Scorer.FindFenceIsLeftmostShortest | MultiPA/Code/GeminivAnnotations.py:37-39 | the block is found iff the pattern matches somewhere; it is the group of the match that starts first and, among those, ends first |
| Scorer.FindFenceOfFenced | MultiPA/Code/GeminivAnnotations.py:37-39 | a block fenced once is returned exactly, even when it is empty or holds newlines |
| Scorer.ScoreOf | MultiPA/Code/GeminivAnnotations.py:42-44 | the `.get(dimension, {}).get('score', None)` chain; stated by `ScoresNeedAllThree` |
| Scorer.ScoresOfText | MultiPA/Code/GeminivAnnotations.py:37-46 | the fenced block of a reply text, parsed, with three scores; stated by `ScoresNeedAllThree` and `FencedScoresExtracted` |
| Scorer.ScoresOfDocument | MultiPA/Code/GeminivAnnotations.py:34-37 | the scores of a stored document, read from its string `response`; stated by `Pipeline.ParsedReplyIsMissing` and `Pipeline.FallbackReplyIsRead` |
| Scorer.ScoresNeedAllThree | MultiPA/Code/GeminivAnnotations.py:37-56 | a reply yields scores iff its block parses to an object with non-null Accuracy, Fluency and Prosody scores; a reply without a block yields none; the scores are the values unchanged |
| Scorer.FencedScoresExtracted | MultiPA/Code/GeminivAnnotations.py:37-51 | a reply fencing an object with three scores gives back exactly those three values |
| Scorer.ExtractScores | MultiPA/Code/GeminivAnnotations.py:32-59 | the try block for one file; stated by `ScoresNeedAllThree`, `FencedScoresExtracted` and `ExtractionPartition` |
| Scorer.ExtractScoresFixed | MultiPA/Code/GeminivAnnotations.py:33-37 | the corrected reading of the second row of "## Findings": a stored document without a `response` text is read as the scores object itself |
| Scorer.ExtractScoresFixedExtends | MultiPA/Code/GeminivAnnotations.py:33-51 | the corrected reading scores every file the script scores, with the same scores, and adds only documents without a `response` text |
| Scorer.ExtractAll | MultiPA/Code/GeminivAnnotations.py:26-59 | the loop over the listed names builds `json_scores` and `missing_files` as their specification functions |
| Scorer.ScoredMap | MultiPA/Code/GeminivAnnotations.py:26-59 | `json_scores` after the loop; stated by `ExtractionPartition` |
| Scorer.MissingFiles | MultiPA/Code/GeminivAnnotations.py:27-59 | `missing_files` after the loop; stated by `ExtractionPartition` |
| Scorer.ExtractionPartition | MultiPA/Code/GeminivAnnotations.py:29-59 | each listed `.json` name lands in exactly one of `json_scores` and `missing_files`, other names in neither; scores are stored unchanged; the missing list keeps listing order |
| Scorer.Put | MultiPA/Code/GeminivAnnotations.py:18-22 | assigning a key keeps the dict well formed, a new key goes last and an existing key keeps its place |
| Scorer.Loaded | MultiPA/Code/GeminivAnnotations.py:13-22 | the dict after the rows is well formed: distinct keys, exactly the entries' keys |
| Scorer.LoadAnnotations | MultiPA/Code/GeminivAnnotations.py:13-22 | the CSV loop builds the dict as its specification function |
| Scorer.LoadedKeys | MultiPA/Code/GeminivAnnotations.py:16-18 | the dict has an entry for an audio name iff some row has that name |
| Scorer.LoadedLastWins | MultiPA/Code/GeminivAnnotations.py:18-22 | a repeated audio name keeps the averages of its last row |
| Scorer.LoadedFirstAppearanceOrder | MultiPA/Code/GeminivAnnotations.py:16-18 | the dict's keys follow the rows: of two keys, the earlier one is named by a row before any row naming the later one |
| Scorer.JsonKey | MultiPA/Code/GeminivAnnotations.py:70-71 | `json_file` for an audio name; stated by `JsonKeyOfWav`, `JsonKeyWithoutWav` and `Pipeline.NamesAgree` |
| Scorer.JsonKeyOfWav | MultiPA/Code/GeminivAnnotations.py:70-71 | `<stem>.wav` is looked up as `<stem>.json` when `.wav` occurs only at the end |
| Scorer.JsonKeyWithoutWav | MultiPA/Code/GeminivAnnotations.py:70-71 | a name without `.wav` is looked up as itself followed by `.json` |
| Scorer.MatchPairs | MultiPA/Code/GeminivAnnotations.py:66-82 | the loop over `annotations.items()` builds `matched_pairs` as its specification function |
| Scorer.Matches | MultiPA/Code/GeminivAnnotations.py:66-82 | `matched_pairs`; stated by `MatchesMembers`, `MatchesInOrder` and `OneMatchedPair`, and the loop is `MatchPairs` |
| Scorer.MatchesMembers | MultiPA/Code/GeminivAnnotations.py:68-82 | a pair exists iff the audio name is annotated and its reply name has scores, and it carries those scores and averages unchanged; there are at most as many pairs as annotations |
| Scorer.MatchesInOrder | MultiPA/Code/GeminivAnnotations.py:68 | the pairs follow the insertion order of the annotations |
| Scorer.OneMatchedPair | MultiPA/Code/GeminivAnnotations.py:68-82 | one annotation `x.wav` and one reply `x.json` give exactly one pair |
| Scorer.ReportOf | MultiPA/Code/GeminivAnnotations.py:86-106 | the end of the script as written; stated by `ReportOfCorrelatesPairs` and `SinglePairReachesCorrelation` |
| Scorer.GuardedReportOf | MultiPA/Code/GeminivAnnotations.py:86-106 | the corrected guard of "## Findings"; stated by `GuardedReportNeedsTwo` |
| Scorer.Column | MultiPA/Code/GeminivAnnotations.py:88-94 | the two `np.array` columns of one dimension; stated by `ReportOfCorrelatesPairs` |
| Scorer.ReportOfCorrelatesPairs | MultiPA/Code/GeminivAnnotations.py:86-106 | as written, correlation runs iff there is a pair, on columns that line up with the pairs; otherwise the no-match branch runs |
| Scorer.SinglePairReachesCorrelation | MultiPA/Code/GeminivAnnotations.py:86-99 | as written, a single pair reaches `pearsonr` with columns of length one |
| Scorer.GuardedReportNeedsTwo | MultiPA/Code/GeminivAnnotations.py:86-106 | the guarded report correlates only with at least two pairs, and otherwise agrees with the script |
| Scorer.Score | MultiPA/Code/GeminivAnnotations.py:12-106 | the whole scorer as written: the report (no match, or correlation of any non-empty join) of the loaded annotations joined with the extracted scores |
| Scorer.ScoreGuarded | MultiPA/Code/GeminivAnnotations.py:12-106 | the same pipeline with the corrected guard of "## Findings": correlation only from two matched pairs on |
| Pipeline.FallbackReplyIsRead | MultiPA/Code/GeminivAnnotations.py:33-37 | a reply stored as `{"response": text}` is read back as exactly the scores in `text` |
| Pipeline.ParsedReplyIsMissing | MultiPA/Code/GeminiToBI.py:83-85 | a reply that is itself JSON without a string `response` makes the scorer count the file as missing |
| Pipeline.BareReplyLosesScores | MultiPA/Code/GeminiToBI.py:12-18 | as written, a reply in the prompt's bare-JSON format with all three scores is stored as that object and counted as missing |
| Pipeline.BareReplyIsScoredWhenFixed | MultiPA/Code/GeminivAnnotations.py:33-51 | with the corrected reading, that reply yields exactly its three scores |
| Pipeline.NamesAgree | MultiPA/Code/GeminiToBI.py:74-77 | the file written for `<stem>_result.TextGrid` is the one looked up for audio `<stem>.wav` |
| Pipeline.WrittenReplyIsScored | MultiPA/Code/GeminivAnnotations.py:29-59 | a written fallback reply, once listed, is scored iff its text holds the three scores, and missing otherwise |

## Left out

- The Gemini client and `generate_content` are a remote service. A reply, or the failure to get one, is the parameter `respond`. This includes a reply whose `.text` is None, since `json.loads(None)` raises TypeError and is caught by the outer handler.
- File-system effects are left out: `os.makedirs`, writing the files, and a write that fails or stops half-way. The model records the sequence of intended writes.
- `csv.DictReader`, `float()`, and a missing CSV column are left out; each of those ends the script with an exception. The rows are given.
- `json.load`/`json.loads`/`json.dump` internals are left out. Parsing is the parameter `parse`. Whether a dumped value reads back unchanged is an explicit precondition of the `Pipeline` lemmas.
- `numpy` and `scipy.stats.pearsonr` are floating-point code in a foreign library. The model stops at the pair of columns handed to `pearsonr`. It does not model the zero-variance case: constant columns make `pearsonr` return NaN with a warning.
- The `print` output is left out, including the three counts printed after the listing and the per-file error messages.
- The order of `os.walk` and of `os.listdir` is given by the input sequences.
- Scorer.ScoreOf: None stands for a missing dimension, a missing or null `score`, and the AttributeError raised when a dimension is not an object. All three send the file to `missing_files`, so they are not told apart.
- Scorer.ExtractScores: None stands for an unreadable file, a file that does not parse, a missing or non-string `response`, a reply without a fenced block, and a block that does not parse. All of them end in `missing_files`.
- Collector.SkipIsIdempotent: proved only for a basename whose only `_result.TextGrid` is the trailing one and whose stem is not all dots. For other names the written file's base differs from the source base (`SourceBaseDropsEveryOccurrence`, `OutputBaseOfDotsJsonName`), and the file is sent again on every run.
- Collector.FileBases: `file_bases` is computed by the script but never read. It appears only in `PendingBases`.
- Scorer.Score and Scorer.ScoreGuarded keep the script's per-file extraction `ExtractScores`. The corrected reading of bare replies, `ExtractScoresFixed`, is stated per file by `ExtractScoresFixedExtends` and `Pipeline.BareReplyIsScoredWhenFixed` and is not threaded through the `missing_files` loop.
- Two inputs with the same basename in different sub-directories write to the same output file. The model's write list shows both writes but not the overwrite.

## Findings

The correlation is only defined for at least two pairs, and constant columns should also count as too little data. The script guards only against an empty list (`if matched_pairs:`), so the model follows the code. The zero-variance half is not modelled.

| source | as written | input that shows it | evidently intended | confidence | as-written member | corrected member |
|---|---|---|---|---|---|---|
| MultiPA/Code/GeminivAnnotations.py:86-99 | `if matched_pairs:` lets a single matched pair reach `pearsonr`, which raises ValueError for columns shorter than two | one CSV row for `a.wav` and one reply `a.json` with three scores | report that there is too little data when fewer than two pairs match | not executed | Scorer.SinglePairReachesCorrelation | Scorer.GuardedReportNeedsTwo |
| MultiPA/Code/GeminiToBI.py:83-85 | the prompt (lines 12-18) asks for a bare JSON object; a reply that complies parses and is stored as that object, and the scorer's `json_content['response']` (GeminivAnnotations.py:37) then raises KeyError, so the file lands in `missing_files` | a reply `{"Accuracy": {"score": 4}, "Fluency": {"score": 3}, "Prosody": {"score": 5}}` | a stored object without a `response` text is read as the scores themselves | not executed | Pipeline.BareReplyLosesScores | Pipeline.BareReplyIsScoredWhenFixed |
