# News classifier service, modelled in Dafny

This project models the sequential logic of a small text-classification
service and its two driver scripts:

- **The service** (`main.py`). It holds an in-memory registry from model
  identifier to the relative path `models/model_<id>.bin` that `os.path.join`
  produces. `train` admits a request only if it has at
  least 20,000 positive documents and at least as many negatives as
  positives. It then writes a label-prefixed training corpus (all positives,
  then all negatives), trains and saves a model as `models/model_<id>.bin`,
  deletes the corpus and registers the identifier. `score` derives the model
  file from the identifier, fails with 500 if that file is missing, and
  otherwise returns one scored sample per input, in input order. Each result
  carries the predictor's first label, or `"unknown"`, and its first
  probability, or `0.0`.
  Module `Service`: a class `ClassifierService` with the registry (a `map`),
  the set of stored file names and the corpus lines. `Train` and `Score` are
  methods. The admission rule, the corpus layout and the per-sample result
  are functions.
- **The text normaliser** (`utils.py`). It applies NFKD, turns no-break
  spaces into spaces, collapses whitespace runs and trims the ends. Module
  `TextNormalizer`: pure functions, with the decomposition as a parameter and
  whitespace as Python's `str.isspace` set written out. The lemmas prove the
  result's shape, that it keeps the non-whitespace characters in order, that
  it is idempotent, and that it equals Python's `" ".join(text.split())`.
- **The driver scripts** (`train.py`, `score.py`). Modules `Sampling` (the
  two collection loops both scripts run, as methods with `while` loops and
  `break`), `TrainDriver` (the argument check and default negative count)
  and `ScoreDriver` (the `.bin` listing, the menu bounds check, the
  identifier extraction with Python's `str.replace`, the request payload and
  the 50-character preview). A record stream is a finite `seq`. The
  directory listing, the prompt reply and `int()` are parameters.

Module `Wrappers` holds the `Option` type shared by the other modules.

## Model

| member | source | states |
|---|---|---|
| `TextNormalizer.NormalizeAndCleanText` | utils.py:6-7 | result has no leading or trailing whitespace; every whitespace character in it is a single `' '` (none adjacent); no U+00A0; its non-whitespace characters are those of the decomposed input, in order; it is no longer than the decomposed input; it equals `" ".join(decomposed.split())` |
| `TextNormalizer.Clean` | utils.py:7 | the same properties for the stages after the decomposition: NBSP replacement, whitespace collapse, strip |
| `TextNormalizer.CollapseShape` | utils.py:7 | `re.sub(r'\s+', ' ', s)` leaves no whitespace but single `' '` characters, keeps the non-whitespace characters in order and does not lengthen the text |
| `TextNormalizer.StripLeadingFacts` | utils.py:7 | the leading part of `strip()` removes exactly the longest whitespace prefix |
| `TextNormalizer.StripTrailingFacts` | utils.py:7 | the trailing part of `strip()` removes exactly the longest whitespace suffix |
| `TextNormalizer.StripShape` | utils.py:7 | stripping a collapsed string leaves no edge whitespace and keeps its non-whitespace characters and single spacing |
| `TextNormalizer.CleanIdempotent` | utils.py:7 | cleaning already-cleaned text returns it unchanged |
| `TextNormalizer.NormalizeAndCleanTextIdempotent` | utils.py:6-7 | normalising the normaliser's own output returns it unchanged |
| `TextNormalizer.CleanEmptyIffAllSpace` | utils.py:7 | the result is empty exactly when the input is empty or all whitespace |
| `TextNormalizer.ChainIsJoinOfSplit` | utils.py:7 | NBSP replacement, collapse and strip together equal `" ".join(s.split())` |
| `TextNormalizer.CollapseSameUpToSpace` | utils.py:7 | collapsing depends only on where the whitespace is, not which whitespace it is (so the NBSP replacement never changes the outcome) |
| `Service.AdmissionError` | main.py:26-32 | a training request is admitted iff positives ≥ 20000 and negatives ≥ positives; every rejection is status 400; fewer than 20000 positives gives "Minimum 20,000 positive samples required." whatever the negatives; otherwise too few negatives gives the message naming the positive count |
| `Service.NegativeShortfallNamesCount` | main.py:29-32 | the negative-count message is "Negative samples must be at least " followed by the positive count in decimal and "." |
| `Service.AdmissionExamples` | main.py:26-32 | 20000/20000 is admitted; 19999 positives is rejected with the minimum message; 20000/10000 is rejected with "Negative samples must be at least 20000." |
| `Service.NatToStringRoundTrip` | main.py:32 | the decimal rendering of the count reads back as the count |
| `Service.CorpusLines` | main.py:35-39 | the corpus has one line per document: line i is `__label__positive <pos[i]>` and line \|pos\|+j is `__label__negative <neg[j]>`, each newline-terminated |
| `Service.LabelledLines` | main.py:36-39 | one loop's lines: one per sample, in order, each with the loop's label prefix |
| `Service.ScoreSample` | main.py:64-70 | a result keeps its sample; its label is the first predicted label or "unknown" when there is none; its confidence is the first probability or 0.0 when there is none |
| `Service.TrainingFileIsNoModelFile` | main.py:34-47 | no training corpus path equals a model path, so deleting the corpus never deletes a model |
| `Service.ModelFilePathInjective` | main.py:55 | the model path determines the identifier |
| `Service.ClassifierService.constructor` | main.py:11-14 | a process starts with an empty registry while earlier model files remain stored |
| `Service.ClassifierService.Train` | main.py:24-51 | rejection iff the admission rule rejects, with its error, and then registry, files and corpus are unchanged; on success it returns the given id, the registry gains exactly id ↦ `models/model_<id>.bin` with every other entry unchanged, the model file is added, the training file is gone, and the corpus written was `CorpusLines(pos, neg)`; the registry invariant is kept |
| `Service.ClassifierService.Score` | main.py:53-72 | fails with 500 "Specified model not found." iff `models/model_<id>.bin` is not stored, whatever the registry holds; otherwise returns one result per sample, in input order, result i being `ScoreSample(samples[i], prediction of that file for samples[i])`; changes nothing |
| `Service.RegisteredIsScorable` | main.py:49-58 | under the registry invariant, a registered identifier is always accepted by scoring, with one result per sample computed from the registered model file |
| `Service.TrainThenScore` | main.py:41-58 | an admitted request's identifier is then accepted by scoring, with one result per sample; a rejected request leaves registry and files as they were |
| `Sampling.CollectPositives` | train.py:21-25 | the collected positives are the first `count` cleaned English records in stream order (all of them if fewer) when count ≥ 1, and the first record's text if it is English when count ≤ 0 |
| `Sampling.PositivesStop` | train.py:24-25 | leaving the loop right after the append that reaches the count yields exactly that prefix of the English documents |
| `Sampling.CollectNegatives` | train.py:28-31 | the collected negatives are the cleaned texts of the first min(count, n) records unfiltered and in order when count ≥ 1, and of the first record when count ≤ 0 |
| `Sampling.NegativesStop` | train.py:30-31 | leaving the loop after `i` records, where `i` is the count (or 1 for a count below 1) or the stream length, whichever is smaller, yields exactly the collected negatives |
| `Sampling.FirstEnglishDocumentsCount` | train.py:21-25 | for count ≥ 1 at most `count` positives, exactly `count` when the stream has that many English records; for count ≤ 0 at most one, and one when the first record is English |
| `Sampling.FirstEnglishDocumentsAreEnglish` | train.py:21-25 | the collected positives are a prefix of the English documents in stream order, and each is the cleaned text of a record whose language is "en" |
| `Sampling.EnglishDocumentsAreEnglish` | train.py:22-23 | every document of the English filter comes from an English record |
| `Sampling.FirstArticleDocumentsCount` | train.py:28-31 | the negatives number min(count, n) for count ≥ 1 and min(1, n) otherwise, negative i being record i's cleaned text |
| `TrainDriver.ParseArguments` | train.py:6-11 | usage error iff the argument vector does not have 2 or 3 entries; a conversion failure iff an `int()` fails; otherwise the counts are the converted arguments, the negative count defaulting to the positive count |
| `TrainDriver.PrepareTrainingRequest` | train.py:6-36 | exits with status 1 iff the arity is wrong; crashes iff a count is not a number; otherwise posts the collected positives and negatives for the parsed counts |
| `ScoreDriver.ListAvailableModels` | score.py:7-8 | a name is listed iff it is a directory entry ending in ".bin"; never more names than entries |
| `ScoreDriver.ListAvailableModelsAppend` | score.py:7-8 | the listing keeps directory order |
| `ScoreDriver.ListingShowsModelsOnly` | score.py:8 | the listing includes a model file the service saves and excludes a training corpus |
| `ScoreDriver.SelectModel` | score.py:20-23 | a selection is accepted iff 1 ≤ number ≤ number of models, and then it is the model at that position |
| `ScoreDriver.ReplaceAbsent` | score.py:25 | `str.replace` leaves a string alone when the pattern cannot start anywhere in it |
| `ScoreDriver.ReplaceAtEnd` | score.py:25 | `str.replace` removes a pattern that occurs only at the end |
| `ScoreDriver.ExtractIdentifierRoundTrip` | score.py:25 | for a hex identifier, extracting from `"model_" + id + ".bin"` (the name main.py:42 writes) gives back exactly the identifier |
| `ScoreDriver.Preview` | score.py:59 | the printed text is a prefix of the sample of at most 50 characters, the whole sample when it is at most 50 long |
| `ScoreDriver.PrepareScoringRequest` | score.py:10-51 | an empty listing exits with status 1 before the prompt; a non-numeric reply crashes; a request is sent iff the number is within 1..models; the identifier is extracted from the chosen name; the samples are at most 5 English positives followed by at most 5 negatives, at most 10 in all |

## Left out

- The classification library (`train_supervised`, `save_model`, `load_model`, `predict`) is not modelled. A trained model is a file name in the stored set; a prediction is the parameter `predict(modelFile, sample)`. The fixed hyperparameters (5 epochs, learning rate 1.0, word bigrams, 200,000 buckets, dimension 50, softmax) only pass through to that library. Because the library cannot fail here, an admitted `Train` always succeeds. In the code, an exception from `train_supervised` or `save_model` skips `os.remove`: the corpus file stays behind and nothing is registered. The model does not capture that path.
- Confidence values are numpy floats. Here they are `real` values copied from the prediction, with no claim that they lie in [0, 1], since the code does not enforce that range.
- The web layer is not modelled: FastAPI routing, pydantic parsing, the HTTP status transport, `requests.post` and JSON. An `HTTPException` is an `Err` value with its status and detail.
- Filesystem calls are abstracted. `os.makedirs`, `open`/`write`, `os.remove` and `os.path.exists` act on a set of stored file names and a buffer of written lines. `os.listdir` is a parameter. A failing write is not modelled.
- Each corpus write is one line of the model. A document that itself contains a newline would split into several lines in the real file; the model does not represent file bytes.
- `uuid4()` is not modelled: both generated hex strings are parameters of `Train`.
- The NFKD decomposition is the parameter `decompose`.
- NormalizeAndCleanTextIdempotent: requires that `decompose` leaves the cleaned text unchanged. NFKD's stability on its own output is not modelled, so the unconditional idempotence is proved only for the stages after the decomposition (`CleanIdempotent`).
- `fetch_datasets_from_config` (YAML parsing and dataset loading) is not modelled. The record streams are finite sequences passed in; an unbounded stream is not represented.
- `int()` is the parameter `parseInt`, which yields `None` where the real call raises `ValueError`. Python's exact integer syntax is not modelled.
- Console output is not modelled: `print`, the progress bars, the usage and menu text, and the printing of results and of non-200 responses. Of the result printing, only the 50-character truncation is modelled.
- Concurrent requests sharing the registry are not modelled; the model is sequential.
