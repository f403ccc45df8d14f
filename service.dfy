/** The training and scoring service (main.py): an in-memory registry from
    model identifier to model file, a storage directory holding the model
    files and the transient training corpora, the admission rule for a
    training request and the mapping from predictions to scored samples.

    The supervised trainer and the predictor of the classification library
    are not modelled: a trained model is a file name in `storedFiles`, and a
    prediction is whatever the parameter `predict` returns for a model file
    and a sample. Generated identifiers are parameters. */
module Service {
  import opened Wrappers

  const ModelStoragePath: string := "models"
  const MinimumPositiveSamples: nat := 20000
  const MinimumPositivesDetail: string := "Minimum 20,000 positive samples required."
  const ModelNotFoundDetail: string := "Specified model not found."
  const UnknownLabel: string := "unknown"

  /** The characters of uuid4().hex. */
  predicate HexDigits(s: string) {
    forall i :: 0 <= i < |s| ==> s[i] in "0123456789abcdef"
  }

  // ---------------------------------------------------------------------------
  // File naming

  function ModelFileName(id: string): string {
    "model_" + id + ".bin"
  }

  /** os.path.join(MODEL_STORAGE_PATH, f"model_{id}.bin") */
  function ModelFilePath(id: string): string {
    ModelStoragePath + "/" + ModelFileName(id)
  }

  function TrainingFileName(hex: string): string {
    "training_" + hex + ".txt"
  }

  /** os.path.join(MODEL_STORAGE_PATH, f"training_{hex}.txt") */
  function TrainingFilePath(hex: string): string {
    ModelStoragePath + "/" + TrainingFileName(hex)
  }

  /** A training corpus never has the name of a model file, whatever the
      identifiers, so removing the corpus never removes a model. */
  lemma TrainingFileIsNoModelFile(hex: string)
    ensures forall id :: TrainingFilePath(hex) != ModelFilePath(id)
  {
    forall id ensures TrainingFilePath(hex) != ModelFilePath(id) {
      assert TrainingFilePath(hex)[7] == 't';
      assert ModelFilePath(id)[7] == 'm';
    }
  }

  /** The model file path determines the identifier. */
  lemma ModelFilePathInjective(a: string, b: string)
    requires ModelFilePath(a) == ModelFilePath(b)
    ensures a == b
  {
    var p := ModelFilePath(a);
    assert a == p[13..|p| - 4];
    assert b == ModelFilePath(b)[13..|p| - 4];
  }

  // ---------------------------------------------------------------------------
  // Decimal rendering, for the f-string in the negative-count error

  function DigitChar(d: nat): char
    requires d < 10
  {
    "0123456789"[d]
  }

  function DigitValue(c: char): nat {
    if '0' <= c <= '9' then (c - '0') as nat else 0
  }

  /** The value of a string of decimal digits. */
  function DecimalValue(s: string): nat {
    if s == [] then 0 else DecimalValue(s[..|s| - 1]) * 10 + DigitValue(s[|s| - 1])
  }

  /** Python's str(n) for a non-negative int. */
  function NatToString(n: nat): (r: string)
    ensures |r| > 0
    ensures forall i :: 0 <= i < |r| ==> '0' <= r[i] <= '9'
    ensures |r| > 1 ==> r[0] != '0'
  {
    if n < 10 then [DigitChar(n)] else NatToString(n / 10) + [DigitChar(n % 10)]
  }

  lemma {:induction false} NatToStringRoundTrip(n: nat)
    ensures DecimalValue(NatToString(n)) == n
  {
    var r := NatToString(n);
    if n >= 10 {
      NatToStringRoundTrip(n / 10);
      assert r[..|r| - 1] == NatToString(n / 10);
    }
  }

  // ---------------------------------------------------------------------------
  // Requests and responses

  datatype HttpError = HttpError(status: int, detail: string)

  datatype Result<T> = Ok(value: T) | Err(error: HttpError)

  /** What the classifier's predict(sample, k=1) returns: the top label, if
      any, and its probability, if any. */
  datatype Prediction = Prediction(labels: seq<string>, probabilities: seq<real>)

  datatype ScoredSample = ScoredSample(sample: string, predictedLabel: string, predictionConfidence: real)

  function NegativeShortfallDetail(positives: nat): string {
    "Negative samples must be at least " + NatToString(positives) + "."
  }

  /** The admission rule of a training request, as the two checks at the top
      of train_text_classifier apply it: None when the request may proceed. */
  function AdmissionError(positives: nat, negatives: nat): (e: Option<HttpError>)
    ensures e == None <==> positives >= MinimumPositiveSamples && negatives >= positives
    ensures e.Some? ==> e.value.status == 400
    ensures positives < MinimumPositiveSamples ==> e.value.detail == MinimumPositivesDetail
    ensures positives >= MinimumPositiveSamples && negatives < positives ==>
      e.value.detail == NegativeShortfallDetail(positives)
  {
    if positives < MinimumPositiveSamples then
      Some(HttpError(400, MinimumPositivesDetail))
    else if negatives < positives then
      Some(HttpError(400, NegativeShortfallDetail(positives)))
    else
      None
  }

  /** The negative-count error names the number of positives in decimal. */
  lemma NegativeShortfallNamesCount(positives: nat)
    ensures var d := NegativeShortfallDetail(positives);
      && d[..34] == "Negative samples must be at least "
      && d[|d| - 1] == '.'
      && DecimalValue(d[34..|d| - 1]) == positives
  {
    NatToStringRoundTrip(positives);
    var d := NegativeShortfallDetail(positives);
    assert d[34..|d| - 1] == NatToString(positives);
  }

  /** The concrete cases the service is meant to decide. */
  lemma AdmissionExamples()
    ensures AdmissionError(20000, 20000) == None
    ensures AdmissionError(19999, 20000) == Some(HttpError(400, "Minimum 20,000 positive samples required."))
    ensures AdmissionError(20000, 10000) == Some(HttpError(400, "Negative samples must be at least 20000."))
  {
    assert NatToString(20000) == "20000" by {
      assert NatToString(2) == "2";
      assert NatToString(20) == NatToString(2) + "0" == "20";
      assert NatToString(200) == NatToString(20) + "0" == "200";
      assert NatToString(2000) == NatToString(200) + "0" == "2000";
      assert NatToString(20000) == NatToString(2000) + "0";
    }
    assert NegativeShortfallDetail(20000) == "Negative samples must be at least " + "20000" + ".";
    assert "Negative samples must be at least " + "20000" + "." == "Negative samples must be at least 20000.";
  }

  /** One line of the training corpus: f"__label__{label} {sample}\n". */
  function CorpusLine(className: string, sample: string): string {
    "__label__" + className + " " + sample + "\n"
  }

  function LabelledLines(className: string, samples: seq<string>): (lines: seq<string>)
    ensures |lines| == |samples|
    ensures forall i :: 0 <= i < |samples| ==> lines[i] == CorpusLine(className, samples[i])
  {
    if samples == [] then [] else [CorpusLine(className, samples[0])] + LabelledLines(className, samples[1..])
  }

  /** The corpus file: every positive with its label, then every negative. */
  function CorpusLines(positives: seq<string>, negatives: seq<string>): (lines: seq<string>)
    ensures |lines| == |positives| + |negatives|
    ensures forall i :: 0 <= i < |positives| ==> lines[i] == CorpusLine("positive", positives[i])
    ensures forall j :: 0 <= j < |negatives| ==>
      lines[|positives| + j] == CorpusLine("negative", negatives[j])
  {
    LabelledLines("positive", positives) + LabelledLines("negative", negatives)
  }

  /** The result for one sample: the first label or "unknown", the first
      probability or 0.0. */
  function ScoreSample(sample: string, p: Prediction): (s: ScoredSample)
    ensures s.sample == sample
    ensures p.labels != [] ==> s.predictedLabel == p.labels[0]
    ensures p.labels == [] ==> s.predictedLabel == UnknownLabel
    ensures p.probabilities != [] ==> s.predictionConfidence == p.probabilities[0]
    ensures p.probabilities == [] ==> s.predictionConfidence == 0.0
  {
    ScoredSample(sample,
                 if |p.labels| > 0 then p.labels[0] else UnknownLabel,
                 if |p.probabilities| > 0 then p.probabilities[0] else 0.0)
  }

  // ---------------------------------------------------------------------------
  // The service

  class ClassifierService {
    /** registered_models: identifier to model file path. */
    var registry: map<string, string>
    /** The names of the files present in the storage directory. */
    var storedFiles: set<string>
    /** The lines last written to a training corpus. */
    var corpus: seq<string>

    /** Every registered identifier maps to its own model file, and that file
        is present (nothing deletes model files). */
    ghost predicate Valid()
      reads this
    {
      forall id :: id in registry ==> registry[id] == ModelFilePath(id) && ModelFilePath(id) in storedFiles
    }

    /** A process start: the registry is empty, while files stored by earlier
        processes are still present. */
    constructor (existingFiles: set<string>)
      ensures Valid()
      ensures registry == map[] && storedFiles == existingFiles && corpus == []
    {
      registry := map[];
      storedFiles := existingFiles;
      corpus := [];
    }

    /** train_text_classifier, with the two uuid4().hex values as `corpusHex`
        (the corpus file) and `modelId` (the new model). */
    method Train(positives: seq<string>, negatives: seq<string>, corpusHex: string, modelId: string)
      returns (r: Result<string>)
      requires Valid()
      modifies this
      ensures Valid()
      ensures r.Err? <==> AdmissionError(|positives|, |negatives|).Some?
      ensures r.Err? ==> Some(r.error) == AdmissionError(|positives|, |negatives|)
      ensures r.Err? ==> registry == old(registry) && storedFiles == old(storedFiles) && corpus == old(corpus)
      ensures r.Ok? ==> r.value == modelId
      ensures r.Ok? ==> registry == old(registry)[modelId := ModelFilePath(modelId)]
      ensures r.Ok? ==> storedFiles == old(storedFiles) - {TrainingFilePath(corpusHex)} + {ModelFilePath(modelId)}
      ensures r.Ok? ==> corpus == CorpusLines(positives, negatives)
    {
      if |positives| < MinimumPositiveSamples {
        return Err(HttpError(400, MinimumPositivesDetail));
      }
      if |negatives| < |positives| {
        return Err(HttpError(400, NegativeShortfallDetail(|positives|)));
      }

      var trainingFile := TrainingFilePath(corpusHex);
      storedFiles := storedFiles + {trainingFile};
      corpus := [];
      for i := 0 to |positives|
        invariant registry == old(registry) && storedFiles == old(storedFiles) + {trainingFile}
        invariant |corpus| == i
        invariant forall k :: 0 <= k < i ==> corpus[k] == CorpusLine("positive", positives[k])
      {
        corpus := corpus + [CorpusLine("positive", positives[i])];
      }
      for j := 0 to |negatives|
        invariant registry == old(registry) && storedFiles == old(storedFiles) + {trainingFile}
        invariant |corpus| == |positives| + j
        invariant forall k :: 0 <= k < |positives| ==> corpus[k] == CorpusLine("positive", positives[k])
        invariant forall k :: 0 <= k < j ==> corpus[|positives| + k] == CorpusLine("negative", negatives[k])
      {
        corpus := corpus + [CorpusLine("negative", negatives[j])];
      }
      assert corpus == CorpusLines(positives, negatives);

      var modelFile := ModelFilePath(modelId);
      storedFiles := storedFiles + {modelFile};
      storedFiles := storedFiles - {trainingFile};
      TrainingFileIsNoModelFile(corpusHex);

      registry := registry[modelId := modelFile];
      r := Ok(modelId);
    }

    /** score_text_samples: the model file is derived from the identifier,
        not looked up in the registry; `predict(path, sample)` stands for
        loading the model at `path` and asking it for its top label. */
    method Score(samples: seq<string>, modelId: string, predict: (string, string) -> Prediction)
      returns (r: Result<seq<ScoredSample>>)
      ensures r.Err? <==> ModelFilePath(modelId) !in storedFiles
      ensures r.Err? ==> r.error == HttpError(500, ModelNotFoundDetail)
      ensures r.Ok? ==> |r.value| == |samples|
      ensures r.Ok? ==> forall i :: 0 <= i < |samples| ==>
        r.value[i] == ScoreSample(samples[i], predict(ModelFilePath(modelId), samples[i]))
    {
      var modelFile := ModelFilePath(modelId);
      if modelFile !in storedFiles {
        return Err(HttpError(500, ModelNotFoundDetail));
      }
      var results: seq<ScoredSample> := [];
      for i := 0 to |samples|
        invariant |results| == i
        invariant forall k :: 0 <= k < i ==> results[k] == ScoreSample(samples[k], predict(modelFile, samples[k]))
      {
        var prediction := predict(modelFile, samples[i]);
        results := results + [ScoreSample(samples[i], prediction)];
      }
      r := Ok(results);
    }
  }

  /** The registry invariant at work: a registered identifier is always
      accepted by scoring, and its results come from the registered file. */
  method RegisteredIsScorable(svc: ClassifierService, modelId: string,
                              samples: seq<string>, predict: (string, string) -> Prediction)
    returns (scored: Result<seq<ScoredSample>>)
    requires svc.Valid() && modelId in svc.registry
    ensures scored.Ok? && |scored.value| == |samples|
    ensures forall i :: 0 <= i < |samples| ==>
      scored.value[i] == ScoreSample(samples[i], predict(svc.registry[modelId], samples[i]))
  {
    scored := svc.Score(samples, modelId, predict);
  }

  /** An admitted training request yields an identifier that scoring then
      accepts, with one result per sample; a rejected one changes nothing. */
  method TrainThenScore(svc: ClassifierService, positives: seq<string>, negatives: seq<string>,
                        corpusHex: string, modelId: string,
                        samples: seq<string>, predict: (string, string) -> Prediction)
    returns (trained: Result<string>, scored: Result<seq<ScoredSample>>)
    requires svc.Valid()
    modifies svc
    ensures svc.Valid()
    ensures trained.Ok? <==> |positives| >= MinimumPositiveSamples && |negatives| >= |positives|
    ensures trained.Ok? ==> scored.Ok? && |scored.value| == |samples|
    ensures trained.Err? ==> svc.registry == old(svc.registry) && svc.storedFiles == old(svc.storedFiles)
  {
    trained := svc.Train(positives, negatives, corpusHex, modelId);
    scored := svc.Score(samples, modelId, predict);
  }
}
