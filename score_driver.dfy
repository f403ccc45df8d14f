/** The scoring driver (score.py): it lists the model files in the storage
    directory, lets the user pick one by number, recovers the model
    identifier from the file name, collects five positive and five negative
    documents and posts them for scoring; each result is printed with the
    first 50 characters of its sample. The directory listing, the reply to
    the prompt and the dataset streams are parameters; printing and the HTTP
    call are left out. */
module ScoreDriver {
  import opened Wrappers
  import opened Sampling
  import Service

  const SampleSize: nat := 5
  const PreviewLength: nat := 50
  const NoModelsExitStatus: int := 1
  const InvalidSelectionExitStatus: int := 1

  function EndsWith(s: string, suffix: string): bool {
    |suffix| <= |s| && s[|s| - |suffix|..] == suffix
  }

  /** list_available_models: the directory entries ending in ".bin", in
      listing order. */
  function ListAvailableModels(entries: seq<string>): (models: seq<string>)
    ensures forall m :: m in models <==> m in entries && EndsWith(m, ".bin")
    ensures |models| <= |entries|
  {
    if entries == [] then []
    else (if EndsWith(entries[0], ".bin") then [entries[0]] else []) + ListAvailableModels(entries[1..])
  }

  /** Listing keeps the directory order: the models of two consecutive runs
      of entries are the models of the first followed by those of the second. */
  lemma {:induction false} ListAvailableModelsAppend(a: seq<string>, b: seq<string>)
    ensures ListAvailableModels(a + b) == ListAvailableModels(a) + ListAvailableModels(b)
  {
    if a == [] {
      assert a + b == b;
    } else {
      assert (a + b)[1..] == a[1..] + b;
      ListAvailableModelsAppend(a[1..], b);
    }
  }

  /** The listing shows every model file the service saves and never a
      training corpus. */
  lemma ListingShowsModelsOnly(id: string, hex: string)
    ensures ListAvailableModels([Service.ModelFileName(id)]) == [Service.ModelFileName(id)]
    ensures ListAvailableModels([Service.TrainingFileName(hex)]) == []
  {
  }

  /** The menu choice, numbered from 1: accepted only within the list. */
  function SelectModel(models: seq<string>, choice: int): (m: Option<string>)
    ensures m.Some? <==> 1 <= choice <= |models|
    ensures m.Some? ==> m.value == models[choice - 1]
  {
    var index := choice - 1;
    if 0 <= index < |models| then Some(models[index]) else None
  }

  /** Python's str.replace: every non-overlapping occurrence of `pattern`,
      scanning from the left, is replaced. */
  function Replace(s: string, pattern: string, replacement: string): string
    requires |pattern| > 0
    decreases |s|
  {
    if |s| < |pattern| then s
    else if s[..|pattern|] == pattern then replacement + Replace(s[|pattern|..], pattern, replacement)
    else [s[0]] + Replace(s[1..], pattern, replacement)
  }

  /** A string without the first character of the pattern is left alone. */
  lemma {:induction false} ReplaceAbsent(s: string, pattern: string, replacement: string)
    requires |pattern| > 0 && pattern[0] !in s
    ensures Replace(s, pattern, replacement) == s
    decreases |s|
  {
    if |s| >= |pattern| {
      assert s[..|pattern|][0] == s[0];
      ReplaceAbsent(s[1..], pattern, replacement);
    }
  }

  /** An occurrence at the very end is the only one replaced. */
  lemma {:induction false} ReplaceAtEnd(s: string, pattern: string)
    requires |pattern| > 0 && pattern[0] !in s
    ensures Replace(s + pattern, pattern, "") == s
    decreases |s|
  {
    var x := s + pattern;
    if s == [] {
      assert x == pattern;
      assert x[|pattern|..] == [];
    } else {
      assert x[..|pattern|][0] == s[0];
      assert x[1..] == s[1..] + pattern;
      ReplaceAtEnd(s[1..], pattern);
    }
  }

  /** The model identifier the script sends for a listed file name. */
  function ExtractIdentifier(fileName: string): string {
    Replace(Replace(fileName, "model_", ""), ".bin", "")
  }

  /** For the file names the service writes, the identifier comes back. */
  lemma ExtractIdentifierRoundTrip(id: string)
    requires Service.HexDigits(id)
    ensures ExtractIdentifier(Service.ModelFileName(id)) == id
  {
    var name := Service.ModelFileName(id);
    var rest := id + ".bin";
    assert name == "model_" + rest;
    assert name[..6] == "model_" && name[6..] == rest;
    assert 'm' !in rest;
    ReplaceAbsent(rest, "model_", "");
    assert Replace(name, "model_", "") == rest;
    assert '.' !in id;
    ReplaceAtEnd(id, ".bin");
  }

  /** document['sample'][:50] */
  function Preview(sample: string): (p: string)
    ensures |p| <= PreviewLength && p <= sample
    ensures |sample| <= PreviewLength ==> p == sample
    ensures |sample| > PreviewLength ==> |p| == PreviewLength
  {
    sample[..Min(PreviewLength, |sample|)]
  }

  /** How the script ends before printing: an exit with status 1, an
      uncaught ValueError from int(), or the scoring request it posts. */
  datatype Outcome =
    | Exit(status: int)
    | Crash
    | ScoringRequest(modelIdentifier: string, samplesToScore: seq<string>)

  method PrepareScoringRequest(entries: seq<string>, reply: string, parseInt: string -> Option<int>,
                               news: seq<NewsRecord>, articles: seq<ArticleRecord>,
                               decompose: string -> string)
    returns (out: Outcome)
    ensures ListAvailableModels(entries) == [] ==> out == Exit(NoModelsExitStatus)
    ensures out.Exit? ==> out.status == 1
    ensures out.Crash? <==> ListAvailableModels(entries) != [] && parseInt(reply).None?
    ensures out.ScoringRequest? <==>
      && ListAvailableModels(entries) != []
      && parseInt(reply).Some?
      && 1 <= parseInt(reply).value <= |ListAvailableModels(entries)|
    ensures out.ScoringRequest? ==>
      out.modelIdentifier == ExtractIdentifier(ListAvailableModels(entries)[parseInt(reply).value - 1])
    ensures out.ScoringRequest? ==>
      && out.samplesToScore == FirstEnglishDocuments(news, SampleSize, decompose)
                               + FirstArticleDocuments(articles, SampleSize, decompose)
      && |out.samplesToScore| <= 2 * SampleSize
  {
    var models := ListAvailableModels(entries);
    if models == [] {
      return Exit(NoModelsExitStatus);
    }
    var choice := parseInt(reply);
    if choice.None? {
      return Crash;
    }
    var selected := SelectModel(models, choice.value);
    if selected.None? {
      return Exit(InvalidSelectionExitStatus);
    }
    var modelIdentifier := ExtractIdentifier(selected.value);

    var positives := CollectPositives(news, SampleSize, decompose);
    var negatives := CollectNegatives(articles, SampleSize, decompose);
    FirstEnglishDocumentsCount(news, SampleSize, decompose);
    FirstArticleDocumentsCount(articles, SampleSize, decompose);
    out := ScoringRequest(modelIdentifier, positives + negatives);
  }
}
