/** The training driver (train.py): it checks the command line, reads the
    two sample counts, collects that many cleaned positive (English news)
    and negative (encyclopedia) documents, and posts them to the service.
    The dataset streams are parameters, int() is the parameter `parseInt`
    (None where it raises), and the HTTP call is left out: the method
    returns the payload it would post. */
module TrainDriver {
  import opened Wrappers
  import opened Sampling

  const UsageExitStatus: int := 1

  datatype Arguments = UsageError | InvalidNumber | Counts(positiveCount: int, negativeCount: int)

  /** The argv check and the two int() conversions. */
  function ParseArguments(argv: seq<string>, parseInt: string -> Option<int>): (a: Arguments)
    ensures a.UsageError? <==> !(2 <= |argv| <= 3)
    ensures a.InvalidNumber? <==>
      2 <= |argv| <= 3 && (parseInt(argv[1]).None? || (|argv| == 3 && parseInt(argv[2]).None?))
    ensures a.Counts? ==> parseInt(argv[1]) == Some(a.positiveCount)
    ensures a.Counts? && |argv| == 3 ==> parseInt(argv[2]) == Some(a.negativeCount)
    ensures a.Counts? && |argv| == 2 ==> a.negativeCount == a.positiveCount
  {
    if !(2 <= |argv| <= 3) then UsageError
    else
      match parseInt(argv[1])
      case None => InvalidNumber
      case Some(positives) =>
        if |argv| == 3 then
          match parseInt(argv[2])
          case None => InvalidNumber
          case Some(negatives) => Counts(positives, negatives)
        else
          Counts(positives, positives)
  }

  /** How the script ends: a usage exit, an uncaught ValueError, or the
      training request it posts. */
  datatype Outcome =
    | Exit(status: int)
    | Crash
    | TrainingRequest(positiveDocuments: seq<string>, negativeDocuments: seq<string>)

  method PrepareTrainingRequest(argv: seq<string>, parseInt: string -> Option<int>,
                                news: seq<NewsRecord>, articles: seq<ArticleRecord>,
                                decompose: string -> string)
    returns (out: Outcome)
    ensures out.Exit? <==> !(2 <= |argv| <= 3)
    ensures out.Exit? ==> out.status == UsageExitStatus
    ensures out.Crash? <==> ParseArguments(argv, parseInt).InvalidNumber?
    ensures out.TrainingRequest? ==>
      var a := ParseArguments(argv, parseInt);
      && a.Counts?
      && out.positiveDocuments == FirstEnglishDocuments(news, a.positiveCount, decompose)
      && out.negativeDocuments == FirstArticleDocuments(articles, a.negativeCount, decompose)
  {
    var arguments := ParseArguments(argv, parseInt);
    match arguments
    case UsageError =>
      out := Exit(UsageExitStatus);
    case InvalidNumber =>
      out := Crash;
    case Counts(positiveCount, negativeCount) =>
      var positives := CollectPositives(news, positiveCount, decompose);
      var negatives := CollectNegatives(articles, negativeCount, decompose);
      out := TrainingRequest(positives, negatives);
  }
}
