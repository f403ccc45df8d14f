/** The sample-collection loops of the two driver scripts (train.py and
    score.py run the same two loops, with a count from the command line and
    with 5). A record stream is a finite sequence here; a loop stops either
    at the end of the stream or right after the append that brings the list
    to the requested count. Because that check follows the append, a count
    of 0 or less still lets the first record through. */
module Sampling {
  import opened TextNormalizer

  /** A news record: its language tag and its text. */
  datatype NewsRecord = NewsRecord(language: string, plainText: string)

  /** An encyclopedia record: its text. */
  datatype ArticleRecord = ArticleRecord(text: string)

  const English: string := "en"

  function Min(a: int, b: int): int {
    if a <= b then a else b
  }

  /** The first `n` elements of `s`, or all of them if there are fewer. */
  function Take(s: seq<string>, n: nat): (t: seq<string>)
    ensures |t| == Min(n, |s|) && t == s[..|t|]
  {
    s[..Min(n, |s|)]
  }

  // ---------------------------------------------------------------------------
  // Reference definitions

  /** The cleaned texts of the English news records, in stream order. */
  function EnglishDocuments(records: seq<NewsRecord>, decompose: string -> string): seq<string> {
    if records == [] then []
    else
      (if records[0].language == English then [NormalizeAndCleanText(decompose, records[0].plainText)] else [])
      + EnglishDocuments(records[1..], decompose)
  }

  /** The cleaned texts of all the records, in stream order. */
  function ArticleDocuments(records: seq<ArticleRecord>, decompose: string -> string): (docs: seq<string>)
    ensures |docs| == |records|
  {
    seq(|records|, i requires 0 <= i < |records| => NormalizeAndCleanText(decompose, records[i].text))
  }

  /** What the positive loop collects for a given count. */
  function FirstEnglishDocuments(records: seq<NewsRecord>, count: int, decompose: string -> string): seq<string> {
    if count >= 1 then Take(EnglishDocuments(records, decompose), count)
    else EnglishDocuments(records[..Min(1, |records|)], decompose)
  }

  /** What the negative loop collects for a given count. */
  function FirstArticleDocuments(records: seq<ArticleRecord>, count: int, decompose: string -> string): seq<string> {
    if count >= 1 then Take(ArticleDocuments(records, decompose), count)
    else ArticleDocuments(records[..Min(1, |records|)], decompose)
  }

  lemma {:induction false} EnglishDocumentsAppend(a: seq<NewsRecord>, b: seq<NewsRecord>, decompose: string -> string)
    ensures EnglishDocuments(a + b, decompose) == EnglishDocuments(a, decompose) + EnglishDocuments(b, decompose)
  {
    if a == [] {
      assert a + b == b;
    } else {
      assert (a + b)[1..] == a[1..] + b;
      EnglishDocumentsAppend(a[1..], b, decompose);
    }
  }

  /** Every English document is the cleaned text of some English record. */
  lemma {:induction false} EnglishDocumentsAreEnglish(records: seq<NewsRecord>, decompose: string -> string)
    ensures forall d :: d in EnglishDocuments(records, decompose) ==>
      exists r :: r in records && r.language == English && d == NormalizeAndCleanText(decompose, r.plainText)
  {
    if records != [] {
      EnglishDocumentsAreEnglish(records[1..], decompose);
      forall d | d in EnglishDocuments(records, decompose)
        ensures exists r :: r in records && r.language == English && d == NormalizeAndCleanText(decompose, r.plainText)
      {
        if d !in EnglishDocuments(records[1..], decompose) {
          assert records[0] in records;
        } else {
          var r :| r in records[1..] && r.language == English && d == NormalizeAndCleanText(decompose, r.plainText);
          assert r in records;
        }
      }
    }
  }

  /** There are at most as many English documents as records. */
  lemma {:induction false} EnglishDocumentsLength(records: seq<NewsRecord>, decompose: string -> string)
    ensures |EnglishDocuments(records, decompose)| <= |records|
  {
    if records != [] {
      EnglishDocumentsLength(records[1..], decompose);
    }
  }

  /** For a count of at least one, the positives are at most `count` and
      exactly `count` when the stream holds that many English records; for a
      smaller count, a first English record is still collected. */
  lemma FirstEnglishDocumentsCount(records: seq<NewsRecord>, count: int, decompose: string -> string)
    ensures var docs := FirstEnglishDocuments(records, count, decompose);
      && (count >= 1 ==> |docs| <= count)
      && (count >= 1 && |EnglishDocuments(records, decompose)| >= count ==> |docs| == count)
      && (count < 1 ==> |docs| <= 1)
      && (count < 1 && records != [] && records[0].language == English ==> |docs| == 1)
  {
    if count < 1 {
      EnglishDocumentsLength(records[..Min(1, |records|)], decompose);
      if records != [] {
        assert records[..1][1..] == [];
      }
    }
  }

  /** The positives are in stream order (a prefix of the English documents)
      and each comes from an English record. */
  lemma FirstEnglishDocumentsAreEnglish(records: seq<NewsRecord>, count: int, decompose: string -> string)
    ensures FirstEnglishDocuments(records, count, decompose) <= EnglishDocuments(records, decompose)
    ensures forall d :: d in FirstEnglishDocuments(records, count, decompose) ==>
      exists r :: r in records && r.language == English && d == NormalizeAndCleanText(decompose, r.plainText)
  {
    var docs := FirstEnglishDocuments(records, count, decompose);
    if count < 1 {
      var k := Min(1, |records|);
      assert records == records[..k] + records[k..];
      EnglishDocumentsAppend(records[..k], records[k..], decompose);
    }
    if count >= 1 {
      EnglishDocumentsAreEnglish(records, decompose);
      forall d | d in docs
        ensures d in EnglishDocuments(records, decompose)
      {
        var k :| 0 <= k < |docs| && docs[k] == d;
      }
    } else {
      var head := records[..Min(1, |records|)];
      EnglishDocumentsAreEnglish(head, decompose);
      forall d | d in docs
        ensures exists r :: r in records && r.language == English && d == NormalizeAndCleanText(decompose, r.plainText)
      {
        var r :| r in head && r.language == English && d == NormalizeAndCleanText(decompose, r.plainText);
        assert r in records;
      }
    }
  }

  /** For a count of at least one, the negatives are the first `count`
      records of the stream; for a smaller count, the first record. */
  lemma FirstArticleDocumentsCount(records: seq<ArticleRecord>, count: int, decompose: string -> string)
    ensures var docs := FirstArticleDocuments(records, count, decompose);
      && (count >= 1 ==> |docs| == Min(count, |records|))
      && (count < 1 ==> |docs| == Min(1, |records|))
      && forall i :: 0 <= i < |docs| ==> docs[i] == NormalizeAndCleanText(decompose, records[i].text)
  {
  }

  // ---------------------------------------------------------------------------
  // The loops

  /** `for record in news: if English, append; if len >= count, break`. */
  method CollectPositives(records: seq<NewsRecord>, count: int, decompose: string -> string)
    returns (docs: seq<string>)
    ensures docs == FirstEnglishDocuments(records, count, decompose)
  {
    docs := [];
    var i := 0;
    while i < |records|
      invariant 0 <= i <= |records|
      invariant docs == EnglishDocuments(records[..i], decompose)
      invariant i > 0 ==> |docs| < count
    {
      var record := records[i];
      if record.language == English {
        docs := docs + [NormalizeAndCleanText(decompose, record.plainText)];
      }
      assert records[..i + 1] == records[..i] + [record];
      EnglishDocumentsAppend(records[..i], [record], decompose);
      i := i + 1;
      if |docs| >= count {
        PositivesStop(records, i, count, decompose);
        break;
      }
    }
    if i == 0 || |docs| < count {
      // the stream ran out before the count was reached
      assert records[..i] == records;
    }
  }

  /** The loop leaves after record `i - 1` exactly when the documents of
      the first `i` records reach the count for the first time. */
  lemma PositivesStop(records: seq<NewsRecord>, i: nat, count: int, decompose: string -> string)
    requires 0 < i <= |records|
    requires i > 1 ==> |EnglishDocuments(records[..i - 1], decompose)| < count
    requires |EnglishDocuments(records[..i], decompose)| >= count
    ensures EnglishDocuments(records[..i], decompose) == FirstEnglishDocuments(records, count, decompose)
  {
    var all := EnglishDocuments(records, decompose);
    var done := EnglishDocuments(records[..i], decompose);
    assert records == records[..i] + records[i..];
    EnglishDocumentsAppend(records[..i], records[i..], decompose);
    if count >= 1 {
      var before := EnglishDocuments(records[..i - 1], decompose);
      assert records[..i] == records[..i - 1] + [records[i - 1]];
      EnglishDocumentsAppend(records[..i - 1], [records[i - 1]], decompose);
      assert |done| <= |before| + 1;
      assert |done| == count;
    } else {
      assert i == 1;
    }
  }

  /** `for record in articles: append; if len >= count, break`. */
  method CollectNegatives(records: seq<ArticleRecord>, count: int, decompose: string -> string)
    returns (docs: seq<string>)
    ensures docs == FirstArticleDocuments(records, count, decompose)
  {
    ghost var all := ArticleDocuments(records, decompose);
    docs := [];
    var i := 0;
    while i < |records|
      invariant 0 <= i <= |records|
      invariant docs == all[..i]
      invariant i > 0 ==> i < count
    {
      var text := NormalizeAndCleanText(decompose, records[i].text);
      assert text == all[i];
      docs := docs + [text];
      assert all[..i + 1] == all[..i] + [all[i]];
      i := i + 1;
      if |docs| >= count {
        break;
      }
    }
    NegativesStop(records, i, count, decompose);
  }

  /** The loop leaves with the first `i` documents, where `i` is the count
      (at least one) or the stream length, whichever is smaller. */
  lemma NegativesStop(records: seq<ArticleRecord>, i: nat, count: int, decompose: string -> string)
    requires i <= |records|
    requires i == |records| || (i >= 1 && i >= count)
    requires i > 1 ==> i - 1 < count
    ensures ArticleDocuments(records, decompose)[..i] == FirstArticleDocuments(records, count, decompose)
  {
  }

}
