/** Cleaning of document text before it is sent to the service (utils.py,
    normalize_and_clean_text): a compatibility decomposition, then no-break
    spaces become spaces, every whitespace run becomes one space, and the
    ends are trimmed. The decomposition is a Unicode table lookup and is a
    parameter here; everything after it is modelled exactly. */
module TextNormalizer {

  const NoBreakSpace: char := '\U{A0}'

  /** Python's str.isspace, which is also what `\s` matches in a str regular
      expression and what str.strip() removes. */
  predicate IsSpace(c: char) {
    || ('\t' <= c <= '\r')
    || ('\U{1C}' <= c <= '\U{1F}')
    || c == ' '
    || c == '\U{85}'
    || c == NoBreakSpace
    || c == '\U{1680}'
    || ('\U{2000}' <= c <= '\U{200A}')
    || c == '\U{2028}'
    || c == '\U{2029}'
    || c == '\U{202F}'
    || c == '\U{205F}'
    || c == '\U{3000}'
  }

  // ---------------------------------------------------------------------------
  // Shape of a cleaned string

  predicate NoEdgeSpace(t: string) {
    t == [] || (!IsSpace(t[0]) && !IsSpace(t[|t| - 1]))
  }

  /** Every whitespace character is a plain space and is not followed by
      another whitespace character. */
  predicate SingleSpaced(t: string) {
    forall i :: 0 <= i < |t| && IsSpace(t[i]) ==>
      t[i] == ' ' && (i + 1 < |t| ==> !IsSpace(t[i + 1]))
  }

  predicate AllSpace(s: string) {
    forall i :: 0 <= i < |s| ==> IsSpace(s[i])
  }

  /** The non-whitespace characters of `s`, in order. */
  function NonSpace(s: string): string {
    if s == [] then []
    else (if IsSpace(s[0]) then [] else [s[0]]) + NonSpace(s[1..])
  }

  // ---------------------------------------------------------------------------
  // The stages of the chain

  /** str.replace('\xa0', ' ') */
  function ReplaceNoBreakSpace(s: string): string {
    seq(|s|, i requires 0 <= i < |s| => if s[i] == NoBreakSpace then ' ' else s[i])
  }

  /** str.lstrip(): drops the longest whitespace prefix. */
  function StripLeading(s: string): (r: string)
    ensures |r| <= |s|
    ensures s != [] && IsSpace(s[0]) ==> |r| < |s|
  {
    if s != [] && IsSpace(s[0]) then StripLeading(s[1..]) else s
  }

  /** What str.lstrip() leaves: a suffix that does not start with whitespace,
      after a prefix that is all whitespace. */
  lemma {:induction false} StripLeadingFacts(s: string)
    ensures var r := StripLeading(s);
      && r == s[|s| - |r|..]
      && (r == [] || !IsSpace(r[0]))
      && forall i :: 0 <= i < |s| - |r| ==> IsSpace(s[i])
  {
    if s != [] && IsSpace(s[0]) {
      StripLeadingFacts(s[1..]);
    }
  }

  /** str.rstrip(): drops the longest whitespace suffix. */
  function StripTrailing(s: string): (r: string)
    ensures |r| <= |s|
  {
    if s != [] && IsSpace(s[|s| - 1]) then StripTrailing(s[..|s| - 1]) else s
  }

  /** What str.rstrip() leaves: a prefix that does not end with whitespace,
      before a suffix that is all whitespace. */
  lemma {:induction false} StripTrailingFacts(s: string)
    ensures var r := StripTrailing(s);
      && r == s[..|r|]
      && (r == [] || !IsSpace(r[|r| - 1]))
      && forall i :: |r| <= i < |s| ==> IsSpace(s[i])
  {
    if s != [] && IsSpace(s[|s| - 1]) {
      StripTrailingFacts(s[..|s| - 1]);
    }
  }

  /** str.strip() */
  function Strip(s: string): string {
    StripTrailing(StripLeading(s))
  }

  /** re.sub(r'\s+', ' ', s): each maximal whitespace run becomes one space. */
  function CollapseWhitespace(s: string): string
    decreases |s|
  {
    if s == [] then []
    else if IsSpace(s[0]) then [' '] + CollapseWhitespace(StripLeading(s))
    else [s[0]] + CollapseWhitespace(s[1..])
  }

  /** Everything the chain does after the decomposition. */
  function Clean(s: string): (r: string)
    ensures NoEdgeSpace(r) && SingleSpaced(r)
    ensures NoBreakSpace !in r
    ensures NonSpace(r) == NonSpace(s)
    ensures |r| <= |s|
    ensures r == JoinWords(Words(s))
  {
    CleanShape(s);
    ChainIsJoinOfSplit(s);
    Strip(CollapseWhitespace(ReplaceNoBreakSpace(s)))
  }

  /** normalize_and_clean_text, with the compatibility decomposition (NFKD)
      given as `decompose`. */
  function NormalizeAndCleanText(decompose: string -> string, raw: string): (r: string)
    ensures NoEdgeSpace(r) && SingleSpaced(r)
    ensures NoBreakSpace !in r
    ensures NonSpace(r) == NonSpace(decompose(raw))
    ensures |r| <= |decompose(raw)|
    ensures r == JoinWords(Words(decompose(raw)))
  {
    Clean(decompose(raw))
  }

  // ---------------------------------------------------------------------------
  // Lemmas about NonSpace

  lemma {:induction false} NonSpaceAppend(a: string, b: string)
    ensures NonSpace(a + b) == NonSpace(a) + NonSpace(b)
  {
    if a != [] {
      assert (a + b)[1..] == a[1..] + b;
      NonSpaceAppend(a[1..], b);
    } else {
      assert a + b == b;
    }
  }

  lemma {:induction false} NonSpaceEmptyIffAllSpace(s: string)
    ensures NonSpace(s) == [] <==> AllSpace(s)
  {
    if s != [] {
      NonSpaceEmptyIffAllSpace(s[1..]);
      if !IsSpace(s[0]) {
        assert NonSpace(s)[0] == s[0];
      }
    }
  }

  lemma NonSpaceOfSpacePrefix(s: string, k: nat)
    requires k <= |s|
    requires forall i :: 0 <= i < k ==> IsSpace(s[i])
    ensures NonSpace(s) == NonSpace(s[k..])
  {
    assert s == s[..k] + s[k..];
    NonSpaceAppend(s[..k], s[k..]);
    NonSpaceEmptyIffAllSpace(s[..k]);
  }

  lemma NonSpaceOfSpaceSuffix(s: string, k: nat)
    requires k <= |s|
    requires forall i :: k <= i < |s| ==> IsSpace(s[i])
    ensures NonSpace(s) == NonSpace(s[..k])
  {
    assert s == s[..k] + s[k..];
    NonSpaceAppend(s[..k], s[k..]);
    NonSpaceEmptyIffAllSpace(s[k..]);
  }

  // ---------------------------------------------------------------------------
  // Lemmas about the stages

  lemma {:induction false} CollapseShape(s: string)
    ensures SingleSpaced(CollapseWhitespace(s))
    ensures NonSpace(CollapseWhitespace(s)) == NonSpace(s)
    ensures |CollapseWhitespace(s)| <= |s|
    ensures CollapseWhitespace(s) != [] && !IsSpace(s[0]) ==> !IsSpace(CollapseWhitespace(s)[0])
    decreases |s|
  {
    if s != [] {
      var r := CollapseWhitespace(s);
      if IsSpace(s[0]) {
        var l := StripLeading(s);
        StripLeadingFacts(s);
        CollapseShape(l);
        NonSpaceOfSpacePrefix(s, |s| - |l|);
        assert r[1..] == CollapseWhitespace(l);
        assert NonSpace(r) == NonSpace(CollapseWhitespace(l));
      } else {
        CollapseShape(s[1..]);
        assert r[1..] == CollapseWhitespace(s[1..]);
      }
    }
  }

  lemma SingleSpacedSlice(t: string, a: nat, b: nat)
    requires a <= b <= |t|
    requires SingleSpaced(t)
    ensures SingleSpaced(t[a..b])
  {
    var u := t[a..b];
    forall i | 0 <= i < |u| && IsSpace(u[i])
      ensures u[i] == ' ' && (i + 1 < |u| ==> !IsSpace(u[i + 1]))
    {
      assert u[i] == t[a + i];
      if i + 1 < |u| {
        assert u[i + 1] == t[a + i + 1];
      }
    }
  }

  lemma StripLeadingShape(t: string)
    requires SingleSpaced(t)
    ensures SingleSpaced(StripLeading(t))
    ensures NonSpace(StripLeading(t)) == NonSpace(t)
  {
    var l := StripLeading(t);
    StripLeadingFacts(t);
    SingleSpacedSlice(t, |t| - |l|, |t|);
    NonSpaceOfSpacePrefix(t, |t| - |l|);
  }

  lemma StripTrailingShape(t: string)
    requires SingleSpaced(t)
    ensures SingleSpaced(StripTrailing(t))
    ensures NonSpace(StripTrailing(t)) == NonSpace(t)
  {
    var r := StripTrailing(t);
    StripTrailingFacts(t);
    SingleSpacedSlice(t, 0, |r|);
    NonSpaceOfSpaceSuffix(t, |r|);
  }

  lemma StripShape(t: string)
    requires SingleSpaced(t)
    ensures NoEdgeSpace(Strip(t)) && SingleSpaced(Strip(t))
    ensures NonSpace(Strip(t)) == NonSpace(t)
    ensures |Strip(t)| <= |t|
  {
    var l := StripLeading(t);
    StripLeadingShape(t);
    StripLeadingFacts(t);
    StripTrailingShape(l);
    StripTrailingFacts(l);
    var r := StripTrailing(l);
    if r != [] {
      assert r[0] == l[0];
    }
  }

  lemma ReplaceNoBreakSpaceKeepsNonSpace(s: string)
    ensures NonSpace(ReplaceNoBreakSpace(s)) == NonSpace(s)
    ensures |ReplaceNoBreakSpace(s)| == |s|
  {
    if s != [] {
      var r := ReplaceNoBreakSpace(s);
      assert r[1..] == ReplaceNoBreakSpace(s[1..]);
      ReplaceNoBreakSpaceKeepsNonSpace(s[1..]);
    }
  }

  lemma CleanShape(s: string)
    ensures var r := Strip(CollapseWhitespace(ReplaceNoBreakSpace(s)));
      && NoEdgeSpace(r) && SingleSpaced(r) && NoBreakSpace !in r
      && NonSpace(r) == NonSpace(s) && |r| <= |s|
  {
    var n := ReplaceNoBreakSpace(s);
    ReplaceNoBreakSpaceKeepsNonSpace(s);
    CollapseShape(n);
    var c := CollapseWhitespace(n);
    StripShape(c);
  }

  // ---------------------------------------------------------------------------
  // Idempotence and the all-whitespace case

  /** A string that already has the shape the chain produces is left alone. */
  lemma {:induction false} CollapseFixesSingleSpaced(t: string)
    requires SingleSpaced(t)
    ensures CollapseWhitespace(t) == t
    decreases |t|
  {
    if t != [] {
      SingleSpacedSlice(t, 1, |t|);
      CollapseFixesSingleSpaced(t[1..]);
      if IsSpace(t[0]) {
        assert StripLeading(t) == StripLeading(t[1..]);
        if |t| > 1 {
          assert !IsSpace(t[1]);
        }
        assert StripLeading(t[1..]) == t[1..];
      }
    }
  }

  lemma CleanFixesCleaned(t: string)
    requires NoEdgeSpace(t) && SingleSpaced(t)
    ensures Clean(t) == t
  {
    assert ReplaceNoBreakSpace(t) == t by {
      forall i | 0 <= i < |t| ensures ReplaceNoBreakSpace(t)[i] == t[i] {
        if t[i] == NoBreakSpace {
          assert IsSpace(t[i]);
        }
      }
    }
    CollapseFixesSingleSpaced(t);
  }

  /** Cleaning twice is cleaning once. */
  lemma CleanIdempotent(s: string)
    ensures Clean(Clean(s)) == Clean(s)
  {
    CleanFixesCleaned(Clean(s));
  }

  /** normalize_and_clean_text applied to its own output returns it
      unchanged, provided the decomposition leaves that output alone. */
  lemma NormalizeAndCleanTextIdempotent(decompose: string -> string, raw: string)
    requires decompose(NormalizeAndCleanText(decompose, raw)) == NormalizeAndCleanText(decompose, raw)
    ensures NormalizeAndCleanText(decompose, NormalizeAndCleanText(decompose, raw))
      == NormalizeAndCleanText(decompose, raw)
  {
    CleanIdempotent(decompose(raw));
  }

  /** The cleaned text is empty exactly when the input is all whitespace. */
  lemma CleanEmptyIffAllSpace(s: string)
    ensures Clean(s) == [] <==> AllSpace(s)
  {
    var r := Clean(s);
    NonSpaceEmptyIffAllSpace(s);
    NonSpaceEmptyIffAllSpace(r);
  }

  // ---------------------------------------------------------------------------
  // Reference definition: the chain equals " ".join(text.split())

  /** The leading run of non-whitespace characters. */
  function LeadingWord(s: string): (w: string)
    ensures |w| <= |s|
    ensures s != [] && !IsSpace(s[0]) ==> |w| > 0
  {
    if s != [] && !IsSpace(s[0]) then [s[0]] + LeadingWord(s[1..]) else []
  }

  lemma {:induction false} LeadingWordFacts(s: string)
    ensures var w := LeadingWord(s);
      && w == s[..|w|]
      && (forall i :: 0 <= i < |w| ==> !IsSpace(w[i]))
      && (|w| == |s| || IsSpace(s[|w|]))
  {
    if s != [] && !IsSpace(s[0]) {
      LeadingWordFacts(s[1..]);
    }
  }

  /** str.split() without arguments: the maximal non-whitespace runs, in order. */
  function Words(s: string): seq<string>
    decreases |s|
  {
    var t := StripLeading(s);
    if t == [] then []
    else
      var w := LeadingWord(t);
      [w] + Words(t[|w|..])
  }

  /** " ".join(ws) */
  function JoinWords(ws: seq<string>): string {
    if ws == [] then []
    else if |ws| == 1 then ws[0]
    else ws[0] + " " + JoinWords(ws[1..])
  }

  /** Two strings with whitespace in the same places and equal elsewhere. */
  predicate SameUpToSpace(a: string, b: string) {
    && |a| == |b|
    && forall i :: 0 <= i < |a| ==> IsSpace(a[i]) == IsSpace(b[i]) && (!IsSpace(a[i]) ==> a[i] == b[i])
  }

  lemma {:induction false} StripLeadingSameUpToSpace(a: string, b: string)
    requires SameUpToSpace(a, b)
    ensures |StripLeading(a)| == |StripLeading(b)|
  {
    if a != [] && IsSpace(a[0]) {
      StripLeadingSameUpToSpace(a[1..], b[1..]);
    }
  }

  lemma {:induction false} CollapseSameUpToSpace(a: string, b: string)
    requires SameUpToSpace(a, b)
    ensures CollapseWhitespace(a) == CollapseWhitespace(b)
    decreases |a|
  {
    if a != [] {
      if IsSpace(a[0]) {
        StripLeadingSameUpToSpace(a, b);
        StripLeadingFacts(a);
        StripLeadingFacts(b);
        var k := |a| - |StripLeading(a)|;
        CollapseSameUpToSpace(a[k..], b[k..]);
      } else {
        CollapseSameUpToSpace(a[1..], b[1..]);
      }
    }
  }

  lemma StripLeadingOfStart(s: string, k: nat)
    requires k <= |s|
    requires forall i :: 0 <= i < k ==> IsSpace(s[i])
    requires k == |s| || !IsSpace(s[k])
    ensures StripLeading(s) == s[k..]
  {
    StripLeadingFacts(s);
  }

  lemma StripTrailingOfEnd(s: string, k: nat)
    requires k <= |s|
    requires forall i :: k <= i < |s| ==> IsSpace(s[i])
    requires k == 0 || !IsSpace(s[k - 1])
    ensures StripTrailing(s) == s[..k]
  {
    StripTrailingFacts(s);
  }

  /** Collapsing does not touch a leading word. */
  lemma {:induction false} CollapseAfterWord(w: string, x: string)
    requires forall i :: 0 <= i < |w| ==> !IsSpace(w[i])
    ensures CollapseWhitespace(w + x) == w + CollapseWhitespace(x)
  {
    if w != [] {
      assert (w + x)[1..] == w[1..] + x;
      CollapseAfterWord(w[1..], x);
    } else {
      assert w + x == x;
    }
  }

  /** Stripping a word, a space and a string that starts and ends the way a
      collapsed string does. */
  lemma StripWordThenRest(w: string, c: string)
    requires w != [] && forall i :: 0 <= i < |w| ==> !IsSpace(w[i])
    requires c != [] && !IsSpace(c[0])
    ensures Strip(w + " " + c) == w + " " + Strip(c)
  {
    var x := w + " " + c;
    StripLeadingOfStart(x, 0);
    StripLeadingOfStart(c, 0);
    var t := StripTrailing(c);
    StripTrailingFacts(c);
    assert t != [] && t[0] == c[0];
    StripTrailingOfEnd(x, |w| + 1 + |t|);
    assert x[..|w| + 1 + |t|] == w + " " + t;
  }

  /** A whitespace run at the front: one space, then the rest. */
  lemma LeadingSpaceStep(s: string)
    requires s != [] && IsSpace(s[0])
    ensures CollapseWhitespace(s) == [' '] + CollapseWhitespace(StripLeading(s))
    ensures Words(s) == Words(StripLeading(s))
  {
    StripLeadingFacts(s);
    assert StripLeading(StripLeading(s)) == StripLeading(s);
  }

  /** A word at the front: the word, then the rest. */
  lemma LeadingWordStep(s: string) returns (w: string, rest: string)
    requires s != [] && !IsSpace(s[0])
    ensures w != [] && forall i :: 0 <= i < |w| ==> !IsSpace(w[i])
    ensures s == w + rest && (rest == [] || IsSpace(rest[0]))
    ensures Words(s) == [w] + Words(rest)
    ensures CollapseWhitespace(s) == w + CollapseWhitespace(rest)
  {
    StripLeadingOfStart(s, 0);
    w := LeadingWord(s);
    LeadingWordFacts(s);
    rest := s[|w|..];
    CollapseAfterWord(w, rest);
  }

  lemma StripWord(w: string, tail: string)
    requires forall i :: 0 <= i < |w| ==> !IsSpace(w[i])
    requires tail == [] || tail == " "
    ensures Strip(w + tail) == w
  {
    var y := w + tail;
    if w == [] {
      assert y == tail;
    } else {
      StripLeadingOfStart(y, 0);
      StripTrailingOfEnd(y, |w|);
      assert y[..|w|] == w;
    }
  }

  lemma SpaceCase(s: string)
    requires s != [] && IsSpace(s[0])
    requires Strip(CollapseWhitespace(StripLeading(s))) == JoinWords(Words(StripLeading(s)))
    ensures Strip(CollapseWhitespace(s)) == JoinWords(Words(s))
  {
    LeadingSpaceStep(s);
    var x := CollapseWhitespace(StripLeading(s));
    assert ([' '] + x)[1..] == x;
  }

  /** A word followed by whitespace only. */
  lemma WordThenSpace(w: string, rest: string)
    requires w != [] && forall i :: 0 <= i < |w| ==> !IsSpace(w[i])
    requires rest != [] && IsSpace(rest[0]) && StripLeading(rest) == []
    ensures Strip(w + CollapseWhitespace(rest)) == JoinWords([w] + Words(rest))
  {
    LeadingSpaceStep(rest);
    assert CollapseWhitespace(rest) == " ";
    StripWord(w, " ");
    assert [w] + Words(rest) == [w];
  }

  /** A word, whitespace, and a non-empty remainder that starts with a word. */
  lemma WordThenMore(w: string, rest: string)
    requires w != [] && forall i :: 0 <= i < |w| ==> !IsSpace(w[i])
    requires rest != [] && IsSpace(rest[0]) && StripLeading(rest) != []
    requires Strip(CollapseWhitespace(StripLeading(rest))) == JoinWords(Words(StripLeading(rest)))
    ensures Strip(w + CollapseWhitespace(rest)) == JoinWords([w] + Words(rest))
  {
    var l := StripLeading(rest);
    LeadingSpaceStep(rest);
    var c := CollapseWhitespace(l);
    assert w + CollapseWhitespace(rest) == w + " " + c;
    assert c[0] == l[0];
    StripWordThenRest(w, c);
    var ws := [w] + Words(l);
    assert ws[1..] == Words(l);
  }

  lemma {:induction false} StripCollapseIsJoinWords(s: string)
    ensures Strip(CollapseWhitespace(s)) == JoinWords(Words(s))
    decreases |s|
  {
    if s == [] {
    } else if IsSpace(s[0]) {
      StripCollapseIsJoinWords(StripLeading(s));
      SpaceCase(s);
    } else {
      var w, rest := LeadingWordStep(s);
      if rest == [] {
        assert w + [] == w;
        StripWord(w, []);
      } else {
        if StripLeading(rest) == [] {
          WordThenSpace(w, rest);
        } else {
          StripCollapseIsJoinWords(StripLeading(rest));
          WordThenMore(w, rest);
        }
      }
    }
  }

  /** The whole chain after the decomposition is Python's
      " ".join(text.split()). */
  lemma ChainIsJoinOfSplit(s: string)
    ensures Strip(CollapseWhitespace(ReplaceNoBreakSpace(s))) == JoinWords(Words(s))
  {
    CollapseSameUpToSpace(ReplaceNoBreakSpace(s), s);
    StripCollapseIsJoinWords(s);
  }
}
