/** Which quoted passages of an answer are examined. */
module AnswerPassages {
  import opened Results
  import opened Text
  import opened AnswerText

  // ---------------------------------------------------------------------------
  // Straight quotation marks
  // ---------------------------------------------------------------------------

  /** Where the run free of quotation marks and newlines that ends before `i` starts. */
  function RunStart(s: string, i: nat): (j: nat)
    requires i <= |s|
    ensures j <= i
    ensures j > 0 ==> s[j - 1] == '"' || s[j - 1] == '\n'
    ensures forall k :: j <= k < i ==> s[k] != '"' && s[k] != '\n'
  {
    if i > 0 && s[i - 1] != '"' && s[i - 1] != '\n' then RunStart(s, i - 1) else i
  }

  /** How many long runs between marks, each starting at the mark where the one before it ends, end at mark `i`. */
  function BackRuns(s: string, i: nat): nat
    requires i <= |s|
    decreases i
  {
    var j := RunStart(s, i);
    if j > 0 && s[j - 1] == '"' && i - j >= SPAN_CHARS then 1 + BackRuns(s, j - 1) else 0
  }

  /** The text between a mark at `m` and the next closing mark, at least 20 characters on one line. */
  ghost predicate Between(s: string, open: char, close: char, m: nat, x: string) {
    && m < |s| && |x| >= 20 && close !in x && '\n' !in x
    && exists after: string :: s == s[..m] + [open] + x + [close] + after
  }

  lemma {:induction false} RunIsFree(s: string, stop: char, i: nat)
    requires i <= |s|
    ensures var e := RunEnd(s, stop, i);
            && (forall k :: i <= k < e ==> s[k] != stop && s[k] != '\n')
            && (e < |s| ==> s[e] == stop || s[e] == '\n')
    decreases |s| - i
  {
    if i < |s| && s[i] != stop && s[i] != '\n' {
      RunIsFree(s, stop, i + 1);
    }
  }

  /** A run free of stops up to one ends there. */
  lemma {:induction false} RunEndsAt(s: string, stop: char, i: nat, e: nat)
    requires i <= e <= |s| && forall k :: i <= k < e ==> s[k] != stop && s[k] != '\n'
    requires e < |s| ==> s[e] == stop || s[e] == '\n'
    ensures RunEnd(s, stop, i) == e
    decreases e - i
  {
    if i < e {
      RunEndsAt(s, stop, i + 1, e);
    }
  }

  /** A long run is such a text, and its inside is that text. */
  lemma LongRunIs(s: string, open: char, close: char, m: nat)
    ensures LongRun(s, open, close, m) <==> exists x :: Between(s, open, close, m, x)
    ensures LongRun(s, open, close, m) ==> Between(s, open, close, m, Inside(s, close, m))
  {
    if LongRun(s, open, close, m) {
      RunIsFree(s, close, m + 1);
      var e := RunEnd(s, close, m + 1);
      assert s == s[..m] + [open] + s[m + 1..e] + [close] + s[e + 1..];
      assert Between(s, open, close, m, Inside(s, close, m));
    }
    if x :| Between(s, open, close, m, x) {
      BetweenRuns(s, open, close, m, x);
    }
  }

  lemma BetweenRuns(s: string, open: char, close: char, m: nat, x: string)
    requires Between(s, open, close, m, x)
    ensures LongRun(s, open, close, m)
  {
    var after: string :| s == s[..m] + [open] + x + [close] + after;
    var e := m + 1 + |x|;
    assert s[m] == open && s[m + 1..e] == x && s[e] == close;
    assert forall k :: m + 1 <= k < e ==> s[k] == x[k - (m + 1)];
    RunEndsAt(s, close, m + 1, e);
  }

  lemma {:induction false} RunStartsAt(s: string, i: nat, j: nat)
    requires 0 < j <= i <= |s| && s[j - 1] == '"'
    requires forall k :: j <= k < i ==> s[k] != '"' && s[k] != '\n'
    ensures RunStart(s, i) == j
  {
    if i > j {
      RunStartsAt(s, i - 1, j);
    }
  }

  /** The long run that ends at a mark counts as one more than those before it. */
  lemma BackRunsNext(s: string, j: nat)
    requires LongRun(s, '"', '"', j)
    ensures BackRuns(s, RunEnd(s, '"', j + 1)) == 1 + BackRuns(s, j)
  {
    RunIsFree(s, '"', j + 1);
    RunStartsAt(s, RunEnd(s, '"', j + 1), j + 1);
  }

  /** A positive count comes from a long run that ends there. */
  lemma BackRunsLast(s: string, i: nat) returns (j: nat)
    requires i < |s| && s[i] == '"' && BackRuns(s, i) > 0
    ensures j < i && LongRun(s, '"', '"', j) && RunEnd(s, '"', j + 1) == i
    ensures BackRuns(s, i) == 1 + BackRuns(s, j)
  {
    var k := RunStart(s, i);
    RunEndsAt(s, '"', k, i);
    j := k - 1;
  }

  /** No long run that reaches `i` from before it has been examined. */
  ghost predicate Fresh(s: string, i: nat)
    requires i <= |s|
  {
    forall j: nat | j < i && LongRun(s, '"', '"', j) && RunEnd(s, '"', j + 1) >= i :: BackRuns(s, j) % 2 == 1
  }

  lemma MarkOf(s: string, open: char, close: char, i: nat)
    requires LongRun(s, open, close, i)
    ensures i < |s| && s[i] == open
  {}

  lemma FreshIsEven(s: string, i: nat)
    requires i < |s| && Fresh(s, i) && LongRun(s, '"', '"', i)
    ensures BackRuns(s, i) % 2 == 0
  {
    hide BackRuns, RunEnd, LongRun;
    MarkOf(s, '"', '"', i);
    if BackRuns(s, i) > 0 {
      var j := BackRunsLast(s, i);
      assert BackRuns(s, j) % 2 == 1;
    }
  }

  lemma FreshAfter(s: string, i: nat)
    requires i < |s| && LongRun(s, '"', '"', i) && BackRuns(s, i) % 2 == 0
    ensures Fresh(s, RunEnd(s, '"', i + 1) + 1)
  {
    hide BackRuns, RunEnd;
    var e := RunEnd(s, '"', i + 1);
    BackRunsNext(s, i);
    forall j: nat | j < e + 1 && LongRun(s, '"', '"', j) && RunEnd(s, '"', j + 1) >= e + 1
      ensures BackRuns(s, j) % 2 == 1
    {
      EndsByMark(s, j, e);
    }
  }

  lemma EndsByMark(s: string, j: nat, k: nat)
    requires j < |s| && k < |s| && s[k] == '"'
    ensures j < k ==> RunEnd(s, '"', j + 1) <= k
  {
    RunIsFree(s, '"', j + 1);
  }

  lemma MatchesStep(s: string, open: char, close: char, i: nat)
    requires i < |s|
    ensures Matches(s, open, close, i)
         == if LongRun(s, open, close, i) then [i] + Matches(s, open, close, RunEnd(s, close, i + 1) + 1)
            else Matches(s, open, close, i + 1)
  {}

  lemma NoMatchesAtEnd(s: string, open: char, close: char)
    ensures Matches(s, open, close, |s|) == []
  {}

  lemma FreshStep(s: string, i: nat)
    requires i < |s| && Fresh(s, i) && !LongRun(s, '"', '"', i)
    ensures Fresh(s, i + 1)
  {
    hide BackRuns, RunEnd, LongRun;
  }

  /** After a match at `i`, nothing up to its closing mark is examined. */
  lemma PassedOver(s: string, i: nat, m: nat)
    requires LongRun(s, '"', '"', i) && BackRuns(s, i) % 2 == 0
    requires i < m <= RunEnd(s, '"', i + 1)
    ensures !(LongRun(s, '"', '"', m) && BackRuns(s, m) % 2 == 0)
  {
    hide BackRuns, RunEnd;
    RunIsFree(s, '"', i + 1);
    BackRunsNext(s, i);
  }

  lemma {:induction false} MatchedFrom(s: string, i: nat, m: nat)
    requires i <= m <= |s| && Fresh(s, i)
    ensures m in Matches(s, '"', '"', i) <==> LongRun(s, '"', '"', m) && BackRuns(s, m) % 2 == 0
    decreases |s| - i
  {
    hide BackRuns, RunEnd, Matches, Fresh;
    if i == |s| {
      NoMatchesAtEnd(s, '"', '"');
    } else {
      MatchesStep(s, '"', '"', i);
      if LongRun(s, '"', '"', i) {
        FreshIsEven(s, i);
        FreshAfter(s, i);
        var e := RunEnd(s, '"', i + 1);
        if m > e {
          MatchedFrom(s, e + 1, m);
        } else if m > i {
          PassedOver(s, i, m);
        }
      } else {
        FreshStep(s, i);
        if m > i {
          MatchedFrom(s, i + 1, m);
        }
      }
    }
  }

  /** A long run between straight marks is examined exactly when an even number of back-to-back long runs end at the
      mark that opens it: each match takes both its marks, so of runs sharing their marks every other one is skipped. */
  lemma StraightExamined(s: string, m: nat)
    ensures m in Matches(s, '"', '"', 0) <==> LongRun(s, '"', '"', m) && BackRuns(s, m) % 2 == 0
  {
    if m <= |s| {
      MatchedFrom(s, 0, m);
    }
  }

  /** Every long run is examined exactly when none starts at the mark where another ends. */
  lemma AllStraightExamined(s: string)
    ensures (forall m: nat :: LongRun(s, '"', '"', m) ==> m in Matches(s, '"', '"', 0))
       <==> (forall m: nat :: LongRun(s, '"', '"', m) ==> !LongRun(s, '"', '"', RunEnd(s, '"', m + 1)))
  {
    hide BackRuns, RunEnd;
    forall m: nat ensures m in Matches(s, '"', '"', 0) <==> LongRun(s, '"', '"', m) && BackRuns(s, m) % 2 == 0 {
      StraightExamined(s, m);
    }
    forall m: nat | LongRun(s, '"', '"', m) ensures BackRuns(s, RunEnd(s, '"', m + 1)) == 1 + BackRuns(s, m) {
      BackRunsNext(s, m);
    }
    if forall m: nat :: LongRun(s, '"', '"', m) ==> !LongRun(s, '"', '"', RunEnd(s, '"', m + 1)) {
      forall m: nat | LongRun(s, '"', '"', m) ensures m in Matches(s, '"', '"', 0) {
        if BackRuns(s, m) > 0 {
          var j := BackRunsLast(s, m);
        }
      }
    }
  }

  // ---------------------------------------------------------------------------
  // Marks that differ
  // ---------------------------------------------------------------------------

  lemma EndTogether(s: string, open: char, close: char, i: nat, m: nat)
    requires open != close && i <= m && LongRun(s, open, close, i) && LongRun(s, open, close, m)
    requires m <= RunEnd(s, close, i + 1)
    ensures RunEnd(s, close, m + 1) == RunEnd(s, close, i + 1)
  {
    hide RunEnd;
    RunIsFree(s, close, i + 1);
    RunEndsAt(s, close, m + 1, RunEnd(s, close, i + 1));
  }

  /** With an opening mark unlike the closing one, a long run that is not itself matched ends a matched one. */
  lemma {:induction false} CurlyCovered(s: string, open: char, close: char, i: nat, m: nat) returns (k: nat)
    requires open != close && i <= m && LongRun(s, open, close, m)
    ensures k in Matches(s, open, close, i) && k <= m && RunEnd(s, close, k + 1) == RunEnd(s, close, m + 1)
    decreases |s| - i
  {
    hide RunEnd, Matches;
    MatchesStep(s, open, close, i);
    if LongRun(s, open, close, i) {
      var e := RunEnd(s, close, i + 1);
      if m > e {
        k := CurlyCovered(s, open, close, e + 1, m);
      } else {
        k := i;
        EndTogether(s, open, close, i, m);
      }
    } else {
      k := CurlyCovered(s, open, close, i + 1, m);
    }
  }

  lemma {:induction false} MatchesApart(s: string, open: char, close: char, i: nat, k: nat, m: nat)
    requires i <= |s| && k in Matches(s, open, close, i) && m in Matches(s, open, close, i) && k < m
    ensures RunEnd(s, close, k + 1) < m
    decreases |s| - i
  {
    hide RunEnd, Matches;
    if i == |s| {
      NoMatchesAtEnd(s, open, close);
    } else {
      MatchesStep(s, open, close, i);
      if LongRun(s, open, close, i) {
        if k > i {
          MatchesApart(s, open, close, RunEnd(s, close, i + 1) + 1, k, m);
        }
      } else {
        MatchesApart(s, open, close, i + 1, k, m);
      }
    }
  }

  /** A long run between unlike marks is examined by itself exactly when no earlier one reaches over it. */
  lemma CurlyExamined(s: string, open: char, close: char, m: nat)
    requires open != close
    ensures m in Matches(s, open, close, 0) <==> LongRun(s, open, close, m) && Foremost(s, open, close, m)
  {
    hide RunEnd, Matches;
    if LongRun(s, open, close, m) {
      var k := CurlyCovered(s, open, close, 0, m);
      if m in Matches(s, open, close, 0) {
        forall j: nat | j < m && LongRun(s, open, close, j) ensures RunEnd(s, close, j + 1) < m {
          var l := CurlyCovered(s, open, close, 0, j);
          MatchesApart(s, open, close, 0, l, m);
        }
      }
    }
  }

  /** No long run that starts before `m` reaches it. */
  ghost predicate Foremost(s: string, open: char, close: char, m: nat) {
    forall j: nat | j < m && LongRun(s, open, close, j) :: RunEnd(s, close, j + 1) < m
  }

  // ---------------------------------------------------------------------------
  // Block quotes
  // ---------------------------------------------------------------------------

  predicate Blank(s: string, i: nat, j: nat)
    requires j <= |s|
  {
    forall k :: i <= k < j ==> IsSpace(s[k])
  }

  predicate LineStart(s: string, i: nat) {
    i <= |s| && (i == 0 || s[i - 1] == '\n')
  }

  /** What the third pattern matches: from the line start `p`, blanks, a `>` at `a`, blanks, and from `g` the rest of
      a line, with enough characters. */
  predicate Block(s: string, p: nat, a: nat, g: nat) {
    && p <= a < g <= |s| && LineStart(s, p) && s[a] == '>' && Blank(s, p, a) && Blank(s, a + 1, g)
    && LineEnd(s, g) - g >= 20
  }

  /** A line of a block quote: its first character that is not blank is a `>` at `a`, with enough characters after it,
      not all blank. */
  predicate QuoteLine(s: string, p: nat, a: nat) {
    && p <= a < |s| && LineStart(s, p) && s[a] == '>' && Blank(s, p, a) && a < LineEnd(s, p)
    && LineEnd(s, p) - (a + 1) >= 20 && !Blank(s, a + 1, LineEnd(s, p))
  }

  lemma {:induction false} BlanksAre(s: string, i: nat)
    requires i <= |s|
    ensures Blank(s, i, BlanksEnd(s, i))
    ensures BlanksEnd(s, i) < |s| ==> !IsSpace(s[BlanksEnd(s, i)])
    decreases |s| - i
  {
    hide IsSpace;
    if i < |s| && IsSpace(s[i]) {
      BlanksAre(s, i + 1);
    }
  }

  lemma {:induction false} BackToStays(s: string, from: nat, g: nat)
    requires from <= g <= |s|
    ensures LineEnd(s, from) - from >= SPAN_CHARS ==> BackTo(s, from, g).Some?
    decreases g
  {
    hide LineEnd;
    if LineEnd(s, g) - g < SPAN_CHARS && g != from {
      BackToStays(s, from, g - 1);
    }
  }

  lemma BlockAtIs(s: string, i: nat)
    requires i <= |s| && BlockAt(s, i).Some?
    ensures Block(s, i, BlanksEnd(s, i), BlockAt(s, i).value)
  {
    hide IsSpace, LineEnd, BackTo;
    BlanksAre(s, i);
    BlanksAre(s, BlanksEnd(s, i) + 1);
  }

  /** Every group of the third pattern is the rest of a line after such a mark. */
  lemma {:induction false} BlocksAre(s: string, i: nat, x: string)
    requires i <= |s| && x in BlocksFrom(s, i)
    ensures exists p: nat, a: nat, g: nat :: Block(s, p, a, g) && x == s[g..LineEnd(s, g)]
    decreases |s| - i
  {
    hide Block, LineEnd, BlockAt;
    var g := BlockAt(s, i);
    if g.Some? {
      BlockAtIs(s, i);
      if x != s[g.value..LineEnd(s, g.value)] {
        BlocksAre(s, LineEnd(s, g.value), x);
      }
    } else if i < |s| {
      BlocksAre(s, i + 1, x);
    }
  }

  /** A line of a block quote matches from its own start. */
  lemma QuoteLineMatches(s: string, p: nat, a: nat)
    requires QuoteLine(s, p, a)
    ensures BlockAt(s, p).Some?
  {
    hide IsSpace, RunEnd, BackTo;
    BlanksAre(s, p);
    BlanksEndIs(s, p, a);
    SameLine(s, p, a + 1);
    BackToStays(s, a + 1, BlanksEnd(s, a + 1));
  }

  lemma {:induction false} BlanksEndIs(s: string, p: nat, a: nat)
    requires p <= a < |s| && Blank(s, p, a) && s[a] == '>'
    ensures BlanksEnd(s, p) == a
    decreases a - p
  {
    if p < a {
      BlanksEndIs(s, p + 1, a);
    }
  }

  lemma SameLine(s: string, p: nat, k: nat)
    requires p <= |s| && p <= k <= LineEnd(s, p)
    ensures LineEnd(s, k) == LineEnd(s, p)
  {
    RunIsFree(s, '\n', p);
    RunEndsAt(s, '\n', k, LineEnd(s, p));
  }

  /** A match that starts no later than the line and does not end before it takes the line to its end. */
  lemma BlockReaches(s: string, i: nat, b: nat, g: nat, p: nat, a: nat)
    requires i <= p && Block(s, i, b, g) && QuoteLine(s, p, a) && p <= LineEnd(s, g)
    ensures LineEnd(s, g) == LineEnd(s, p)
    ensures forall q :: a < q < LineEnd(s, p) && !IsSpace(s[q]) ==> g <= q
  {
    hide IsSpace, RunEnd;
    RunIsFree(s, '\n', p);
    RunIsFree(s, '\n', g);
    assert !IsSpace('>') by { MarkIsNoSpace(); }
    assert forall q :: i <= q < g && !IsSpace(s[q]) ==> q == b;
    assert a < g ==> a == b;
    var q :| a + 1 <= q < LineEnd(s, p) && !IsSpace(s[q]);
    assert p > 0 ==> s[p - 1] == '\n';
    SameLine(s, p, g);
  }

  lemma MarkIsNoSpace()
    ensures !IsSpace('>')
  {}

  /** Each line of a block quote lies within a group of the third pattern, apart from blanks at its ends. */
  lemma {:induction false} QuoteLineCovered(s: string, i: nat, p: nat, a: nat) returns (x: string)
    requires i <= p && QuoteLine(s, p, a)
    ensures x in BlocksFrom(s, i)
    ensures var text := Strip(s[a + 1..LineEnd(s, p)]);
            text != "" && Contains(Strip(x), text)
    decreases |s| - i
  {
    hide QuoteLine, RunEnd, BlockAt, Strip, Contains, Block, IsSpace;
    if i == p {
      QuoteLineMatches(s, p, a);
    }
    LineFits(s, p, a);
    var g := BlockAt(s, i);
    if g.None? {
      x := QuoteLineCovered(s, i + 1, p, a);
    } else {
      var e := LineEnd(s, g.value);
      BlockAtIs(s, i);
      if e < p {
        x := QuoteLineCovered(s, e, p, a);
      } else {
        x := s[g.value..e];
        BlockReaches(s, i, BlanksEnd(s, i), g.value, p, a);
        PartOfLine(s, g.value, a + 1, e);
      }
    }
  }

  lemma LineFits(s: string, p: nat, a: nat)
    requires QuoteLine(s, p, a)
    ensures p <= a < LineEnd(s, p) <= |s| && !Blank(s, a + 1, LineEnd(s, p))
  {}

  /** Cutting away only blanks in front keeps the stripped text. */
  lemma PartOfLine(s: string, g: nat, b: nat, e: nat)
    requires g <= e <= |s| && b <= e && !Blank(s, b, e)
    requires forall q :: b <= q < e && !IsSpace(s[q]) ==> g <= q
    ensures var text := Strip(s[b..e]);
            text != "" && Contains(Strip(s[g..e]), text)
  {
    hide IsSpace, Strip, Contains;
    var w := s[b..e];
    var text := Strip(w);
    var lead := StripForm(w);
    assert forall k :: 0 <= k < |w| ==> w[k] == s[b + k];
    var q :| b <= q < e && !IsSpace(s[q]);
    assert !IsSpace(w[q - b]);
    assert text != "";
    assert text[0] == w[lead] == s[b + lead];
    var x := s[g..e];
    var at := b + lead - g;
    assert forall k :: 0 <= k < |text| ==> text[k] == w[lead + k] == s[b + lead + k] == x[at + k];
    assert x[at..at + |text|] == text;
    assert At(x, text, at);
    FoundAt(x, text, at);
    StripHolds(x, text);
  }

  lemma FoundAt(s: string, sub: string, i: nat)
    requires At(s, sub, i)
    ensures Contains(s, sub)
  {}

  // ---------------------------------------------------------------------------
  // Parts of a text
  // ---------------------------------------------------------------------------

  lemma ContainsTransitive(a: string, b: string, c: string)
    requires Contains(a, b) && Contains(b, c)
    ensures Contains(a, c)
  {
    var i: nat :| i <= |a| && At(a, b, i);
    var j: nat :| j <= |b| && At(b, c, j);
    AtWhole(b, i, a, c, j);
  }

  /** Stripping keeps every trimmed part. */
  lemma StripHolds(s: string, sub: string)
    requires sub != "" && Trimmed(sub) && Contains(s, sub)
    ensures Contains(Strip(s), sub)
  {
    hide IsSpace, Strip;
    var i: nat :| i <= |s| && At(s, sub, i);
    var lead := StripForm(s);
    assert s[i..i + |sub|][0] == s[i] && s[i..i + |sub|][|sub| - 1] == s[i + |sub| - 1];
    AtPart(Strip(s), lead, s, sub, i);
  }

  lemma CollapseStep(s: string) returns (first: string)
    requires s != ""
    ensures Collapse(s) == first + Collapse(s[1..])
  {
    first := if !IsSpace(s[0]) then [s[0]] else if |s| > 1 && IsSpace(s[1]) then "" else " ";
  }

  lemma {:induction false} CollapseSuffix(a: string, s: string) returns (head: string)
    ensures Collapse(a + s) == head + Collapse(s)
  {
    hide IsSpace, Collapse;
    if a == "" {
      assert a + s == s;
      head := "";
    } else {
      var rest := CollapseSuffix(a[1..], s);
      var first := CollapseStep(a + s);
      assert (a + s)[1..] == a[1..] + s;
      head := first + rest;
    }
  }

  lemma {:induction false} CollapsePrefix(s: string, c: string)
    requires s != "" && !IsSpace(s[|s| - 1])
    ensures Collapse(s + c) == Collapse(s) + Collapse(c)
  {
    hide IsSpace;
    assert (s + c)[1..] == s[1..] + c;
    if |s| > 1 {
      assert (s + c)[1] == s[1];
      CollapsePrefix(s[1..], c);
    } else {
      assert s[1..] == "" && s[1..] + c == c;
    }
  }

  lemma {:induction false} CollapseLast(s: string)
    requires s != "" && !IsSpace(s[|s| - 1])
    ensures var r := Collapse(s);
            r != "" && !IsSpace(r[|r| - 1])
  {
    hide IsSpace;
    if |s| > 1 {
      CollapseLast(s[1..]);
    }
  }

  lemma TranslateParts(a: string, b: string, c: string)
    ensures Translate(a + b + c) == Translate(a) + Translate(b) + Translate(c)
  {
    hide PlainChar;
    TranslatePlain(a);
    TranslatePlain(b);
    TranslatePlain(c);
    TranslatePlain(a + b + c);
  }

  lemma LowerHolds(s: string, sub: string)
    requires Contains(s, sub)
    ensures Contains(Lower(s), Lower(sub))
  {
    hide LowerChar;
    var i: nat :| i <= |s| && At(s, sub, i);
    assert forall k :: 0 <= k < |sub| ==> sub[k] == s[i + k];
    assert Lower(s)[i..i + |sub|] == Lower(sub);
    FoundAt(Lower(s), Lower(sub), i);
  }

  /** What is translated and collapsed stays trimmed. */
  lemma PlainTrimmed(s: string)
    requires s != "" && Trimmed(s)
    ensures var t := Translate(s);
            t != "" && !IsSpace(t[|t| - 1]) && Collapse(t) != "" && Trimmed(Collapse(t))
  {
    var t := Translate(s);
    TranslatePlain(s);
    PlainCharSpace(s[0]);
    PlainCharSpace(s[|s| - 1]);
    CollapseForm(t);
    CollapseLast(t);
    var r := Collapse(t);
    hide Collapse, Translate, PlainChar, IsSpace;
    assert r[0] in r && r[0] != ' ';
  }

  /** Normalising keeps every trimmed part. */
  lemma NormHolds(s: string, sub: string)
    requires sub != "" && Trimmed(sub) && Contains(s, sub)
    ensures Contains(Norm(s), Norm(sub))
  {
    hide IsSpace, Translate, Collapse, Strip;
    var i: nat :| i <= |s| && At(s, sub, i);
    var a, c := s[..i], s[i + |sub|..];
    assert s == a + sub + c;
    TranslateParts(a, sub, c);
    PlainTrimmed(sub);
    var u := Translate(sub);
    var head := CollapseSuffix(Translate(a), u + Translate(c));
    assert Translate(s) == Translate(a) + (u + Translate(c));
    CollapsePrefix(u, Translate(c));
    var v, w := Collapse(Translate(s)), Collapse(u);
    assert v == head + (w + Collapse(Translate(c)));
    assert v[|head|..|head| + |w|] == w;
    FoundAt(v, w, |head|);
    StripHolds(v, w);
    StripTrimmed(w);
    LowerHolds(Strip(v), w);
  }

  // ---------------------------------------------------------------------------
  // The passages of an answer
  // ---------------------------------------------------------------------------

  /** The inside of a long run between straight marks, when the run is examined. */
  ghost predicate StraightText(s: string, x: string) {
    exists m: nat :: LongRun(s, '"', '"', m) && BackRuns(s, m) % 2 == 0 && x == Inside(s, '"', m)
  }

  /** The inside of a long run between curly marks. */
  ghost predicate CurlyText(s: string, x: string) {
    exists m: nat :: LongRun(s, '\U{201C}', '\U{201D}', m) && x == Inside(s, '\U{201D}', m)
  }

  /** The same, for a run that no earlier one reaches. */
  ghost predicate ForemostText(s: string, x: string) {
    exists m: nat :: LongRun(s, '\U{201C}', '\U{201D}', m) && Foremost(s, '\U{201C}', '\U{201D}', m)
                     && x == Inside(s, '\U{201D}', m)
  }

  /** What follows the `>` of a block-quote line. */
  ghost predicate LineText(s: string, x: string) {
    exists p: nat, a: nat :: QuoteLine(s, p, a) && x == s[a + 1..LineEnd(s, p)]
  }

  /** A quoted passage: between straight marks (with an even number of long runs back to back before it), between
      curly marks, or on a line of a block quote. */
  ghost predicate Passage(s: string, x: string) {
    StraightText(s, x) || CurlyText(s, x) || LineText(s, x)
  }

  lemma StraightGroups(s: string, x: string)
    ensures x in Quoted(s, '"', '"') <==> StraightText(s, x)
  {
    hide BackRuns, RunEnd, Inside, Matches;
    var starts := Matches(s, '"', '"', 0);
    assert x in Insides(s, '"', starts) <==> exists m :: m in starts && x == Inside(s, '"', m);
    forall m: nat ensures m in starts <==> LongRun(s, '"', '"', m) && BackRuns(s, m) % 2 == 0 {
      StraightExamined(s, m);
    }
  }

  lemma CurlyGroups(s: string, x: string)
    ensures x in Quoted(s, LEFT_MARK, RIGHT_MARK) <==> ForemostText(s, x)
  {
    hide RunEnd, Foremost, Inside, Matches;
    var starts := Matches(s, LEFT_MARK, RIGHT_MARK, 0);
    assert x in Insides(s, RIGHT_MARK, starts) <==> exists m :: m in starts && x == Inside(s, RIGHT_MARK, m);
    forall m: nat
      ensures m in starts <==> LongRun(s, LEFT_MARK, RIGHT_MARK, m) && Foremost(s, LEFT_MARK, RIGHT_MARK, m)
    {
      CurlyExamined(s, LEFT_MARK, RIGHT_MARK, m);
    }
  }

  /** The spans that are looked up: the insides of every examined straight run, of every foremost curly run and the
      groups of the block quotes, stripped, unless nothing is left. */
  lemma SpansAreExactly(answer: string, x: string)
    ensures x in QuotedSpans(answer) <==>
            x != "" && exists g :: x == Strip(g)
                                   && (StraightText(answer, g) || ForemostText(answer, g) || g in BlocksFrom(answer, 0))
  {
    hide StraightText, ForemostText, Strip, BlocksFrom, Quoted, AddSpans;
    SpansAreTheGroups([], Groups(answer));
    forall g ensures g in Groups(answer) <==>
                     StraightText(answer, g) || ForemostText(answer, g) || g in BlocksFrom(answer, 0)
    {
      StraightGroups(answer, g);
      CurlyGroups(answer, g);
    }
  }

  lemma {:induction false} AddSpansConcat(spans: seq<string>, a: seq<string>, b: seq<string>)
    ensures AddSpans(spans, a + b) == AddSpans(AddSpans(spans, a), b)
    ensures spans <= AddSpans(spans, a)
    decreases |a|
  {
    hide Strip;
    if a == [] {
      assert a + b == b;
    } else {
      assert (a + b)[1..] == a[1..] + b;
      var span := Strip(a[0]);
      AddSpansConcat(if span != "" && span !in spans then spans + [span] else spans, a[1..], b);
    }
  }

  lemma AddedAre(groups: seq<string>, x: string)
    ensures x in AddSpans([], groups) <==> x != "" && exists g :: g in groups && x == Strip(g)
  {
    hide Strip;
    SpansAreTheGroups([], groups);
  }

  /** The spans stand in this order: those of straight runs, then those of curly runs that are new, then those of block
      quotes. */
  lemma SpansInOrder(answer: string) returns (n: nat, m: nat)
    ensures n <= m <= |QuotedSpans(answer)|
    ensures forall x :: x in QuotedSpans(answer)[..n] <==>
              x != "" && exists g :: StraightText(answer, g) && x == Strip(g)
    ensures forall x :: x in QuotedSpans(answer)[..m] <==>
              x != "" && exists g :: (StraightText(answer, g) || ForemostText(answer, g)) && x == Strip(g)
  {
    var a, b, c := Quoted(answer, '"', '"'), Quoted(answer, LEFT_MARK, RIGHT_MARK), BlocksFrom(answer, 0);
    forall g ensures (g in a <==> StraightText(answer, g)) && (g in b <==> ForemostText(answer, g)) {
      StraightGroups(answer, g);
      CurlyGroups(answer, g);
    }
    hide StraightText, ForemostText, Strip, BlocksFrom, Quoted, AddSpans;
    AddSpansConcat([], a + b, c);
    AddSpansConcat([], a, b);
    AddSpansConcat(AddSpans([], a), b, []);
    AddSpansConcat(AddSpans([], a + b), c, []);
    n, m := |AddSpans([], a)|, |AddSpans([], a + b)|;
    PrefixIs(AddSpans([], a), QuotedSpans(answer));
    PrefixIs(AddSpans([], a + b), QuotedSpans(answer));
    forall x ensures x in AddSpans([], a) <==> x != "" && exists g :: StraightText(answer, g) && x == Strip(g) {
      AddedAre(a, x);
    }
    forall x ensures x in AddSpans([], a + b) <==>
      x != "" && exists g :: (StraightText(answer, g) || ForemostText(answer, g)) && x == Strip(g)
    {
      AddedAre(a + b, x);
    }
  }

  lemma PrefixIs(a: seq<string>, b: seq<string>)
    requires a <= b
    ensures |a| <= |b| && b[..|a|] == a
  {}

  /** A curly run lies within a foremost one that ends with it. */
  lemma CurlyWithin(s: string, x: string) returns (g: string)
    requires CurlyText(s, x)
    ensures ForemostText(s, g) && |x| <= |g| && g[|g| - |x|..] == x
  {
    hide RunEnd, Matches, Foremost;
    var m: nat :| LongRun(s, LEFT_MARK, RIGHT_MARK, m) && x == Inside(s, RIGHT_MARK, m);
    var k := CurlyCovered(s, LEFT_MARK, RIGHT_MARK, 0, m);
    CurlyExamined(s, LEFT_MARK, RIGHT_MARK, k);
    g := Inside(s, RIGHT_MARK, k);
  }

  /** Every quoted passage is, apart from blanks at its ends, part of a span that is looked up. */
  lemma PassageIsLookedUp(answer: string, x: string) returns (span: string)
    requires Passage(answer, x) && Strip(x) != ""
    ensures span in QuotedSpans(answer) && Contains(span, Strip(x))
  {
    hide StraightText, CurlyText, ForemostText, LineText, QuotedSpans, Strip, Contains, BlocksFrom;
    var g := x;
    var lead := StripForm(x);
    if CurlyText(answer, x) {
      g := CurlyWithin(answer, x);
      SuffixStripped(g, x);
    } else if StraightText(answer, x) {
      SuffixStripped(g, x);
    } else {
      g := LineGroup(answer, x);
    }
    span := Strip(g);
    EmptyHasNone(Strip(x));
    SpansAreExactly(answer, span);
  }

  lemma EmptyHasNone(x: string)
    ensures x != "" ==> !Contains("", x)
  {}

  lemma SuffixStripped(g: string, x: string)
    requires |x| <= |g| && g[|g| - |x|..] == x && Strip(x) != ""
    ensures Contains(Strip(g), Strip(x))
  {
    hide Strip, Contains;
    var lead := StripForm(x);
    var u := Strip(x);
    var at := |g| - |x| + lead;
    assert forall k :: 0 <= k < |x| ==> x[k] == g[|g| - |x| + k];
    assert g[at..at + |u|] == u;
    FoundAt(g, u, at);
    StripHolds(g, u);
  }

  lemma LineGroup(s: string, x: string) returns (g: string)
    requires LineText(s, x)
    ensures g in BlocksFrom(s, 0) && Contains(Strip(g), Strip(x))
  {
    hide IsSpace, BlocksFrom, Strip, Contains, RunEnd;
    var p: nat, a: nat :| QuoteLine(s, p, a) && x == s[a + 1..LineEnd(s, p)];
    g := QuoteLineCovered(s, 0, p, a);
  }

  // ---------------------------------------------------------------------------
  // A passage that is not looked up
  // ---------------------------------------------------------------------------

  /** A text within one line and free of quotation marks. */
  predicate Unmarked(x: string) {
    forall c :: c in x ==> c != '"' && c != '\n' && c != LEFT_MARK
  }

  /** `"word"middle"passage"`: the closing mark of a short quotation pairs with the mark that opens the next one. */
  function TwoQuotations(word: string, middle: string, passage: string): string {
    "\"" + word + "\"" + middle + "\"" + passage + "\""
  }

  lemma TwoQuotationsAt(word: string, middle: string, passage: string)
    ensures var s := TwoQuotations(word, middle, passage);
            var b := |word| + 1;
            var c := b + |middle| + 1;
            var d := c + |passage| + 1;
            && |s| == d + 1 && s[0] == '"' && s[b] == '"' && s[c] == '"' && s[d] == '"'
            && s[1..b] == word && s[b + 1..c] == middle && s[c + 1..d] == passage
  {}

  /** Its runs: the first is too short, the second and the third are long and share a mark. */
  lemma TwoQuotationsRuns(word: string, middle: string, passage: string)
    requires Unmarked(word) && Unmarked(middle) && Unmarked(passage)
    requires |word| < SPAN_CHARS <= |middle| && |passage| >= SPAN_CHARS
    ensures var s := TwoQuotations(word, middle, passage);
            var b := |word| + 1;
            var c := b + |middle| + 1;
            && (forall m: nat :: LongRun(s, '"', '"', m) <==> m == b || m == c)
            && Inside(s, '"', b) == middle && Inside(s, '"', c) == passage
            && BackRuns(s, b) == 0 && BackRuns(s, c) == 1
  {
    var s := TwoQuotations(word, middle, passage);
    var b := |word| + 1;
    var c := b + |middle| + 1;
    var d := c + |passage| + 1;
    TwoQuotationsAt(word, middle, passage);
    hide RunEnd, BackRuns, TwoQuotations, Unmarked;
    RunOver(s, 1, word);
    RunOver(s, b + 1, middle);
    RunOver(s, c + 1, passage);
    OnlyMarks(s, b, c, d);
    NoRunBefore(s, b);
    BackRunsNext(s, b);
  }

  lemma RunOver(s: string, i: nat, x: string)
    requires Unmarked(x) && i + |x| < |s| && s[i..i + |x|] == x && s[i + |x|] == '"'
    ensures RunEnd(s, '"', i) == i + |x|
    ensures forall k :: i <= k < i + |x| ==> s[k] != '"'
  {
    forall k | i <= k < i + |x| ensures s[k] != '"' && s[k] != '\n' {
      assert s[k] == x[k - i] && x[k - i] in x;
    }
    RunEndsAt(s, '"', i, i + |x|);
  }

  lemma OnlyMarks(s: string, b: nat, c: nat, d: nat)
    requires 0 < b < c < d && |s| == d + 1 && b <= SPAN_CHARS && c - b > SPAN_CHARS && d - c > SPAN_CHARS
    requires forall k :: 0 <= k <= d ==> (s[k] == '"' <==> k == 0 || k == b || k == c || k == d)
    requires RunEnd(s, '"', 1) == b && RunEnd(s, '"', b + 1) == c && RunEnd(s, '"', c + 1) == d
    ensures forall m: nat :: LongRun(s, '"', '"', m) <==> m == b || m == c
  {
    hide RunEnd;
  }

  /** Where the run before a mark is short, nothing long ends there. */
  lemma NoRunBefore(s: string, b: nat)
    requires 0 < b < |s| && s[0] == '"' && b <= SPAN_CHARS && s[b] == '"'
    ensures BackRuns(s, b) == 0
  {
    if BackRuns(s, b) > 0 {
      var j := BackRunsLast(s, b);
      assert false;
    }
  }

  lemma {:induction false} NoBlocks(s: string, i: nat)
    requires i <= |s| && s != "" && s[0] != '>' && !IsSpace(s[0]) && '\n' !in s
    ensures BlocksFrom(s, i) == []
    decreases |s| - i
  {
    hide IsSpace, BackTo, LineEnd;
    BlanksAre(s, i);
    if i < |s| {
      NoBlocks(s, i + 1);
    }
  }

  /** Only the middle is looked up; the passage between the last two marks, however long, never is. */
  lemma OnlyTheMiddleIsLookedUp(word: string, middle: string, passage: string)
    requires Unmarked(word) && Unmarked(middle) && Unmarked(passage)
    requires |word| < SPAN_CHARS <= |middle| && |passage| >= SPAN_CHARS
    ensures forall x :: x in QuotedSpans(TwoQuotations(word, middle, passage)) <==> x == Strip(middle) && x != ""
  {
    hide BackRuns, RunEnd, Inside, Strip, BlocksFrom, QuotedSpans, Foremost, TwoQuotations, Unmarked, LongRun, IsSpace,
      StraightText;
    var s := TwoQuotations(word, middle, passage);
    TwoQuotationsAt(word, middle, passage);
    TwoQuotationsRuns(word, middle, passage);
    TwoQuotationsClean(word, middle, passage);
    NoBlocks(s, 0);
    assert LongRun(s, '"', '"', |word| + 1);
    forall g ensures StraightText(s, g) <==> g == middle {
      OneStraight(s, |word| + 1, |word| + |middle| + 2, g);
    }
    JustOneSpan(s, middle);
  }

  lemma JustOneSpan(s: string, text: string)
    requires (forall g :: StraightText(s, g) <==> g == text) && BlocksFrom(s, 0) == []
    requires forall m: nat :: !LongRun(s, LEFT_MARK, RIGHT_MARK, m)
    ensures forall x :: x in QuotedSpans(s) <==> x == Strip(text) && x != ""
  {
    hide StraightText, LongRun, Foremost, Inside, Strip, BlocksFrom, QuotedSpans;
    forall x ensures x in QuotedSpans(s) <==> x == Strip(text) && x != "" {
      SpansAreExactly(s, x);
      assert StraightText(s, text);
    }
  }

  /** With two long runs that share a mark, only the inside of the first is examined. */
  lemma OneStraight(s: string, b: nat, c: nat, g: string)
    requires LongRun(s, '"', '"', b) && BackRuns(s, b) == 0 && c <= |s| && BackRuns(s, c) == 1
    requires forall m: nat :: LongRun(s, '"', '"', m) <==> m == b || m == c
    ensures StraightText(s, g) <==> g == Inside(s, '"', b)
  {
    hide BackRuns, RunEnd, Inside;
    assert LongRun(s, '"', '"', b);
  }

  lemma TwoQuotationsClean(word: string, middle: string, passage: string)
    requires Unmarked(word) && Unmarked(middle) && Unmarked(passage)
    ensures var s := TwoQuotations(word, middle, passage);
            && s[0] == '"' && !IsSpace('"') && '\n' !in s && LEFT_MARK !in s
            && forall m: nat :: !LongRun(s, LEFT_MARK, RIGHT_MARK, m)
  {
    hide RunEnd;
  }

  // ---------------------------------------------------------------------------
  // Quotations over several lines
  // ---------------------------------------------------------------------------

  lemma InsideOneLine(s: string, open: char, close: char, m: nat)
    requires LongRun(s, open, close, m)
    ensures '\n' !in Inside(s, close, m)
  {
    RunIsFree(s, close, m + 1);
    hide RunEnd;
    var x := Inside(s, close, m);
    forall i | 0 <= i < |x| ensures x[i] != '\n' {
      assert x[i] == s[m + 1 + i];
    }
  }

  lemma GroupOneLine(s: string, g: string)
    requires StraightText(s, g) || ForemostText(s, g) || g in BlocksFrom(s, 0)
    ensures '\n' !in g
  {
    hide BackRuns, RunEnd, Inside, Foremost, BlocksFrom;
    if StraightText(s, g) {
      var m: nat :| LongRun(s, '"', '"', m) && BackRuns(s, m) % 2 == 0 && g == Inside(s, '"', m);
      InsideOneLine(s, '"', '"', m);
    } else if ForemostText(s, g) {
      var m: nat :| LongRun(s, LEFT_MARK, RIGHT_MARK, m) && Foremost(s, LEFT_MARK, RIGHT_MARK, m)
                    && g == Inside(s, RIGHT_MARK, m);
      InsideOneLine(s, LEFT_MARK, RIGHT_MARK, m);
    } else {
      BlocksAre(s, 0, g);
      var p: nat, a: nat, b: nat :| Block(s, p, a, b) && g == s[b..LineEnd(s, b)];
      RestOneLine(s, b);
    }
  }

  lemma RestOneLine(s: string, b: nat)
    requires b <= |s|
    ensures '\n' !in s[b..LineEnd(s, b)]
  {
    RunIsFree(s, '\n', b);
    var x := s[b..LineEnd(s, b)];
    hide RunEnd;
    forall i | 0 <= i < |x| ensures x[i] != '\n' {
      assert x[i] == s[b + i];
    }
  }

  /** No span that is looked up reaches over a line: a quotation broken by a newline is never examined as a whole. */
  lemma SpansOnOneLine(answer: string, x: string)
    requires x in QuotedSpans(answer)
    ensures '\n' !in x
  {
    hide StraightText, ForemostText, BlocksFrom, Strip, QuotedSpans;
    SpansAreExactly(answer, x);
    var g :| x == Strip(g) && (StraightText(answer, g) || ForemostText(answer, g) || g in BlocksFrom(answer, 0));
    GroupOneLine(answer, g);
    var lead := StripForm(g);
  }

  /** `"first` and, on the next line, `second"`. */
  function BrokenQuotation(first: string, second: string): string {
    "\"" + first + "\n" + second + "\""
  }

  lemma BrokenAt(first: string, second: string)
    ensures var s := BrokenQuotation(first, second);
            var b := |first| + 1;
            var d := b + |second| + 1;
            && |s| == d + 1 && s[0] == '"' && s[b] == '\n' && s[d] == '"'
            && s[1..b] == first && s[b + 1..d] == second
  {}

  lemma BrokenMarks(first: string, second: string)
    requires Unmarked(first) && Unmarked(second) && '>' !in first && '>' !in second
    ensures var s := BrokenQuotation(first, second);
            && (forall k :: 0 <= k < |s| && s[k] == '"' ==> k == 0 || k == |s| - 1)
            && (forall k :: 0 <= k < |s| ==> s[k] != '>' && s[k] != LEFT_MARK)
            && RunEnd(s, '"', 1) == |first| + 1
  {
    BrokenAt(first, second);
    var s := BrokenQuotation(first, second);
    var b := |first| + 1;
    assert forall k :: 1 <= k < b ==> s[k] == first[k - 1] && first[k - 1] in first;
    assert forall k :: b + 1 <= k < |s| - 1 ==> s[k] == second[k - b - 1] && second[k - b - 1] in second;
    RunEndsAt(s, '"', 1, b);
  }

  lemma BrokenHasNoSpan(first: string, second: string)
    requires Unmarked(first) && Unmarked(second) && '>' !in first && '>' !in second
    ensures QuotedSpans(BrokenQuotation(first, second)) == []
  {
    var s := BrokenQuotation(first, second);
    BrokenAt(first, second);
    BrokenMarks(first, second);
    hide BrokenQuotation, Unmarked, RunEnd, QuotedSpans, Strip, BlocksFrom, BackRuns, Foremost, Inside;
    assert forall m: nat :: !LongRun(s, '"', '"', m);
    assert forall m: nat :: !LongRun(s, LEFT_MARK, RIGHT_MARK, m);
    forall x ensures x !in QuotedSpans(s) {
      NoGroups(s, x);
    }
    if QuotedSpans(s) != [] {
      assert QuotedSpans(s)[0] in QuotedSpans(s);
    }
  }

  lemma NoGroups(s: string, x: string)
    requires forall m: nat :: !LongRun(s, '"', '"', m) && !LongRun(s, LEFT_MARK, RIGHT_MARK, m)
    requires forall k :: 0 <= k < |s| ==> s[k] != '>'
    ensures x !in QuotedSpans(s)
  {
    hide QuotedSpans, Strip, BlocksFrom, BackRuns, Foremost, Inside, LongRun, LineEnd;
    SpansAreExactly(s, x);
    forall g ensures !StraightText(s, g) && !ForemostText(s, g) && g !in BlocksFrom(s, 0) {
      if g in BlocksFrom(s, 0) {
        BlocksAre(s, 0, g);
      }
    }
  }
}
