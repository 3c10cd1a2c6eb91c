/** The words of an answer: normalisation, quoted spans, and finding a span in the evidence. */
module AnswerText {
  import opened Results
  import opened Text

  predicate At(s: string, sub: string, i: nat) {
    i + |sub| <= |s| && s[i..i + |sub|] == sub
  }

  /** `sub in s`. */
  predicate Contains(s: string, sub: string) {
    exists i: nat :: i <= |s| && At(s, sub, i)
  }

  // ---------------------------------------------------------------------------
  // norm
  // ---------------------------------------------------------------------------

  /** Curly quotes, dashes and the no-break space become their plain forms. */
  function PlainChar(c: char): char {
    if c == '\U{2018}' || c == '\U{2019}' then '\''
    else if c == '\U{201C}' || c == '\U{201D}' then '"'
    else if c == '\U{2013}' || c == '\U{2014}' then '-'
    else if c == '\U{A0}' then ' '
    else c
  }

  function Translate(s: string): string {
    if s == "" then "" else [PlainChar(s[0])] + Translate(s[1..])
  }

  /** `re.sub(r"\s+", " ", s)`: each run of blanks becomes one space. */
  function Collapse(s: string): string {
    if s == "" then ""
    else if IsSpace(s[0]) then
      if |s| > 1 && IsSpace(s[1]) then Collapse(s[1..]) else " " + Collapse(s[1..])
    else [s[0]] + Collapse(s[1..])
  }

  function Norm(text: string): string {
    Lower(Strip(Collapse(Translate(text))))
  }

  /** What a normalised text looks like: trimmed, its only blanks single spaces. */
  predicate Normal(s: string) {
    && Trimmed(s)
    && (forall c :: c in s && IsSpace(c) ==> c == ' ')
    && forall i :: 0 <= i < |s| - 1 ==> s[i] != ' ' || s[i + 1] != ' '
  }

  lemma LowerCharSpace(c: char)
    ensures IsSpace(LowerChar(c)) <==> IsSpace(c)
    ensures LowerChar(c) == ' ' <==> c == ' '
    ensures IsSpace(c) ==> LowerChar(c) == c
    ensures LowerChar(LowerChar(c)) == LowerChar(c)
  {}

  lemma PlainCharSpace(c: char)
    ensures IsSpace(PlainChar(c)) <==> IsSpace(c)
    ensures PlainChar(PlainChar(c)) == PlainChar(c)
  {}

  lemma {:induction false} CollapseForm(s: string)
    ensures var r := Collapse(s);
            && (r == "" <==> s == "")
            && (s != "" ==> (r[0] == ' ' <==> IsSpace(s[0])))
            && (forall c :: c in r && IsSpace(c) ==> c == ' ')
            && forall i :: 0 <= i < |r| - 1 ==> r[i] != ' ' || r[i + 1] != ' '
  {
    assert IsSpace(' ');
    if s != "" {
      hide IsSpace;
      CollapseForm(s[1..]);
    }
  }

  lemma NormIsNormal(text: string)
    ensures Normal(Norm(text))
  {
    var c := Collapse(Translate(text));
    var s := Strip(c);
    var r := Lower(s);
    CollapseForm(Translate(text));
    var lead := StripForm(c);
    hide IsSpace, LowerChar, Collapse, Translate;
    forall i | 0 <= i < |s| ensures IsSpace(r[i]) <==> IsSpace(s[i]) {
      LowerCharSpace(s[i]);
    }
    forall x | x in r && IsSpace(x) ensures x == ' ' {
      var i :| 0 <= i < |r| && r[i] == x;
      LowerCharSpace(s[i]);
      assert s[i] in s;
    }
    forall i | 0 <= i < |r| - 1 ensures r[i] != ' ' || r[i + 1] != ' ' {
      LowerCharSpace(s[i]);
      LowerCharSpace(s[i + 1]);
      assert s[i] == c[lead + i] && s[i + 1] == c[lead + i + 1];
    }
  }

  lemma {:induction false} TranslateFixed(s: string)
    requires forall c :: c in s ==> PlainChar(c) == c
    ensures Translate(s) == s
  {
    hide PlainChar;
    if s != "" {
      assert s[0] in s && forall c :: c in s[1..] ==> c in s;
      TranslateFixed(s[1..]);
    }
  }

  lemma {:induction false} TranslatePlain(s: string)
    ensures |Translate(s)| == |s|
    ensures forall i :: 0 <= i < |s| ==> Translate(s)[i] == PlainChar(s[i])
  {
    hide PlainChar;
    if s != "" {
      TranslatePlain(s[1..]);
    }
  }

  lemma {:induction false} CollapseFixed(s: string)
    requires forall c :: c in s && IsSpace(c) ==> c == ' '
    requires forall i :: 0 <= i < |s| - 1 ==> s[i] != ' ' || s[i + 1] != ' '
    ensures Collapse(s) == s
  {
    assert IsSpace(' ');
    if s != "" {
      hide IsSpace;
      var t := s[1..];
      assert forall c :: c in t ==> c in s;
      assert forall i :: 0 <= i < |t| ==> t[i] == s[i + 1];
      assert s[0] in s && (|s| > 1 ==> s[1] in s);
      CollapseFixed(t);
      assert s == [s[0]] + t;
    }
  }

  lemma {:induction false} CollapseSubset(s: string)
    ensures forall c :: c in Collapse(s) ==> c == ' ' || c in s
  {
    hide IsSpace;
    if s != "" {
      CollapseSubset(s[1..]);
    }
  }

  /** Normalising twice changes nothing more. */
  lemma NormIdempotent(text: string)
    ensures Norm(Norm(text)) == Norm(text)
  {
    var n := Norm(text);
    NormIsNormal(text);
    NormPlain(text);
    TranslateFixed(n);
    CollapseFixed(n);
    StripTrimmed(n);
    LowerFixed(n);
  }

  lemma LowerFixed(n: string)
    requires forall c :: c in n ==> LowerChar(c) == c
    ensures Lower(n) == n
  {
    hide LowerChar;
    assert forall i :: 0 <= i < |n| ==> n[i] in n;
  }

  lemma LowerPlainChar(c: char)
    requires PlainChar(c) == c
    ensures PlainChar(LowerChar(c)) == LowerChar(c)
  {}

  lemma NormPlain(text: string)
    ensures forall c :: c in Norm(text) ==> PlainChar(c) == c && LowerChar(c) == c
  {
    var t := Translate(text);
    var s := Strip(Collapse(t));
    TranslatePlain(text);
    CollapseSubset(t);
    var lead := StripForm(Collapse(t));
    forall c | c in Norm(text) ensures PlainChar(c) == c && LowerChar(c) == c {
      hide IsSpace, Collapse, Translate, Strip;
      var i :| 0 <= i < |s| && c == LowerChar(s[i]);
      assert s[i] in s;
      if s[i] != ' ' {
        var j :| 0 <= j < |t| && t[j] == s[i];
        PlainCharSpace(text[j]);
      }
      LowerPlainChar(s[i]);
      LowerCharSpace(s[i]);
    }
  }

  // ---------------------------------------------------------------------------
  // Joined texts
  // ---------------------------------------------------------------------------

  const SEPARATOR := " \n "

  /** A found text that is trimmed and on one line does not reach across a separator. */
  lemma NotAcross(a: string, b: string, sub: string)
    requires sub != "" && Trimmed(sub) && '\n' !in sub
    ensures Contains(a + SEPARATOR + b, sub) <==> Contains(a, sub) || Contains(b, sub)
  {
    hide IsSpace, Contains;
    var s := a + SEPARATOR + b;
    assert s[0..|a|] == a && s[|a| + 3..|a| + 3 + |b|] == b;
    if Contains(s, sub) {
      WithinEither(a, b, sub);
    }
    if Contains(a, sub) {
      PartInWhole(a, 0, s, sub);
    }
    if Contains(b, sub) {
      PartInWhole(b, |a| + 3, s, sub);
    }
  }

  lemma WithinEither(a: string, b: string, sub: string)
    requires sub != "" && Trimmed(sub) && '\n' !in sub && Contains(a + SEPARATOR + b, sub)
    ensures Contains(a, sub) || Contains(b, sub)
  {
    hide IsSpace;
    var s := a + SEPARATOR + b;
    assert s[0..|a|] == a && s[|a| + 3..|a| + 3 + |b|] == b;
    assert s[|a|] == ' ' && s[|a| + 1] == '\n' && s[|a| + 2] == ' ';
    assert IsSpace(' ') by { SpaceIsSpace(); }
    var i: nat :| i <= |s| && At(s, sub, i);
    if i + |sub| <= |a| {
      AtPart(a, 0, s, sub, i);
    } else if i >= |a| + 3 {
      AtPart(b, |a| + 3, s, sub, i);
    } else {
      AcrossSeparator(s, |a|, sub, i);
    }
  }

  lemma PartInWhole(part: string, from: nat, s: string, sub: string)
    requires from + |part| <= |s| && s[from..from + |part|] == part && Contains(part, sub)
    ensures Contains(s, sub)
  {
    var i: nat :| i <= |part| && At(part, sub, i);
    AtWhole(part, from, s, sub, i);
  }

  /** What lies inside a part of the text is found in the part. */
  lemma AtPart(part: string, from: nat, s: string, sub: string, i: nat)
    requires from + |part| <= |s| && s[from..from + |part|] == part
    requires At(s, sub, i) && from <= i && i + |sub| <= from + |part|
    ensures Contains(part, sub)
  {
    assert forall k :: 0 <= k < |part| ==> part[k] == s[from + k];
    assert part[i - from..i - from + |sub|] == s[i..i + |sub|];
    assert At(part, sub, i - from);
  }

  lemma AtWhole(part: string, from: nat, s: string, sub: string, i: nat)
    requires from + |part| <= |s| && s[from..from + |part|] == part
    requires At(part, sub, i)
    ensures Contains(s, sub)
  {
    assert forall k :: 0 <= k < |part| ==> part[k] == s[from + k];
    assert s[from + i..from + i + |sub|] == part[i..i + |sub|];
    assert At(s, sub, from + i);
  }

  lemma SpaceIsSpace()
    ensures IsSpace(' ')
  {}

  /** A text overlapping a separator would start or end with its space, or hold its newline. */
  lemma AcrossSeparator(s: string, n: nat, sub: string, i: nat)
    requires n + 3 <= |s| && s[n] == ' ' && s[n + 1] == '\n' && s[n + 2] == ' '
    requires sub != "" && At(s, sub, i) && i + |sub| > n && i < n + 3
    ensures sub[|sub| - 1] == ' ' || sub[0] == ' ' || '\n' in sub
  {
    assert forall k :: 0 <= k < |sub| ==> sub[k] == s[i + k];
    if i + |sub| == n + 1 {
      assert sub[|sub| - 1] == ' ';
    } else if i == n + 2 {
      assert sub[0] == ' ';
    } else {
      assert sub[n + 1 - i] == '\n';
    }
  }

  /** A normalised span is found in the joined texts exactly when one single text holds it. */
  lemma {:induction false} FoundInOne(texts: seq<string>, sub: string)
    requires sub != "" && Normal(sub)
    ensures Contains(Join(SEPARATOR, texts), sub) <==> exists t :: t in texts && Contains(t, sub)
  {
    assert IsSpace('\n');
    hide IsSpace, Contains;
    assert '\n' !in sub;
    if texts == [] {
      EmptyHoldsNothing(sub);
    } else if |texts| > 1 {
      NotAcross(texts[0], Join(SEPARATOR, texts[1..]), sub);
      FoundInOne(texts[1..], sub);
      assert forall t :: t in texts <==> t == texts[0] || t in texts[1..];
    }
  }

  lemma EmptyHoldsNothing(sub: string)
    requires sub != ""
    ensures !Contains("", sub)
  {}

  // ---------------------------------------------------------------------------
  // Quoted spans
  // ---------------------------------------------------------------------------

  const SPAN_CHARS := 20
  const LEFT_MARK := '\U{201C}'
  const RIGHT_MARK := '\U{201D}'

  /** Where a run free of `stop` and newlines that starts at `i` ends. */
  function RunEnd(s: string, stop: char, i: nat): (e: nat)
    requires i <= |s|
    ensures i <= e <= |s|
    decreases |s| - i
  {
    if i < |s| && s[i] != stop && s[i] != '\n' then RunEnd(s, stop, i + 1) else i
  }

  /** A run opened by `open` at `i`, on one line, closed by the next `close`, with enough characters inside. */
  predicate LongRun(s: string, open: char, close: char, i: nat) {
    i < |s| && s[i] == open
    && var e := RunEnd(s, close, i + 1);
       e < |s| && s[e] == close && e - (i + 1) >= SPAN_CHARS
  }

  function Inside(s: string, close: char, i: nat): string
    requires i < |s|
  {
    s[i + 1..RunEnd(s, close, i + 1)]
  }

  /** Where `open([^close\n]{20,})close` matches from `i` on, left to right and not overlapping. */
  function Matches(s: string, open: char, close: char, i: nat): (r: seq<nat>)
    requires i <= |s|
    ensures forall m :: m in r ==> i <= m && LongRun(s, open, close, m)
    decreases |s| - i
  {
    if i == |s| then []
    else if LongRun(s, open, close, i) then [i] + Matches(s, open, close, RunEnd(s, close, i + 1) + 1)
    else Matches(s, open, close, i + 1)
  }

  function Insides(s: string, close: char, starts: seq<nat>): (r: seq<string>)
    requires forall m :: m in starts ==> m < |s|
    ensures forall g :: g in r <==> exists m :: m in starts && g == Inside(s, close, m)
  {
    if starts == [] then []
    else
      assert starts[0] in starts && starts == [starts[0]] + starts[1..];
      assert forall m :: m in starts[1..] ==> m in starts;
      [Inside(s, close, starts[0])] + Insides(s, close, starts[1..])
  }

  function Quoted(s: string, open: char, close: char): seq<string> {
    Insides(s, close, Matches(s, open, close, 0))
  }

  /** The end of a run of blanks, which may run over lines. */
  function BlanksEnd(s: string, i: nat): (e: nat)
    requires i <= |s|
    ensures i <= e <= |s|
    decreases |s| - i
  {
    if i < |s| && IsSpace(s[i]) then BlanksEnd(s, i + 1) else i
  }

  function LineEnd(s: string, i: nat): (e: nat)
    requires i <= |s|
    ensures i <= e <= |s|
  {
    RunEnd(s, '\n', i)
  }

  /** The last start at or before `g`, not before `from`, whose line still has enough characters. */
  function BackTo(s: string, from: nat, g: nat): (r: Option<nat>)
    requires from <= g <= |s|
    ensures r.Some? ==> from <= r.value <= g && LineEnd(s, r.value) - r.value >= SPAN_CHARS
    decreases g
  {
    if LineEnd(s, g) - g >= SPAN_CHARS then Some(g) else if g == from then None else BackTo(s, from, g - 1)
  }

  /** One match of `^\s*>\s*(.{20,})$` at a line start: where its group begins. */
  function BlockAt(s: string, i: nat): (r: Option<nat>)
    requires i <= |s|
    ensures r.Some? ==> i < r.value <= |s| && LineEnd(s, r.value) - r.value >= SPAN_CHARS
  {
    var a := BlanksEnd(s, i);
    if (i == 0 || s[i - 1] == '\n') && a < |s| && s[a] == '>' then BackTo(s, a + 1, BlanksEnd(s, a + 1)) else None
  }

  function BlocksFrom(s: string, i: nat): seq<string>
    requires i <= |s|
    decreases |s| - i
  {
    var g := BlockAt(s, i);
    if g.Some? then [s[g.value..LineEnd(s, g.value)]] + BlocksFrom(s, LineEnd(s, g.value))
    else if i == |s| then []
    else BlocksFrom(s, i + 1)
  }

  /** The groups of the three patterns, in their order. */
  function Groups(answer: string): seq<string> {
    Quoted(answer, '"', '"') + Quoted(answer, LEFT_MARK, RIGHT_MARK) + BlocksFrom(answer, 0)
  }

  /** Stripped, non-blank, first occurrences only. */
  function AddSpans(spans: seq<string>, groups: seq<string>): seq<string>
    decreases |groups|
  {
    if groups == [] then spans
    else
      var span := Strip(groups[0]);
      AddSpans(if span != "" && span !in spans then spans + [span] else spans, groups[1..])
  }

  function QuotedSpans(answer: string): seq<string> {
    AddSpans([], Groups(answer))
  }

  method CollectSpans(answer: string) returns (spans: seq<string>)
    ensures spans == QuotedSpans(answer)
  {
    spans := [];
    var groups := Groups(answer);
    for i := 0 to |groups|
      invariant QuotedSpans(answer) == AddSpans(spans, groups[i..])
    {
      assert groups[i..][1..] == groups[i + 1..];
      var span := Strip(groups[i]);
      if span != "" && span !in spans {
        spans := spans + [span];
      }
    }
  }

  /** Every group with something in it is listed, stripped, exactly once. */
  lemma {:induction false} SpansAreTheGroups(spans: seq<string>, groups: seq<string>)
    requires forall i, j :: 0 <= i < j < |spans| ==> spans[i] != spans[j]
    ensures var r := AddSpans(spans, groups);
            && (forall x :: x in r <==> x in spans || exists g :: g in groups && x == Strip(g) && x != "")
            && forall i, j :: 0 <= i < j < |r| ==> r[i] != r[j]
    decreases |groups|
  {
    hide Strip;
    if groups != [] {
      var span := Strip(groups[0]);
      var next := if span != "" && span !in spans then spans + [span] else spans;
      assert forall i, j :: 0 <= i < j < |next| ==> next[i] != next[j];
      assert forall x :: x in next <==> x in spans || (x == span && x != "");
      SpansAreTheGroups(next, groups[1..]);
      assert forall g :: g in groups <==> g == groups[0] || g in groups[1..];
    }
  }
}
