/** The verified answer: checking citations and quotations, and the two-attempt repair loop. */
module Answer {
  import opened Results
  import opened Text
  import opened AnswerPassages
  import opened AnswerText

  datatype Evidence = Evidence(n: int, text: string, chunkId: int, documentId: Option<int>, similarity: real)

  /** One citation as the model sent it; `n` is absent when it is not an integer. */
  datatype RawCitation = NotAnObject | Cited(n: Option<int>, quote: string)

  datatype Parsed = Parsed(sufficient: bool, answer: string, citations: seq<RawCitation>)

  datatype Citation = Citation(n: Option<int>, quote: string)

  datatype Checked = Checked(sufficient: bool, answer: string, good: seq<Citation>, bad: seq<Citation>,
                             badSpans: seq<string>)

  const MIN_QUOTE_CHARS := 4

  function NormTexts(evidence: seq<Evidence>): seq<string> {
    if evidence == [] then [] else [Norm(evidence[0].text)] + NormTexts(evidence[1..])
  }

  /** The item numbered `n`; retrieval numbers its items 1, 2, ... so at most one has it. */
  function Item(evidence: seq<Evidence>, n: int): Option<Evidence> {
    if evidence == [] then None else if evidence[0].n == n then Some(evidence[0]) else Item(evidence[1..], n)
  }

  /** A quote of at least four normalised characters that its own cited item holds. */
  predicate QuoteHolds(evidence: seq<Evidence>, c: Citation) {
    c.n.Some? && Item(evidence, c.n.value).Some? && |Norm(c.quote)| >= MIN_QUOTE_CHARS
    && Contains(Norm(Item(evidence, c.n.value).value.text), Norm(c.quote))
  }

  /** Some one item holds the span. */
  predicate SpanHolds(evidence: seq<Evidence>, span: string) {
    exists e :: e in evidence && Contains(Norm(e.text), Norm(span))
  }

  // ---------------------------------------------------------------------------
  // verify
  // ---------------------------------------------------------------------------

  function Stripped(c: RawCitation): Citation
    requires c.Cited?
  {
    Citation(c.n, Strip(c.quote))
  }

  /** The citations that hold (or do not), in order; what is not an object is skipped. */
  function Sorted(evidence: seq<Evidence>, cs: seq<RawCitation>, holding: bool): seq<Citation> {
    if cs == [] then []
    else
      (if cs[0].Cited? && QuoteHolds(evidence, Stripped(cs[0])) == holding then [Stripped(cs[0])] else [])
      + Sorted(evidence, cs[1..], holding)
  }

  /** The spans not found in the joined normalised texts. */
  function Missing(everything: string, spans: seq<string>): seq<string> {
    if spans == [] then []
    else (if Contains(everything, Norm(spans[0])) then [] else [spans[0]]) + Missing(everything, spans[1..])
  }

  function Check(parsed: Parsed, evidence: seq<Evidence>): Checked {
    var answer := Strip(parsed.answer);
    Checked(parsed.sufficient, answer, Sorted(evidence, parsed.citations, true),
        Sorted(evidence, parsed.citations, false),
            Missing(Join(SEPARATOR, NormTexts(evidence)), QuotedSpans(answer)))
  }

  lemma {:induction false} SortedSnoc(evidence: seq<Evidence>, cs: seq<RawCitation>, c: RawCitation, holding: bool)
    ensures Sorted(evidence, cs + [c], holding) == Sorted(evidence, cs, holding) + Sorted(evidence, [c], holding)
  {
    hide QuoteHolds, Stripped;
    if cs == [] {
      assert [] + [c] == [c];
    } else {
      assert (cs + [c])[1..] == cs[1..] + [c];
      SortedSnoc(evidence, cs[1..], c, holding);
    }
  }

  lemma MissingSnoc(everything: string, spans: seq<string>, span: string)
    ensures Missing(everything, spans + [span]) == Missing(everything, spans) + Missing(everything, [span])
  {
    hide Norm, Contains;
    if spans == [] {
      assert [] + [span] == [span];
    } else {
      assert (spans + [span])[1..] == spans[1..] + [span];
      MissingSnoc(everything, spans[1..], span);
    }
  }

  method Verify(parsed: Parsed, evidence: seq<Evidence>) returns (r: Checked)
    ensures r == Check(parsed, evidence)
  {
    hide QuoteHolds, Norm, Contains, Strip, NormTexts;
    var everything := Join(SEPARATOR, NormTexts(evidence));
    var good: seq<Citation>, bad: seq<Citation> := [], [];
    var cs := parsed.citations;
    for i := 0 to |cs|
      invariant good == Sorted(evidence, cs[..i], true) && bad == Sorted(evidence, cs[..i], false)
    {
      SortedSnoc(evidence, cs[..i], cs[i], true);
      SortedSnoc(evidence, cs[..i], cs[i], false);
      assert cs[..i + 1] == cs[..i] + [cs[i]] && [cs[i]][1..] == [];
      if cs[i].NotAnObject? {
        continue;
      }
      var c := Stripped(cs[i]);
      if QuoteHolds(evidence, c) {
        good := good + [c];
      } else {
        bad := bad + [c];
      }
    }
    assert cs[..|cs|] == cs;
    var answer := Strip(parsed.answer);
    var spans := CollectSpans(answer);
    var badSpans: seq<string> := [];
    for i := 0 to |spans|
      invariant badSpans == Missing(everything, spans[..i])
    {
      MissingSnoc(everything, spans[..i], spans[i]);
      assert spans[..i + 1] == spans[..i] + [spans[i]] && [spans[i]][1..] == [];
      if !Contains(everything, Norm(spans[i])) {
        badSpans := badSpans + [spans[i]];
      }
    }
    assert spans[..|spans|] == spans;
    return Checked(parsed.sufficient, answer, good, bad, badSpans);
  }

  lemma {:induction false} SortedHold(evidence: seq<Evidence>, cs: seq<RawCitation>, holding: bool)
    ensures forall c :: c in Sorted(evidence, cs, holding) ==> QuoteHolds(evidence, c) == holding
    ensures forall i :: 0 <= i < |cs| && cs[i].Cited? && QuoteHolds(evidence, Stripped(cs[i])) == holding
              ==> Stripped(cs[i]) in Sorted(evidence, cs, holding)
  {
    hide QuoteHolds, Stripped;
    if cs != [] {
      SortedHold(evidence, cs[1..], holding);
    }
  }

  lemma {:induction false} MissingAre(everything: string, spans: seq<string>)
    ensures forall x :: x in Missing(everything, spans) <==> x in spans && !Contains(everything, Norm(x))
  {
    hide Norm, Contains;
    if spans != [] {
      MissingAre(everything, spans[1..]);
      assert spans == [spans[0]] + spans[1..];
    }
  }

  lemma {:induction false} NormTextsAre(evidence: seq<Evidence>)
    ensures forall t :: t in NormTexts(evidence) <==> exists e :: e in evidence && t == Norm(e.text)
  {
    hide Norm;
    if evidence != [] {
      NormTextsAre(evidence[1..]);
      assert evidence == [evidence[0]] + evidence[1..];
      assert evidence[0] in evidence;
    }
  }

  /** A span listed for the answer has something left after normalising. */
  lemma SpanNormNonEmpty(span: string)
    requires span != "" && Trimmed(span)
    ensures Norm(span) != ""
  {
    var t := Translate(span);
    TranslatePlain(span);
    PlainCharSpace(span[0]);
    CollapseForm(t);
    var c := Collapse(t);
    hide IsSpace, Collapse, Translate;
    assert c[0] == ' ' <==> IsSpace(t[0]);
    assert c[0] in c;
    assert !IsSpace(c[0]);
    var lead := StripForm(c);
    assert |Strip(c)| > 0;
  }

  /** The bad spans are exactly the quoted spans of the answer that no single evidence item holds, although the
      code looks for them in the texts joined together. */
  lemma BadSpansAre(parsed: Parsed, evidence: seq<Evidence>)
    ensures var r := Check(parsed, evidence);
            forall x :: x in r.badSpans <==> x in QuotedSpans(r.answer) && !SpanHolds(evidence, x)
  {
    hide Norm, Contains, SpanHolds, Sorted;
    var answer := Strip(parsed.answer);
    var texts := NormTexts(evidence);
    MissingAre(Join(SEPARATOR, texts), QuotedSpans(answer));
    SpansAreTheGroups([], Groups(answer));
    forall x | x in QuotedSpans(answer) ensures Contains(Join(SEPARATOR, texts), Norm(x)) <==> SpanHolds(evidence, x) {
      var g :| g in Groups(answer) && x == Strip(g) && x != "";
      var lead := StripForm(g);
      SpanInOne(x, evidence);
    }
  }

  lemma SpanInOne(x: string, evidence: seq<Evidence>)
    requires x != "" && Trimmed(x)
    ensures Contains(Join(SEPARATOR, NormTexts(evidence)), Norm(x)) <==> SpanHolds(evidence, x)
  {
    hide Norm, Contains;
    SpanNormNonEmpty(x);
    NormIsNormal(x);
    FoundInOne(NormTexts(evidence), Norm(x));
    NormTextsAre(evidence);
  }

  // ---------------------------------------------------------------------------
  // answer_core
  // ---------------------------------------------------------------------------

  datatype Status = NoEvidence | Unverified | Answered

  datatype Usage = Usage(input: int, output: int, calls: nat)

  datatype OutCitation = OutCitation(n: int, quote: string, chunkId: int, documentId: Option<int>)

  datatype Out = Out(status: Status, answer: Option<string>, confidence: real, citations: seq<OutCitation>,
                     unverified: seq<string>, evidence: seq<Evidence>, usage: Usage)

  /** What one model call returned; no object could be read from its text when `parsed` is absent. */
  datatype Reply = Reply(parsed: Option<Parsed>, input: int, output: int)

  /** The model: its reply to each attempt, given the failures named in the repair message (none at first). */
  type Model = (nat, seq<string>) -> Reply

  function Quotes(cs: seq<Citation>): seq<string> {
    if cs == [] then [] else [cs[0].quote] + Quotes(cs[1..])
  }

  function Failures(r: Checked): seq<string> {
    Quotes(r.bad) + r.badSpans
  }

  function Shown(evidence: seq<Evidence>, c: Citation): OutCitation
    requires c.n.Some? && Item(evidence, c.n.value).Some?
  {
    var e := Item(evidence, c.n.value).value;
    OutCitation(c.n.value, c.quote, e.chunkId, e.documentId)
  }

  function ShownAll(evidence: seq<Evidence>, cs: seq<Citation>): seq<OutCitation>
    requires forall c :: c in cs ==> QuoteHolds(evidence, c)
  {
    if cs == [] then [] else assert QuoteHolds(evidence, cs[0]); [Shown(evidence, cs[0])] + ShownAll(evidence, cs[1..])
  }

  function SumSimilarity(evidence: seq<Evidence>, cs: seq<Citation>): real
    requires forall c :: c in cs ==> QuoteHolds(evidence, c)
  {
    if cs == [] then 0.0
    else
      assert QuoteHolds(evidence, cs[0]);
      Item(evidence, cs[0].n.value).value.similarity + SumSimilarity(evidence, cs[1..])
  }

  function Blank(evidence: seq<Evidence>, usage: Usage): Out {
    Out(NoEvidence, None, 0.0, [], [], evidence, usage)
  }

  function Add(u: Usage, reply: Reply): Usage {
    Usage(u.input + reply.input, u.output + reply.output, u.calls + 1)
  }

  /** `round(x, 3)` on exact numbers: the nearest thousandth, halfway cases to the even one. */
  function Thousandths(x: real): (r: real)
    ensures r - 0.0005 <= x <= r + 0.0005
    ensures r * 1000.0 == (r * 1000.0).Floor as real
    ensures x - r == 0.0005 || r - x == 0.0005 ==> (r * 1000.0).Floor % 2 == 0
  {
    var below := (x * 1000.0).Floor;
    var over := x * 1000.0 - below as real;
    (if over < 0.5 || (over == 0.5 && below % 2 == 0) then below else below + 1) as real / 1000.0
  }

  /** What is released once the attempts are over. */
  function Release(r: Checked, evidence: seq<Evidence>, usage: Usage): Out
    requires forall c :: c in r.good ==> QuoteHolds(evidence, c)
  {
    if r.bad != [] || r.badSpans != [] then Blank(evidence, usage).(status := Unverified, unverified := Failures(r))
    else if !r.sufficient || r.answer == "" || r.good == [] then Blank(evidence, usage)
    else
      Out(Answered, Some(r.answer), Thousandths(SumSimilarity(evidence, r.good) / (|r.good| as real)),
          ShownAll(evidence, r.good), [], evidence, usage)
  }

  /** The run from attempt `k` on. */
  function RunFrom(k: nat, repair: seq<string>, usage: Usage, evidence: seq<Evidence>, model: Model): Result<Out>
    requires k < 2
    decreases 2 - k
  {
    var reply := model(k, repair);
    if reply.parsed.None? then Err(UpstreamError)
    else
      var r := Check(reply.parsed.value, evidence);
      SortedHold(evidence, reply.parsed.value.citations, true);
      if Failures(r) == [] || k == 1 then Ok(Release(r, evidence, Add(usage, reply)))
      else RunFrom(k + 1, Failures(r), Add(usage, reply), evidence, model)
  }

  function Run(evidence: seq<Evidence>, model: Model): Result<Out> {
    if evidence == [] then Ok(Blank([], Usage(0, 0, 0))) else RunFrom(0, [], Usage(0, 0, 0), evidence, model)
  }

  lemma NoFailures(r: Checked)
    ensures Failures(r) == [] <==> r.bad == [] && r.badSpans == []
  {}

  method AnswerCore(evidence: seq<Evidence>, model: Model) returns (res: Result<Out>)
    ensures res == Run(evidence, model)
  {
    hide Check, ShownAll, SumSimilarity;
    if evidence == [] {
      return Ok(Blank([], Usage(0, 0, 0)));
    }
    var usage := Usage(0, 0, 0);
    var repair: seq<string> := [];
    var result: Option<Checked> := None;
    var attempt := 0;
    while attempt < 2
      invariant 0 <= attempt <= 2
      invariant attempt < 2 ==> Run(evidence, model) == RunFrom(attempt, repair, usage, evidence, model)
      invariant attempt == 2 ==> result.Some? && (forall c :: c in result.value.good ==> QuoteHolds(evidence, c))
                                 && Run(evidence, model) == Ok(Release(result.value, evidence, usage))
    {
      var reply := model(attempt, repair);
      usage := Add(usage, reply);
      if reply.parsed.None? {
        return Err(UpstreamError);
      }
      var r := Verify(reply.parsed.value, evidence);
      GoodHold(reply.parsed.value, evidence);
      result := Some(r);
      if Failures(r) == [] {
        return Ok(Release(r, evidence, usage));
      }
      repair := Failures(r);
      attempt := attempt + 1;
    }
    return Ok(Release(result.value, evidence, usage));
  }

  lemma GoodHold(parsed: Parsed, evidence: seq<Evidence>)
    ensures forall c :: c in Check(parsed, evidence).good ==> QuoteHolds(evidence, c)
  {
    SortedHold(evidence, parsed.citations, true);
  }

  // ---------------------------------------------------------------------------
  // Safety of every run
  // ---------------------------------------------------------------------------

  lemma {:induction false} ShownHold(evidence: seq<Evidence>, cs: seq<Citation>)
    requires forall c :: c in cs ==> QuoteHolds(evidence, c)
    ensures |ShownAll(evidence, cs)| == |cs|
    ensures forall c :: c in ShownAll(evidence, cs) ==>
      exists e :: e in evidence && c.n == e.n && c.chunkId == e.chunkId && c.documentId == e.documentId
                  && |Norm(c.quote)| >= MIN_QUOTE_CHARS && Contains(Norm(e.text), Norm(c.quote))
  {
    hide Norm, Contains;
    if cs != [] {
      assert cs[0] in cs && forall c :: c in cs[1..] ==> c in cs;
      ItemIsIn(evidence, cs[0].n.value);
      ShownHold(evidence, cs[1..]);
      var e := Item(evidence, cs[0].n.value).value;
      var shown := Shown(evidence, cs[0]);
      assert e in evidence && shown.n == e.n && Contains(Norm(e.text), Norm(shown.quote));
    }
  }

  lemma {:induction false} ItemIsIn(evidence: seq<Evidence>, n: int)
    requires Item(evidence, n).Some?
    ensures Item(evidence, n).value in evidence && Item(evidence, n).value.n == n
  {
    if evidence[0].n != n {
      ItemIsIn(evidence[1..], n);
    }
  }

  /** One item holds the text, apart from blanks at its ends. */
  ghost predicate Held(evidence: seq<Evidence>, x: string) {
    Strip(x) == "" || SpanHolds(evidence, Strip(x))
  }

  lemma PartHolds(evidence: seq<Evidence>, span: string, part: string)
    requires SpanHolds(evidence, span) && part != "" && Trimmed(part) && Contains(span, part)
    ensures SpanHolds(evidence, part)
  {
    hide Norm, Contains;
    NormHolds(span, part);
    var e :| e in evidence && Contains(Norm(e.text), Norm(span));
    ContainsTransitive(Norm(e.text), Norm(span), Norm(part));
  }

  /** When every span that is looked up is found, every quoted passage of the answer is. */
  lemma PassagesHold(evidence: seq<Evidence>, answer: string)
    requires forall x :: x in QuotedSpans(answer) ==> SpanHolds(evidence, x)
    ensures forall x :: Passage(answer, x) ==> Held(evidence, x)
  {
    hide Passage, SpanHolds, QuotedSpans, Strip, Contains;
    forall x | Passage(answer, x) && Strip(x) != "" ensures Held(evidence, x) {
      var span := PassageIsLookedUp(answer, x);
      var lead := StripForm(x);
      PartHolds(evidence, span, Strip(x));
    }
  }

  /** An answer that may be shown: cited, each quote in its own item, and each quoted passage within one single item. */
  ghost predicate Verified(out: Out, evidence: seq<Evidence>) {
    && out.answer.Some? && out.answer.value != "" && out.citations != []
    && (forall c :: c in out.citations ==>
          exists e :: e in evidence && c.n == e.n && c.chunkId == e.chunkId && c.documentId == e.documentId
                      && |Norm(c.quote)| >= MIN_QUOTE_CHARS && Contains(Norm(e.text), Norm(c.quote)))
    && (forall x :: x in QuotedSpans(out.answer.value) ==> SpanHolds(evidence, x))
    && forall x :: Passage(out.answer.value, x) ==> Held(evidence, x)
  }

  /** In an answer that may be shown, and in which no long run between straight marks starts where another ends,
      every long run is held by the evidence. */
  lemma EveryLongRunIsHeld(out: Out, evidence: seq<Evidence>)
    requires Verified(out, evidence)
    requires forall m: nat :: LongRun(out.answer.value, '"', '"', m)
                              ==> !LongRun(out.answer.value, '"', '"', RunEnd(out.answer.value, '"', m + 1))
    ensures forall m: nat :: LongRun(out.answer.value, '"', '"', m) ==> Held(evidence, Inside(out.answer.value, '"', m))
  {
    hide BackRuns, RunEnd, Inside, Held;
    var s := out.answer.value;
    AllStraightExamined(s);
    forall m: nat | LongRun(s, '"', '"', m) ensures Held(evidence, Inside(s, '"', m)) {
      StraightExamined(s, m);
      assert Passage(s, Inside(s, '"', m));
    }
  }

  lemma ReleaseIsSafe(parsed: Parsed, evidence: seq<Evidence>, usage: Usage)
    ensures var r := Check(parsed, evidence);
            && (forall c :: c in r.good ==> QuoteHolds(evidence, c))
            && var out := Release(r, evidence, usage);
               && out.usage == usage && out.evidence == evidence
               && (out.status == Answered ==> Verified(out, evidence))
               && (out.status != Answered ==> out.answer == None && out.citations == [] && out.confidence == 0.0)
               && (out.status == Unverified <==> Failures(r) != [])
  {
    hide Norm, Contains, SpanHolds, Sorted, QuotedSpans, QuoteHolds, Missing, SumSimilarity, Passage, Held;
    var r := Check(parsed, evidence);
    GoodHold(parsed, evidence);
    BadSpansAre(parsed, evidence);
    if r.badSpans == [] {
      PassagesHold(evidence, r.answer);
    }
    ShownHold(evidence, r.good);
    NoFailures(r);
  }

  /** The replies of the two calls a run can make, the second to the failures of the first. */
  function Replies(evidence: seq<Evidence>, model: Model): (rs: seq<Reply>)
    ensures |rs| == 2
  {
    var first := model(0, []);
    var failures := if first.parsed.Some? then Failures(Check(first.parsed.value, evidence)) else [];
    [first, model(1, failures)]
  }

  function SumUsage(replies: seq<Reply>): Usage {
    if replies == [] then Usage(0, 0, 0) else Add(SumUsage(replies[..|replies| - 1]), replies[|replies| - 1])
  }

  lemma SumOfTwo(a: Reply, b: Reply)
    ensures SumUsage([a, b][..0]) == Usage(0, 0, 0)
    ensures SumUsage([a, b][..1]) == Add(Usage(0, 0, 0), a)
    ensures SumUsage([a, b][..2]) == Add(Add(Usage(0, 0, 0), a), b)
  {
    assert [a, b][..1] == [a] && [a][..0] == [] && [a, b][..0] == [];
    assert [a, b][..2] == [a, b] && [a, b][..1] == [a];
  }

  /** Over every run, whatever the model replies: no evidence costs no call; at most two calls are made and their
      usage is summed; an answer is withheld only after the second; and what is answered is verified. */
  lemma AnswerIsSafe(evidence: seq<Evidence>, model: Model)
    ensures var res := Run(evidence, model);
            res.Ok? ==>
              && var out := res.value;
              && (out.usage.calls == 0 <==> evidence == []) && out.usage.calls <= 2
              && (out.status == Answered ==> Verified(out, evidence))
              && (out.status != Answered ==> out.answer == None && out.citations == [] && out.confidence == 0.0)
              && (out.status == Unverified ==> out.usage.calls == 2)
              && (evidence == [] ==> out.status == NoEvidence)
              && out.usage == SumUsage(Replies(evidence, model)[..out.usage.calls])
  {
    hide Check, Release, Verified;
    var replies := Replies(evidence, model);
    SumOfTwo(replies[0], replies[1]);
    assert replies == [replies[0], replies[1]];
    if evidence != [] {
      var first := model(0, []);
      if first.parsed.Some? {
        var r := Check(first.parsed.value, evidence);
        ReleaseIsSafe(first.parsed.value, evidence, Add(Usage(0, 0, 0), first));
        var second := model(1, Failures(r));
        if second.parsed.Some? {
          ReleaseIsSafe(second.parsed.value, evidence, Add(Add(Usage(0, 0, 0), first), second));
        }
      }
    }
  }

  /** The error reply arises exactly when a call that was made returned no JSON object. */
  lemma FailsOnlyOnUnreadableReply(evidence: seq<Evidence>, model: Model)
    ensures Run(evidence, model).Err? <==>
            evidence != [] && var first := model(0, []);
            first.parsed.None? ||
            var r := Check(first.parsed.value, evidence);
            Failures(r) != [] && model(1, Failures(r)).parsed.None?
  {
    hide Check, Release;
  }

  /** The converse of safety: an answer whose every quote and span is found, marked sufficient and cited, is
      released. */
  lemma VerifiedFirstReplyIsReleased(evidence: seq<Evidence>, model: Model)
    ensures evidence != [] && model(0, []).parsed.Some? ==>
              var parsed := model(0, []).parsed.value;
              var answer := Strip(parsed.answer);
              (forall i :: 0 <= i < |parsed.citations| && parsed.citations[i].Cited?
                 ==> QuoteHolds(evidence, Stripped(parsed.citations[i])))
              && (forall x :: x in QuotedSpans(answer) ==> SpanHolds(evidence, x))
              && parsed.sufficient && answer != "" && (exists c :: c in parsed.citations && c.Cited?)
              ==> Run(evidence, model).Ok? && Run(evidence, model).value.status == Answered
                  && Run(evidence, model).value.answer == Some(answer) && Run(evidence, model).value.usage.calls == 1
  {
    hide QuoteHolds, Norm, Contains, SpanHolds, QuotedSpans, Missing, Strip, SumSimilarity, ShownAll;
    if evidence != [] && model(0, []).parsed.Some? {
      var parsed := model(0, []).parsed.value;
      var r := Check(parsed, evidence);
      var cs := parsed.citations;
      BadSpansAre(parsed, evidence);
      SortedHold(evidence, cs, true);
      SortedHold(evidence, cs, false);
      BadOnly(evidence, cs);
      NoFailures(r);
      if (forall i :: 0 <= i < |cs| && cs[i].Cited? ==> QuoteHolds(evidence, Stripped(cs[i])))
         && (exists c :: c in cs && c.Cited?)
         && (forall x :: x in QuotedSpans(r.answer) ==> SpanHolds(evidence, x))
      {
        assert r.bad == [];
        NonEmptyHasMember(r.badSpans);
        var c :| c in cs && c.Cited?;
        var i :| 0 <= i < |cs| && cs[i] == c;
        assert Stripped(cs[i]) in r.good;
      }
    }
  }

  lemma NonEmptyHasMember<T>(s: seq<T>)
    ensures s != [] ==> exists x :: x in s
  {
    if s != [] {
      assert s[0] in s;
    }
  }

  lemma {:induction false} BadOnly(evidence: seq<Evidence>, cs: seq<RawCitation>)
    ensures (forall i :: 0 <= i < |cs| && cs[i].Cited? ==> QuoteHolds(evidence, Stripped(cs[i])))
            ==> Sorted(evidence, cs, false) == []
  {
    hide QuoteHolds, Stripped;
    if cs != [] {
      assert forall i :: 0 <= i < |cs[1..]| ==> cs[1..][i] == cs[i + 1];
      BadOnly(evidence, cs[1..]);
    }
  }

  // ---------------------------------------------------------------------------
  // What safety does not cover
  // ---------------------------------------------------------------------------

  lemma TwoQuotationsTrimmed(word: string, middle: string, passage: string)
    ensures Strip(TwoQuotations(word, middle, passage)) == TwoQuotations(word, middle, passage)
  {
    assert !IsSpace('"');
    hide IsSpace, Strip;
    TwoQuotationsAt(word, middle, passage);
    StripTrimmed(TwoQuotations(word, middle, passage));
  }

  /** A short quotation before a long one: if the words between them are in the evidence, the answer is released,
      whatever the long quotation says. */
  lemma SkippedPassageIsReleased(word: string, middle: string, passage: string, evidence: seq<Evidence>, model: Model)
    requires Unmarked(word) && Unmarked(middle) && Unmarked(passage)
    requires |word| < SPAN_CHARS <= |middle| && |passage| >= SPAN_CHARS
    requires evidence != [] && SpanHolds(evidence, Strip(middle)) && model(0, []).parsed.Some?
    requires var parsed := model(0, []).parsed.value;
             && parsed.answer == TwoQuotations(word, middle, passage) && parsed.sufficient
             && (exists c :: c in parsed.citations && c.Cited?)
             && forall i :: 0 <= i < |parsed.citations| && parsed.citations[i].Cited?
                  ==> QuoteHolds(evidence, Stripped(parsed.citations[i]))
    ensures var res := Run(evidence, model);
            && res.Ok? && res.value.status == Answered
            && res.value.answer == Some(TwoQuotations(word, middle, passage))
  {
    hide SpanHolds, QuoteHolds, Run, QuotedSpans, TwoQuotations, Unmarked, Strip, Stripped;
    var answer := TwoQuotations(word, middle, passage);
    TwoQuotationsTrimmed(word, middle, passage);
    TwoQuotationsAt(word, middle, passage);
    OnlyTheMiddleIsLookedUp(word, middle, passage);
    assert forall x :: x in QuotedSpans(answer) ==> SpanHolds(evidence, x);
    VerifiedFirstReplyIsReleased(evidence, model);
  }

  /** A quotation broken over a line: the answer is released, whatever the quotation says. */
  lemma BrokenQuotationIsReleased(first: string, second: string, evidence: seq<Evidence>, model: Model)
    requires Unmarked(first) && Unmarked(second) && '>' !in first && '>' !in second
    requires evidence != [] && model(0, []).parsed.Some?
    requires var parsed := model(0, []).parsed.value;
             && parsed.answer == BrokenQuotation(first, second) && parsed.sufficient
             && (exists c :: c in parsed.citations && c.Cited?)
             && forall i :: 0 <= i < |parsed.citations| && parsed.citations[i].Cited?
                  ==> QuoteHolds(evidence, Stripped(parsed.citations[i]))
    ensures var res := Run(evidence, model);
            && res.Ok? && res.value.status == Answered && res.value.answer == Some(BrokenQuotation(first, second))
  {
    var answer := BrokenQuotation(first, second);
    BrokenAt(first, second);
    assert !IsSpace('"');
    hide SpanHolds, QuoteHolds, Run, QuotedSpans, BrokenQuotation, Unmarked, Strip, Stripped, IsSpace;
    StripTrimmed(answer);
    BrokenHasNoSpan(first, second);
    VerifiedFirstReplyIsReleased(evidence, model);
  }

  lemma PlainText(n: nat, c: char)
    requires 'a' <= c <= 'z'
    ensures var x := seq(n, _ => c);
            Norm(x) == x && Strip(x) == x && Unmarked(x)
  {
    var x := seq(n, _ => c);
    assert forall d :: d in x ==> d == c;
    assert PlainChar(c) == c && LowerChar(c) == c && !IsSpace(c);
    TranslateFixed(x);
    CollapseFixed(x);
    StripTrimmed(x);
    LowerFixed(x);
  }

  /** A run that releases a long quoted passage no evidence holds. */
  lemma FabricationIsReleased() returns (evidence: seq<Evidence>, model: Model, answer: string, m: nat)
    ensures var res := Run(evidence, model);
            && res.Ok? && res.value.status == Answered && res.value.answer == Some(answer)
            && LongRun(answer, '"', '"', m) && Strip(Inside(answer, '"', m)) != ""
            && !SpanHolds(evidence, Strip(Inside(answer, '"', m)))
  {
    var middle, passage := seq(20, _ => 'y'), seq(30, _ => 'x');
    PlainText(20, 'y');
    PlainText(30, 'x');
    evidence := [Evidence(1, middle, 7, None, 0.5)];
    answer := TwoQuotations("ops", middle, passage);
    var parsed := Parsed(true, answer, [Cited(Some(1), middle)]);
    model := (k: nat, repair: seq<string>) => Reply(Some(parsed), 0, 0);
    hide Norm, Strip, Run, TwoQuotations, Contains;
    ContainsItself(middle);
    assert Contains(Norm(evidence[0].text), Norm(middle));
    assert evidence[0] in evidence;
    assert Item(evidence, 1) == Some(evidence[0]);
    assert Stripped(parsed.citations[0]) == Citation(Some(1), middle);
    assert parsed.citations[0] in parsed.citations;
    assert Unmarked("ops");
    SkippedPassageIsReleased("ops", middle, passage, evidence, model);
    TwoQuotationsRuns("ops", middle, passage);
    m := 4 + 20 + 1;
    ShorterHoldsNot(middle, passage);
  }

  lemma ContainsItself(x: string)
    ensures Contains(x, x)
  {
    assert At(x, x, 0);
  }

  lemma ShorterHoldsNot(x: string, y: string)
    requires |x| < |y|
    ensures !Contains(x, y)
  {}
}
