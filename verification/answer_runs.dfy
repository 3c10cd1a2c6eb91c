/** What a run of the answer loop releases, told from the replies of the model alone. */
module AnswerRuns {
  import opened Results
  import opened Text
  import opened AnswerText
  import opened AnswerPassages
  import opened Answer

  // ---------------------------------------------------------------------------
  // What one reply is worth
  // ---------------------------------------------------------------------------

  ghost predicate Within(s: string, part: string) {
    exists before: string, after: string :: s == before + part + after
  }

  /** The item of this number. */
  ghost predicate Numbers(evidence: seq<Evidence>, n: int, e: Evidence) {
    exists k :: 0 <= k < |evidence| && evidence[k] == e && e.n == n && forall l :: 0 <= l < k ==> evidence[l].n != n
  }

  /** A quote of four characters or more, in words its own item has too. */
  ghost predicate Backed(evidence: seq<Evidence>, n: Option<int>, quote: string) {
    n.Some? && |Norm(quote)| >= 4 && exists e :: Numbers(evidence, n.value, e) && Within(Norm(e.text), Norm(quote))
  }

  /** One item has the words of the span. */
  ghost predicate Found(evidence: seq<Evidence>, span: string) {
    exists e :: e in evidence && Within(Norm(e.text), Norm(span))
  }

  /** The citation objects of a reply, in order, their quotes stripped. */
  function Objects(cs: seq<RawCitation>): seq<Citation> {
    if cs == [] then []
    else (if cs[0].Cited? then [Citation(cs[0].n, Strip(cs[0].quote))] else []) + Objects(cs[1..])
  }

  ghost function UnbackedQuotes(evidence: seq<Evidence>, cs: seq<Citation>): seq<string> {
    if cs == [] then []
    else (if Backed(evidence, cs[0].n, cs[0].quote) then [] else [cs[0].quote]) + UnbackedQuotes(evidence, cs[1..])
  }

  ghost function Unfound(evidence: seq<Evidence>, spans: seq<string>): seq<string> {
    if spans == [] then []
    else (if Found(evidence, spans[0]) then [] else [spans[0]]) + Unfound(evidence, spans[1..])
  }

  /** What is wrong with a reply: the quotes not backed, then the quoted spans of its answer not found. */
  ghost function Faults(parsed: Parsed, evidence: seq<Evidence>): seq<string> {
    UnbackedQuotes(evidence, Objects(parsed.citations)) + Unfound(evidence, QuotedSpans(Strip(parsed.answer)))
  }

  // ---------------------------------------------------------------------------
  // What is released
  // ---------------------------------------------------------------------------

  /** A citation shown for a citation object: its own number and quote, and the chunk and document of its item. */
  ghost predicate ShownFor(shown: OutCitation, c: Citation, evidence: seq<Evidence>) {
    && c.n == Some(shown.n) && shown.quote == c.quote
    && exists e :: Numbers(evidence, shown.n, e) && shown.chunkId == e.chunkId && shown.documentId == e.documentId
  }

  ghost predicate AllShown(shown: seq<OutCitation>, cs: seq<Citation>, evidence: seq<Evidence>) {
    |shown| == |cs| && forall i :: 0 <= i < |cs| ==> ShownFor(shown[i], cs[i], evidence)
  }

  function Total(xs: seq<real>): real {
    if xs == [] then 0.0 else xs[0] + Total(xs[1..])
  }

  /** The similarity of the item of each citation. */
  ghost predicate SimilaritiesOf(sims: seq<real>, cs: seq<Citation>, evidence: seq<Evidence>) {
    |sims| == |cs|
    && forall i :: 0 <= i < |cs| ==>
         cs[i].n.Some? && exists e :: Numbers(evidence, cs[i].n.value, e) && sims[i] == e.similarity
  }

  /** A whole number of thousandths, within half of one of the mean similarity of the cited items, and even when it is
      halfway. */
  ghost predicate MeanOf(confidence: real, cs: seq<Citation>, evidence: seq<Evidence>) {
    && cs != []
    && confidence * 1000.0 == (confidence * 1000.0).Floor as real
    && exists sims ::
         && SimilaritiesOf(sims, cs, evidence)
         && var mean := Total(sims) / |cs| as real;
            && confidence - 0.0005 <= mean <= confidence + 0.0005
            && (mean - confidence == 0.0005 || confidence - mean == 0.0005 ==> (confidence * 1000.0).Floor % 2 == 0)
  }

  /** What a run ends with after its last reply: the faults of the reply and no answer, or no answer because the reply
      gave none, or its answer with every citation it made. */
  ghost predicate Settled(out: Out, parsed: Parsed, evidence: seq<Evidence>) {
    var cs, answer, faults := Objects(parsed.citations), Strip(parsed.answer), Faults(parsed, evidence);
    && out.evidence == evidence && out.unverified == faults
    && if faults == [] && parsed.sufficient && answer != "" && cs != [] then
         && out.status == Answered && out.answer == Some(answer)
         && AllShown(out.citations, cs, evidence) && MeanOf(out.confidence, cs, evidence)
       else
         && out.status == (if faults != [] then Unverified else NoEvidence)
         && out.answer == None && out.citations == [] && out.confidence == 0.0
  }

  // ---------------------------------------------------------------------------
  // The checks agree
  // ---------------------------------------------------------------------------

  lemma ContainsIsWithin(s: string, part: string)
    ensures Contains(s, part) <==> Within(s, part)
  {
    if Contains(s, part) {
      var i: nat :| i <= |s| && At(s, part, i);
      assert s == s[..i] + part + s[i + |part|..];
    }
    if Within(s, part) {
      var before: string, after: string :| s == before + part + after;
      assert s[|before|..|before| + |part|] == part;
      assert At(s, part, |before|);
    }
  }

  lemma {:induction false} ItemNumbers(evidence: seq<Evidence>, n: int, e: Evidence)
    ensures Item(evidence, n) == Some(e) <==> Numbers(evidence, n, e)
  {
    if evidence != [] {
      ItemNumbers(evidence[1..], n, e);
      if k :| 0 <= k < |evidence| && evidence[k] == e && e.n == n && forall l :: 0 <= l < k ==> evidence[l].n != n {
        assert k > 0 ==> evidence[1..][k - 1] == e && evidence[0].n != n;
        assert k > 0 ==> forall l :: 0 <= l < k - 1 ==> evidence[1..][l] == evidence[l + 1];
      }
      if k :| 0 <= k < |evidence[1..]| && evidence[1..][k] == e && e.n == n
              && forall l :: 0 <= l < k ==> evidence[1..][l].n != n {
        assert evidence[k + 1] == e;
        assert evidence[0].n != n ==>
          forall l :: 0 <= l < k + 1 ==> l == 0 || evidence[l] == evidence[1..][l - 1];
      }
      assert evidence[0].n == n ==> (evidence[0] == e ==> Numbers(evidence, n, e));
    }
  }

  lemma HoldsIsBacked(evidence: seq<Evidence>, c: Citation)
    ensures QuoteHolds(evidence, c) <==> Backed(evidence, c.n, c.quote)
  {
    hide Norm, Contains, Within, Item, Numbers;
    if c.n.Some? {
      forall e ensures Item(evidence, c.n.value) == Some(e) <==> Numbers(evidence, c.n.value, e) {
        ItemNumbers(evidence, c.n.value, e);
      }
      forall e: Evidence ensures Contains(Norm(e.text), Norm(c.quote)) <==> Within(Norm(e.text), Norm(c.quote)) {
        ContainsIsWithin(Norm(e.text), Norm(c.quote));
      }
    }
  }

  lemma SpanIsFound(evidence: seq<Evidence>, span: string)
    ensures SpanHolds(evidence, span) <==> Found(evidence, span)
  {
    hide Norm, Contains, Within;
    forall e: Evidence ensures Contains(Norm(e.text), Norm(span)) <==> Within(Norm(e.text), Norm(span)) {
      ContainsIsWithin(Norm(e.text), Norm(span));
    }
  }

  lemma {:induction false} BadAreUnbacked(evidence: seq<Evidence>, cs: seq<RawCitation>)
    ensures Quotes(Sorted(evidence, cs, false)) == UnbackedQuotes(evidence, Objects(cs))
  {
    hide QuoteHolds, Backed, Strip;
    if cs != [] {
      BadAreUnbacked(evidence, cs[1..]);
      var more, bad := Objects(cs[1..]), Sorted(evidence, cs[1..], false);
      assert [] + more == more && [] + bad == bad;
      if cs[0].Cited? {
        var c := Citation(cs[0].n, Strip(cs[0].quote));
        HoldsIsBacked(evidence, c);
        assert Stripped(cs[0]) == c;
        assert ([c] + more)[1..] == more && ([c] + bad)[1..] == bad;
        assert [] + UnbackedQuotes(evidence, more) == UnbackedQuotes(evidence, more);
      }
    }
  }

  lemma {:induction false} GoodAreObjects(evidence: seq<Evidence>, cs: seq<RawCitation>)
    requires Sorted(evidence, cs, false) == []
    ensures Sorted(evidence, cs, true) == Objects(cs)
  {
    hide QuoteHolds, Strip;
    if cs != [] {
      assert Sorted(evidence, cs[1..], false) == [];
      GoodAreObjects(evidence, cs[1..]);
    }
  }

  lemma {:induction false} MissingIsUnfound(evidence: seq<Evidence>, spans: seq<string>)
    requires forall x :: x in spans ==> x != "" && Trimmed(x)
    ensures Missing(Join(SEPARATOR, NormTexts(evidence)), spans) == Unfound(evidence, spans)
  {
    hide Norm, Contains, Trimmed, Join, NormTexts, Found;
    if spans != [] {
      assert spans[0] in spans && forall x :: x in spans[1..] ==> x in spans;
      MissingIsUnfound(evidence, spans[1..]);
      SpanInOne(spans[0], evidence);
      SpanIsFound(evidence, spans[0]);
    }
  }

  lemma SpansTrimmed(answer: string)
    ensures forall x :: x in QuotedSpans(answer) ==> x != "" && Trimmed(x)
  {
    hide Groups, Strip, Trimmed;
    SpansAreTheGroups([], Groups(answer));
    forall x | x in QuotedSpans(answer) ensures x != "" && Trimmed(x) {
      var g :| g in Groups(answer) && x == Strip(g) && x != "";
      var lead := StripForm(g);
    }
  }

  /** What the verification reports of a reply is exactly what is wrong with it. */
  lemma FailuresAreFaults(parsed: Parsed, evidence: seq<Evidence>)
    ensures Failures(Check(parsed, evidence)) == Faults(parsed, evidence)
  {
    hide QuotedSpans, Sorted, Missing, Strip, Objects, UnbackedQuotes, Unfound, Quotes, Join, NormTexts;
    BadAreUnbacked(evidence, parsed.citations);
    SpansTrimmed(Strip(parsed.answer));
    MissingIsUnfound(evidence, QuotedSpans(Strip(parsed.answer)));
  }

  // ---------------------------------------------------------------------------
  // The release
  // ---------------------------------------------------------------------------

  lemma {:induction false} ShownAllAre(evidence: seq<Evidence>, cs: seq<Citation>)
    requires forall c :: c in cs ==> QuoteHolds(evidence, c)
    ensures AllShown(ShownAll(evidence, cs), cs, evidence)
  {
    hide QuoteHolds, Item, Numbers, ShownFor;
    if cs != [] {
      assert cs[0] in cs && forall c :: c in cs[1..] ==> c in cs;
      ShownAllAre(evidence, cs[1..]);
      OneShown(evidence, cs[0]);
      var shown := ShownAll(evidence, cs);
      assert shown[1..] == ShownAll(evidence, cs[1..]);
      forall i | 0 <= i < |cs| ensures ShownFor(shown[i], cs[i], evidence) {
        assert i > 0 ==> shown[i] == shown[1..][i - 1] && cs[i] == cs[1..][i - 1];
      }
    }
  }

  lemma OneShown(evidence: seq<Evidence>, c: Citation)
    requires QuoteHolds(evidence, c)
    ensures c.n.Some? && Item(evidence, c.n.value).Some? && ShownFor(Shown(evidence, c), c, evidence)
  {
    hide Norm, Contains, Item, Numbers;
    ItemNumbers(evidence, c.n.value, Item(evidence, c.n.value).value);
  }

  lemma {:induction false} SimilaritiesSum(evidence: seq<Evidence>, cs: seq<Citation>) returns (sims: seq<real>)
    requires forall c :: c in cs ==> QuoteHolds(evidence, c)
    ensures SimilaritiesOf(sims, cs, evidence) && Total(sims) == SumSimilarity(evidence, cs)
  {
    hide Norm, Contains, Item, Numbers;
    if cs == [] {
      sims := [];
    } else {
      assert cs[0] in cs && forall c :: c in cs[1..] ==> c in cs;
      var e := Item(evidence, cs[0].n.value).value;
      ItemNumbers(evidence, cs[0].n.value, e);
      var more := SimilaritiesSum(evidence, cs[1..]);
      sims := [e.similarity] + more;
      assert sims[1..] == more;
      assert forall i :: 0 < i < |cs| ==> sims[i] == more[i - 1] && cs[i] == cs[1..][i - 1];
    }
  }

  lemma ConfidenceIsMean(evidence: seq<Evidence>, cs: seq<Citation>)
    requires cs != [] && forall c :: c in cs ==> QuoteHolds(evidence, c)
    ensures MeanOf(Thousandths(SumSimilarity(evidence, cs) / |cs| as real), cs, evidence)
  {
    var sims := SimilaritiesSum(evidence, cs);
    hide QuoteHolds, SimilaritiesOf, Total, SumSimilarity;
  }

  lemma ReleaseSettles(parsed: Parsed, evidence: seq<Evidence>, usage: Usage)
    ensures var r := Check(parsed, evidence);
            && (forall c :: c in r.good ==> QuoteHolds(evidence, c))
            && Settled(Release(r, evidence, usage), parsed, evidence) && Release(r, evidence, usage).usage == usage
  {
    hide Norm, Contains, QuotedSpans, Sorted, Missing, QuoteHolds, SumSimilarity, ShownAll, Faults, Objects, AllShown,
      MeanOf, Thousandths, Strip, Quotes, Join, NormTexts;
    var r := Check(parsed, evidence);
    SortedHold(evidence, parsed.citations, true);
    FailuresAreFaults(parsed, evidence);
    NoFailures(r);
    if r.bad == [] {
      GoodAreObjects(evidence, parsed.citations);
      ShownAllAre(evidence, r.good);
      if r.good != [] {
        ConfidenceIsMean(evidence, r.good);
      }
    }
  }

  // ---------------------------------------------------------------------------
  // The run
  // ---------------------------------------------------------------------------

  /** Every run, told from the replies alone: no evidence costs no call; a faulty first reply is followed by a second
      call, given exactly its faults; a reply that is no object is an error; otherwise the last reply settles what is
      released, and the usage of the calls is added up. */
  lemma EveryRunIsSettled(evidence: seq<Evidence>, model: Model)
    ensures var res := Run(evidence, model);
            if evidence == [] then
              res == Ok(Out(NoEvidence, None, 0.0, [], [], [], Usage(0, 0, 0)))
            else
              var first := model(0, []);
              if first.parsed.None? then res == Err(UpstreamError)
              else
                var faults := Faults(first.parsed.value, evidence);
                if faults == [] then
                  && res.Ok? && Settled(res.value, first.parsed.value, evidence)
                  && res.value.usage == Usage(first.input, first.output, 1)
                else
                  var second := model(1, faults);
                  if second.parsed.None? then res == Err(UpstreamError)
                  else
                    && res.Ok? && Settled(res.value, second.parsed.value, evidence)
                    && res.value.usage == Usage(first.input + second.input, first.output + second.output, 2)
  {
    hide Check, Release, Settled, Faults;
    if evidence != [] && model(0, []).parsed.Some? {
      var first := model(0, []);
      var usage := Add(Usage(0, 0, 0), first);
      var r := Check(first.parsed.value, evidence);
      FailuresAreFaults(first.parsed.value, evidence);
      ReleaseSettles(first.parsed.value, evidence, usage);
      var second := model(1, Failures(r));
      if second.parsed.Some? {
        ReleaseSettles(second.parsed.value, evidence, Add(usage, second));
      }
    }
  }
}
