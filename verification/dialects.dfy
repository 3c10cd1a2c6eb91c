/** A quote-free filter or group accepted by the strict dialect is read alike by the lenient one. */
module Dialects {
  import opened Results
  import opened Text
  import opened Scanners
  import opened Filters

  predicate QuoteFree(s: string) {
    '"' !in s
  }

  lemma PartitionTailQuoteFree(s: string, c: char)
    requires QuoteFree(s)
    ensures QuoteFree(Partition(s, c).tail)
  {
    var p := Partition(s, c);
    assert forall x :: x in p.tail ==> x in s;
  }

  lemma ParseOpQuoteFree(raw: string, strict: bool)
    requires QuoteFree(raw) && ParseOp(raw, strict).Ok?
    ensures QuoteFree(ParseOp(raw, strict).value.value)
  {
    var (negate, body) := Negation(raw);
    assert forall x :: x in body ==> x in raw;
    PartitionTailQuoteFree(body, '.');
  }

  lemma ItemsAgree(value: string)
    requires QuoteFree(value)
    ensures ReadItems(value, true).Ok? ==> ReadItems(value, false) == ReadItems(value, true)
  {
    var lead := StripForm(value);
    var inner := Inner(Strip(value));
    assert forall x :: x in inner ==> x in Strip(value);
    QuoteFreeSplitList(inner);
  }

  /** One condition: accepted strictly and quote-free, it is the same filter leniently. */
  lemma ConditionAgrees(col: Col, raw: string, inGroup: bool)
    requires QuoteFree(raw)
    ensures var strict := ReadCondition(col, raw, true, inGroup);
            strict.Ok? ==> ReadCondition(col, raw, false, inGroup) == strict
  {
    hide ScalarTest, ListTest, ReadItems, Unquote;
    OperatorsAgree(raw);
    var form := ParseOp(raw, true);
    if form.Ok? {
      ItemsAgree(form.value.value);
      UnquoteQuoteFree(form.value.value);
    }
  }

  lemma OperatorsAgree(raw: string)
    requires QuoteFree(raw)
    ensures ParseOp(raw, true).Ok? ==> ParseOp(raw, false) == ParseOp(raw, true)
    ensures ParseOp(raw, true).Ok? ==> QuoteFree(ParseOp(raw, true).value.value)
  {
    if ParseOp(raw, true).Ok? {
      ParseOpQuoteFree(raw, true);
    }
  }

  lemma UnquoteQuoteFree(value: string)
    requires QuoteFree(value)
    ensures Unquote(value) == value
  {
    assert value != "" ==> value[0] in value;
  }

  lemma {:induction false} PiecesQuoteFree(s: string, depth: int, buf: string)
    requires QuoteFree(s) && QuoteFree(buf)
    ensures forall p :: p in SplitTopFrom(s, depth, buf) ==> QuoteFree(p)
  {
    if s != "" {
      assert forall x :: x in s[1..] ==> x in s;
      assert s[0] in s;
      if s[0] == ',' && depth == 0 {
        PiecesQuoteFree(s[1..], depth, "");
      } else {
        var d := if s[0] == '(' then depth + 1 else if s[0] == ')' then depth - 1 else depth;
        PiecesQuoteFree(s[1..], d, buf + [s[0]]);
      }
    }
  }

  lemma {:induction false} MembersAgree(conds: seq<string>, spec: Spec)
    requires spec.strict && forall p :: p in conds ==> QuoteFree(p)
    ensures ReadMembers(conds, spec).Ok? ==> ReadMembers(conds, spec.(strict := false)) == ReadMembers(conds, spec)
  {
    hide ReadMember;
    if conds != [] {
      assert conds[0] in conds && forall p :: p in conds[1..] ==> p in conds;
      MemberAgrees(conds[0], spec);
      MembersAgree(conds[1..], spec);
    }
  }

  lemma MemberAgrees(cond: string, spec: Spec)
    requires spec.strict && QuoteFree(cond)
    ensures ReadMember(cond, spec).Ok? ==> ReadMember(cond, spec.(strict := false)) == ReadMember(cond, spec)
  {
    hide ReadCondition;
    var lead := StripForm(cond);
    var p := Partition(Strip(cond), '.');
    PartitionTailQuoteFree(Strip(cond), '.');
    if p.head in spec.columns {
      ConditionAgrees(spec.columns[p.head], p.tail, true);
    }
  }

  /** A whole group: accepted strictly and quote-free, it is the same list of filters leniently. */
  lemma GroupAgrees(raw: string, spec: Spec)
    requires spec.strict && QuoteFree(raw)
    ensures ReadGroup(raw, spec).Ok? ==> ReadGroup(raw, spec.(strict := false)) == ReadGroup(raw, spec)
  {
    hide ReadMembers;
    var lead := StripForm(raw);
    var s := Inner(Strip(raw));
    assert forall x :: x in s ==> x in raw;
    QuoteFreeSplitTop(s, 0, "");
    PiecesQuoteFree(s, 0, "");
    MembersAgree(SplitTopFrom(s, 0, ""), spec);
  }
}
