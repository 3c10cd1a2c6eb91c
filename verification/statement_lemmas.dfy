/** The clauses the builders emit, read back by the server's reader: lists of items that bind their own parameters,
    the WHERE and ORDER BY clauses, and RETURNING. The statement theorems are assembled from these. */
module StatementLemmas {
  import opened Results
  import opened SqlText
  import opened Values
  import opened SqlLogic
  import opened WhereCompiler
  import opened QueryParser
  import opened Statements

  /** What may follow an item of a list. */
  predicate Boundary(rest: seq<Tok>) {
    rest == [] || rest[0].Comma? || rest[0].Close? || rest[0].Space? || rest[0].FromKw? || rest[0].ReturningKw?
    || rest[0].OnConflict?
  }

  /** What may follow a list. */
  predicate Ends(rest: seq<Tok>) {
    Boundary(rest) && (rest != [] ==> !rest[0].Comma?)
  }

  /** `part` with its own parameters reads as `v`, whatever comes after. */
  ghost predicate ReadsAs<T(!new)>(item: Reader<T>, part: seq<Tok>, own: seq<Value>, v: T) {
    part != [] && forall rest, ps :: Boundary(rest) ==> item(part + rest, own + ps) == Got(v, rest, ps)
  }

  function Flat(owns: seq<seq<Value>>): seq<Value> {
    if owns == [] then [] else owns[0] + Flat(owns[1..])
  }

  lemma {:induction false} ReadsList<T(!new)>(item: Reader<T>, parts: seq<seq<Tok>>, owns: seq<seq<Value>>, vs: seq<T>,
                                             rest: seq<Tok>, ps: seq<Value>)
    requires |parts| == |owns| == |vs| > 0 && Ends(rest)
    requires forall i :: 0 <= i < |vs| ==> ReadsAs(item, parts[i], owns[i], vs[i])
    ensures ReadList(item, JoinToks(Comma, parts) + rest, Flat(owns) + ps) == Got(vs, rest, ps)
    decreases |parts|
  {
    var more := if |parts| == 1 then rest else [Comma] + (JoinToks(Comma, parts[1..]) + rest);
    var mid := Flat(owns[1..]) + ps;
    JoinCons(Comma, parts, rest);
    assert Flat(owns) + ps == owns[0] + mid;
    assert ReadsAs(item, parts[0], owns[0], vs[0]) && Boundary(more);
    assert item(parts[0] + more, owns[0] + mid) == Got(vs[0], more, mid);
    if |parts| == 1 {
      assert mid == ps && [vs[0]] == vs;
    } else {
      assert more[1..] == JoinToks(Comma, parts[1..]) + rest;
      forall i | 0 <= i < |vs[1..]| ensures ReadsAs(item, parts[1..][i], owns[1..][i], vs[1..][i]) {
        assert ReadsAs(item, parts[i + 1], owns[i + 1], vs[i + 1]);
      }
      ReadsList(item, parts[1..], owns[1..], vs[1..], rest, ps);
      assert [vs[0]] + vs[1..] == vs;
    }
  }

  /** The same for items that bind nothing. */
  function Nothings(n: nat): seq<seq<Value>> {
    seq(n, _ => [])
  }

  lemma FlatNothings(n: nat)
    ensures Flat(Nothings(n)) == []
  {
    if n > 0 {
      FlatNothings(n - 1);
      assert Nothings(n)[1..] == Nothings(n - 1);
    }
  }

  lemma ReadsPlainList<T(!new)>(item: Reader<T>, parts: seq<seq<Tok>>, vs: seq<T>, rest: seq<Tok>, ps: seq<Value>)
    requires |parts| == |vs| > 0 && Ends(rest)
    requires forall i :: 0 <= i < |vs| ==> ReadsAs(item, parts[i], [], vs[i])
    ensures ReadList(item, JoinToks(Comma, parts) + rest, ps) == Got(vs, rest, ps)
  {
    hide ReadList, JoinToks, Flat;
    FlatNothings(|vs|);
    ReadsList(item, parts, Nothings(|vs|), vs, rest, ps);
    assert [] + ps == ps;
  }

  // ---------------------------------------------------------------------------
  // Items
  // ---------------------------------------------------------------------------

  lemma OutputReads(o: Output)
    ensures ReadsAs(ReadOutput, OutputToks(o, true), [], o)
  {
    forall rest, ps: seq<Value> ensures ReadOutput(OutputToks(o, true) + rest, [] + ps) == Got(o, rest, ps) {
      assert (OutputToks(o, true) + rest)[3..] == rest && [] + ps == ps;
    }
  }

  lemma {:induction false} OutputsRead(os: seq<Output>)
    ensures |OutputParts(os, true)| == |os|
    ensures forall i :: 0 <= i < |os| ==> ReadsAs(ReadOutput, OutputParts(os, true)[i], [], os[i])
  {
    if os != [] {
      OutputReads(os[0]);
      OutputsRead(os[1..]);
    }
  }

  lemma TermReads(t: OrderTerm)
    ensures ReadsAs(ReadTerm, TermToks(t), [], t)
  {
    forall rest, ps: seq<Value> | Boundary(rest) ensures ReadTerm(TermToks(t) + rest, [] + ps) == Got(t, rest, ps) {
      assert (TermToks(t) + rest)[|TermToks(t)|..] == rest && [] + ps == ps;
    }
  }

  lemma {:induction false} TermsRead(ts: seq<OrderTerm>)
    ensures |TermParts(ts)| == |ts|
    ensures forall i :: 0 <= i < |ts| ==> ReadsAs(ReadTerm, TermParts(ts)[i], [], ts[i])
  {
    if ts != [] {
      TermReads(ts[0]);
      TermsRead(ts[1..]);
    }
  }

  // ---------------------------------------------------------------------------
  // Clauses
  // ---------------------------------------------------------------------------

  /** What may follow a clause of a statement. */
  predicate ClauseEnd(rest: seq<Tok>) {
    rest == [] || rest[0].Space? || rest[0].Close? || rest[0].ReturningKw?
  }

  /** No WHERE starts behind the spaces. */
  predicate NoWhere(rest: seq<Tok>) {
    var t := SkipSpaces(rest); t != [] ==> !t[0].WhereKw?
  }

  function WhereToks(cs: seq<Clause>): seq<Tok> {
    if cs == [] then [] else [WhereKw] + EmitWhere(cs).toks
  }

  function WhereOf(cs: seq<Clause>): Option<Sql> {
    if cs == [] then None else Some(WhereTree(cs))
  }

  lemma ReadsWhereClause(cs: seq<Clause>, rest: seq<Tok>, ps: seq<Value>)
    requires ClauseEnd(rest) && NoWhere(rest)
    ensures ReadWhere(SkipSpaces(WhereToks(cs) + rest), EmitWhere(cs).params + ps)
            == Got(WhereOf(cs), SkipSpaces(rest), ps)
  {
    hide EmitWhere, WhereTree;
    if cs == [] {
      assert WhereToks(cs) + rest == rest;
      assert EmitWhere(cs).params + ps == ps by { NoWhereParams(); }
    } else {
      var w := EmitWhere(cs);
      ReadsWhere(cs, rest, ps);
      ReadsOrOfAnd(w.toks + rest, w.params + ps);
      assert WhereToks(cs) + rest == [WhereKw] + (w.toks + rest);
      assert ([WhereKw] + (w.toks + rest))[1..] == w.toks + rest;
    }
  }

  lemma NoWhereParams()
    ensures EmitWhere([]).params == []
  {}

  lemma ReadsOrOfAnd(toks: seq<Tok>, ps: seq<Value>)
    requires ReadAnd(toks, ps).Got? && Stops(ReadAnd(toks, ps).toks)
    ensures ReadOr(toks, ps) == ReadAnd(toks, ps)
  {}

  lemma ReadsOrderClause(ts: seq<OrderTerm>, rest: seq<Tok>, ps: seq<Value>)
    requires ClauseEnd(rest) && (SkipSpaces(rest) != [] ==> !SkipSpaces(rest)[0].OrderBy?)
    ensures ReadOrderBy(SkipSpaces(OrderToks(ts) + rest), ps) == Got(ts, SkipSpaces(rest), ps)
  {
    if ts == [] {
      assert OrderToks(ts) + rest == rest;
    } else {
      TermsRead(ts);
      var list := JoinToks(Comma, TermParts(ts));
      ReadsPlainList(ReadTerm, TermParts(ts), ts, rest, ps);
      assert OrderToks(ts) + rest == [OrderBy] + (list + rest);
      assert ([OrderBy] + (list + rest))[1..] == list + rest;
    }
  }

  lemma ReadsReturning(os: seq<Output>, ps: seq<Value>)
    ensures ReadReturning(ReturningToks(os), ps) == Got(os, [], ps)
  {
    if os != [] {
      OutputsRead(os);
      var list := JoinToks(Comma, OutputParts(os, true));
      ReadsPlainList(ReadOutput, OutputParts(os, true), os, [], ps);
      assert list + [] == list;
      assert ReturningToks(os)[1..] == list;
    }
  }

  /** ` RETURNING list`, or nothing. */
  function ReturningToks(os: seq<Output>): seq<Tok> {
    if os == [] then [] else [ReturningKw] + JoinToks(Comma, OutputParts(os, true))
  }
}
