/** The statements the API builds are, to the server, exactly the statements the request asked for. */
module StatementTheorems {
  import opened Results
  import opened SqlText
  import opened Values
  import opened Filters
  import opened SqlLogic
  import opened WhereCompiler
  import opened QueryParser
  import opened Statements
  import opened StatementLemmas
  import opened RestWrites

  // ---------------------------------------------------------------------------
  // Tails: WHERE, ORDER BY, LIMIT, OFFSET
  // ---------------------------------------------------------------------------

  lemma EmitWhereNonEmpty(cs: seq<Clause>)
    requires cs != []
    ensures EmitWhere(cs).toks != []
  {
    assert EmitClause(cs[0]).toks != [] by {
      if cs[0].One? {
        assert EmitTest(cs[0].f.expr, cs[0].f.test).toks != [];
      }
    }
    assert ClauseParts(cs)[0] == EmitClause(cs[0]).toks;
  }

  lemma WhereSqlIs(q: Query, strict: bool)
    ensures EmitQuery(q, strict).WhereSql() == WhereToks(q.clauses)
  {
    hide EmitWhere;
    if q.clauses != [] {
      EmitWhereNonEmpty(q.clauses);
    } else {
      assert EmitWhere([]).toks == [] by { NoWhereToks(); }
    }
  }

  lemma NoWhereToks()
    ensures EmitWhere([]).toks == []
  {}

  function LimitToks(l: Option<int>): seq<Tok> {
    if l.Some? then [Space, LimitKw, Param] else []
  }

  function OffsetToks(o: Option<int>): seq<Tok> {
    if o.Some? then [Space, OffsetKw, Param] else []
  }

  function IntParam(n: Option<int>): seq<Value> {
    if n.Some? then [VInt(n.value)] else []
  }

  function Bind(n: Option<int>): Option<Value> {
    if n.Some? then Some(VInt(n.value)) else None
  }

  /** Where a tail may end: the statement, or the parenthesis of a subselect. */
  predicate TailEnd(rest: seq<Tok>) {
    rest == [] || rest[0].Close?
  }

  lemma ReadsOffset(o: Option<int>, rest: seq<Tok>, ps: seq<Value>)
    requires TailEnd(rest)
    ensures ReadOffsetClause(SkipSpaces(OffsetToks(o) + rest), IntParam(o) + ps) == Got(Bind(o), rest, ps)
  {
    if o.Some? {
      assert (OffsetToks(o) + rest)[1..] == [OffsetKw, Param] + rest;
      assert ([OffsetKw, Param] + rest)[1..] == [Param] + rest && ([Param] + rest)[1..] == rest;
      assert ([VInt(o.value)] + ps)[1..] == ps;
    } else {
      assert OffsetToks(o) + rest == rest && IntParam(o) + ps == ps;
    }
  }

  lemma OffsetStart(o: Option<int>, rest: seq<Tok>)
    requires TailEnd(rest)
    ensures var t := SkipSpaces(OffsetToks(o) + rest); t == [] || !t[0].LimitKw?
  {
    var t := OffsetToks(o) + rest;
    if o.Some? {
      assert t[1..][0].OffsetKw?;
    } else {
      assert t == rest;
    }
  }

  lemma ReadsLimit(l: Option<int>, o: Option<int>, rest: seq<Tok>, ps: seq<Value>)
    requires TailEnd(rest)
    ensures ReadLimitClause(SkipSpaces(LimitToks(l) + (OffsetToks(o) + rest)), IntParam(l) + ps)
         == Got(Bind(l), SkipSpaces(OffsetToks(o) + rest), ps)
  {
    hide OffsetToks;
    var more := OffsetToks(o) + rest;
    OffsetStart(o, rest);
    if l.Some? {
      assert (LimitToks(l) + more)[1..] == [LimitKw, Param] + more;
      assert ([LimitKw, Param] + more)[1..] == [Param] + more && ([Param] + more)[1..] == more;
      assert ([VInt(l.value)] + ps)[1..] == ps;
    } else {
      assert LimitToks(l) + more == more && IntParam(l) + ps == ps;
    }
  }

  function TailToks(cs: seq<Clause>, ts: seq<OrderTerm>, l: Option<int>, o: Option<int>): seq<Tok> {
    WhereToks(cs) + ([Space] + (OrderToks(ts) + (LimitToks(l) + OffsetToks(o))))
  }

  function TailParams(cs: seq<Clause>, l: Option<int>, o: Option<int>): seq<Value> {
    EmitWhere(cs).params + (IntParam(l) + IntParam(o))
  }

  /** What the skipped spaces of the limit part uncover is not the start of an earlier clause. */
  lemma LimitPartStart(l: Option<int>, o: Option<int>, rest: seq<Tok>)
    requires TailEnd(rest)
    ensures var t := SkipSpaces(LimitToks(l) + (OffsetToks(o) + rest));
            t != [] ==> !t[0].OrderBy? && !t[0].WhereKw?
    ensures ClauseEnd(LimitToks(l) + (OffsetToks(o) + rest))
  {
    var t := LimitToks(l) + (OffsetToks(o) + rest);
    if l.Some? {
      assert t[1..][0].LimitKw?;
    } else if o.Some? {
      assert t == OffsetToks(o) + rest && t[1..][0].OffsetKw?;
    } else {
      assert t == rest;
    }
  }

  lemma OrderPartStart(ts: seq<OrderTerm>, more: seq<Tok>)
    requires SkipSpaces(more) != [] ==> !SkipSpaces(more)[0].WhereKw?
    ensures NoWhere([Space] + (OrderToks(ts) + more))
    ensures SkipSpaces([Space] + (OrderToks(ts) + more)) == SkipSpaces(OrderToks(ts) + more)
  {
    assert ([Space] + (OrderToks(ts) + more))[1..] == OrderToks(ts) + more;
    if ts == [] {
      assert OrderToks(ts) + more == more;
    }
  }

  lemma ReadsTail(cs: seq<Clause>, ts: seq<OrderTerm>, l: Option<int>, o: Option<int>, rest: seq<Tok>, ps: seq<Value>)
    requires TailEnd(rest)
    ensures ReadTail(SkipSpaces(TailToks(cs, ts, l, o) + rest), TailParams(cs, l, o) + ps)
         == Got(Tail(WhereOf(cs), ts, Bind(l), Bind(o)), rest, ps)
  {
    hide EmitWhere, WhereToks, WhereOf, OrderToks, ReadWhere, ReadOrderBy, ReadLimitClause, ReadOffsetClause, LimitToks,
      OffsetToks, IntParam, Bind;
    var offsets := OffsetToks(o) + rest;
    var limits := LimitToks(l) + offsets;
    var orders := [Space] + (OrderToks(ts) + limits);
    assert TailToks(cs, ts, l, o) + rest == WhereToks(cs) + orders;
    var p2 := IntParam(o) + ps;
    var p1 := IntParam(l) + p2;
    assert TailParams(cs, l, o) + ps == EmitWhere(cs).params + p1;
    LimitPartStart(l, o, rest);
    OrderPartStart(ts, limits);
    ReadsWhereClause(cs, orders, p1);
    ReadsOrderClause(ts, limits, p1);
    ReadsLimit(l, o, rest, p2);
    ReadsOffset(o, rest, ps);
  }

  // ---------------------------------------------------------------------------
  // SELECT
  // ---------------------------------------------------------------------------

  /** The select the request asks for on `table`. */
  function SelectOf(q: Query, table: string): Stmt {
    Select(q.outputs, table, WhereOf(q.clauses), q.order, Some(VInt(q.limit)),
           if q.offset != 0 then Some(VInt(q.offset)) else None)
  }

  lemma SelectShape(list: seq<Tok>, table: string, w: seq<Tok>, o: seq<Tok>, limit: seq<Tok>, limits: seq<Tok>)
    requires [Space] + limit == limits
    ensures [SelectKw] + list + [FromKw, Ident(table), Space] + w + [Space] + o + [Space] + limit
         == [SelectKw] + (list + ([FromKw, Ident(table)] + ([Space] + (w + ([Space] + (o + limits))))))
  {}

  lemma SelectFragIs(q: Query, table: string)
    ensures var f := SelectFrag(table, EmitQuery(q, true));
            var l, o := Some(q.limit), if q.offset != 0 then Some(q.offset) else None;
            f.toks == [SelectKw] + (JoinToks(Comma, OutputParts(q.outputs, true)) +
                        ([FromKw, Ident(table)] + ([Space] + TailToks(q.clauses, q.order, l, o))))
            && f.params == TailParams(q.clauses, l, o)
  {
    hide EmitWhere, WhereToks, OrderToks, OutputParts, JoinToks;
    var qp := EmitQuery(q, true);
    var l, o := Some(q.limit), if q.offset != 0 then Some(q.offset) else None;
    WhereSqlIs(q, true);
    assert [Space] + qp.limitSql == LimitToks(l) + OffsetToks(o);
    SelectShape(qp.selectList, table, qp.WhereSql(), qp.orderSql, qp.limitSql, LimitToks(l) + OffsetToks(o));
  }

  lemma ReadsSelect(list: seq<Tok>, os: seq<Output>, table: string, tail: seq<Tok>, ps: seq<Value>, t: Tail)
    requires ReadList(ReadOutput, list + ([FromKw, Ident(table)] + ([Space] + tail)), ps)
          == Got(os, [FromKw, Ident(table)] + ([Space] + tail), ps)
    requires ReadTail(SkipSpaces(tail), ps) == Got(t, [], [])
    ensures ReadStmt([SelectKw] + (list + ([FromKw, Ident(table)] + ([Space] + tail))), ps)
         == Some(Select(os, table, t.where, t.order, t.limit, t.offset))
  {
    hide ReadTail, ReadList;
    var from := [FromKw, Ident(table)] + ([Space] + tail);
    assert ([SelectKw] + (list + from))[1..] == list + from;
    assert from[2..] == [Space] + tail && ([Space] + tail)[1..] == tail;
  }

  /** The list endpoint's SELECT, read by the server with its parameters bound in order, is the request's select. */
  lemma SelectReadsBack(q: Query, table: string)
    requires q.outputs != []
    ensures var f := SelectFrag(table, EmitQuery(q, true)); ReadStmt(f.toks, f.params) == Some(SelectOf(q, table))
  {
    hide EmitWhere, WhereToks, WhereOf, OrderToks, ReadTail, OutputParts, ReadStmt, SelectFrag, ReadList, EmitQuery,
      TailToks, TailParams, JoinToks;
    var f := SelectFrag(table, EmitQuery(q, true));
    var l, o := Some(q.limit), if q.offset != 0 then Some(q.offset) else None;
    var tail, list := TailToks(q.clauses, q.order, l, o), JoinToks(Comma, OutputParts(q.outputs, true));
    var from := [FromKw, Ident(table)] + ([Space] + tail);
    SelectFragIs(q, table);
    OutputsRead(q.outputs);
    ReadsPlainList(ReadOutput, OutputParts(q.outputs, true), q.outputs, from, f.params);
    ReadsTail(q.clauses, q.order, l, o, [], []);
    assert tail + [] == tail && f.params + [] == f.params;
    ReadsSelect(list, q.outputs, table, tail, f.params, Tail(WhereOf(q.clauses), q.order, Bind(l), Bind(o)));
  }

  // ---------------------------------------------------------------------------
  // UPDATE and DELETE
  // ---------------------------------------------------------------------------

  /** The rows the request asks a write to touch. */
  function TargetOf(q: Query, table: string, window: Option<Window>): Target {
    if window.Some? then
      Windowed(table, WhereOf(q.clauses), q.order, Bind(window.value.0), Bind(window.value.1))
    else if q.clauses == [] then Every
    else Meeting(WhereTree(q.clauses))
  }

  lemma ReadsWindow(q: Query, ti: TableInfo, w: Window, rest: seq<Tok>, ps: seq<Value>)
    requires rest == [] || rest[0].ReturningKw?
    ensures var f := WindowFrag(ti, EmitQuery(q, true), w);
            ReadTarget(f.toks + rest, f.params + ps) == Got(TargetOf(q, ti.name, Some(w)), rest, ps)
  {
    hide EmitWhere, WhereOf, ReadTail, WindowFrag, EmitQuery, TailToks, TailParams, Bind, ReadTarget;
    var f := WindowFrag(ti, EmitQuery(q, true), w);
    var tail := TailToks(q.clauses, q.order, w.0, w.1);
    WindowFragIs(q, ti, w);
    ReadsTail(q.clauses, q.order, w.0, w.1, [Close] + rest, ps);
    CtidShape(ti.name, tail, rest);
    ReadsCtidIn(ti.name, tail, rest, f.params + ps, ps, Tail(WhereOf(q.clauses), q.order, Bind(w.0), Bind(w.1)));
  }

  function CtidHead(table: string): seq<Tok> {
    [WhereKw, Ctid, InKw, Open, SelectKw, Ctid, FromKw, Ident(table)]
  }

  lemma CtidShape(table: string, tail: seq<Tok>, rest: seq<Tok>)
    ensures CtidHead(table) + ([Space] + (tail + [Close])) + rest
            == CtidHead(table) + ([Space] + (tail + ([Close] + rest)))
  {}

  lemma ReadsCtidIn(table: string, tail: seq<Tok>, rest: seq<Tok>, ps: seq<Value>, after: seq<Value>, t: Tail)
    requires rest == [] || rest[0].ReturningKw?
    requires ReadTail(SkipSpaces(tail + ([Close] + rest)), ps) == Got(t, [Close] + rest, after)
    ensures ReadTarget(CtidHead(table) + ([Space] + (tail + ([Close] + rest))), ps)
         == Got(Windowed(table, t.where, t.order, t.limit, t.offset), rest, after)
  {
    hide ReadTail;
    var more := [Space] + (tail + ([Close] + rest));
    assert (CtidHead(table) + more)[8..] == more && more[1..] == tail + ([Close] + rest);
    assert ([Close] + rest)[1..] == rest;
  }

  lemma WindowFragIs(q: Query, ti: TableInfo, w: Window)
    ensures WindowFrag(ti, EmitQuery(q, true), w).toks
         == CtidHead(ti.name) + ([Space] + (TailToks(q.clauses, q.order, w.0, w.1) + [Close]))
    ensures WindowFrag(ti, EmitQuery(q, true), w).params == TailParams(q.clauses, w.0, w.1)
  {
    hide EmitWhere, WhereToks, OrderToks, OutputParts;
    WhereSqlIs(q, true);
    var qp := EmitQuery(q, true);
    WindowShape(ti.name, qp.WhereSql(), qp.orderSql, LimitToks(w.0), OffsetToks(w.1));
    Associative(qp.whereParams, IntParam(w.0), IntParam(w.1));
  }

  lemma WindowShape(table: string, w: seq<Tok>, o: seq<Tok>, l: seq<Tok>, f: seq<Tok>)
    ensures [WhereKw, Ctid, InKw, Open]
            + ([SelectKw, Ctid, FromKw, Ident(table), Space] + w + [Space] + o + l + f) + [Close]
         == CtidHead(table) + ([Space] + (w + ([Space] + (o + (l + f))) + [Close]))
  {}

  lemma ReadsTarget(q: Query, ti: TableInfo, window: Option<Window>, rest: seq<Tok>, ps: seq<Value>)
    requires rest == [] || rest[0].ReturningKw?
    ensures var f := TargetFrag(ti, EmitQuery(q, true), window);
            ReadTarget(SkipSpaces([Space] + (f.toks + rest)), f.params + ps)
            == Got(TargetOf(q, ti.name, window), rest, ps)
  {
    hide EmitWhere, WhereOf, OrderToks, ReadTail, OutputParts, WhereTree, ReadWhere, WindowFrag, ReadCtidIn;
    var f := TargetFrag(ti, EmitQuery(q, true), window);
    assert ([Space] + (f.toks + rest))[1..] == f.toks + rest;
    if window.Some? {
      ReadsWindow(q, ti, window.value, rest, ps);
      WindowFragIs(q, ti, window.value);
      assert (f.toks + rest)[0].WhereKw?;
    } else {
      WhereSqlIs(q, true);
      ReadsWhereClause(q.clauses, rest, ps);
      PlainWhereStart(q.clauses, rest);
      WhereOfIs(q.clauses);
    }
  }

  lemma WhereOfIs(cs: seq<Clause>)
    ensures WhereOf(cs) == if cs == [] then None else Some(WhereTree(cs))
  {}

  /** A plain WHERE is not mistaken for the ctid form. */
  lemma PlainWhereStart(cs: seq<Clause>, rest: seq<Tok>)
    requires rest == [] || rest[0].ReturningKw?
    ensures var t := WhereToks(cs) + rest;
            SkipSpaces(t) == t && SkipSpaces(rest) == rest && !(|t| >= 2 && t[0].WhereKw? && t[1].Ctid?)
  {
    if cs != [] {
      var w := EmitWhere(cs).toks;
      EmitWhereNonEmpty(cs);
      assert w[0] == EmitClause(cs[0]).toks[0] by { FirstTok(cs); }
      assert (WhereToks(cs) + rest)[1] == w[0];
    } else {
      assert WhereToks(cs) + rest == rest;
    }
  }

  lemma FirstTok(cs: seq<Clause>)
    requires cs != []
    ensures EmitClause(cs[0]).toks != [] && EmitWhere(cs).toks != []
            && EmitWhere(cs).toks[0] == EmitClause(cs[0]).toks[0]
    ensures !EmitClause(cs[0]).toks[0].Ctid?
  {
    if cs[0].One? {
      assert EmitTest(cs[0].f.expr, cs[0].f.test).toks != [];
    }
    assert ClauseParts(cs)[0] == EmitClause(cs[0]).toks;
  }

  /** The rows to return, when a representation was requested. */
  function Returned(q: Query, representation: bool): seq<Output> {
    if representation then q.outputs else []
  }

  function ReturningList(q: Query, representation: bool): seq<Tok> {
    if representation then EmitQuery(q, true).selectList else []
  }

  lemma ReturningIs(q: Query, representation: bool)
    requires q.outputs != []
    ensures (if ReturningList(q, representation) == [] then [] else [ReturningKw] + ReturningList(q, representation))
         == ReturningToks(Returned(q, representation))
  {
    if representation {
      assert OutputParts(q.outputs, true)[0] == OutputToks(q.outputs[0], true);
    }
  }

  /** A built DELETE is the delete of exactly the rows asked for. */
  lemma DeleteReadsBack(q: Query, ti: TableInfo, representation: bool, window: Option<Window>)
    requires q.outputs != []
    ensures var f := DeleteFrag(ti, EmitQuery(q, true), ReturningList(q, representation), window);
            var stmt := Delete(ti.name, TargetOf(q, ti.name, window), Returned(q, representation));
            ReadStmt(f.toks, f.params) == Some(stmt)
  {
    hide TargetFrag, EmitQuery, ReadTarget, ReadReturning, TargetOf, ReturningToks, ReadStmt;
    var target := TargetFrag(ti, EmitQuery(q, true), window);
    var os := Returned(q, representation);
    ReturningIs(q, representation);
    ReturningStart(os);
    DeleteShape(ti.name, target.toks, ReturningToks(os));
    ReadsTarget(q, ti, window, ReturningToks(os), []);
    assert target.params + [] == target.params;
    ReadsReturning(os, []);
    ReadsDelete(ti.name, target.toks + ReturningToks(os), target.params, TargetOf(q, ti.name, window),
        ReturningToks(os), os);
  }

  lemma DeleteShape(table: string, target: seq<Tok>, rest: seq<Tok>)
    ensures [DeleteFrom, Ident(table), Space] + target + rest
         == [DeleteFrom] + ([Ident(table)] + ([Space] + (target + rest)))
  {}

  lemma ReadsDelete(table: string, more: seq<Tok>, ps: seq<Value>, target: Target, rest: seq<Tok>, os: seq<Output>)
    requires ReadTarget(SkipSpaces([Space] + more), ps) == Got(target, rest, [])
    requires ReadReturning(rest, []) == Got(os, [], [])
    ensures ReadStmt([DeleteFrom] + ([Ident(table)] + ([Space] + more)), ps) == Some(Delete(table, target, os))
  {
    hide ReadTarget, ReadReturning, SkipSpaces;
    assert ([DeleteFrom] + ([Ident(table)] + ([Space] + more)))[1..] == [Ident(table)] + ([Space] + more);
    assert ([Ident(table)] + ([Space] + more))[1..] == [Space] + more;
  }

  lemma ReturningStart(os: seq<Output>)
    ensures ReturningToks(os) == [] || ReturningToks(os)[0].ReturningKw?
  {}

  /** The bound value carries exactly this JSON value: as jsonb when it is an object, or when it is not null and its
      column holds JSON, and as it is otherwise. */
  predicate Carries(v: Value, j: Json, ti: TableInfo, column: string) {
    && (v == VJsonb(j) || v == VPlain(j))
    && (v.VJsonb? <==>
          || j.JObject?
          || (!j.JNull? && column in ti.dataTypes
              && (ti.dataTypes[column] == "json" || ti.dataTypes[column] == "jsonb")))
  }

  lemma AdaptCarries(j: Json, ti: TableInfo, column: string)
    ensures Carries(Adapt(j, TypeOf(ti, column)), j, ti, column)
  {}

  /** Every key of the body is assigned its own value, in the body's order, and nothing else is. */
  predicate Assigns(sets: seq<(string, Value)>, body: Body, ti: TableInfo) {
    |sets| == |body|
    && forall i :: 0 <= i < |body| ==> sets[i].0 == body[i].0 && Carries(sets[i].1, body[i].1, ti, body[i].0)
  }

  lemma SetsAssign(ti: TableInfo, body: Body)
    ensures Assigns(Sets(ti, body), body, ti)
  {
    hide Adapt, Carries;
    forall i | 0 <= i < |body| ensures Carries(Sets(ti, body)[i].1, body[i].1, ti, body[i].0) {
      AdaptCarries(body[i].1, ti, body[i].0);
    }
  }

  function Sets(ti: TableInfo, body: Body): seq<(string, Value)> {
    seq(|body|, i requires 0 <= i < |body| => (body[i].0, Adapt(body[i].1, TypeOf(ti, body[i].0))))
  }

  lemma SetReads(key: string, v: Value)
    ensures ReadsAs(ReadSet, SetToks(key), [v], (key, v))
  {
    forall rest, ps: seq<Value> ensures ReadSet(SetToks(key) + rest, [v] + ps) == Got((key, v), rest, ps) {
      assert (SetToks(key) + rest)[3..] == rest && ([v] + ps)[1..] == ps;
    }
  }

  function Singles(vs: seq<Value>): seq<seq<Value>> {
    seq(|vs|, i requires 0 <= i < |vs| => [vs[i]])
  }

  lemma FlatSingles(vs: seq<Value>)
    ensures Flat(Singles(vs)) == vs
  {
    if vs != [] {
      FlatSingles(vs[1..]);
      assert Singles(vs)[1..] == Singles(vs[1..]);
      assert [vs[0]] + vs[1..] == vs;
    }
  }

  lemma SetsRead(ti: TableInfo, body: Body)
    ensures |SetParts(body)| == |SetValues(ti, body)| == |body|
    ensures forall i :: 0 <= i < |body| ==> SetValues(ti, body)[i] == Sets(ti, body)[i].1
    ensures forall i :: 0 <= i < |body| ==>
              ReadsAs(ReadSet, SetParts(body)[i], Singles(SetValues(ti, body))[i], Sets(ti, body)[i])
  {
    hide Adapt, ReadSet;
    SetsAt(ti, body);
    forall i | 0 <= i < |body|
      ensures ReadsAs(ReadSet, SetParts(body)[i], Singles(SetValues(ti, body))[i], Sets(ti, body)[i])
    {
      SetReads(body[i].0, Adapt(body[i].1, TypeOf(ti, body[i].0)));
    }
  }

  lemma {:induction false} SetsAt(ti: TableInfo, body: Body)
    ensures |SetParts(body)| == |SetValues(ti, body)| == |body|
    ensures forall i :: 0 <= i < |body| ==>
      SetParts(body)[i] == SetToks(body[i].0) && SetValues(ti, body)[i] == Adapt(body[i].1, TypeOf(ti, body[i].0))
  {
    hide Adapt;
    if body != [] {
      SetsAt(ti, body[1..]);
    }
  }

  lemma UpdateReadsSets(q: Query, ti: TableInfo, body: Body, representation: bool, window: Option<Window>)
    requires q.outputs != [] && body != [] && AllKnown(ti, Keys(body))
    ensures var f := UpdateFrag(ti, body, EmitQuery(q, true), ReturningList(q, representation), window);
            var stmt := Update(ti.name, Sets(ti, body), TargetOf(q, ti.name, window), Returned(q, representation));
            f.Ok? && ReadStmt(f.value.toks, f.value.params) == Some(stmt)
  {
    hide TargetFrag, EmitQuery, ReadTarget, ReadReturning, TargetOf, ReturningToks, ReadSet, SetParts, SetValues, Sets,
      Singles, Keys, ReadList, ReadStmt, JoinToks;
    var f := UpdateFrag(ti, body, EmitQuery(q, true), ReturningList(q, representation), window).value;
    var target := TargetFrag(ti, EmitQuery(q, true), window);
    var rest := ReturningToks(Returned(q, representation));
    var list, vs := JoinToks(Comma, SetParts(body)), SetValues(ti, body);
    var more := [Space] + (target.toks + rest);
    ReturningIs(q, representation);
    ReturningStart(Returned(q, representation));
    UpdateShape(ti.name, list, target.toks, rest);
    SetsRead(ti, body);
    FlatSingles(vs);
    assert |Singles(vs)| == |Sets(ti, body)| == |body| by { SetsLength(ti, body); }
    ReadsList(ReadSet, SetParts(body), Singles(vs), Sets(ti, body), more, target.params);
    ReadsTarget(q, ti, window, rest, []);
    assert target.params + [] == target.params;
    ReadsReturning(Returned(q, representation), []);
    ReadsUpdate(ti.name, list, Sets(ti, body), more, vs + target.params, target.params,
                TargetOf(q, ti.name, window), rest, Returned(q, representation));
  }

  lemma UpdateShape(table: string, list: seq<Tok>, target: seq<Tok>, rest: seq<Tok>)
    ensures [UpdateKw, Ident(table), SetKw] + list + [Space] + target + rest
         == [UpdateKw] + ([Ident(table), SetKw] + (list + ([Space] + (target + rest))))
  {}

  lemma ReadsUpdate(table: string, list: seq<Tok>, sets: seq<(string, Value)>, more: seq<Tok>, ps: seq<Value>,
                    mid: seq<Value>, target: Target, rest: seq<Tok>, os: seq<Output>)
    requires ReadList(ReadSet, list + more, ps) == Got(sets, more, mid)
    requires ReadTarget(SkipSpaces(more), mid) == Got(target, rest, [])
    requires ReadReturning(rest, []) == Got(os, [], [])
    ensures ReadStmt([UpdateKw] + ([Ident(table), SetKw] + (list + more)), ps) == Some(Update(table, sets, target, os))
  {
    hide ReadList, ReadTarget, ReadReturning;
    assert ([UpdateKw] + ([Ident(table), SetKw] + (list + more)))[1..] == [Ident(table), SetKw] + (list + more);
    assert ([Ident(table), SetKw] + (list + more))[2..] == list + more;
  }

  lemma SetsLength(ti: TableInfo, body: Body)
    ensures |Singles(SetValues(ti, body))| == |Sets(ti, body)| == |body|
  {
    SetsAt(ti, body);
  }

  lemma {:induction false} KeysKnown(ti: TableInfo, body: Body)
    ensures AllKnown(ti, Keys(body)) <==> forall i :: 0 <= i < |body| ==> body[i].0 in ti.dataTypes
  {
    if body != [] {
      KeysKnown(ti, body[1..]);
      assert forall i :: 1 <= i < |body| ==> body[i] == body[1..][i - 1];
      if AllKnown(ti, Keys(body)) {
        assert forall c :: c in Keys(body[1..]) ==> c in Keys(body);
      }
    }
  }

  /** An UPDATE is built exactly when the body has a key and every key is a column; then it assigns the body's values,
      each carried as it is sent, to exactly the rows asked for. */
  lemma UpdateReadsBack(q: Query, ti: TableInfo, body: Body, representation: bool, window: Option<Window>)
    ensures var f := UpdateFrag(ti, body, EmitQuery(q, true), ReturningList(q, representation), window);
            && (f.Ok? <==> body != [] && forall i :: 0 <= i < |body| ==> body[i].0 in ti.dataTypes)
            && (f.Err? ==> f.error == if body == [] then BadRequest else UnknownColumn)
            && (f.Ok? && q.outputs != [] ==>
                  var stmt := ReadStmt(f.value.toks, f.value.params);
                  && stmt.Some? && stmt.value.Update? && stmt.value.table == ti.name
                  && Assigns(stmt.value.sets, body, ti)
                  && stmt.value.on == TargetOf(q, ti.name, window)
                  && stmt.value.returning == Returned(q, representation))
  {
    KeysKnown(ti, body);
    SetsAssign(ti, body);
    if q.outputs != [] && body != [] && AllKnown(ti, Keys(body)) {
      UpdateReadsSets(q, ti, body, representation, window);
    }
    hide TargetFrag, EmitQuery, TargetOf, ReturningList, SetParts, SetValues, Sets, Keys, AllKnown, ReadStmt, JoinToks,
      Assigns, Returned;
  }
}
