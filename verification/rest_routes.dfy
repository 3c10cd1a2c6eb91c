/** The routes of user tables, from their query keys to their statements. */
module RestRoutes {
  import opened Results
  import opened Text
  import opened SqlText
  import opened Values
  import opened Filters
  import opened WhereCompiler
  import opened QueryParser
  import opened SqlLogic
  import opened RestWrites
  import opened WriteWindows

  const TRACE_KEYS: set<string> := {"debug"}
  const GRAMMAR_KEYS := RESERVED + TRACE_KEYS
  const INSERT_KEYS: set<string> := {"select", "columns", "on_conflict", "debug"}
  const INSERT_RESERVED: set<string> := {"debug", "columns", "on_conflict"}

  // ---------------------------------------------------------------------------
  // The keys of a request
  // ---------------------------------------------------------------------------

  /** What may stand under `debug`, which is no filter. */
  predicate TraceValue(v: string) {
    v == "" || v == "0" || v == "1"
  }

  predicate TraceOnly(items: Params) {
    forall v :: v in GetList(items, "debug") ==> TraceValue(v)
  }

  predicate KeysWithin(items: Params, allowed: set<string>) {
    forall i :: 0 <= i < |items| ==> items[i].0 in allowed
  }

  /** A filter under `debug` is refused first, then a key that is not allowed. */
  function KeysReply(items: Params, allowed: set<string>): Result<()> {
    if !TraceOnly(items) then Err(BadRequest) else if !KeysWithin(items, allowed) then Err(UnknownColumn) else Ok(())
  }

  /** The keys of a read or write: those of the grammar and the columns. */
  function KnownKeys(spec: Spec): set<string> {
    GRAMMAR_KEYS + spec.columns.Keys
  }

  /** `_check_debug_value`: every occurrence counts. */
  method CheckDebugValue(items: Params) returns (r: Result<()>)
    ensures r == if TraceOnly(items) then Ok(()) else Err(BadRequest)
  {
    var values := GetList(items, "debug");
    for i := 0 to |values|
      invariant forall v :: v in values[..i] ==> TraceValue(v)
    {
      assert forall v :: v in values[..i + 1] <==> v in values[..i] || v == values[i];
      if !TraceValue(values[i]) {
        assert values[i] in values;
        return Err(BadRequest);
      }
    }
    assert values[..|values|] == values;
    return Ok(());
  }

  method CheckKeys(items: Params, allowed: set<string>) returns (r: Result<()>)
    ensures r == KeysReply(items, allowed)
  {
    hide TraceOnly;
    var debug := CheckDebugValue(items);
    if debug.Err? {
      return debug;
    }
    for i := 0 to |items|
      invariant KeysWithin(items[..i], allowed)
    {
      if items[i].0 !in allowed {
        return Err(UnknownColumn);
      }
    }
    assert items[..|items|] == items;
    return Ok(());
  }

  /** Every occurrence of `debug` is seen. */
  lemma {:induction false} ListedUnder(items: Params, key: string, v: string)
    ensures v in GetList(items, key) <==> exists i :: 0 <= i < |items| && items[i] == (key, v)
  {
    if items != [] {
      ListedUnder(items[1..], key, v);
      if v in GetList(items[1..], key) {
        var i :| 0 <= i < |items[1..]| && items[1..][i] == (key, v);
        assert items[i + 1] == (key, v);
      }
      if i :| 0 <= i < |items| && items[i] == (key, v) {
        assert i > 0 ==> items[1..][i - 1] == (key, v);
      }
    }
  }

  /** A request passes exactly when each of its keys is allowed and whatever it has under `debug` is a trace flag. */
  lemma PassesExactlyWhen(items: Params, allowed: set<string>)
    ensures KeysReply(items, allowed).Ok? <==>
            forall i :: 0 <= i < |items| ==>
              items[i].0 in allowed
              && (items[i].0 == "debug" ==> items[i].1 == "" || items[i].1 == "0" || items[i].1 == "1")
  {
    forall v ensures v in GetList(items, "debug") <==> exists i :: 0 <= i < |items| && items[i] == ("debug", v) {
      ListedUnder(items, "debug", v);
    }
    forall i | 0 <= i < |items| && items[i].0 == "debug" ensures items[i].1 in GetList(items, "debug") {
      assert items[i] == ("debug", items[i].1);
    }
  }

  // ---------------------------------------------------------------------------
  // The routes
  // ---------------------------------------------------------------------------

  /** What the request asks, once its keys are checked. */
  function Checked(items: Params, spec: Spec): Result<Query>
    requires ValidSpec(spec)
  {
    var _ :- KeysReply(items, KnownKeys(spec));
    ReadQuery(items, spec, TRACE_KEYS)
  }

  /** The window of a write whose query was accepted. */
  function WindowOf(items: Params, spec: Spec): Result<Option<Window>>
    requires ValidSpec(spec) && ReadQuery(items, spec, TRACE_KEYS).Ok?
  {
    WindowIsExplicit(items, spec, TRACE_KEYS);
    WriteWindow(items, spec.maxLimit)
  }

  function Returning(qp: ParsedQuery, representation: bool): seq<Tok> {
    if representation then qp.selectList else []
  }

  /** `_get_core`. */
  function SelectRoute(ti: TableInfo, items: Params): Result<Frag>
    requires ValidSpec(ti.spec)
  {
    var q :- Checked(items, ti.spec);
    Ok(SelectFrag(ti.name, EmitQuery(q, ti.spec.strict)))
  }

  /** `_delete_core`. */
  function DeleteRoute(ti: TableInfo, items: Params, representation: bool): Result<Frag>
    requires ValidSpec(ti.spec)
  {
    var q :- Checked(items, ti.spec);
    var w :- WindowOf(items, ti.spec);
    var qp := EmitQuery(q, ti.spec.strict);
    Ok(DeleteFrag(ti, qp, Returning(qp, representation), w))
  }

  /** `_update_core`; the body is absent when it is not a JSON object. */
  function UpdateRoute(ti: TableInfo, items: Params, body: Option<Body>, representation: bool): Result<Frag>
    requires ValidSpec(ti.spec)
  {
    var _ :- KeysReply(items, KnownKeys(ti.spec));
    if body.None? then Err(ValidationFailed)
    else
      var q :- ReadQuery(items, ti.spec, TRACE_KEYS);
      var w :- WindowOf(items, ti.spec);
      var qp := EmitQuery(q, ti.spec.strict);
      UpdateFrag(ti, body.value, qp, Returning(qp, representation), w)
  }

  /** The RETURNING list of an insert; an explicit select list is read even when nothing is returned. */
  function InsertReturning(ti: TableInfo, items: Params, representation: bool): Result<seq<Tok>>
    requires ValidSpec(ti.spec)
  {
    if !representation && Get(items, "select").None? then Ok([])
    else
      var q :- ReadQuery(items, ti.spec, INSERT_RESERVED);
      Ok(Returning(EmitQuery(q, ti.spec.strict), representation))
  }

  /** `_insert_core`; without rows there is no statement. */
  function InsertRoute(ti: TableInfo, items: Params, rows: seq<Body>, resolution: Option<Resolution>,
                       representation: bool): Result<Option<Frag>>
    requires ValidSpec(ti.spec)
  {
    var _ :- KeysReply(items, INSERT_KEYS);
    if rows == [] then Ok(None)
    else
      var returning :- InsertReturning(ti, items, representation);
      var f :- InsertFrag(ti, rows, Get(items, "columns"), Get(items, "on_conflict"), resolution, returning);
      Ok(Some(f))
  }

  method GetCore(ti: TableInfo, items: Params) returns (r: Result<Frag>)
    requires ValidSpec(ti.spec)
    ensures r == SelectRoute(ti, items)
  {
    hide KeysReply, ReadQuery, EmitQuery, SelectFrag, ValidSpec;
    var _ :- CheckKeys(items, KnownKeys(ti.spec));
    var qp :- ParseQuery(items, ti.spec, TRACE_KEYS);
    return Ok(SelectFrag(ti.name, qp));
  }

  method DeleteCore(ti: TableInfo, items: Params, representation: bool) returns (r: Result<Frag>)
    requires ValidSpec(ti.spec)
    ensures r == DeleteRoute(ti, items, representation)
  {
    hide KeysReply, ReadQuery, EmitQuery, DeleteFrag, ValidSpec, WindowOf;
    var _ :- CheckKeys(items, KnownKeys(ti.spec));
    var qp :- ParseQuery(items, ti.spec, TRACE_KEYS);
    var w :- WindowOf(items, ti.spec);
    return Ok(DeleteFrag(ti, qp, Returning(qp, representation), w));
  }

  method UpdateCore(ti: TableInfo, items: Params, body: Option<Body>, representation: bool) returns (r: Result<Frag>)
    requires ValidSpec(ti.spec)
    ensures r == UpdateRoute(ti, items, body, representation)
  {
    hide KeysReply, ReadQuery, EmitQuery, UpdateFrag, ValidSpec, WindowOf;
    var _ :- CheckKeys(items, KnownKeys(ti.spec));
    if body.None? {
      return Err(ValidationFailed);
    }
    var qp :- ParseQuery(items, ti.spec, TRACE_KEYS);
    var w :- WindowOf(items, ti.spec);
    r := BuildUpdate(ti, body.value, qp, Returning(qp, representation), w);
  }

  method InsertCore(ti: TableInfo, items: Params, rows: seq<Body>, resolution: Option<Resolution>,
                    representation: bool) returns (r: Result<Option<Frag>>)
    requires ValidSpec(ti.spec)
    ensures r == InsertRoute(ti, items, rows, resolution, representation)
  {
    hide KeysReply, ReadQuery, EmitQuery, InsertFrag, ValidSpec, Get;
    var _ :- CheckKeys(items, INSERT_KEYS);
    if rows == [] {
      return Ok(None);
    }
    var returning: seq<Tok> := [];
    if representation || Get(items, "select").Some? {
      var qp :- ParseQuery(items, ti.spec, INSERT_RESERVED);
      returning := Returning(qp, representation);
    }
    var f :- BuildInsert(ti, rows, Get(items, "columns"), Get(items, "on_conflict"), resolution, returning);
    return Ok(Some(f));
  }

  // ---------------------------------------------------------------------------
  // Refusals
  // ---------------------------------------------------------------------------

  /** No route builds a statement for a request with a key it does not know or a filter under `debug`. */
  lemma UnknownKeysAreRefused(ti: TableInfo, items: Params, body: Option<Body>, rows: seq<Body>,
                              resolution: Option<Resolution>, representation: bool)
    requires ValidSpec(ti.spec)
    ensures var reply := KeysReply(items, KnownKeys(ti.spec));
            reply.Err? ==>
              && SelectRoute(ti, items) == Err(reply.error)
              && DeleteRoute(ti, items, representation) == Err(reply.error)
              && UpdateRoute(ti, items, body, representation) == Err(reply.error)
    ensures var reply := KeysReply(items, INSERT_KEYS);
            reply.Err? ==> InsertRoute(ti, items, rows, resolution, representation) == Err(reply.error)
  {
    hide KeysReply, ReadQuery, ValidSpec;
  }

  lemma {:induction false} NothingFiltered(items: Params, spec: Spec)
    requires KeysWithin(items, INSERT_KEYS)
    ensures ColumnClauses(items, spec, RESERVED + INSERT_RESERVED) == Ok([])
    ensures GetList(items, "or") == [] && GetList(items, "and") == []
  {
    hide ReadCondition;
    if items != [] {
      var key := items[0].0;
      assert key != "or" && key != "and" by { NotAGroup(key); }
      assert forall i :: 0 <= i < |items[1..]| ==> items[1..][i] == items[i + 1];
      NothingFiltered(items[1..], spec);
    }
  }

  lemma NotAGroup(key: string)
    requires key in INSERT_KEYS
    ensures key != "or" && key != "and"
  {
    assert |"or"| == 2 && |"and"| == 3;
  }

  /** An insert that is let through has no filter in it to be ignored. */
  lemma InsertHasNoFilter(items: Params, spec: Spec)
    requires KeysReply(items, INSERT_KEYS).Ok?
    ensures ReadClauses(items, spec, INSERT_RESERVED) == Ok([])
  {
    hide ColumnClauses;
    NothingFiltered(items, spec);
    NoGroups(spec, true);
    NoGroups(spec, false);
    assert ColumnClauses(items, spec, RESERVED + INSERT_RESERVED) == Ok([]);
    var none: seq<Clause> := [];
    assert none + none + none == none;
    assert ReadClauses(items, spec, INSERT_RESERVED) == Ok(none + none + none);
  }

  lemma NoGroups(spec: Spec, isOr: bool)
    ensures GroupClauses([], spec, isOr) == Ok([])
  {}
}
