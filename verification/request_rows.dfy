/** From a request to the rows it returns or touches. */
module RequestRows {
  import opened Results
  import opened SqlText
  import opened Values
  import opened Filters
  import opened SqlLogic
  import opened WhereCompiler
  import opened QueryParser
  import opened Asked
  import opened Scanners
  import opened GroupRoundTrip
  import opened Statements
  import opened RestWrites
  import opened RestRoutes
  import opened StatementTheorems
  import opened InsertTheorems
  import opened WriteWindows
  import opened RequestTheorems

  /** The rows for which every condition and group the client wrote holds, in table order. */
  ghost function Kept(table: seq<Stored>, parts: seq<Part>, spec: Spec): seq<Stored> {
    if table == [] then []
    else
      (if AllOf(HoldAll(parts, spec, table[0].row)) == True3 then [table[0]] else []) + Kept(table[1..], parts, spec)
  }

  /** A number brought within 0 and `most`. */
  function Clipped(n: int, most: nat): (r: nat)
    ensures r <= most
  {
    if n < 0 then 0 else if n > most then most else n
  }

  /** The rows from an offset on, at most a limit of them. */
  function Cut<T>(rows: seq<T>, offset: int, limit: Option<int>): seq<T> {
    var rest := rows[Clipped(offset, |rows|)..];
    if limit.Some? then rest[..Clipped(limit.value, |rest|)] else rest
  }

  lemma SkippedIsCut<T>(rows: seq<T>, n: int)
    ensures Skipped(rows, n) == Cut(rows, n, None)
  {}

  lemma LimitedIsCut<T>(rows: seq<T>, offset: int, limit: int)
    ensures Limited(Skipped(rows, offset), limit) == Cut(rows, offset, Some(limit))
  {}

  /** Of the kept rows, those within the client's own window: from its offset on, at most its limit of them, in its
      order; all of them, when it wrote neither. */
  ghost function WithinWindow(kept: seq<Stored>, order: seq<OrderTerm>, limit: Option<int>, offset: Option<int>,
                              sort: Sort): seq<Stored>
  {
    if limit.None? && offset.None? then kept
    else Cut(sort(order, kept), if offset.Some? then offset.value else 0, limit)
  }

  /** A target touches the rows wanted and no others. */
  ghost predicate TouchesOnly(on: Target, table: seq<Stored>, sort: Sort, wanted: seq<Stored>) {
    && (forall r :: r in Touched(on, table, sort) <==> r in wanted)
    && multiset(Touched(on, table, sort)) + multiset(Untouched(on, table, sort)) == multiset(table)
  }

  lemma {:induction false} KeptAreMatching(table: seq<Stored>, parts: seq<Part>, spec: Spec, q: Query)
    requires ClausesMeant(parts, spec) == Ok(q.clauses)
    ensures Matching(table, q) == Kept(table, parts, spec)
  {
    hide QueryMeaning, AllOf, HoldAll, ClausesMeant;
    if table != [] {
      ClausesMean(parts, spec, table[0].row);
      KeptAreMatching(table[1..], parts, spec, q);
    }
  }

  lemma ReadIsKept(parts: seq<Part>, spec: Spec, reserved: set<string>, quotes: Habit, table: seq<Stored>)
    requires ValidSpec(spec) && AllWritable(parts, spec, RESERVED + reserved, quotes)
    ensures var q := ReadQuery(ParamsOf(parts, quotes), spec, reserved);
            q.Ok? ==> Matching(table, q.value) == Kept(table, parts, spec)
  {
    hide AllWritable, ReadQuery, ParamsOf, ClausesMeant, Matching, Kept;
    ReadsClauses(parts, spec, reserved, quotes);
    var q := ReadQuery(ParamsOf(parts, quotes), spec, reserved);
    if q.Ok? {
      KeptAreMatching(table, parts, spec, q.value);
    }
  }

  // ---------------------------------------------------------------------------
  // No filter is dropped
  // ---------------------------------------------------------------------------

  /** The part is no filter, or every condition of it is on a column and understood. */
  ghost predicate Heard(p: Part, spec: Spec) {
    match p
    case On(c) => TopCond(p, spec) == Some(c) && Meant(c, spec).Ok?
    case Exact(name, value) => TopCond(p, spec).Some? && Meant(TopCond(p, spec).value, spec).Ok?
    case AnyGroup(cs) => GroupMeant(cs, spec).Ok?
    case AllGroup(cs) => GroupMeant(cs, spec).Ok?
    case Other(_, _) => true
  }

  lemma ParamAt(parts: seq<Part>, quotes: Habit, i: nat)
    requires i < |parts|
    ensures |ParamsOf(parts, quotes)| == |parts| && ParamsOf(parts, quotes)[i] == ParamOf(parts[i], quotes)
  {
    hide ParamOf;
    if i > 0 {
      ParamAt(parts[1..], quotes, i - 1);
    } else if |parts| > 1 {
      ParamAt(parts[1..], quotes, 0);
    }
  }

  /** In a request that passes the check of its keys, every condition outside the keys of the grammar is on a column,
      and none stands under `debug`. */
  lemma ConditionsAreOnColumns(parts: seq<Part>, spec: Spec, quotes: Habit)
    requires KeysReply(ParamsOf(parts, quotes), KnownKeys(spec)).Ok?
    ensures forall p :: p in parts && p.On? && p.c.name !in RESERVED ==>
              TopCond(p, spec) == Some(p.c) && p.c.name != "debug"
    ensures forall p :: p in parts && p.Exact? && p.name !in GRAMMAR_KEYS ==> TopCond(p, spec).Some?
  {
    var items := ParamsOf(parts, quotes);
    PassesExactlyWhen(items, KnownKeys(spec));
    hide KeysReply, ParamsOf, TopText, TraceValue;
    forall p | p in parts && p.On? && p.c.name !in RESERVED
      ensures TopCond(p, spec) == Some(p.c) && p.c.name != "debug"
    {
      var i :| 0 <= i < |parts| && parts[i] == p;
      ParamAt(parts, quotes, i);
      ConditionIsNoTrace(p.c, quotes);
    }
    forall p | p in parts && p.Exact? && p.name !in GRAMMAR_KEYS ensures TopCond(p, spec).Some? {
      var i :| 0 <= i < |parts| && parts[i] == p;
      ParamAt(parts, quotes, i);
    }
  }

  lemma ConditionIsNoTrace(c: Cond, quotes: Habit)
    ensures |TopText(c, quotes)| >= 2
  {
    var t := TopText(c, quotes);
    var op := if c.Scalar? then c.op else In;
    OpNameLetters(op);
    assert |OpPart(c)| >= 1;
    assert |t| >= |OpPart(c)| + 1;
  }

  /** The client's clauses are meant exactly when each condition and group of them is. */
  lemma EachIsMeant(parts: seq<Part>, spec: Spec)
    ensures ClausesMeant(parts, spec).Ok? <==> forall p :: p in parts ==>
              && (TopCond(p, spec).Some? ==> Meant(TopCond(p, spec).value, spec).Ok?)
              && (p.AnyGroup? || p.AllGroup? ==> GroupMeant(p.cs, spec).Ok?)
  {
    hide TopCond, Meant, GroupMeant;
    ColumnsAreMeant(parts, spec);
    GroupsAreMeant(parts, spec, true);
    GroupsAreMeant(parts, spec, false);
    assert forall p: Part :: p.AnyGroup? ==> GroupOf(p, true) == Some(p.cs);
    assert forall p: Part :: p.AllGroup? ==> GroupOf(p, false) == Some(p.cs);
  }

  lemma {:induction false} ColumnsAreMeant(parts: seq<Part>, spec: Spec)
    ensures ColumnsMeant(parts, spec).Ok? <==>
            forall p :: p in parts && TopCond(p, spec).Some? ==> Meant(TopCond(p, spec).value, spec).Ok?
  {
    hide TopCond, Meant;
    if parts != [] {
      ColumnsAreMeant(parts[1..], spec);
      assert forall p :: p in parts <==> p == parts[0] || p in parts[1..];
    }
  }

  lemma {:induction false} GroupsAreMeant(parts: seq<Part>, spec: Spec, isOr: bool)
    ensures GroupsMeant(parts, spec, isOr).Ok? <==>
            forall p :: p in parts && GroupOf(p, isOr).Some? ==> GroupMeant(GroupOf(p, isOr).value, spec).Ok?
  {
    hide GroupOf, GroupMeant;
    if parts != [] {
      GroupsAreMeant(parts[1..], spec, isOr);
      assert forall p :: p in parts <==> p == parts[0] || p in parts[1..];
    }
  }

  /** Every key is a column or one of the grammar, and under `debug` stands a trace flag. */
  predicate KeysAllowed(items: Params, spec: Spec) {
    forall i :: 0 <= i < |items| ==>
      && (items[i].0 in spec.columns || items[i].0 == "select" || items[i].0 == "order" || items[i].0 == "limit"
          || items[i].0 == "offset" || items[i].0 == "or" || items[i].0 == "and" || items[i].0 == "debug")
      && (items[i].0 == "debug" ==> items[i].1 == "" || items[i].1 == "0" || items[i].1 == "1")
  }

  lemma KeysPass(items: Params, spec: Spec)
    ensures KeysReply(items, KnownKeys(spec)).Ok? <==> KeysAllowed(items, spec)
  {
    PassesExactlyWhen(items, KnownKeys(spec));
    hide KeysReply;
  }

  /** The keys are allowed, every filter is heard, and there are columns, an order and a page as asked for. */
  ghost predicate Accepted(parts: seq<Part>, items: Params, spec: Spec) {
    KeysAllowed(items, spec) && (forall p :: p in parts ==> Heard(p, spec)) && Answerable(items, spec)
  }

  /** A request is let through exactly when it is accepted, so no filter in it is dropped and none unfilters a write;
      then it is read as asking for those columns, that order and that page. */
  lemma AcceptedExactlyWhen(parts: seq<Part>, spec: Spec, quotes: Habit)
    requires ValidSpec(spec) && AllWritable(parts, spec, GRAMMAR_KEYS, quotes)
    ensures var items := ParamsOf(parts, quotes);
            var read := Checked(items, spec);
            && (read.Ok? <==> Accepted(parts, items, spec))
            && (read.Ok? ==> Asks(items, spec, read.value))
  {
    hide KeysReply, ReadQuery, ReadClauses, ParamsOf, ClausesMeant, ValidSpec, AllWritable, KeysAllowed, Answerable,
      Asks;
    var items := ParamsOf(parts, quotes);
    KeysPass(items, spec);
    RequestReadsBack(parts, spec, TRACE_KEYS, quotes);
    ReadsAsked(items, spec, TRACE_KEYS);
    if KeysReply(items, KnownKeys(spec)).Ok? {
      HeardIsMeant(parts, spec, quotes);
    }
  }

  lemma HeardIsMeant(parts: seq<Part>, spec: Spec, quotes: Habit)
    requires KeysReply(ParamsOf(parts, quotes), KnownKeys(spec)).Ok? && AllWritable(parts, spec, GRAMMAR_KEYS, quotes)
    ensures ClausesMeant(parts, spec).Ok? <==> forall p :: p in parts ==> Heard(p, spec)
  {
    hide KeysReply, ParamsOf, ClausesMeant, TopCond, Meant, GroupMeant, ItemCarried, Carried, NoOperator;
    EachIsMeant(parts, spec);
    ConditionsAreOnColumns(parts, spec, quotes);
    forall p | p in parts
      ensures Heard(p, spec) <==>
              && (TopCond(p, spec).Some? ==> Meant(TopCond(p, spec).value, spec).Ok?)
              && (p.AnyGroup? || p.AllGroup? ==> GroupMeant(p.cs, spec).Ok?)
    {
      assert Writable(p, spec, GRAMMAR_KEYS, quotes);
      NoTopCond(p, spec);
    }
  }

  lemma NoTopCond(p: Part, spec: Spec)
    ensures p.AnyGroup? || p.AllGroup? || p.Other? ==> TopCond(p, spec).None?
  {}

  // ---------------------------------------------------------------------------
  // SELECT
  // ---------------------------------------------------------------------------

  /** The rows a select returns. */
  ghost function Returns(stmt: Stmt, table: seq<Stored>, sort: Sort): seq<Stored>
    requires stmt.Select?
  {
    Page(sort(stmt.order, Select3(table, stmt.where)), stmt.limit, stmt.offset)
  }

  /** The statement returns the columns asked for of the rows for which everything the client wrote holds: in the order
      asked for, from the offset written on, at most the limit written of them, or the default. */
  ghost predicate SelectsTheKept(stmt: Stmt, ti: TableInfo, parts: seq<Part>, items: Params, table: seq<Stored>,
                                 sort: Sort)
  {
    && stmt.Select? && stmt.table == ti.name
    && OutputsAsked(items, ti.spec, stmt.outputs) && OrderAsked(items, ti.spec, stmt.order)
    && Returns(stmt, table, sort)
       == Cut(sort(stmt.order, Kept(table, parts, ti.spec)), PageOffset(items), Some(PageLimit(items, ti.spec)))
  }

  /** The read route accepts exactly the requests that are accepted; its SELECT then returns the page asked for of the
      rows for which everything the client wrote holds. */
  lemma SelectReturnsTheKept(parts: seq<Part>, ti: TableInfo, quotes: Habit, table: seq<Stored>, sort: Sort)
    requires ValidSpec(ti.spec) && ti.spec.strict && AllWritable(parts, ti.spec, GRAMMAR_KEYS, quotes)
    ensures var items := ParamsOf(parts, quotes);
            var r := SelectRoute(ti, items);
            && (r.Ok? <==> Accepted(parts, items, ti.spec))
            && (r.Ok? && !OutputsAsked(items, ti.spec, []) ==>
                  var stmt := ReadStmt(r.value.toks, r.value.params);
                  stmt.Some? && SelectsTheKept(stmt.value, ti, parts, items, table, sort))
  {
    hide AllWritable, ReadQuery, ParamsOf, Kept, Matching, SelectFrag, EmitQuery, ReadStmt, Select3, ValidSpec,
      KeysReply, Accepted, OutputsAsked, OrderAsked, PageLimit, PageOffset, Cut, Skipped, Limited;
    var items := ParamsOf(parts, quotes);
    var read := Checked(items, ti.spec);
    AcceptedExactlyWhen(parts, ti.spec, quotes);
    if read.Ok? && read.value.outputs != [] {
      SelectReadsBack(read.value, ti.name);
      ReadIsKept(parts, ti.spec, TRACE_KEYS, quotes, table);
      SelectIsMatching(table, read.value);
      var ordered := sort(read.value.order, Kept(table, parts, ti.spec));
      LimitedIsCut(ordered, read.value.offset, read.value.limit);
      PageOf(ordered, read.value.limit, read.value.offset);
    }
  }

  lemma PageOf<T>(s: seq<T>, limit: int, offset: int)
    ensures Page(s, Some(VInt(limit)), if offset != 0 then Some(VInt(offset)) else None)
         == Limited(Skipped(s, offset), limit)
  {}

  // ---------------------------------------------------------------------------
  // DELETE and UPDATE
  // ---------------------------------------------------------------------------

  /** A limit is written that is over the maximum. */
  ghost predicate OverLimit(items: Params, spec: Spec) {
    Written(items, "limit").Some? && Written(items, "limit").value > spec.maxLimit
  }

  /** The target touches, of the rows for which everything the client wrote holds, exactly those within the written
      window, in the order asked for. */
  ghost predicate TouchesTheKept(on: Target, parts: seq<Part>, items: Params, spec: Spec, table: seq<Stored>,
                                 sort: Sort)
  {
    exists order ::
      && OrderAsked(items, spec, order)
      && TouchesOnly(on, table, sort, WithinWindow(Kept(table, parts, spec), order, Written(items, "limit"),
                                                   Written(items, "offset"), sort))
  }

  /** The columns returned: those asked for, when the client wants its rows back. */
  ghost predicate ReturnsAsked(items: Params, spec: Spec, representation: bool, returning: seq<Output>) {
    if representation then OutputsAsked(items, spec, returning) else returning == []
  }

  lemma TargetTouchesTheKept(parts: seq<Part>, spec: Spec, quotes: Habit, name: string, table: seq<Stored>, sort: Sort)
    requires ValidSpec(spec) && AllWritable(parts, spec, GRAMMAR_KEYS, quotes) && Addressed(table) && Rearranges(sort)
    requires Checked(ParamsOf(parts, quotes), spec).Ok?
    ensures var items := ParamsOf(parts, quotes);
            var q, w := Checked(items, spec).value, WindowOf(items, spec);
            && (w.Err? <==> OverLimit(items, spec))
            && (w.Ok? ==> TouchesTheKept(TargetOf(q, name, w.value), parts, items, spec, table, sort))
  {
    hide AllWritable, ReadQuery, ParamsOf, Kept, Matching, ValidSpec, TargetOf, Touched, Untouched, Written, Get,
      ReadInt, Addressed, Rearranges, WriteWindow, Skipped, Limited, KeysReply, OrderAsked, KeysAllowed, Answerable,
      Heard, Cut;
    var items := ParamsOf(parts, quotes);
    var q := Checked(items, spec).value;
    AcceptedExactlyWhen(parts, spec, quotes);
    WindowIsExplicit(items, spec, TRACE_KEYS);
    ReadIsKept(parts, spec, TRACE_KEYS, quotes, table);
    var w := WindowOf(items, spec);
    if w.Ok? {
      WriteTouchesTheChosen(q, name, w.value, table, sort);
      ChosenIsWithin(q, w.value, table, sort);
      assert OrderAsked(items, spec, q.order);
    }
  }

  lemma ChosenIsWithin(q: Query, window: Option<Window>, table: seq<Stored>, sort: Sort)
    requires window.Some? ==> window.value != (None, None)
    ensures Chosen(q, window, table, sort)
         == WithinWindow(Matching(table, q), q.order, if window.Some? then window.value.0 else None,
                         if window.Some? then window.value.1 else None, sort)
  {
    hide Matching, Skipped, Limited, Cut;
    if window.Some? {
      var (limit, offset) := window.value;
      var ordered := sort(q.order, Matching(table, q));
      var from := if offset.Some? then offset.value else 0;
      SkippedIsCut(ordered, from);
      NothingSkipped(ordered);
      if limit.Some? {
        LimitedIsCut(ordered, from, limit.value);
      }
    }
  }

  lemma NothingSkipped<T>(rows: seq<T>)
    ensures Skipped(rows, 0) == rows
  {}

  /** The statement deletes those rows and returns the columns asked for. */
  ghost predicate DeletesTheKept(stmt: Stmt, ti: TableInfo, parts: seq<Part>, items: Params, representation: bool,
                                 table: seq<Stored>, sort: Sort)
  {
    stmt.Delete? && stmt.table == ti.name && ReturnsAsked(items, ti.spec, representation, stmt.returning)
    && TouchesTheKept(stmt.on, parts, items, ti.spec, table, sort)
  }

  /** The delete route accepts exactly the requests that are accepted and write no limit over the maximum; its DELETE
      then removes exactly the rows within the written window of those for which everything the client wrote holds. */
  lemma DeleteTouchesTheKept(parts: seq<Part>, ti: TableInfo, quotes: Habit, representation: bool, table: seq<Stored>,
                             sort: Sort)
    requires ValidSpec(ti.spec) && ti.spec.strict && AllWritable(parts, ti.spec, GRAMMAR_KEYS, quotes)
    requires Addressed(table) && Rearranges(sort)
    ensures var items := ParamsOf(parts, quotes);
            var r := DeleteRoute(ti, items, representation);
            && (r.Ok? <==> Accepted(parts, items, ti.spec) && !OverLimit(items, ti.spec))
            && (r.Ok? && !OutputsAsked(items, ti.spec, []) ==>
                  var stmt := ReadStmt(r.value.toks, r.value.params);
                  stmt.Some? && DeletesTheKept(stmt.value, ti, parts, items, representation, table, sort))
  {
    hide AllWritable, ReadQuery, ParamsOf, ValidSpec, TargetOf, TouchesTheKept, Written, Get, ReadInt, WindowOf,
      Addressed, Rearranges, EmitQuery, DeleteFrag, ReadStmt, KeysReply, Accepted, OutputsAsked, OverLimit;
    var items := ParamsOf(parts, quotes);
    var read := Checked(items, ti.spec);
    AcceptedExactlyWhen(parts, ti.spec, quotes);
    if read.Ok? {
      TargetTouchesTheKept(parts, ti.spec, quotes, ti.name, table, sort);
      var w := WindowOf(items, ti.spec);
      if w.Ok? && read.value.outputs != [] {
        DeleteReadsBack(read.value, ti, representation, w.value);
        assert ReturningList(read.value, representation) == Returning(EmitQuery(read.value, true), representation);
      }
    }
  }

  /** The body has a key, and none that is no column. */
  predicate BodyKnown(body: Body, ti: TableInfo) {
    body != [] && forall i :: 0 <= i < |body| ==> body[i].0 in ti.dataTypes
  }

  /** The statement assigns the body's values, each carried as it is sent, to those rows and returns the columns asked
      for. */
  ghost predicate UpdatesTheKept(stmt: Stmt, ti: TableInfo, parts: seq<Part>, items: Params, body: Body,
                                 representation: bool, table: seq<Stored>, sort: Sort)
  {
    stmt.Update? && stmt.table == ti.name && Assigns(stmt.sets, body, ti)
    && ReturnsAsked(items, ti.spec, representation, stmt.returning)
    && TouchesTheKept(stmt.on, parts, items, ti.spec, table, sort)
  }

  /** The update route accepts the same requests, with a body of known keys; its UPDATE assigns the body's values to
      exactly those rows. */
  lemma UpdateTouchesTheKept(parts: seq<Part>, ti: TableInfo, quotes: Habit, body: Body, representation: bool,
                             table: seq<Stored>, sort: Sort)
    requires ValidSpec(ti.spec) && ti.spec.strict && AllWritable(parts, ti.spec, GRAMMAR_KEYS, quotes)
    requires Addressed(table) && Rearranges(sort)
    ensures UpdateRoute(ti, ParamsOf(parts, quotes), None, representation).Err?
    ensures var items := ParamsOf(parts, quotes);
            var r := UpdateRoute(ti, items, Some(body), representation);
            && (r.Ok? <==> Accepted(parts, items, ti.spec) && !OverLimit(items, ti.spec) && BodyKnown(body, ti))
            && (r.Ok? && !OutputsAsked(items, ti.spec, []) ==>
                  var stmt := ReadStmt(r.value.toks, r.value.params);
                  stmt.Some? && UpdatesTheKept(stmt.value, ti, parts, items, body, representation, table, sort))
  {
    hide AllWritable, ReadQuery, ParamsOf, ValidSpec, TargetOf, TouchesTheKept, Written, Get, ReadInt, WindowOf,
      Addressed, Rearranges, EmitQuery, UpdateFrag, ReadStmt, KeysReply, Accepted, OutputsAsked, OverLimit, Assigns;
    var items := ParamsOf(parts, quotes);
    var read := Checked(items, ti.spec);
    AcceptedExactlyWhen(parts, ti.spec, quotes);
    if read.Ok? {
      TargetTouchesTheKept(parts, ti.spec, quotes, ti.name, table, sort);
      var w := WindowOf(items, ti.spec);
      if w.Ok? {
        UpdateReadsBack(read.value, ti, body, representation, w.value);
        assert ReturningList(read.value, representation) == Returning(EmitQuery(read.value, true), representation);
      }
    }
  }

  // ---------------------------------------------------------------------------
  // INSERT
  // ---------------------------------------------------------------------------

  /** An insert has only keys of its own, none of them a filter, and under `debug` a trace flag. */
  ghost predicate InsertKeysAllowed(items: Params) {
    forall i :: 0 <= i < |items| ==>
      && (items[i].0 == "select" || items[i].0 == "columns" || items[i].0 == "on_conflict" || items[i].0 == "debug")
      && (items[i].0 == "debug" ==> items[i].1 == "" || items[i].1 == "0" || items[i].1 == "1")
  }

  /** The columns and target of the insert, planned from the texts under its keys. */
  ghost predicate PlannedFor(items: Params, ti: TableInfo, rows: seq<Body>, resolution: Option<Resolution>,
                             cols: seq<string>, target: seq<string>)
  {
    Planned(ti, rows, TextUnder(items, "columns"), TextUnder(items, "on_conflict"), resolution, cols, target)
  }

  /** The insert has only its own keys, there is a plan for it, and an answer to what it wants returned. */
  ghost predicate InsertAccepted(items: Params, ti: TableInfo, rows: seq<Body>, resolution: Option<Resolution>,
                                 representation: bool)
  {
    && InsertKeysAllowed(items)
    && (representation || TextUnder(items, "select").Some? ==> Answerable(items, ti.spec))
    && exists cols, target :: PlannedFor(items, ti, rows, resolution, cols, target)
  }

  /** The statement stores every row as it is sent, with the planned action on a conflict, and returns the columns asked
      for. */
  ghost predicate StoresTheRows(stmt: Stmt, items: Params, ti: TableInfo, rows: seq<Body>,
                                resolution: Option<Resolution>, representation: bool)
  {
    exists cols, target, returning ::
      && PlannedFor(items, ti, rows, resolution, cols, target)
      && ReturnsAsked(items, ti.spec, representation, returning)
      && Stores(stmt, ti, rows, resolution, cols, target, returning)
  }

  /** The insert route accepts exactly the inserts that are accepted, and the INSERT then stores every row as it is
      sent. */
  lemma InsertStoresTheRows(ti: TableInfo, items: Params, rows: seq<Body>, resolution: Option<Resolution>,
                            representation: bool)
    requires ValidSpec(ti.spec) && ti.spec.strict && rows != [] && !OutputsAsked(items, ti.spec, [])
    ensures var r := InsertRoute(ti, items, rows, resolution, representation);
            && (r.Ok? <==> InsertAccepted(items, ti, rows, resolution, representation))
            && (r.Ok? ==>
                  && r.value.Some?
                  && var stmt := ReadStmt(r.value.value.toks, r.value.value.params);
                     stmt.Some? && StoresTheRows(stmt.value, items, ti, rows, resolution, representation))
  {
    hide KeysReply, ReadQuery, ReadStmt, Get, TextUnder, ValidSpec, InsertFrag, Answerable, OutputsAsked, PlannedFor,
      Stores, InsertKeysAllowed, InsertReturning;
    InsertKeysPass(items);
    GetIsLast(items, "columns");
    GetIsLast(items, "on_conflict");
    if KeysReply(items, INSERT_KEYS).Ok? {
      ReturningIsAsked(ti, items, representation);
      var returning := InsertReturning(ti, items, representation);
      if returning.Ok? {
        InsertFragStores(ti, items, rows, resolution, representation);
      }
    }
  }

  lemma InsertKeysPass(items: Params)
    ensures KeysReply(items, INSERT_KEYS).Ok? <==> InsertKeysAllowed(items)
  {
    PassesExactlyWhen(items, INSERT_KEYS);
    hide KeysReply;
  }

  /** What the query of an insert returns; one column stands in for it when nothing is returned. */
  function ReturningQuery(ti: TableInfo, items: Params, representation: bool): Query
    requires ValidSpec(ti.spec)
  {
    var read := ReadQuery(items, ti.spec, INSERT_RESERVED);
    if representation && read.Ok? then read.value else Query([], [Output("", "")], [], 0, 0)
  }

  lemma ReturningIsAsked(ti: TableInfo, items: Params, representation: bool)
    requires ValidSpec(ti.spec) && ti.spec.strict && KeysReply(items, INSERT_KEYS).Ok?
    ensures var r, q := InsertReturning(ti, items, representation), ReturningQuery(ti, items, representation);
            && (r.Ok? <==> (representation || TextUnder(items, "select").Some? ==> Answerable(items, ti.spec)))
            && (r.Ok? ==>
                  && r.value == ReturningList(q, representation)
                  && ReturnsAsked(items, ti.spec, representation, if representation then q.outputs else [])
                  && (q.outputs == [] ==> OutputsAsked(items, ti.spec, [])))
  {
    GetIsLast(items, "select");
    ReadsAsked(items, ti.spec, INSERT_RESERVED);
    InsertHasNoFilter(items, ti.spec);
    hide KeysReply, ReadQuery, EmitQuery, Get, TextUnder, ValidSpec, ReadClauses, Answerable, OutputsAsked, OrderAsked,
      PageLimit, PageOffset;
  }

  lemma InsertFragStores(ti: TableInfo, items: Params, rows: seq<Body>, resolution: Option<Resolution>,
                         representation: bool)
    requires ValidSpec(ti.spec) && rows != [] && ReturningQuery(ti, items, representation).outputs != []
    requires ReturnsAsked(items, ti.spec, representation,
                          if representation then ReturningQuery(ti, items, representation).outputs else [])
    ensures var q := ReturningQuery(ti, items, representation);
            var f := InsertFrag(ti, rows, Get(items, "columns"), Get(items, "on_conflict"), resolution,
                                ReturningList(q, representation));
            && (f.Ok? <==> exists cols, target :: PlannedFor(items, ti, rows, resolution, cols, target))
            && (f.Ok? ==>
                  var stmt := ReadStmt(f.value.toks, f.value.params);
                  stmt.Some? && StoresTheRows(stmt.value, items, ti, rows, resolution, representation))
  {
    var q := ReturningQuery(ti, items, representation);
    GetIsLast(items, "columns");
    GetIsLast(items, "on_conflict");
    InsertReadsBack(ti, rows, Get(items, "columns"), Get(items, "on_conflict"), resolution, q, representation);
    hide ReadStmt, Get, TextUnder, ValidSpec, InsertFrag, ReturningList, Planned, Stores, ReturningQuery, ReturnsAsked;
    var f := InsertFrag(ti, rows, Get(items, "columns"), Get(items, "on_conflict"), resolution,
                        ReturningList(q, representation));
    forall cols, target ensures PlannedFor(items, ti, rows, resolution, cols, target)
      <==> Planned(ti, rows, Get(items, "columns"), Get(items, "on_conflict"), resolution, cols, target)
    {
    }
  }
}
