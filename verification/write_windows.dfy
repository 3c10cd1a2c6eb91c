/** Which rows a built UPDATE or DELETE touches when the server runs it. */
module WriteWindows {
  import opened Results
  import opened Values
  import opened Filters
  import opened SqlText
  import opened SqlLogic
  import opened WhereCompiler
  import opened QueryParser
  import opened Asked
  import opened Statements
  import opened StatementLemmas
  import opened RestWrites
  import opened StatementTheorems

  /** A stored row and its physical address. */
  datatype Stored = Stored(ctid: nat, row: Row)

  ghost predicate Addressed(table: seq<Stored>) {
    forall i, j :: 0 <= i < j < |table| ==> table[i].ctid != table[j].ctid
  }

  /** The server's sort: any rearrangement of the rows it is given. */
  type Sort = (seq<OrderTerm>, seq<Stored>) -> seq<Stored>

  ghost predicate Rearranges(sort: Sort) {
    forall ts, rows :: multiset(sort(ts, rows)) == multiset(rows)
  }

  ghost function Ids(rows: seq<Stored>): set<nat> {
    set r | r in rows :: r.ctid
  }

  // ---------------------------------------------------------------------------
  // The server's execution of a target
  // ---------------------------------------------------------------------------

  ghost function Select3(table: seq<Stored>, where: Option<Sql>): seq<Stored> {
    if table == [] then []
    else
      (if where.None? || Eval(where.value, table[0].row) == True3 then [table[0]] else [])
      + Select3(table[1..], where)
  }

  function Skipped<T>(s: seq<T>, n: int): seq<T> {
    if n <= 0 then s else if n < |s| then s[n..] else []
  }

  function Limited<T>(s: seq<T>, n: int): seq<T> {
    if n <= 0 then [] else if n < |s| then s[..n] else s
  }

  /** OFFSET, then LIMIT, when present. */
  function Page<T>(s: seq<T>, limit: Option<Value>, offset: Option<Value>): seq<T> {
    var t := if offset.Some? && offset.value.VInt? then Skipped(s, offset.value.i) else s;
    if limit.Some? && limit.value.VInt? then Limited(t, limit.value.i) else t
  }

  /** The addresses a target names. */
  ghost function Named(target: Target, table: seq<Stored>, sort: Sort): set<nat> {
    match target
    case Every => Ids(table)
    case Meeting(e) => Ids(Select3(table, Some(e)))
    case Windowed(_, inner, order, limit, offset) => Ids(Page(sort(order, Select3(table, inner)), limit, offset))
  }

  ghost function Touched(target: Target, table: seq<Stored>, sort: Sort): seq<Stored> {
    Keep(table, Named(target, table, sort), true)
  }

  ghost function Untouched(target: Target, table: seq<Stored>, sort: Sort): seq<Stored> {
    Keep(table, Named(target, table, sort), false)
  }

  /** The rows whose address is (or is not) in `ids`, in table order. */
  ghost function Keep(table: seq<Stored>, ids: set<nat>, inside: bool): seq<Stored> {
    if table == [] then []
    else (if (table[0].ctid in ids) == inside then [table[0]] else []) + Keep(table[1..], ids, inside)
  }

  // ---------------------------------------------------------------------------
  // What the client asked for
  // ---------------------------------------------------------------------------

  /** The rows the request's filters and groups keep, in table order. */
  ghost function Matching(table: seq<Stored>, q: Query): seq<Stored> {
    if table == [] then []
    else (if QueryMeaning(table[0].row, q.clauses) == True3 then [table[0]] else []) + Matching(table[1..], q)
  }

  /** The ordered matches from the client's offset, at most the client's limit of them; without an explicit
      limit or offset nothing is cut. */
  ghost function Chosen(q: Query, window: Option<Window>, table: seq<Stored>, sort: Sort): seq<Stored> {
    if window.None? then Matching(table, q)
    else
      var ordered := sort(q.order, Matching(table, q));
      var from := if window.value.1.Some? then Skipped(ordered, window.value.1.value) else ordered;
      if window.value.0.Some? then Limited(from, window.value.0.value) else from
  }

  // ---------------------------------------------------------------------------
  // They agree
  // ---------------------------------------------------------------------------

  lemma {:induction false} SelectIsMatching(table: seq<Stored>, q: Query)
    ensures Select3(table, WhereOf(q.clauses)) == Matching(table, q)
  {
    hide WhereTree, QueryMeaning, Eval;
    if table != [] {
      SelectIsMatching(table[1..], q);
      if q.clauses == [] {
        assert QueryMeaning(table[0].row, []) == True3 by { NoClausesHold(table[0].row); }
      } else {
        WhereTreeMeans(table[0].row, q.clauses);
      }
    }
  }

  lemma NoClausesHold(row: Row)
    ensures QueryMeaning(row, []) == True3
  {}

  lemma {:induction false} EveryIsSelect(table: seq<Stored>)
    ensures Select3(table, None) == table
  {
    if table != [] {
      EveryIsSelect(table[1..]);
      assert [table[0]] + table[1..] == table;
    }
  }

  /** The addresses the built statement names are those of the chosen rows. */
  lemma NamedAreChosen(q: Query, name: string, window: Option<Window>, table: seq<Stored>, sort: Sort)
    ensures Named(TargetOf(q, name, window), table, sort) == Ids(Chosen(q, window, table, sort))
  {
    hide WhereTree, Select3, Matching;
    SelectIsMatching(table, q);
    EveryIsSelect(table);
  }

  lemma {:induction false} KeepSplits(table: seq<Stored>, ids: set<nat>)
    ensures multiset(Keep(table, ids, true)) + multiset(Keep(table, ids, false)) == multiset(table)
    ensures forall r :: r in Keep(table, ids, true) <==> r in table && r.ctid in ids
  {
    if table != [] {
      KeepSplits(table[1..], ids);
      assert table == [table[0]] + table[1..];
    }
  }

  lemma {:induction false} MatchingWithin(table: seq<Stored>, q: Query)
    ensures multiset(Matching(table, q)) <= multiset(table)
    ensures forall r :: r in Matching(table, q) ==> r in table
  {
    hide QueryMeaning;
    if table != [] {
      MatchingWithin(table[1..], q);
      assert table == [table[0]] + table[1..];
    }
  }

  /** The rows of a page of a rearrangement are among the rows rearranged. */
  lemma PageWithin(s: seq<Stored>, l: Option<int>, o: Option<int>)
    ensures var from := if o.Some? then Skipped(s, o.value) else s;
            var page := if l.Some? then Limited(from, l.value) else from;
            forall r :: r in page ==> r in s
  {}

  lemma ChosenWithin(q: Query, window: Option<Window>, table: seq<Stored>, sort: Sort)
    requires Rearranges(sort)
    ensures forall r :: r in Chosen(q, window, table, sort) ==> r in table
  {
    hide Matching;
    MatchingWithin(table, q);
    if window.Some? {
      var ordered := sort(q.order, Matching(table, q));
      assert forall r :: r in ordered ==> r in multiset(ordered);
      PageWithin(ordered, window.value.0, window.value.1);
    }
  }

  lemma SameAddressSameRow(table: seq<Stored>, a: Stored, b: Stored)
    requires Addressed(table) && a in table && b in table && a.ctid == b.ctid
    ensures a == b
  {}

  /** A built write touches exactly the chosen rows, and touched and untouched rows together make up the table. */
  lemma WriteTouchesTheChosen(q: Query, name: string, window: Option<Window>, table: seq<Stored>, sort: Sort)
    requires Addressed(table) && Rearranges(sort)
    ensures var target := TargetOf(q, name, window);
            && (forall r :: r in Touched(target, table, sort) <==> r in Chosen(q, window, table, sort))
            && multiset(Touched(target, table, sort)) + multiset(Untouched(target, table, sort)) == multiset(table)
  {
    hide Chosen, TargetOf, Named, Keep;
    var target := TargetOf(q, name, window);
    var chosen, ids := Chosen(q, window, table, sort), Named(target, table, sort);
    NamedAreChosen(q, name, window, table, sort);
    KeepSplits(table, ids);
    ChosenWithin(q, window, table, sort);
    forall r | r in table && r.ctid in ids ensures r in chosen {
      var s :| s in chosen && s.ctid == r.ctid;
      SameAddressSameRow(table, r, s);
    }
  }

  // ---------------------------------------------------------------------------
  // How many rows
  // ---------------------------------------------------------------------------

  ghost predicate Once<T>(rows: seq<T>) {
    forall i, j :: 0 <= i < j < |rows| ==> rows[i] != rows[j]
  }

  lemma OnceCount<T>(a: seq<T>, b: seq<T>)
    requires Once(a) && Once(b) && forall r :: r in a <==> r in b
    ensures |a| == |b|
  {
    OnceByMultiset(a);
    OnceByMultiset(b);
    forall r ensures multiset(a)[r] == multiset(b)[r] {
      assert r in a <==> r in multiset(a);
      assert r in b <==> r in multiset(b);
    }
    assert multiset(a) == multiset(b);
    assert |multiset(a)| == |a| && |multiset(b)| == |b|;
  }

  lemma {:induction false} KeepOnce(table: seq<Stored>, ids: set<nat>)
    requires Addressed(table)
    ensures Once(Keep(table, ids, true))
  {
    if table != [] {
      var rest := Keep(table[1..], ids, true);
      KeepOnce(table[1..], ids);
      KeepSplits(table[1..], ids);
      forall r | r in rest ensures r != table[0] {
        assert r in table[1..];
      }
    }
  }

  lemma {:induction false} OnceByMultiset<T>(rows: seq<T>)
    ensures Once(rows) <==> forall r :: r in rows ==> multiset(rows)[r] == 1
  {
    if rows != [] {
      var init, x := rows[..|rows| - 1], rows[|rows| - 1];
      assert rows == init + [x];
      OnceByMultiset(init);
      OnceSnoc(init, x);
      assert forall r :: multiset(rows)[r] == multiset(init)[r] + if r == x then 1 else 0;
    }
  }

  lemma OnceSnoc<T>(init: seq<T>, x: T)
    ensures Once(init + [x]) <==> Once(init) && x !in init
  {
    var rows := init + [x];
    assert forall i :: 0 <= i < |init| ==> rows[i] == init[i];
    assert rows[|init|] == x;
    if Once(rows) {
      forall i, j | 0 <= i < j < |init| ensures init[i] != init[j] {
        assert rows[i] != rows[j];
      }
    }
  }

  lemma OrderedOnce(q: Query, table: seq<Stored>, sort: Sort)
    requires Addressed(table) && Rearranges(sort)
    ensures Once(sort(q.order, Matching(table, q))) && Once(Matching(table, q))
    ensures |sort(q.order, Matching(table, q))| == |Matching(table, q)|
  {
    hide Matching;
    var m := Matching(table, q);
    var s := sort(q.order, m);
    MatchingWithin(table, q);
    assert Once(table);
    OnceByMultiset(table);
    OnceByMultiset(m);
    OnceByMultiset(s);
    assert |multiset(s)| == |s| && |multiset(m)| == |m|;
    forall r | r in m ensures multiset(m)[r] == 1 {
      assert r in table;
    }
    forall r | r in s ensures multiset(s)[r] == 1 {
      assert r in multiset(s);
      assert r in m;
    }
  }

  /** How many of `n` ordered matches the client's window keeps. */
  function Count(n: nat, window: Option<Window>): nat {
    if window.None? then n
    else
      var from := if window.value.1.Some? && window.value.1.value > 0
                  then if window.value.1.value < n then n - window.value.1.value else 0 else n;
      if window.value.0.None? then from
      else if window.value.0.value <= 0 then 0
      else if window.value.0.value < from then window.value.0.value else from
  }

  /** A windowed write touches at most its limit of rows and fills it when enough rows match; a write without
      an explicit window touches every match. */
  lemma WriteTouchesThisMany(q: Query, name: string, window: Option<Window>, table: seq<Stored>, sort: Sort)
    requires Addressed(table) && Rearranges(sort)
    ensures |Touched(TargetOf(q, name, window), table, sort)| == Count(|Matching(table, q)|, window)
  {
    hide TargetOf, Named, Keep, Matching;
    var target := TargetOf(q, name, window);
    var chosen, touched := Chosen(q, window, table, sort), Touched(target, table, sort);
    WriteTouchesTheChosen(q, name, window, table, sort);
    OrderedOnce(q, table, sort);
    KeepOnce(table, Named(target, table, sort));
    assert Once(chosen);
    OnceCount(touched, chosen);
  }

  // ---------------------------------------------------------------------------
  // Where the window comes from
  // ---------------------------------------------------------------------------

  /** The window is the client's own numbers, never the parser's default or clamped limit: on an accepted query a
      write either gets exactly the numbers written or, when the limit is over the maximum, is refused. */
  lemma WindowIsExplicit(items: Params, spec: Spec, reserved: set<string>)
    requires ValidSpec(spec) && ReadQuery(items, spec, reserved).Ok?
    ensures ReadInt(Get(items, "limit"), 0).Ok? && ReadInt(Get(items, "offset"), 0).Ok?
    ensures var limit, offset := Written(items, "limit"), Written(items, "offset");
            var w := WriteWindow(items, spec.maxLimit);
            && (w.Err? <==> limit.Some? && limit.value > spec.maxLimit)
            && (w.Ok? ==> w.value == if limit.None? && offset.None? then None else Some((limit, offset)))
            && (limit.Some? ==> limit.value >= 0) && (offset.Some? ==> offset.value >= 0)
  {
    ReadsWritten(items, "limit");
    ReadsWritten(items, "offset");
    GetIsLast(items, "limit");
    GetIsLast(items, "offset");
    hide ReadClauses, ReadSelect, ReadOrder, DefaultOutputs, DefaultTerms, ParseInt, Get, TextUnder, Written;
  }

  /** The limit and offset `parse_query` fills in, defaulted or clamped, have no part in a write. */
  lemma ParsedLimitIsUnused(q: Query, ti: TableInfo, body: Body, returning: seq<Tok>, window: Option<Window>,
                            limit: int, offset: int)
    ensures var other := q.(limit := limit, offset := offset);
            && DeleteFrag(ti, EmitQuery(q, true), returning, window)
            == DeleteFrag(ti, EmitQuery(other, true), returning, window)
            && UpdateFrag(ti, body, EmitQuery(q, true), returning, window)
            == UpdateFrag(ti, body, EmitQuery(other, true), returning, window)
  {
    hide EmitWhere, OrderToks, OutputParts;
  }
}
