/** Client values never reach SQL text: requests of one shape share their text. */
module ValueIndependence {
  import opened Results
  import opened Text
  import opened Scanners
  import opened SqlText
  import opened Values
  import opened Filters
  import opened GroupRoundTrip
  import opened WhereCompiler
  import opened QueryParser
  import opened Asked
  import opened RestRoutes
  import opened RestWrites
  import opened RequestTheorems
  import opened WriteWindows

  /** The same operator, list length, keyword or presence of a language; the values may differ. */
  predicate SameTest(a: Test, b: Test) {
    match a
    case Compare(op, _) => b.Compare? && b.op == op
    case OneOf(vs) => b.OneOf? && |b.vs| == |vs|
    case IsTest(word) => b == a
    case Search(fn, lang, _) => b.Search? && b.fn == fn && b.lang.Some? == lang.Some?
  }

  predicate SameFilter(a: Filter, b: Filter) {
    a.expr == b.expr && a.negate == b.negate && SameTest(a.test, b.test)
  }

  predicate SameFilters(a: seq<Filter>, b: seq<Filter>) {
    |a| == |b| && forall i :: 0 <= i < |a| ==> SameFilter(a[i], b[i])
  }

  predicate SameClause(a: Clause, b: Clause) {
    match a
    case One(f) => b.One? && SameFilter(f, b.f)
    case Group(isOr, fs) => b.Group? && b.isOr == isOr && SameFilters(fs, b.fs)
  }

  predicate SameClauses(a: seq<Clause>, b: seq<Clause>) {
    |a| == |b| && forall i :: 0 <= i < |a| ==> SameClause(a[i], b[i])
  }

  lemma SameFilterText(a: Filter, b: Filter)
    requires SameFilter(a, b)
    ensures EmitFilter(a).toks == EmitFilter(b).toks && |EmitFilter(a).params| == |EmitFilter(b).params|
  {
    hide ParamList;
  }

  lemma {:induction false} SameFiltersText(a: seq<Filter>, b: seq<Filter>)
    requires SameFilters(a, b)
    ensures FilterParts(a) == FilterParts(b) && |FilterParams(a)| == |FilterParams(b)|
  {
    hide EmitFilter, SameFilter;
    if a != [] {
      SameFilterText(a[0], b[0]);
      SameFiltersText(a[1..], b[1..]);
    }
  }

  lemma {:induction false} SameClausesText(a: seq<Clause>, b: seq<Clause>)
    requires SameClauses(a, b)
    ensures ClauseParts(a) == ClauseParts(b) && |ClauseParams(a)| == |ClauseParams(b)|
  {
    hide EmitFilter, SameFilter, FilterParts, FilterParams;
    if a != [] {
      assert SameClause(a[0], b[0]);
      if a[0].One? {
        SameFilterText(a[0].f, b[0].f);
      } else {
        SameFiltersText(a[0].fs, b[0].fs);
      }
      SameClausesText(a[1..], b[1..]);
    }
  }

  /** The pieces every statement of a query is built from are the same, and their parameters as many. */
  predicate SamePieces(p: Query, q: Query, strict: bool) {
    var a, b := EmitQuery(p, strict), EmitQuery(q, strict);
    a.whereClause == b.whereClause && |a.whereParams| == |b.whereParams| && a.orderSql == b.orderSql
    && a.selectList == b.selectList
  }

  /** Two accepted requests whose clauses are alike, with the same select and order texts, and offsets both zero or both
      not, have the same SQL text and the same number of parameters. */
  lemma SameClausesSameText(items: Params, other: Params, spec: Spec, reserved: set<string>, table: string)
    requires ValidSpec(spec)
    requires Get(items, "select") == Get(other, "select") && Get(items, "order") == Get(other, "order")
    ensures var p, q := ReadQuery(items, spec, reserved), ReadQuery(other, spec, reserved);
            && p.Ok? && q.Ok? && SameClauses(p.value.clauses, q.value.clauses)
            && (p.value.offset == 0 <==> q.value.offset == 0)
            ==> SameSql(p.value, q.value, spec.strict, table)
  {
    hide ReadClauses, ReadSelect, ReadOrder, DefaultOutputs, DefaultTerms, ReadLimit, ReadOffset, Get, SameClauses,
      OutputParts, OrderToks, JoinToks, SqlOf, ClauseParts, ClauseParams;
    var p, q := ReadQuery(items, spec, reserved), ReadQuery(other, spec, reserved);
    if p.Ok? && q.Ok? && SameClauses(p.value.clauses, q.value.clauses) {
      SameClausesText(p.value.clauses, q.value.clauses);
    }
  }

  predicate SameSql(p: Query, q: Query, strict: bool, table: string) {
    var f, g := SelectFrag(table, EmitQuery(p, strict)), SelectFrag(table, EmitQuery(q, strict));
    SqlOf(f.toks) == SqlOf(g.toks) && |f.params| == |g.params|
  }

  // ---------------------------------------------------------------------------
  // Requests alike but for their values
  // ---------------------------------------------------------------------------

  /** Two filter texts with the same negation, operator, presence of a language, keyword and list length. */
  predicate SameRaw(a: string, b: string, strict: bool, inGroup: bool) {
    var f, g := ParseOp(a, strict), ParseOp(b, strict);
    f.Ok? && g.Ok? && f.value.negate == g.value.negate && f.value.op == g.value.op
    && f.value.lang.Some? == g.value.lang.Some?
    && (f.value.op.Is? ==>
          IsWordOf(Bared(f.value.value, strict, inGroup)) == IsWordOf(Bared(g.value.value, strict, inGroup)))
    && (f.value.op.In? ==> SameLength(ReadItems(f.value.value, strict), ReadItems(g.value.value, strict)))
  }

  function Bared(value: string, strict: bool, inGroup: bool): string {
    if strict && inGroup then Unquote(value) else value
  }

  predicate SameLength(a: Result<seq<string>>, b: Result<seq<string>>) {
    a.Ok? && b.Ok? && |a.value| == |b.value|
  }

  /** Two conditions of a group on one column, alike but for their values. */
  predicate SameMember(a: string, b: string, strict: bool) {
    var p, q := Partition(Strip(a), '.'), Partition(Strip(b), '.');
    p.head == q.head && SameRaw(p.tail, q.tail, strict, true)
  }

  predicate SameMembers(a: seq<string>, b: seq<string>, strict: bool) {
    |a| == |b| && forall i :: 0 <= i < |a| ==> SameMember(a[i], b[i], strict)
  }

  predicate SameGroup(a: string, b: string, strict: bool) {
    var f, g := SplitGroup(Inner(Strip(a)), strict), SplitGroup(Inner(Strip(b)), strict);
    f.Ok? && g.Ok? && SameMembers(f.value, g.value, strict)
  }

  /** Two parameters under one key: a filter or group alike but for its values, a select or order text the same. */
  predicate SameParam(a: (string, string), b: (string, string), spec: Spec, ignored: set<string>) {
    && a.0 == b.0
    && (a.0 !in ignored && a.0 in spec.columns ==> SameRaw(a.1, b.1, spec.strict, false))
    && (a.0 == "or" || a.0 == "and" ==> SameGroup(a.1, b.1, spec.strict))
    && (a.0 == "select" || a.0 == "order" ==> a.1 == b.1)
  }

  predicate SameParams(a: Params, b: Params, spec: Spec, ignored: set<string>) {
    |a| == |b| && forall i :: 0 <= i < |a| ==> SameParam(a[i], b[i], spec, ignored)
  }

  lemma SameTestMade(col: Col, op: Op, lang: Option<string>, other: Option<string>, a: string, b: string, strict: bool)
    requires lang.Some? == other.Some? && (op.Is? ==> IsWordOf(a) == IsWordOf(b))
    requires op.In? ==> SameLength(ReadItems(a, strict), ReadItems(b, strict))
    ensures var s, t := MakeTest(col, op, lang, a, strict), MakeTest(col, op, other, b, strict);
            s.Ok? && t.Ok? ==> SameTest(s.value, t.value)
  {
    hide Coerce, CoerceAll, ReadItems, IsWordOf, ReplaceChar;
  }

  lemma SameRawSameFilter(col: Col, a: string, b: string, strict: bool, inGroup: bool)
    requires SameRaw(a, b, strict, inGroup)
    ensures var f, g := ReadCondition(col, a, strict, inGroup), ReadCondition(col, b, strict, inGroup);
            f.Ok? && g.Ok? ==> SameFilter(f.value, g.value)
  {
    hide ParseOp, MakeTest, IsWordOf, ReadItems, Unquote, SameTest, SameLength;
    var f, g := ParseOp(a, strict).value, ParseOp(b, strict).value;
    var v := if f.op.In? then f.value else Bared(f.value, strict, inGroup);
    var w := if g.op.In? then g.value else Bared(g.value, strict, inGroup);
    SameTestMade(col, f.op, f.lang, g.lang, v, w, strict);
  }

  lemma SameMemberSameFilter(a: string, b: string, spec: Spec)
    requires SameMember(a, b, spec.strict)
    ensures var f, g := ReadMember(a, spec), ReadMember(b, spec); f.Ok? && g.Ok? ==> SameFilter(f.value, g.value)
  {
    hide SameRaw, ReadCondition, SameFilter, Strip, Partition;
    var p, q := Partition(Strip(a), '.'), Partition(Strip(b), '.');
    if p.head in spec.columns {
      SameRawSameFilter(spec.columns[p.head], p.tail, q.tail, spec.strict, true);
    }
  }

  lemma {:induction false} SameMembersSameFilters(a: seq<string>, b: seq<string>, spec: Spec)
    requires SameMembers(a, b, spec.strict)
    ensures var f, g := ReadMembers(a, spec), ReadMembers(b, spec); f.Ok? && g.Ok? ==> SameFilters(f.value, g.value)
  {
    hide SameMember, ReadMember, SameFilter;
    if a != [] {
      SameMemberSameFilter(a[0], b[0], spec);
      SameMembersSameFilters(a[1..], b[1..], spec);
    }
  }

  lemma SameGroupSameFilters(a: string, b: string, spec: Spec)
    requires SameGroup(a, b, spec.strict)
    ensures var f, g := ReadGroup(a, spec), ReadGroup(b, spec); f.Ok? && g.Ok? ==> SameFilters(f.value, g.value)
  {
    hide SameMembers, ReadMembers, SameFilters, SplitGroup, Strip, Inner;
    SameMembersSameFilters(SplitGroup(Inner(Strip(a)), spec.strict).value,
        SplitGroup(Inner(Strip(b)), spec.strict).value,
                           spec);
  }

  lemma {:induction false} SameColumns(a: Params, b: Params, spec: Spec, ignored: set<string>)
    requires SameParams(a, b, spec, ignored)
    ensures var f, g := ColumnClauses(a, spec, ignored), ColumnClauses(b, spec, ignored);
            f.Ok? && g.Ok? ==> SameClauses(f.value, g.value)
  {
    hide SameRaw, SameGroup, ReadCondition, SameFilter;
    if a != [] {
      assert SameParam(a[0], b[0], spec, ignored);
      SameColumns(a[1..], b[1..], spec, ignored);
      if a[0].0 !in ignored && a[0].0 in spec.columns {
        SameRawSameFilter(spec.columns[a[0].0], a[0].1, b[0].1, spec.strict, false);
      }
    }
  }

  predicate SameGroups(a: seq<string>, b: seq<string>, strict: bool) {
    |a| == |b| && forall i :: 0 <= i < |a| ==> SameGroup(a[i], b[i], strict)
  }

  lemma {:induction false} SameLists(a: Params, b: Params, spec: Spec, ignored: set<string>, key: string)
    requires SameParams(a, b, spec, ignored)
    ensures key == "or" || key == "and" ==> SameGroups(GetList(a, key), GetList(b, key), spec.strict)
    ensures key == "select" || key == "order" ==> GetList(a, key) == GetList(b, key)
  {
    hide SameRaw, SameGroup;
    if a != [] {
      assert SameParam(a[0], b[0], spec, ignored);
      SameLists(a[1..], b[1..], spec, ignored, key);
    }
  }

  lemma {:induction false} SameGroupClauses(a: seq<string>, b: seq<string>, spec: Spec, isOr: bool)
    requires SameGroups(a, b, spec.strict)
    ensures var f, g := GroupClauses(a, spec, isOr), GroupClauses(b, spec, isOr);
            f.Ok? && g.Ok? ==> SameClauses(f.value, g.value)
  {
    hide SameGroup, ReadGroup, SameFilters, SameFilter;
    if a != [] {
      SameGroupSameFilters(a[0], b[0], spec);
      SameGroupClauses(a[1..], b[1..], spec, isOr);
    }
  }

  lemma SameConcat(a: seq<Clause>, b: seq<Clause>, c: seq<Clause>, d: seq<Clause>)
    requires SameClauses(a, b) && SameClauses(c, d)
    ensures SameClauses(a + c, b + d)
  {
    hide SameClause;
  }

  lemma SameParamsSameClauses(a: Params, b: Params, spec: Spec, reserved: set<string>)
    requires SameParams(a, b, spec, RESERVED + reserved)
    ensures var f, g := ReadClauses(a, spec, reserved), ReadClauses(b, spec, reserved);
            f.Ok? && g.Ok? ==> SameClauses(f.value, g.value)
  {
    hide SameParams, SameClauses, SameGroups, ColumnClauses, GroupClauses, GetList;
    SameColumns(a, b, spec, RESERVED + reserved);
    SameLists(a, b, spec, RESERVED + reserved, "or");
    SameLists(a, b, spec, RESERVED + reserved, "and");
    SameGroupClauses(GetList(a, "or"), GetList(b, "or"), spec, true);
    SameGroupClauses(GetList(a, "and"), GetList(b, "and"), spec, false);
    var f, g := ReadClauses(a, spec, reserved), ReadClauses(b, spec, reserved);
    if f.Ok? && g.Ok? {
      SameThree(ColumnClauses(a, spec, RESERVED + reserved).value, ColumnClauses(b, spec, RESERVED + reserved).value,
                GroupClauses(GetList(a, "or"), spec, true).value, GroupClauses(GetList(b, "or"), spec, true).value,
                GroupClauses(GetList(a, "and"), spec, false).value, GroupClauses(GetList(b, "and"), spec, false).value);
    }
  }

  lemma SameThree(a: seq<Clause>, b: seq<Clause>, c: seq<Clause>, d: seq<Clause>, e: seq<Clause>, f: seq<Clause>)
    requires SameClauses(a, b) && SameClauses(c, d) && SameClauses(e, f)
    ensures SameClauses(a + c + e, b + d + f)
  {
    SameConcat(a, b, c, d);
    SameConcat(a + c, b + d, e, f);
  }

  /** Client values stay out of the SQL text: two accepted requests with the same keys in the same order, whose filters
      and groups differ in values only, whose select and order texts are the same, and whose offsets are both zero or
      both not, have the same SQL text and the same number of parameters. */
  lemma SameShapeSameText(items: Params, other: Params, spec: Spec, reserved: set<string>, table: string)
    requires ValidSpec(spec) && SameParams(items, other, spec, RESERVED + reserved)
    requires ReadOffset(Get(items, "offset")) == Ok(0) <==> ReadOffset(Get(other, "offset")) == Ok(0)
    ensures var p, q := ReadQuery(items, spec, reserved), ReadQuery(other, spec, reserved);
            p.Ok? && q.Ok? ==> SameSql(p.value, q.value, spec.strict, table)
  {
    hide SameParams, ReadQuery, ReadClauses, SameClauses, SameSql, ReadOffset, ValidSpec, Get;
    AcceptedAlike(items, other, spec, reserved);
    SameTexts(items, other, spec, reserved);
    QueryOffset(items, spec, reserved);
    QueryOffset(other, spec, reserved);
    SameClausesSameText(items, other, spec, reserved, table);
  }

  lemma SameTexts(items: Params, other: Params, spec: Spec, reserved: set<string>)
    requires SameParams(items, other, spec, RESERVED + reserved)
    ensures Get(items, "select") == Get(other, "select") && Get(items, "order") == Get(other, "order")
  {
    hide SameParams, GetList;
    SameLists(items, other, spec, RESERVED + reserved, "select");
    SameLists(items, other, spec, RESERVED + reserved, "order");
  }

  lemma AcceptedAlike(items: Params, other: Params, spec: Spec, reserved: set<string>)
    requires ValidSpec(spec) && SameParams(items, other, spec, RESERVED + reserved)
    ensures var p, q := ReadQuery(items, spec, reserved), ReadQuery(other, spec, reserved);
            p.Ok? && q.Ok? ==> SameClauses(p.value.clauses, q.value.clauses)
  {
    hide SameParams, ReadQuery, ReadClauses, SameClauses, ValidSpec;
    SameParamsSameClauses(items, other, spec, reserved);
    QueryClauses(items, spec, reserved);
    QueryClauses(other, spec, reserved);
  }

  lemma QueryOffset(items: Params, spec: Spec, reserved: set<string>)
    requires ValidSpec(spec)
    ensures var q := ReadQuery(items, spec, reserved);
            q.Ok? ==> ReadOffset(Get(items, "offset")) == Ok(q.value.offset)
  {
    hide ReadClauses, ReadSelect, ReadOrder, DefaultOutputs, DefaultTerms, ReadLimit, ReadOffset, Get, Given, ValidSpec;
  }

  // ---------------------------------------------------------------------------
  // Writes
  // ---------------------------------------------------------------------------

  lemma SameListsRead(items: Params, other: Params, spec: Spec, reserved: set<string>)
    requires ValidSpec(spec)
    requires Get(items, "select") == Get(other, "select") && Get(items, "order") == Get(other, "order")
    ensures var p, q := ReadQuery(items, spec, reserved), ReadQuery(other, spec, reserved);
            p.Ok? && q.Ok? ==> p.value.outputs == q.value.outputs && p.value.order == q.value.order
  {
    hide ReadClauses, ReadSelect, ReadOrder, DefaultOutputs, DefaultTerms, ReadLimit, ReadOffset, Get, ValidSpec;
  }

  lemma SameListsSamePieces(p: Query, q: Query, strict: bool)
    requires SameClauses(p.clauses, q.clauses) && p.outputs == q.outputs && p.order == q.order
    ensures SamePieces(p, q, strict)
  {
    hide SameClauses, OutputParts, OrderToks, JoinToks, ClauseParts, ClauseParams;
    SameClausesText(p.clauses, q.clauses);
  }

  lemma AlikeSamePieces(items: Params, other: Params, spec: Spec, reserved: set<string>)
    requires ValidSpec(spec) && SameParams(items, other, spec, RESERVED + reserved)
    ensures var p, q := ReadQuery(items, spec, reserved), ReadQuery(other, spec, reserved);
            p.Ok? && q.Ok? ==> SamePieces(p.value, q.value, spec.strict)
  {
    hide SameParams, ReadQuery, SameClauses, SamePieces, Get, ValidSpec;
    AcceptedAlike(items, other, spec, reserved);
    SameTexts(items, other, spec, reserved);
    SameListsRead(items, other, spec, reserved);
    var p, q := ReadQuery(items, spec, reserved), ReadQuery(other, spec, reserved);
    if p.Ok? && q.Ok? {
      SameListsSamePieces(p.value, q.value, spec.strict);
    }
  }

  predicate SameWindow(v: Option<Window>, w: Option<Window>) {
    v.Some? == w.Some? && (v.Some? ==> v.value.0.Some? == w.value.0.Some? && v.value.1.Some? == w.value.1.Some?)
  }

  lemma SameTarget(ti: TableInfo, p: Query, q: Query, strict: bool, v: Option<Window>, w: Option<Window>)
    requires SamePieces(p, q, strict) && SameWindow(v, w)
    ensures var f, g := TargetFrag(ti, EmitQuery(p, strict), v), TargetFrag(ti, EmitQuery(q, strict), w);
            f.toks == g.toks && |f.params| == |g.params|
  {
    hide EmitQuery;
  }

  lemma {:induction false} SameKeysSameSets(ti: TableInfo, a: Body, b: Body)
    requires Keys(a) == Keys(b)
    ensures SetParts(a) == SetParts(b) && |SetValues(ti, a)| == |SetValues(ti, b)| && (a == [] <==> b == [])
  {
    hide Adapt;
    KeysLength(a);
    KeysLength(b);
    if a != [] {
      assert Keys(a)[1..] == Keys(a[1..]) && Keys(b)[1..] == Keys(b[1..]);
      SameKeysSameSets(ti, a[1..], b[1..]);
    }
  }

  lemma {:induction false} KeysLength(a: Body)
    ensures |Keys(a)| == |a|
  {
    if a != [] {
      KeysLength(a[1..]);
    }
  }

  lemma SameDelete(ti: TableInfo, p: Query, q: Query, strict: bool, representation: bool, v: Option<Window>,
                   w: Option<Window>)
    requires SamePieces(p, q, strict) && SameWindow(v, w)
    ensures var a, b := EmitQuery(p, strict), EmitQuery(q, strict);
            var f := DeleteFrag(ti, a, Returning(a, representation), v);
            var g := DeleteFrag(ti, b, Returning(b, representation), w);
            f.toks == g.toks && |f.params| == |g.params|
  {
    hide EmitQuery, TargetFrag;
    SameTarget(ti, p, q, strict, v, w);
  }

  lemma SameUpdate(ti: TableInfo, a: Body, b: Body, p: Query, q: Query, strict: bool, representation: bool,
                   v: Option<Window>, w: Option<Window>)
    requires SamePieces(p, q, strict) && SameWindow(v, w) && Keys(a) == Keys(b)
    ensures var x, y := EmitQuery(p, strict), EmitQuery(q, strict);
            var f := UpdateFrag(ti, a, x, Returning(x, representation), v);
            var g := UpdateFrag(ti, b, y, Returning(y, representation), w);
            f.Ok? && g.Ok? ==> f.value.toks == g.value.toks && |f.value.params| == |g.value.params|
  {
    hide EmitQuery, TargetFrag, SetParts, SetValues, Keys, JoinToks;
    SameTarget(ti, p, q, strict, v, w);
    SameKeysSameSets(ti, a, b);
  }

  lemma SameWindows(items: Params, other: Params, spec: Spec)
    requires ValidSpec(spec) && ReadQuery(items, spec, TRACE_KEYS).Ok? && ReadQuery(other, spec, TRACE_KEYS).Ok?
    requires Written(items, "limit").Some? == Written(other, "limit").Some?
    requires Written(items, "offset").Some? == Written(other, "offset").Some?
    ensures var v, w := WindowOf(items, spec), WindowOf(other, spec);
            v.Ok? && w.Ok? ==> SameWindow(v.value, w.value)
  {
    WindowIsExplicit(items, spec, TRACE_KEYS);
    WindowIsExplicit(other, spec, TRACE_KEYS);
    hide ReadQuery, Written, ReadInt, WriteWindow, Get, ValidSpec;
  }

  /** Values stay out of the text of writes too: two accepted deletes or updates with the same keys in the same order,
      whose filters and groups differ in values only, whose bodies have the same keys, and which write a limit and an
      offset both or neither, have the same SQL text and the same number of parameters. */
  lemma SameShapeSameWrites(ti: TableInfo, items: Params, other: Params, a: Body, b: Body, representation: bool)
    requires ValidSpec(ti.spec) && SameParams(items, other, ti.spec, GRAMMAR_KEYS) && Keys(a) == Keys(b)
    requires Written(items, "limit").Some? == Written(other, "limit").Some?
    requires Written(items, "offset").Some? == Written(other, "offset").Some?
    ensures var f, g := DeleteRoute(ti, items, representation), DeleteRoute(ti, other, representation);
            f.Ok? && g.Ok? ==> SqlOf(f.value.toks) == SqlOf(g.value.toks) && |f.value.params| == |g.value.params|
    ensures var f := UpdateRoute(ti, items, Some(a), representation);
            var g := UpdateRoute(ti, other, Some(b), representation);
            f.Ok? && g.Ok? ==> SqlOf(f.value.toks) == SqlOf(g.value.toks) && |f.value.params| == |g.value.params|
  {
    hide SameParams, ReadQuery, EmitQuery, KeysReply, ValidSpec, WindowOf, Written, SamePieces, SameWindow, SqlOf,
      DeleteFrag, UpdateFrag, Keys;
    AlikeSamePieces(items, other, ti.spec, TRACE_KEYS);
    var p, q := ReadQuery(items, ti.spec, TRACE_KEYS), ReadQuery(other, ti.spec, TRACE_KEYS);
    if p.Ok? && q.Ok? {
      SameWindows(items, other, ti.spec);
      var v, w := WindowOf(items, ti.spec), WindowOf(other, ti.spec);
      if v.Ok? && w.Ok? {
        SameDelete(ti, p.value, q.value, ti.spec.strict, representation, v.value, w.value);
        SameUpdate(ti, a, b, p.value, q.value, ti.spec.strict, representation, v.value, w.value);
      }
    }
  }

  // ---------------------------------------------------------------------------
  // Groups
  // ---------------------------------------------------------------------------

  /** Conditions written alike apart from the text of their values and the names of their languages. */
  predicate SameCond(a: Cond, b: Cond) {
    a.name == b.name && a.negate == b.negate
    && match a
       case Scalar(_, _, op, lang, value) =>
         b.Scalar? && b.op == op && b.lang.Some? == lang.Some? && (op.Is? ==> IsWordOf(b.value) == IsWordOf(value))
       case Members(_, _, items) => b.Members? && |b.items| == |items|
  }

  predicate SameConds(a: seq<Cond>, b: seq<Cond>) {
    |a| == |b| && forall i :: 0 <= i < |a| ==> SameCond(a[i], b[i])
  }

  lemma SameCondSameFilter(a: Cond, b: Cond, spec: Spec)
    requires SameCond(a, b) && Meant(a, spec).Ok? && Meant(b, spec).Ok?
    ensures SameFilter(Meant(a, spec).value, Meant(b, spec).value)
  {
    FilterOfIs(a, spec.columns[a.name]);
    FilterOfIs(b, spec.columns[b.name]);
    hide Coerce, CoerceAll, IsWordOf, FilterOf, ReplaceChar;
  }

  lemma {:induction false} SameCondsSameFilters(a: seq<Cond>, b: seq<Cond>, spec: Spec)
    requires SameConds(a, b)
    ensures MeantAll(a, spec).Ok? && MeantAll(b, spec).Ok?
            ==> SameFilters(MeantAll(a, spec).value, MeantAll(b, spec).value)
  {
    hide Meant, SameFilter;
    if a != [] && MeantAll(a, spec).Ok? && MeantAll(b, spec).Ok? {
      assert a[0] in a && b[0] in b && SameCond(a[0], b[0]);
      SameCondSameFilter(a[0], b[0], spec);
      SameCondsSameFilters(a[1..], b[1..], spec);
    }
  }

  /** Two groups a client writes alike, whatever characters their values hold and whichever of them are quoted, compile
      to one SQL text. */
  lemma GroupValuesStayOut(a: seq<Cond>, b: seq<Cond>, spec: Spec, isOr: bool, quotes: Habit, others: Habit)
    requires forall c :: c in a ==> Carried(c, spec.strict, quotes)
    requires forall c :: c in b ==> Carried(c, spec.strict, others)
    requires SameConds(a, b)
    ensures var f, g := ReadGroup(PrintGroup(a, quotes), spec), ReadGroup(PrintGroup(b, others), spec);
            f.Ok? && g.Ok? ==>
              SqlOf(EmitClause(Group(isOr, f.value)).toks) == SqlOf(EmitClause(Group(isOr, g.value)).toks)
  {
    hide Carried, ReadGroup, MeantAll, FilterParts, FilterParams, SqlOf, SameFilters, JoinToks, PrintGroup;
    GroupReadsBack(a, spec, quotes);
    GroupReadsBack(b, spec, others);
    SameCondsSameFilters(a, b, spec);
    var f, g := ReadGroup(PrintGroup(a, quotes), spec), ReadGroup(PrintGroup(b, others), spec);
    if f.Ok? && g.Ok? {
      SameFiltersText(f.value, g.value);
    }
  }
}
