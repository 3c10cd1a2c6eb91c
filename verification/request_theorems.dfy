/** From the text of a request to the rows it keeps: filters and groups as a client writes them. */
module RequestTheorems {
  import opened Results
  import opened Text
  import opened Scanners
  import opened SqlText
  import opened Values
  import opened Filters
  import opened GroupRoundTrip
  import opened SqlLogic
  import opened WhereCompiler
  import opened QueryParser

  // ---------------------------------------------------------------------------
  // What a client writes
  // ---------------------------------------------------------------------------

  /** One parameter of a request: a condition on a column, an exact match without operator (lenient only), an `or` or
      `and` group, or any parameter that is no filter. */
  datatype Part =
    | On(c: Cond)
    | Exact(name: string, value: string)
    | AnyGroup(cs: seq<Cond>)
    | AllGroup(cs: seq<Cond>)
    | Other(key: string, value: string)

  /** `[not.]op.value`: at the top level a value stands as it is, and a list has its items quoted or bare. */
  function TopText(c: Cond, quotes: Habit): string {
    NotPart(c) + (OpPart(c) + "." + if c.Scalar? then c.value else ListText(c.items, quotes))
  }

  function ParamOf(p: Part, quotes: Habit): (string, string) {
    match p
    case On(c) => (c.name, TopText(c, quotes))
    case Exact(name, value) => (name, value)
    case AnyGroup(cs) => ("or", PrintGroup(cs, quotes))
    case AllGroup(cs) => ("and", PrintGroup(cs, quotes))
    case Other(key, value) => (key, value)
  }

  function ParamsOf(parts: seq<Part>, quotes: Habit): Params {
    if parts == [] then [] else [ParamOf(parts[0], quotes)] + ParamsOf(parts[1..], quotes)
  }

  /** A text without an operator of the grammar in front: no known word before a dot, negated or not. */
  predicate NoOperator(value: string) {
    && (Partition(value, '.').found ==> OpOf(BaseOf(Partition(value, '.').head)).None?)
    && ("not." <= value ==> OpOf(BaseOf(Partition(value[4..], '.').head)).None?)
  }

  /** What the grammar can carry: at the top level any value, lists whose items read as written, and groups of such
      conditions. Filters are not on reserved keys, other parameters on no column. */
  predicate Writable(p: Part, spec: Spec, ignored: set<string>, quotes: Habit) {
    match p
    case On(c) =>
      c.name !in ignored && (c.Members? ==> forall x :: x in c.items ==> ItemCarried(x, spec.strict, quotes))
    case Exact(name, value) => !spec.strict && name !in ignored && NoOperator(value)
    case AnyGroup(cs) => forall c :: c in cs ==> Carried(c, spec.strict, quotes)
    case AllGroup(cs) => forall c :: c in cs ==> Carried(c, spec.strict, quotes)
    case Other(key, _) => key != "or" && key != "and" && (key in ignored || key !in spec.columns)
  }

  ghost predicate AllWritable(parts: seq<Part>, spec: Spec, ignored: set<string>, quotes: Habit) {
    forall p :: p in parts ==> Writable(p, spec, ignored, quotes)
  }

  // ---------------------------------------------------------------------------
  // What the client means
  // ---------------------------------------------------------------------------

  /** A filter at the top level; a parameter on an unknown column is none. */
  function TopCond(p: Part, spec: Spec): Option<Cond> {
    match p
    case On(c) => if c.name in spec.columns then Some(c) else None
    case Exact(name, value) => if name in spec.columns then Some(Scalar(name, false, Eq, None, value)) else None
    case _ => None
  }

  ghost function ColumnsMeant(parts: seq<Part>, spec: Spec): Result<seq<Clause>> {
    if parts == [] then Ok([])
    else
      var c := TopCond(parts[0], spec);
      if c.None? then ColumnsMeant(parts[1..], spec)
      else
        var f :- Meant(c.value, spec);
        var fs :- ColumnsMeant(parts[1..], spec);
        Ok([One(f)] + fs)
  }

  function GroupOf(p: Part, isOr: bool): Option<seq<Cond>> {
    if isOr && p.AnyGroup? then Some(p.cs) else if !isOr && p.AllGroup? then Some(p.cs) else None
  }

  /** The conditions of a group; an empty group is refused. */
  ghost function GroupMeant(cs: seq<Cond>, spec: Spec): (r: Result<seq<Filter>>)
    ensures r.Ok? ==> r.value != []
  {
    var fs :- MeantAll(cs, spec);
    if fs == [] then Err(BadRequest) else Ok(fs)
  }

  ghost function GroupsMeant(parts: seq<Part>, spec: Spec, isOr: bool): Result<seq<Clause>> {
    if parts == [] then Ok([])
    else
      var g := GroupOf(parts[0], isOr);
      if g.None? then GroupsMeant(parts[1..], spec, isOr)
      else
        var fs :- GroupMeant(g.value, spec);
        var more :- GroupsMeant(parts[1..], spec, isOr);
        Ok([Group(isOr, fs)] + more)
  }

  /** The clauses the request means, or the first error: columns first, then or-groups, then and-groups. */
  ghost function ClausesMeant(parts: seq<Part>, spec: Spec): Result<seq<Clause>> {
    var cols :- ColumnsMeant(parts, spec);
    var ors :- GroupsMeant(parts, spec, true);
    var ands :- GroupsMeant(parts, spec, false);
    Ok(cols + ors + ands)
  }

  /** Whether one parameter holds of a row. */
  ghost function Holds(p: Part, spec: Spec, row: Row): Truth {
    var c := TopCond(p, spec);
    if c.Some? then (var f := Meant(c.value, spec); if f.Ok? then FilterMeaning(row, f.value) else True3)
    else if p.AnyGroup? || p.AllGroup? then
      var fs := MeantAll(p.cs, spec);
      if fs.Err? then True3
      else if p.AnyGroup? then AnyOf(FilterMeanings(row, fs.value))
      else AllOf(FilterMeanings(row, fs.value))
    else True3
  }

  ghost function HoldAll(parts: seq<Part>, spec: Spec, row: Row): seq<Truth> {
    seq(|parts|, i requires 0 <= i < |parts| => Holds(parts[i], spec, row))
  }

  // ---------------------------------------------------------------------------
  // The request reads back
  // ---------------------------------------------------------------------------

  lemma TopReadsBack(c: Cond, col: Col, strict: bool, quotes: Habit)
    requires c.Members? ==> forall x :: x in c.items ==> ItemCarried(x, strict, quotes)
    ensures ReadCondition(col, TopText(c, quotes), strict, false) == FilterOf(c, col)
  {
    hide ReadCondition, FilterOf, OpPart, NotPart, ItemCarried, ListText;
    ReadForm(c, col, if c.Scalar? then c.value else ListText(c.items, quotes), strict, false);
    if c.Members? {
      ReadPrintedItems(c.items, strict, quotes);
    }
  }

  lemma ExactReadsBack(name: string, value: string, col: Col)
    requires NoOperator(value)
    ensures ReadCondition(col, value, false, false) == FilterOf(Scalar(name, false, Eq, None, value), col)
  {
    FilterOfIs(Scalar(name, false, Eq, None, value), col);
    hide ScalarTest, OpOf, BaseOf, FilterOf;
    assert Negation(value) == (false, value);
    assert ParseOp(value, false) == Ok(OpForm(false, Eq, None, value));
  }

  lemma OneReadsBack(p: Part, spec: Spec, ignored: set<string>, quotes: Habit)
    requires Writable(p, spec, ignored, quotes) && "or" in ignored && "and" in ignored
    ensures var (key, raw) := ParamOf(p, quotes);
            && (TopCond(p, spec).None? ==> key in ignored || key !in spec.columns)
            && (TopCond(p, spec).Some? ==>
                  && key !in ignored && key in spec.columns
                  && ReadCondition(spec.columns[key], raw, spec.strict, false) == Meant(TopCond(p, spec).value, spec))
  {
    hide ReadCondition, FilterOf, TopText, NoOperator, ItemCarried;
    if p.On? && p.c.name in spec.columns {
      TopReadsBack(p.c, spec.columns[p.c.name], spec.strict, quotes);
    } else if p.Exact? && p.name in spec.columns {
      ExactReadsBack(p.name, p.value, spec.columns[p.name]);
    }
  }

  lemma {:induction false} ColumnsReadBack(parts: seq<Part>, spec: Spec, ignored: set<string>, quotes: Habit)
    requires AllWritable(parts, spec, ignored, quotes) && "or" in ignored && "and" in ignored
    ensures ColumnClauses(ParamsOf(parts, quotes), spec, ignored) == ColumnsMeant(parts, spec)
  {
    hide Writable, ParamOf, TopCond, ReadCondition, Meant;
    if parts != [] {
      assert parts[0] in parts && forall p :: p in parts[1..] ==> p in parts;
      OneReadsBack(parts[0], spec, ignored, quotes);
      ColumnsReadBack(parts[1..], spec, ignored, quotes);
      var items := ParamsOf(parts, quotes);
      assert items[0] == ParamOf(parts[0], quotes) && items[1..] == ParamsOf(parts[1..], quotes);
    }
  }

  lemma GroupTextReadsBack(cs: seq<Cond>, spec: Spec, quotes: Habit)
    requires forall c :: c in cs ==> Carried(c, spec.strict, quotes)
    ensures ReadGroup(PrintGroup(cs, quotes), spec) == GroupMeant(cs, spec)
  {
    hide Carried, ReadGroup, MeantAll, PrintGroup;
    GroupReadsBack(cs, spec, quotes);
    SomethingMeant(cs, spec);
    NothingMeant(spec);
  }

  lemma GroupKey(p: Part, spec: Spec, ignored: set<string>, quotes: Habit, isOr: bool)
    requires Writable(p, spec, ignored, quotes) && "or" in ignored && "and" in ignored
    ensures var (key, raw) := ParamOf(p, quotes);
            && (GroupOf(p, isOr).Some? <==> key == if isOr then "or" else "and")
            && (GroupOf(p, isOr).Some? ==> ReadGroup(raw, spec) == GroupMeant(GroupOf(p, isOr).value, spec))
  {
    hide Carried, ReadGroup, GroupMeant, PrintGroup, TopText, NoOperator, ItemCarried;
    assert "or" != "and" by { assert |"or"| == 2 && |"and"| == 3; }
    if GroupOf(p, isOr).Some? {
      GroupTextReadsBack(p.cs, spec, quotes);
    }
  }

  lemma {:induction false} GroupsReadBack(parts: seq<Part>, spec: Spec, ignored: set<string>, quotes: Habit, isOr: bool)
    requires AllWritable(parts, spec, ignored, quotes) && "or" in ignored && "and" in ignored
    ensures GroupClauses(GetList(ParamsOf(parts, quotes), if isOr then "or" else "and"), spec, isOr)
         == GroupsMeant(parts, spec, isOr)
  {
    hide Writable, ParamOf, GroupOf, ReadGroup, GroupMeant;
    if parts != [] {
      var key := if isOr then "or" else "and";
      assert parts[0] in parts && forall p :: p in parts[1..] ==> p in parts;
      GroupKey(parts[0], spec, ignored, quotes, isOr);
      GroupsReadBack(parts[1..], spec, ignored, quotes, isOr);
      var items := ParamsOf(parts, quotes);
      assert items[0] == ParamOf(parts[0], quotes) && items[1..] == ParamsOf(parts[1..], quotes);
      var more := GetList(items[1..], key);
      assert [] + more == more && ([items[0].1] + more)[1..] == more;
    }
  }

  /** The parameters of a request, in any order and between any others, are read as exactly the clauses meant, or
      refused with the first error, in either dialect. */
  lemma RequestReadsBack(parts: seq<Part>, spec: Spec, reserved: set<string>, quotes: Habit)
    requires AllWritable(parts, spec, RESERVED + reserved, quotes)
    ensures ReadClauses(ParamsOf(parts, quotes), spec, reserved) == ClausesMeant(parts, spec)
  {
    hide AllWritable, ColumnClauses, GroupClauses, ColumnsMeant, GroupsMeant, ParamsOf, GetList;
    ColumnsReadBack(parts, spec, RESERVED + reserved, quotes);
    GroupsReadBack(parts, spec, RESERVED + reserved, quotes, true);
    GroupsReadBack(parts, spec, RESERVED + reserved, quotes, false);
  }

  // ---------------------------------------------------------------------------
  // Order does not matter to the meaning
  // ---------------------------------------------------------------------------

  function Meanings(cs: seq<Clause>, row: Row): seq<Truth> {
    seq(|cs|, i requires 0 <= i < |cs| => ClauseMeaning(row, cs[i]))
  }

  lemma AllOfConcat(a: seq<Truth>, b: seq<Truth>)
    ensures AllOf(a + b) == And3(AllOf(a), AllOf(b))
  {
    assert forall t :: t in a + b <==> t in a || t in b;
  }

  lemma MeaningsConcat(a: seq<Clause>, b: seq<Clause>, row: Row)
    ensures Meanings(a + b, row) == Meanings(a, row) + Meanings(b, row)
  {
    hide ClauseMeaning;
  }

  lemma MeaningsCons(c: Clause, cs: seq<Clause>, row: Row)
    ensures AllOf(Meanings([c] + cs, row)) == And3(ClauseMeaning(row, c), AllOf(Meanings(cs, row)))
  {
    hide ClauseMeaning, AllOf, And3;
    assert Meanings([c] + cs, row) == [ClauseMeaning(row, c)] + Meanings(cs, row);
    AllOfCons(ClauseMeaning(row, c), Meanings(cs, row));
  }

  lemma AllOfNone()
    ensures AllOf([]) == True3
  {}

  lemma AndAlgebra(p: Truth, a: Truth, b: Truth, c: Truth)
    ensures And3(True3, a) == a && And3(a, True3) == a
    ensures And3(p, And3(And3(a, b), c)) == And3(And3(And3(p, a), b), c)
    ensures And3(p, And3(And3(a, b), c)) == And3(And3(a, And3(p, b)), c)
    ensures And3(p, And3(And3(a, b), c)) == And3(And3(a, b), And3(p, c))
  {}

  lemma ColumnPart(p: Part, rest: seq<Part>, spec: Spec, row: Row)
    ensures ColumnsMeant([p] + rest, spec).Ok? ==>
              && ColumnsMeant(rest, spec).Ok?
              && AllOf(Meanings(ColumnsMeant([p] + rest, spec).value, row))
                 == And3(if TopCond(p, spec).Some? then Holds(p, spec, row) else True3,
                         AllOf(Meanings(ColumnsMeant(rest, spec).value, row)))
  {
    hide TopCond, Meant, FilterMeaning, AllOf, AnyOf, Meanings;
    assert ([p] + rest)[1..] == rest;
    var m := ColumnsMeant([p] + rest, spec);
    if m.Ok? && TopCond(p, spec).Some? {
      MeaningsCons(One(Meant(TopCond(p, spec).value, spec).value), ColumnsMeant(rest, spec).value, row);
    }
  }

  lemma GroupPart(p: Part, rest: seq<Part>, spec: Spec, isOr: bool, row: Row)
    ensures GroupsMeant([p] + rest, spec, isOr).Ok? ==>
              && GroupsMeant(rest, spec, isOr).Ok?
              && AllOf(Meanings(GroupsMeant([p] + rest, spec, isOr).value, row))
                 == And3(if GroupOf(p, isOr).Some? then Holds(p, spec, row) else True3,
                         AllOf(Meanings(GroupsMeant(rest, spec, isOr).value, row)))
  {
    hide MeantAll, FilterMeanings, AllOf, AnyOf, Meanings, Meant;
    assert ([p] + rest)[1..] == rest;
    var m := GroupsMeant([p] + rest, spec, isOr);
    if m.Ok? && GroupOf(p, isOr).Some? {
      MeaningsCons(Group(isOr, GroupMeant(p.cs, spec).value), GroupsMeant(rest, spec, isOr).value, row);
    }
  }

  lemma {:induction false} PartsMean(parts: seq<Part>, spec: Spec, row: Row)
    requires ColumnsMeant(parts, spec).Ok? && GroupsMeant(parts, spec, true).Ok? && GroupsMeant(parts, spec, false).Ok?
    ensures AllOf(HoldAll(parts, spec, row))
         == And3(And3(AllOf(Meanings(ColumnsMeant(parts, spec).value, row)),
                      AllOf(Meanings(GroupsMeant(parts, spec, true).value, row))),
                 AllOf(Meanings(GroupsMeant(parts, spec, false).value, row)))
  {
    if parts == [] {
      AllOfNone();
    } else {
      var p, rest := parts[0], parts[1..];
      assert parts == [p] + rest;
      hide Holds, AllOf, ColumnsMeant, GroupsMeant, Meanings, And3, TopCond, GroupOf;
      ColumnPart(p, rest, spec, row);
      GroupPart(p, rest, spec, true, row);
      GroupPart(p, rest, spec, false, row);
      PartsMean(rest, spec, row);
      assert HoldAll(parts, spec, row) == [Holds(p, spec, row)] + HoldAll(rest, spec, row);
      AllOfCons(Holds(p, spec, row), HoldAll(rest, spec, row));
      AndAlgebra(Holds(p, spec, row), AllOf(Meanings(ColumnsMeant(rest, spec).value, row)),
                 AllOf(Meanings(GroupsMeant(rest, spec, true).value, row)),
                 AllOf(Meanings(GroupsMeant(rest, spec, false).value, row)));
      AndTrue(AllOf(Meanings(ColumnsMeant(rest, spec).value, row)));
      AndTrue(AllOf(Meanings(GroupsMeant(rest, spec, true).value, row)));
      AndTrue(AllOf(Meanings(GroupsMeant(rest, spec, false).value, row)));
      AndTrue(AllOf(HoldAll(rest, spec, row)));
      OneKind(p, spec, row);
    }
  }

  lemma AndTrue(a: Truth)
    ensures And3(True3, a) == a
  {}

  /** A parameter is a filter, an or-group, an and-group, or holds trivially. */
  lemma OneKind(p: Part, spec: Spec, row: Row)
    ensures TopCond(p, spec).Some? ==> GroupOf(p, true).None? && GroupOf(p, false).None?
    ensures GroupOf(p, true).Some? ==> GroupOf(p, false).None?
    ensures TopCond(p, spec).None? && GroupOf(p, true).None? && GroupOf(p, false).None? ==> Holds(p, spec, row) == True3
  {}

  lemma ClausesMean(parts: seq<Part>, spec: Spec, row: Row)
    ensures ClausesMeant(parts, spec).Ok? ==>
              QueryMeaning(row, ClausesMeant(parts, spec).value) == AllOf(HoldAll(parts, spec, row))
  {
    hide AllOf, ColumnsMeant, GroupsMeant, ClauseMeaning, And3, Holds;
    var m := ClausesMeant(parts, spec);
    if m.Ok? {
      var cols, ors, ands := ColumnsMeant(parts, spec).value, GroupsMeant(parts, spec, true).value,
                             GroupsMeant(parts, spec, false).value;
      MeaningsConcat(cols + ors, ands, row);
      MeaningsConcat(cols, ors, row);
      AllOfConcat(Meanings(cols + ors, row), Meanings(ands, row));
      AllOfConcat(Meanings(cols, row), Meanings(ors, row));
      PartsMean(parts, spec, row);
      assert QueryMeaning(row, m.value) == AllOf(Meanings(m.value, row));
    }
  }

  // ---------------------------------------------------------------------------
  // The whole compiler
  // ---------------------------------------------------------------------------

  /** The parsed WHERE, read by the server with its parameters in order, gives this truth on the row; no WHERE keeps
      it. */
  ghost predicate GivesOn(pq: ParsedQuery, row: Row, t: Truth) {
    if pq.whereClause == [] then pq.whereParams == [] && t == True3
    else
      var e := ReadWhole(pq.whereClause, pq.whereParams);
      e.Some? && Eval(e.value, row) == t
  }

  lemma EmittedGives(q: Query, strict: bool, row: Row)
    ensures GivesOn(EmitQuery(q, strict), row, QueryMeaning(row, q.clauses))
  {
    WhereIsCorrect(q.clauses);
    var pq := EmitQuery(q, strict);
    assert pq.whereClause == EmitWhere(q.clauses).toks && pq.whereParams == EmitWhere(q.clauses).params;
    hide EmitWhere, ReadWhole, Eval, QueryMeaning, WhereTree, EmitQuery;
    if q.clauses != [] {
      assert pq.whereClause != [] by { EmptyReadsNothing(pq.whereParams); }
    }
  }

  lemma EmptyReadsNothing(ps: seq<Value>)
    ensures ReadWhole([], ps) == None
  {}

  lemma QueryClauses(items: Params, spec: Spec, reserved: set<string>)
    requires ValidSpec(spec)
    ensures var q, cs := ReadQuery(items, spec, reserved), ReadClauses(items, spec, reserved);
            (cs.Err? ==> q == Err(cs.error)) && (q.Ok? ==> cs == Ok(q.value.clauses))
  {
    hide ReadClauses, ReadSelect, ReadOrder, DefaultOutputs, DefaultTerms, ReadLimit, ReadOffset, Get, Given, ValidSpec;
  }

  /** A request is refused for its filters exactly as they are, and its query holds the clauses meant. */
  lemma ReadsClauses(parts: seq<Part>, spec: Spec, reserved: set<string>, quotes: Habit)
    requires ValidSpec(spec) && AllWritable(parts, spec, RESERVED + reserved, quotes)
    ensures var q := ReadQuery(ParamsOf(parts, quotes), spec, reserved);
            && (ClausesMeant(parts, spec).Err? ==> q == Err(ClausesMeant(parts, spec).error))
            && (q.Ok? ==> ClausesMeant(parts, spec) == Ok(q.value.clauses))
  {
    hide AllWritable, ReadClauses, ClausesMeant, ReadQuery, ParamsOf, ValidSpec;
    RequestReadsBack(parts, spec, reserved, quotes);
    QueryClauses(ParamsOf(parts, quotes), spec, reserved);
  }

  /** From request text to rows, in either dialect and for requests with or without filters: the WHERE text built from
      the parameters, read by the server with its parameters in order, holds of a row exactly when, in three-valued
      logic, every condition and group the client wrote does. */
  lemma RequestIsCorrect(parts: seq<Part>, spec: Spec, reserved: set<string>, quotes: Habit, row: Row)
    requires ValidSpec(spec) && AllWritable(parts, spec, RESERVED + reserved, quotes)
    ensures var q := ReadQuery(ParamsOf(parts, quotes), spec, reserved);
            && (ClausesMeant(parts, spec).Err? ==> q == Err(ClausesMeant(parts, spec).error))
            && (q.Ok? ==> GivesOn(EmitQuery(q.value, spec.strict), row, AllOf(HoldAll(parts, spec, row))))
  {
    ReadsClauses(parts, spec, reserved, quotes);
    hide AllWritable, ReadQuery, ClausesMeant, AllOf, HoldAll, QueryMeaning, GivesOn, EmitQuery;
    var q := ReadQuery(ParamsOf(parts, quotes), spec, reserved);
    if q.Ok? {
      ClausesMean(parts, spec, row);
      EmittedGives(q.value, spec.strict, row);
    }
  }
}
