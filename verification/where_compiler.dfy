/** Filters to WHERE, and the proof that the server keeps exactly the rows the filters describe. */
module WhereCompiler {
  import opened Results
  import opened SqlText
  import opened Values
  import opened Filters
  import opened SqlLogic

  // ---------------------------------------------------------------------------
  // Emission
  // ---------------------------------------------------------------------------

  /** A fragment of SQL and the parameters it binds, in order. */
  datatype Frag = Frag(toks: seq<Tok>, params: seq<Value>)

  type SomeFilters = fs: seq<Filter> | fs != [] witness [Filter("", false, IsTest(IsNull))]

  /** One conjunct of the WHERE clause: a column filter, or a whole or=/and= group. */
  datatype Clause = One(f: Filter) | Group(isOr: bool, fs: SomeFilters)

  function SymOf(op: SimpleOp): CmpSym {
    match op
    case Eq => Equal
    case Neq => NotEqual
    case Gt => Greater
    case Gte => GreaterEqual
    case Lt => Less
    case Lte => LessEqual
    case Like => LikeSym
    case ILike => ILikeSym
    case Match => Tilde
    case IMatch => TildeStar
  }

  function FnOf(op: FtsOp): TsFn {
    match op
    case Fts => ToTsQuery
    case Plfts => PlainToTsQuery
    case Phfts => PhraseToTsQuery
    case Wfts => WebsearchToTsQuery
  }

  function ParamList(n: nat): seq<Tok>
    requires n > 0
  {
    if n == 1 then [Param] else [Param, Comma] + ParamList(n - 1)
  }

  function EmitTest(expr: string, test: Test): Frag {
    match test
    case Compare(op, v) => Frag([Expr(expr), Cmp(SymOf(op)), Param], [v])
    case OneOf(vs) => Frag([Expr(expr), InKw, Open] + ParamList(|vs|) + [Close], vs)
    case IsTest(word) => Frag([Expr(expr), IsKw(word)], [])
    case Search(fn, lang, query) =>
      Frag([TsVector] + VectorToks(expr, lang.Some?) + [AtAt, TsQuery(FnOf(fn)), Open]
          + ParamList(|SearchValues(lang, query)|) + [Close],
           (if lang.Some? then [VStr(lang.value)] else []) + SearchValues(lang, query))
  }

  /** `(expr)` or `(%s, expr)`: the operand of `to_tsvector`. */
  function VectorToks(expr: string, config: bool): seq<Tok> {
    if config then [Open, Param, Comma, Expr(expr), Close] else [Open, Expr(expr), Close]
  }

  /** The arguments of the tsquery constructor. */
  function SearchValues(lang: Option<string>, query: string): seq<Value> {
    if lang.Some? then [VStr(lang.value), VStr(query)] else [VStr(query)]
  }

  function EmitFilter(f: Filter): Frag {
    var core := EmitTest(f.expr, f.test);
    if f.negate then Frag([NotKw, Open] + core.toks + [Close], core.params) else core
  }

  /** `sep.join(parts)` on tokens. */
  function JoinToks(sep: Tok, parts: seq<seq<Tok>>): seq<Tok> {
    if parts == [] then []
    else if |parts| == 1 then parts[0]
    else parts[0] + [sep] + JoinToks(sep, parts[1..])
  }

  function FilterParts(fs: seq<Filter>): seq<seq<Tok>> {
    if fs == [] then [] else [EmitFilter(fs[0]).toks] + FilterParts(fs[1..])
  }

  function FilterParams(fs: seq<Filter>): seq<Value> {
    if fs == [] then [] else EmitFilter(fs[0]).params + FilterParams(fs[1..])
  }

  function GroupSep(isOr: bool): Tok {
    if isOr then OrKw else AndKw
  }

  function EmitClause(c: Clause): Frag {
    match c
    case One(f) => EmitFilter(f)
    case Group(isOr, fs) => Frag([Open] + JoinToks(GroupSep(isOr), FilterParts(fs)) + [Close], FilterParams(fs))
  }

  function ClauseParts(cs: seq<Clause>): seq<seq<Tok>> {
    if cs == [] then [] else [EmitClause(cs[0]).toks] + ClauseParts(cs[1..])
  }

  function ClauseParams(cs: seq<Clause>): seq<Value> {
    if cs == [] then [] else EmitClause(cs[0]).params + ClauseParams(cs[1..])
  }

  /** `where_clause` and `where_params`. */
  function EmitWhere(cs: seq<Clause>): Frag {
    Frag(JoinToks(AndKw, ClauseParts(cs)), ClauseParams(cs))
  }

  // ---------------------------------------------------------------------------
  // What the client asked for
  // ---------------------------------------------------------------------------

  function PatternOf(op: SimpleOp): Pattern
    requires op.IsPattern()
  {
    match op
    case Like => LikePattern
    case ILike => ILikePattern
    case Match => Regex
    case IMatch => IRegex
  }

  /** Truth values taken as a conjunction: a false settles it, then an unknown, else all are true. */
  function AllOf(ts: seq<Truth>): Truth {
    if False3 in ts then False3 else if Unknown3 in ts then Unknown3 else True3
  }

  /** As a disjunction: a true settles it, then an unknown, else all are false. */
  function AnyOf(ts: seq<Truth>): Truth {
    if True3 in ts then True3 else if Unknown3 in ts then Unknown3 else False3
  }

  /** What the server's answer tells; nothing when it has none. */
  function Told(answer: Option<bool>): Truth {
    match answer
    case None => Unknown3
    case Some(yes) => if yes then True3 else False3
  }

  /** The opposite; of the unknown, the unknown. */
  function Opposite(t: Truth): Truth {
    if t == Unknown3 then Unknown3 else if t == True3 then False3 else True3
  }

  /** The column compares with `v` as the operator's name says; unknown when the comparison is. */
  function CompareMeaning(row: Row, expr: string, op: SimpleOp, v: Value): Truth {
    if op.IsPattern() then Told(row.matches(PatternOf(op), expr, v))
    else
      match row.compare(expr, v)
      case None => Unknown3
      case Some(c) =>
        Told(Some(match op
                  case Eq => c == 0
                  case Neq => c != 0
                  case Gt => c > 0
                  case Gte => c >= 0
                  case Lt => c < 0
                  case _ => c <= 0))
  }

  function KindAsked(op: FtsOp): QueryKind {
    match op
    case Fts => Operators
    case Plfts => Words
    case Phfts => Phrase
    case Wfts => WebStyle
  }

  function TestMeaning(row: Row, expr: string, test: Test): Truth {
    match test
    case Compare(op, v) => CompareMeaning(row, expr, op, v)
    case OneOf(vs) => AnyOf(seq(|vs|, i requires 0 <= i < |vs| => CompareMeaning(row, expr, Eq, vs[i])))
    case IsTest(word) =>
      if row.state(expr) == (match word case IsTrue => CellTrue case IsFalse => CellFalse case _ => CellNull)
      then True3 else False3
    case Search(fn, lang, query) =>
      var config := if lang.Some? then Some(VStr(lang.value)) else None;
      Told(row.search(config, expr, KindAsked(fn), config, VStr(query)))
  }

  function FilterMeaning(row: Row, f: Filter): Truth {
    var t := TestMeaning(row, f.expr, f.test);
    if f.negate then Opposite(t) else t
  }

  function FilterMeanings(row: Row, fs: seq<Filter>): seq<Truth> {
    seq(|fs|, i requires 0 <= i < |fs| => FilterMeaning(row, fs[i]))
  }

  function ClauseMeaning(row: Row, c: Clause): Truth {
    match c
    case One(f) => FilterMeaning(row, f)
    case Group(isOr, fs) => if isOr then AnyOf(FilterMeanings(row, fs)) else AllOf(FilterMeanings(row, fs))
  }

  /** Every filter and group of the query holds. */
  function QueryMeaning(row: Row, cs: seq<Clause>): Truth {
    AllOf(seq(|cs|, i requires 0 <= i < |cs| => ClauseMeaning(row, cs[i])))
  }

  // ---------------------------------------------------------------------------
  // The server reads back the tree that was meant
  // ---------------------------------------------------------------------------

  function TestTree(expr: string, test: Test): Sql {
    match test
    case Compare(op, v) => Relation(expr, SymOf(op), v)
    case OneOf(vs) => InValues(expr, vs)
    case IsTest(word) => StateIs(expr, word)
    case Search(fn, lang, query) =>
      var config := if lang.Some? then Some(VStr(lang.value)) else None;
      TextSearch(config, expr, FnOf(fn), config, VStr(query))
  }

  function FilterTree(f: Filter): Sql {
    if f.negate then Not(TestTree(f.expr, f.test)) else TestTree(f.expr, f.test)
  }

  function GroupTree(isOr: bool, fs: SomeFilters): Sql {
    if |fs| == 1 then FilterTree(fs[0])
    else if isOr then Or(FilterTree(fs[0]), GroupTree(isOr, fs[1..]))
    else And(FilterTree(fs[0]), GroupTree(isOr, fs[1..]))
  }

  function ClauseTree(c: Clause): Sql {
    match c
    case One(f) => FilterTree(f)
    case Group(isOr, fs) => GroupTree(isOr, fs)
  }

  function WhereTree(cs: seq<Clause>): Sql
    requires cs != []
  {
    if |cs| == 1 then ClauseTree(cs[0]) else And(ClauseTree(cs[0]), WhereTree(cs[1..]))
  }

  lemma {:induction false} ReadsParamList(vs: seq<Value>, rest: seq<Tok>, ps: seq<Value>)
    requires vs != [] && (rest == [] || !rest[0].Comma?)
    ensures ReadParams(ParamList(|vs|) + rest, vs + ps) == Got(vs, rest, ps)
    decreases |vs|
  {
    hide ReadParams;
    if |vs| == 1 {
      ReadsOneParam(vs[0], rest, ps);
      assert [vs[0]] == vs && ParamList(1) == [Param];
    } else {
      var more := ParamList(|vs| - 1) + rest;
      assert ParamList(|vs|) + rest == [Param] + ([Comma] + more);
      ReadsParamList(vs[1..], rest, ps);
      ReadsParamStep(vs[0], more, vs[1..] + ps);
      assert vs + ps == [vs[0]] + (vs[1..] + ps);
      assert [vs[0]] + vs[1..] == vs;
    }
  }

  lemma ReadsOneParam(v: Value, rest: seq<Tok>, ps: seq<Value>)
    requires rest == [] || !rest[0].Comma?
    ensures ReadParams([Param] + rest, [v] + ps) == Got([v], rest, ps)
  {
    assert ([Param] + rest)[1..] == rest && ([v] + ps)[1..] == ps;
  }

  lemma ReadsParamStep(v: Value, more: seq<Tok>, ps: seq<Value>)
    requires ReadParams(more, ps).Got?
    ensures var r := ReadParams(more, ps);
            ReadParams([Param] + ([Comma] + more), [v] + ps) == Got([v] + r.v, r.toks, r.params)
  {
    var toks := [Param] + ([Comma] + more);
    assert toks[1..] == [Comma] + more && ([Comma] + more)[1..] == more;
    assert ([v] + ps)[1..] == ps;
  }

  lemma ReadsIn(expr: string, vs: SomeValues, rest: seq<Tok>, ps: seq<Value>)
    ensures ReadPrimary(EmitTest(expr, OneOf(vs)).toks + rest, vs + ps) == Got(InValues(expr, vs), rest, ps)
  {
    hide ReadParams, ParamList;
    var toks := EmitTest(expr, OneOf(vs)).toks + rest;
    var more := ParamList(|vs|) + ([Close] + rest);
    ReadsParamList(vs, [Close] + rest, ps);
    assert toks == [Expr(expr)] + ([InKw, Open] + more);
    assert ([Expr(expr)] + ([InKw, Open] + more))[1..] == [InKw, Open] + more;
    assert ([InKw, Open] + more)[2..] == more;
    assert ([Close] + rest)[1..] == rest;
  }

  lemma ReadsQuery(vs: seq<Value>, more: seq<Tok>, rest: seq<Tok>, ps: seq<Value>, after: seq<Value>)
    requires 1 <= |vs| <= 2
    requires ReadParams(more, ps) == Got(vs, [Close] + rest, after)
    ensures ReadTsQuery([Open] + more, ps)
         == Got(if |vs| == 1 then (None, vs[0]) else (Some(vs[0]), vs[1]), rest, after)
  {
    assert ([Open] + more)[1..] == more;
    assert ([Close] + rest)[1..] == rest;
  }

  lemma ReadsSearchTail(l: (Option<Value>, string), vec: seq<Tok>, fn: TsFn, more: seq<Tok>,
                        vs: seq<Value>, rest: seq<Tok>, ps: seq<Value>, mid: seq<Value>, after: seq<Value>)
    requires 1 <= |vs| <= 2 && ReadParams(more, mid) == Got(vs, [Close] + rest, after)
    requires var search := [AtAt, TsQuery(fn)] + ([Open] + more); ReadVector(vec + search, ps) == Got(l, search, mid)
    ensures ReadSearch(vec + ([AtAt, TsQuery(fn)] + ([Open] + more)), ps)
         == Got(if |vs| == 1 then TextSearch(l.0, l.1, fn, None, vs[0])
                else TextSearch(l.0, l.1, fn, Some(vs[0]), vs[1]), rest, after)
  {
    ReadsQuery(vs, more, rest, mid, after);
    assert ([AtAt, TsQuery(fn)] + ([Open] + more))[2..] == [Open] + more;
  }

  lemma ReadsSearch(expr: string, fn: FtsOp, lang: Option<string>, query: string, rest: seq<Tok>, ps: seq<Value>)
    ensures var test := Search(fn, lang, query); var f := EmitTest(expr, test);
            ReadPrimary(f.toks + rest, f.params + ps) == Got(TestTree(expr, test), rest, ps)
  {
    hide ReadVector, ReadTsQuery, ReadParams, ParamList, FnOf;
    var f := EmitTest(expr, Search(fn, lang, query));
    var vs, vec := SearchValues(lang, query), VectorToks(expr, lang.Some?);
    var more := ParamList(|vs|) + ([Close] + rest);
    var search := [AtAt, TsQuery(FnOf(fn))] + ([Open] + more);
    assert f.toks + rest == [TsVector] + (vec + search);
    assert ([TsVector] + (vec + search))[1..] == vec + search;
    ReadsVector(lang, expr, search, vs + ps);
    assert f.params + ps == (if lang.Some? then [VStr(lang.value)] else []) + (vs + ps);
    ReadsParamList(vs, [Close] + rest, ps);
    var config := if lang.Some? then Some(VStr(lang.value)) else None;
    ReadsSearchTail((config, expr), vec, FnOf(fn), more, vs, rest, f.params + ps, vs + ps, ps);
  }

  lemma ReadsVector(lang: Option<string>, expr: string, search: seq<Tok>, mid: seq<Value>)
    ensures ReadVector(VectorToks(expr, lang.Some?) + search, (if lang.Some? then [VStr(lang.value)] else []) + mid)
         == Got((if lang.Some? then Some(VStr(lang.value)) else None, expr), search, mid)
  {
    var vec := VectorToks(expr, lang.Some?);
    assert (vec + search)[|vec|..] == search;
    if lang.Some? {
      assert ([VStr(lang.value)] + mid)[1..] == mid;
    } else {
      assert [] + mid == mid;
    }
  }

  lemma ReadsTest(expr: string, test: Test, rest: seq<Tok>, ps: seq<Value>)
    ensures var f := EmitTest(expr, test);
            ReadNot(f.toks + rest, f.params + ps) == Got(TestTree(expr, test), rest, ps)
  {
    var f := EmitTest(expr, test);
    match test
    case Compare(op, v) =>
      assert (f.toks + rest)[1..][1..][1..] == rest && (f.params + ps)[1..] == ps;
    case OneOf(vs) =>
      ReadsIn(expr, vs, rest, ps);
    case IsTest(word) =>
      assert (f.toks + rest)[1..][1..] == rest && f.params + ps == ps;
    case Search(fn, lang, query) =>
      ReadsSearch(expr, fn, lang, query, rest, ps);
  }

  /** Nothing that could extend a condition follows. */
  predicate Stops(rest: seq<Tok>) {
    rest == [] || (!rest[0].AndKw? && !rest[0].OrKw?)
  }

  lemma ReadsBracketed(inner: seq<Tok>, tree: Sql, rest: seq<Tok>, ps: seq<Value>, after: seq<Value>)
    requires var r := Got(tree, [Close] + rest, after); var toks := inner + ([Close] + rest);
             ReadOr(toks, ps) == r || ReadAnd(toks, ps) == r || ReadNot(toks, ps) == r
    ensures ReadNot([Open] + inner + [Close] + rest, ps) == Got(tree, rest, after)
  {
    hide ReadTest, ReadSearch;
    var toks := [Open] + inner + [Close] + rest;
    assert toks[1..] == inner + ([Close] + rest);
    assert ([Close] + rest)[1..] == rest;
  }

  lemma ReadsNegated(toks: seq<Tok>, ps: seq<Value>)
    requires ReadNot(toks, ps).Got?
    ensures ReadNot([NotKw] + toks, ps) == var r := ReadNot(toks, ps); Got(Not(r.v), r.toks, r.params)
  {
    assert ([NotKw] + toks)[1..] == toks;
  }

  lemma ReadsFilter(f: Filter, rest: seq<Tok>, ps: seq<Value>)
    ensures ReadNot(EmitFilter(f).toks + rest, EmitFilter(f).params + ps) == Got(FilterTree(f), rest, ps)
  {
    hide EmitTest, TestTree, ReadNot, ReadOr, ReadAnd;
    if f.negate {
      var core := EmitTest(f.expr, f.test);
      ReadsTest(f.expr, f.test, [Close] + rest, ps);
      ReadsBracketed(core.toks, TestTree(f.expr, f.test), rest, core.params + ps, ps);
      var toks := [Open] + core.toks + [Close] + rest;
      assert EmitFilter(f).toks + rest == [NotKw] + toks;
      ReadsNegated(toks, core.params + ps);
    } else {
      ReadsTest(f.expr, f.test, rest, ps);
    }
  }

  lemma ReadsAndStep(toks: seq<Tok>, ps: seq<Value>, l: Sql, more: seq<Tok>, mid: seq<Value>)
    requires ReadNot(toks, ps) == Got(l, [AndKw] + more, mid) && ReadAnd(more, mid).Got?
    ensures ReadAnd(toks, ps) == var r := ReadAnd(more, mid); Got(And(l, r.v), r.toks, r.params)
  {
    assert ([AndKw] + more)[1..] == more;
  }

  lemma ReadsOrStep(toks: seq<Tok>, ps: seq<Value>, l: Sql, more: seq<Tok>, mid: seq<Value>)
    requires ReadNot(toks, ps) == Got(l, [OrKw] + more, mid) && ReadOr(more, mid).Got?
    ensures ReadOr(toks, ps) == var r := ReadOr(more, mid); Got(Or(l, r.v), r.toks, r.params)
  {
    assert ([OrKw] + more)[1..] == more;
  }

  lemma JoinCons(sep: Tok, parts: seq<seq<Tok>>, rest: seq<Tok>)
    requires parts != []
    ensures JoinToks(sep, parts) + rest
         == parts[0] + if |parts| == 1 then rest else [sep] + (JoinToks(sep, parts[1..]) + rest)
  {
    if |parts| > 1 {
      var more := JoinToks(sep, parts[1..]);
      assert JoinToks(sep, parts) == parts[0] + [sep] + more;
      hide JoinToks;
      Associative(parts[0] + [sep], more, rest);
      Associative(parts[0], [sep], more + rest);
    }
  }

  lemma Associative<T>(a: seq<T>, b: seq<T>, c: seq<T>)
    ensures (a + b) + c == a + (b + c)
  {}

  lemma PartsCons(fs: SomeFilters)
    ensures FilterParts(fs) == [EmitFilter(fs[0]).toks] + FilterParts(fs[1..])
    ensures FilterParts(fs)[1..] == FilterParts(fs[1..])
    ensures |FilterParts(fs)| == 1 <==> |fs| == 1
  {
    var rest := FilterParts(fs[1..]);
    assert ([EmitFilter(fs[0]).toks] + rest)[1..] == rest;
  }

  /** The tokens and parameters of a group, its first filter split off. */
  lemma GroupCons(sep: Tok, fs: SomeFilters, rest: seq<Tok>, ps: seq<Value>)
    ensures JoinToks(sep, FilterParts(fs)) + rest == EmitFilter(fs[0]).toks +
              (if |fs| == 1 then rest else [sep] + (JoinToks(sep, FilterParts(fs[1..])) + rest))
    ensures FilterParams(fs) + ps == EmitFilter(fs[0]).params + (FilterParams(fs[1..]) + ps)
  {
    PartsCons(fs);
    JoinCons(sep, FilterParts(fs), rest);
    Associative(EmitFilter(fs[0]).params, FilterParams(fs[1..]), ps);
  }

  lemma {:induction false} ReadsAndGroup(fs: SomeFilters, rest: seq<Tok>, ps: seq<Value>)
    requires Stops(rest)
    ensures ReadAnd(JoinToks(AndKw, FilterParts(fs)) + rest, FilterParams(fs) + ps)
            == Got(GroupTree(false, fs), rest, ps)
    decreases |fs|
  {
    var toks, params := JoinToks(AndKw, FilterParts(fs)) + rest, FilterParams(fs) + ps;
    GroupCons(AndKw, fs, rest, ps);
    if |fs| == 1 {
      assert FilterParams(fs[1..]) + ps == ps;
      ReadsFilter(fs[0], rest, ps);
    } else {
      var more, mid := JoinToks(AndKw, FilterParts(fs[1..])) + rest, FilterParams(fs[1..]) + ps;
      ReadsFilter(fs[0], [AndKw] + more, mid);
      ReadsAndGroup(fs[1..], rest, ps);
      ReadsAndStep(toks, params, FilterTree(fs[0]), more, mid);
    }
  }

  lemma {:induction false} ReadsOrGroup(fs: SomeFilters, rest: seq<Tok>, ps: seq<Value>)
    requires Stops(rest)
    ensures ReadOr(JoinToks(OrKw, FilterParts(fs)) + rest, FilterParams(fs) + ps) == Got(GroupTree(true, fs), rest, ps)
    decreases |fs|
  {
    var toks, params := JoinToks(OrKw, FilterParts(fs)) + rest, FilterParams(fs) + ps;
    GroupCons(OrKw, fs, rest, ps);
    if |fs| == 1 {
      assert FilterParams(fs[1..]) + ps == ps;
      ReadsFilter(fs[0], rest, ps);
    } else {
      var more, mid := JoinToks(OrKw, FilterParts(fs[1..])) + rest, FilterParams(fs[1..]) + ps;
      ReadsFilter(fs[0], [OrKw] + more, mid);
      ReadsOrGroup(fs[1..], rest, ps);
      ReadsOrStep(toks, params, FilterTree(fs[0]), more, mid);
    }
  }

  lemma ReadsClause(c: Clause, rest: seq<Tok>, ps: seq<Value>)
    ensures ReadNot(EmitClause(c).toks + rest, EmitClause(c).params + ps) == Got(ClauseTree(c), rest, ps)
  {
    match c
    case One(f) =>
      ReadsFilter(f, rest, ps);
    case Group(isOr, fs) =>
      if isOr {
        ReadsOrGroup(fs, [Close] + rest, ps);
      } else {
        ReadsAndGroup(fs, [Close] + rest, ps);
      }
      ReadsBracketed(JoinToks(GroupSep(isOr), FilterParts(fs)), GroupTree(isOr, fs), rest, FilterParams(fs) + ps, ps);
  }

  lemma {:induction false} ReadsWhere(cs: seq<Clause>, rest: seq<Tok>, ps: seq<Value>)
    requires cs != [] && Stops(rest)
    ensures ReadAnd(EmitWhere(cs).toks + rest, EmitWhere(cs).params + ps) == Got(WhereTree(cs), rest, ps)
    decreases |cs|
  {
    var toks, params := EmitWhere(cs).toks + rest, EmitWhere(cs).params + ps;
    WhereCons(cs, rest, ps);
    if |cs| == 1 {
      assert ClauseParams(cs[1..]) + ps == ps;
      ReadsClause(cs[0], rest, ps);
    } else {
      var more, mid := EmitWhere(cs[1..]).toks + rest, ClauseParams(cs[1..]) + ps;
      ReadsClause(cs[0], [AndKw] + more, mid);
      ReadsWhere(cs[1..], rest, ps);
      ReadsAndStep(toks, params, ClauseTree(cs[0]), more, mid);
    }
  }

  lemma WhereCons(cs: seq<Clause>, rest: seq<Tok>, ps: seq<Value>)
    requires cs != []
    ensures EmitWhere(cs).toks + rest == EmitClause(cs[0]).toks +
              (if |cs| == 1 then rest else [AndKw] + (EmitWhere(cs[1..]).toks + rest))
    ensures EmitWhere(cs).params + ps == EmitClause(cs[0]).params + (ClauseParams(cs[1..]) + ps)
  {
    var more := ClauseParts(cs[1..]);
    assert ([EmitClause(cs[0]).toks] + more)[1..] == more;
    JoinCons(AndKw, ClauseParts(cs), rest);
    Associative(EmitClause(cs[0]).params, ClauseParams(cs[1..]), ps);
  }

  // ---------------------------------------------------------------------------
  // The tree evaluates to what was asked
  // ---------------------------------------------------------------------------

  lemma AllOfCons(t: Truth, ts: seq<Truth>)
    ensures AllOf([t] + ts) == And3(t, AllOf(ts))
    ensures AnyOf([t] + ts) == Or3(t, AnyOf(ts))
  {
    assert ([t] + ts)[0] == t;
    assert forall x :: x in [t] + ts <==> x == t || x in ts;
  }

  lemma AllOfOne(t: Truth)
    ensures AllOf([t]) == t && AnyOf([t]) == t
  {
    assert t in [t];
  }

  lemma {:induction false} InIsAny(row: Row, expr: string, vs: seq<Value>)
    ensures In3(row, expr, vs) == TestMeaning(row, expr, OneOf(if vs == [] then [VInt(0)] else vs)) || vs == []
    ensures In3(row, expr, vs) == AnyOf(seq(|vs|, i requires 0 <= i < |vs| => CompareMeaning(row, expr, Eq, vs[i])))
  {
    var ts := seq(|vs|, i requires 0 <= i < |vs| => CompareMeaning(row, expr, Eq, vs[i]));
    if vs != [] {
      var rest := vs[1..];
      InIsAny(row, expr, rest);
      AllOfCons(ts[0], ts[1..]);
      assert ts == [ts[0]] + ts[1..];
      assert ts[1..] == seq(|rest|, i requires 0 <= i < |rest| => CompareMeaning(row, expr, Eq, rest[i]));
    }
  }

  lemma FilterTreeMeans(row: Row, f: Filter)
    ensures Eval(FilterTree(f), row) == FilterMeaning(row, f)
  {
    if f.test.OneOf? {
      InIsAny(row, f.expr, f.test.vs);
    }
  }

  lemma {:induction false} GroupTreeMeans(row: Row, isOr: bool, fs: SomeFilters)
    ensures Eval(GroupTree(isOr, fs), row) == ClauseMeaning(row, Group(isOr, fs))
    decreases |fs|
  {
    hide FilterMeaning, FilterTree, AllOf, AnyOf;
    var ts := FilterMeanings(row, fs);
    FilterTreeMeans(row, fs[0]);
    if |fs| == 1 {
      AllOfOne(ts[0]);
      assert ts == [ts[0]];
    } else {
      GroupTreeMeans(row, isOr, fs[1..]);
      AllOfCons(ts[0], ts[1..]);
      assert ts == [ts[0]] + ts[1..] && ts[1..] == FilterMeanings(row, fs[1..]);
    }
  }

  lemma {:induction false} WhereTreeMeans(row: Row, cs: seq<Clause>)
    requires cs != []
    ensures Eval(WhereTree(cs), row) == QueryMeaning(row, cs)
    decreases |cs|
  {
    var ts := seq(|cs|, i requires 0 <= i < |cs| => ClauseMeaning(row, cs[i]));
    if cs[0].One? {
      FilterTreeMeans(row, cs[0].f);
    } else {
      GroupTreeMeans(row, cs[0].isOr, cs[0].fs);
    }
    if |cs| == 1 {
      AllOfOne(ts[0]);
      assert ts == [ts[0]];
    } else {
      var rest := cs[1..];
      WhereTreeMeans(row, rest);
      AllOfCons(ts[0], ts[1..]);
      assert ts == [ts[0]] + ts[1..];
      assert ts[1..] == seq(|rest|, i requires 0 <= i < |rest| => ClauseMeaning(row, rest[i]));
    }
  }

  /** Compiler correctness: the server reads the emitted condition to its end, uses every parameter, and on
      every row finds exactly the conjunction of the client's filters and groups, in three-valued logic; without any,
      nothing is emitted and every row is kept. */
  lemma WhereIsCorrect(cs: seq<Clause>)
    ensures cs != [] ==> ReadWhole(EmitWhere(cs).toks, EmitWhere(cs).params) == Some(WhereTree(cs))
    ensures cs != [] ==> forall row :: Eval(WhereTree(cs), row) == QueryMeaning(row, cs)
    ensures cs == [] ==> EmitWhere(cs) == Frag([], []) && forall row :: QueryMeaning(row, cs) == True3
  {
    var w := EmitWhere(cs);
    if cs != [] {
      ReadsWhere(cs, [], []);
      assert w.toks + [] == w.toks && w.params + [] == w.params;
      forall row ensures Eval(WhereTree(cs), row) == QueryMeaning(row, cs) {
        WhereTreeMeans(row, cs);
      }
    }
  }
}
