/** Every statement the API assembles scans cleanly in psycopg, with one placeholder per parameter. */
module PlaceholderTheorems {
  import opened Results
  import opened Text
  import opened SqlText
  import opened SqlWords
  import opened Values
  import opened Filters
  import opened WhereCompiler
  import opened QueryParser
  import opened Statements
  import opened StatementLemmas
  import opened RestWrites
  import opened StatementTheorems
  import opened InsertTheorems

  /** Tokens that may stand beside each other, what is spliced reading by itself, and as many `Param` tokens as there
      are parameters. */
  predicate Fits(toks: seq<Tok>, n: nat) {
    AllWritten(toks) && KeptApart(toks) && CountParams(toks) == n
  }

  /** The second may follow the first. */
  predicate Meet(a: seq<Tok>, b: seq<Tok>) {
    a != [] && b != [] ==> Beside(a[|a| - 1], b[0])
  }

  lemma FitsConcat(a: seq<Tok>, b: seq<Tok>, n: nat, m: nat)
    requires Fits(a, n) && Fits(b, m) && Meet(a, b)
    ensures Fits(a + b, n + m)
  {
    hide Written, Beside;
    CountParamsConcat(a, b);
    var ab := a + b;
    forall i | 0 <= i < |ab| ensures Written(ab[i]) {
      assert i < |a| ==> ab[i] == a[i];
    }
    forall i | 0 <= i < |ab| - 1 ensures Beside(ab[i], ab[i + 1]) {
      assert i + 1 < |a| ==> ab[i] == a[i] && ab[i + 1] == a[i + 1];
      assert i >= |a| ==> ab[i] == b[i - |a|] && ab[i + 1] == b[i + 1 - |a|];
    }
  }

  lemma FitsOne(t: Tok)
    requires (t.Expr? ==> Reads(t.text)) && (t.Bare? ==> Reads(t.name))
    ensures Fits([t], if t.Param? then 1 else 0)
  {
    assert [t][1..] == [];
  }

  predicate Fixed(t: Tok) {
    !t.Expr? && !t.Bare? && !t.Param?
  }

  lemma {:induction false} FitsFixed(toks: seq<Tok>)
    requires KeptApart(toks) && forall t :: t in toks ==> Fixed(t)
    ensures Fits(toks, 0)
  {
    hide Reads, Beside;
    if toks != [] {
      assert toks[0] in toks && forall t :: t in toks[1..] ==> t in toks;
      assert forall i :: 0 <= i < |toks| - 2 ==> Beside(toks[1..][i], toks[1..][i + 1]) by {
        assert forall i :: 0 <= i < |toks| - 1 ==> toks[1..][i] == toks[i + 1];
      }
      FitsFixed(toks[1..]);
      FitsOne(toks[0]);
      FitsConcat([toks[0]], toks[1..], 0, 0);
      assert [toks[0]] + toks[1..] == toks;
    }
  }

  // ---------------------------------------------------------------------------
  // Conditions
  // ---------------------------------------------------------------------------

  lemma {:induction false} ParamListFits(n: nat)
    requires n > 0
    ensures Fits(ParamList(n), n)
  {
    hide Reads;
    FitsOne(Param);
    if n > 1 {
      ParamListFits(n - 1);
      FitsOne(Comma);
      FitsConcat([Param], [Comma], 1, 0);
      assert [Param] + [Comma] == [Param, Comma];
      FitsConcat([Param, Comma], ParamList(n - 1), 1, n - 1);
    }
  }

  lemma TestFits(expr: string, test: Test)
    requires Reads(expr)
    ensures Fits(EmitTest(expr, test).toks, |EmitTest(expr, test).params|)
  {
    hide Reads, ParamList;
    var e := [Expr(expr)];
    FitsOne(Expr(expr));
    FitsOne(Param);
    match test
    case Compare(op, v) =>
      FitsFixed([Cmp(SymOf(op))]);
      FitsConcat(e, [Cmp(SymOf(op))], 0, 0);
      FitsConcat(e + [Cmp(SymOf(op))], [Param], 0, 1);
      assert EmitTest(expr, test).toks == e + [Cmp(SymOf(op))] + [Param];
    case OneOf(vs) =>
      ParamListFits(|vs|);
      FitsFixed([InKw, Open]);
      FitsFixed([Close]);
      FitsConcat(e, [InKw, Open], 0, 0);
      FitsConcat(e + [InKw, Open], ParamList(|vs|), 0, |vs|);
      FitsConcat(e + [InKw, Open] + ParamList(|vs|), [Close], |vs|, 0);
      assert [Expr(expr), InKw, Open] == e + [InKw, Open];
    case IsTest(word) =>
      FitsFixed([IsKw(word)]);
      FitsConcat(e, [IsKw(word)], 0, 0);
      assert EmitTest(expr, test).toks == e + [IsKw(word)];
    case Search(fn, lang, query) =>
      SearchFits(expr, fn, lang, query);
  }

  lemma SearchFits(expr: string, fn: FtsOp, lang: Option<string>, query: string)
    requires Reads(expr)
    ensures var f := EmitTest(expr, Search(fn, lang, query)); Fits(f.toks, |f.params|)
  {
    hide Reads, ParamList;
    var vec, n := VectorToks(expr, lang.Some?), |SearchValues(lang, query)|;
    var fnToks := [AtAt, TsQuery(FnOf(fn)), Open];
    VectorFits(expr, lang.Some?);
    ParamListFits(n);
    FitsFixed([TsVector]);
    FitsFixed(fnToks);
    FitsFixed([Close]);
    var k := if lang.Some? then 1 else 0;
    FitsConcat([TsVector], vec, 0, k);
    FitsConcat([TsVector] + vec, fnToks, k, 0);
    FitsConcat([TsVector] + vec + fnToks, ParamList(n), k, n);
    FitsConcat([TsVector] + vec + fnToks + ParamList(n), [Close], k + n, 0);
  }

  lemma VectorFits(expr: string, config: bool)
    requires Reads(expr)
    ensures Fits(VectorToks(expr, config), if config then 1 else 0)
  {
    hide Reads;
    FitsOne(Expr(expr));
    FitsFixed([Open]);
    FitsFixed([Comma]);
    FitsFixed([Close]);
    FitsOne(Param);
    if config {
      FitsConcat([Open], [Param], 0, 1);
      FitsConcat([Open] + [Param], [Comma], 1, 0);
      FitsConcat([Open] + [Param] + [Comma], [Expr(expr)], 1, 0);
      FitsConcat([Open] + [Param] + [Comma] + [Expr(expr)], [Close], 1, 0);
      assert VectorToks(expr, config) == [Open] + [Param] + [Comma] + [Expr(expr)] + [Close];
    } else {
      FitsConcat([Open], [Expr(expr)], 0, 0);
      FitsConcat([Open] + [Expr(expr)], [Close], 0, 0);
      assert VectorToks(expr, config) == [Open] + [Expr(expr)] + [Close];
    }
  }

  lemma FilterFits(f: Filter)
    requires Reads(f.expr)
    ensures Fits(EmitFilter(f).toks, |EmitFilter(f).params|)
  {
    hide Reads, EmitTest;
    var core := EmitTest(f.expr, f.test);
    TestFits(f.expr, f.test);
    FitsFixed([NotKw, Open]);
    FitsFixed([Close]);
    FitsConcat([NotKw, Open], core.toks, 0, |core.params|);
    FitsConcat([NotKw, Open] + core.toks, [Close], |core.params|, 0);
  }

  lemma JoinFits(sep: Tok, head: seq<Tok>, tail: seq<seq<Tok>>, n: nat, m: nat)
    requires Fixed(sep) && Opens(sep) && Shuts(sep) && Fits(head, n) && Fits(JoinToks(sep, tail), m)
    ensures Fits(JoinToks(sep, [head] + tail), n + m)
  {
    hide Reads, Written, Opens, Shuts;
    var all := [head] + tail;
    assert all[1..] == tail;
    if tail == [] {
      assert JoinToks(sep, all) == head && m == 0;
    } else {
      FitsFixed([sep]);
      FitsConcat(head, [sep], n, 0);
      FitsConcat(head + [sep], JoinToks(sep, tail), n, m);
    }
  }

  lemma {:induction false} FiltersFit(sep: Tok, fs: seq<Filter>)
    requires Fixed(sep) && Opens(sep) && Shuts(sep) && forall f :: f in fs ==> Reads(f.expr)
    ensures Fits(JoinToks(sep, FilterParts(fs)), |FilterParams(fs)|)
  {
    hide Reads, EmitFilter;
    if fs != [] {
      assert fs[0] in fs && forall f :: f in fs[1..] ==> f in fs;
      FilterFits(fs[0]);
      FiltersFit(sep, fs[1..]);
      JoinFits(sep, EmitFilter(fs[0]).toks, FilterParts(fs[1..]), |EmitFilter(fs[0]).params|, |FilterParams(fs[1..])|);
    }
  }

  predicate CleanClause(c: Clause) {
    match c
    case One(f) => Reads(f.expr)
    case Group(_, fs) => forall f :: f in fs ==> Reads(f.expr)
  }

  lemma ClauseFits(c: Clause)
    requires CleanClause(c)
    ensures Fits(EmitClause(c).toks, |EmitClause(c).params|)
  {
    hide Reads, EmitFilter, JoinToks;
    match c
    case One(f) => FilterFits(f);
    case Group(isOr, fs) =>
      FiltersFit(GroupSep(isOr), fs);
      FitsFixed([Open]);
      FitsFixed([Close]);
      var inner := JoinToks(GroupSep(isOr), FilterParts(fs));
      FitsConcat([Open], inner, 0, |FilterParams(fs)|);
      FitsConcat([Open] + inner, [Close], |FilterParams(fs)|, 0);
  }

  lemma {:induction false} WhereFits(cs: seq<Clause>)
    requires forall c :: c in cs ==> CleanClause(c)
    ensures Fits(EmitWhere(cs).toks, |EmitWhere(cs).params|)
    ensures Fits(WhereToks(cs), |EmitWhere(cs).params|)
  {
    hide CleanClause, EmitClause;
    if cs != [] {
      assert cs[0] in cs && forall c :: c in cs[1..] ==> c in cs;
      ClauseFits(cs[0]);
      WhereFits(cs[1..]);
      JoinFits(AndKw, EmitClause(cs[0]).toks, ClauseParts(cs[1..]), |EmitClause(cs[0]).params|,
          |ClauseParams(cs[1..])|);
      FitsFixed([WhereKw]);
      FitsConcat([WhereKw], EmitWhere(cs).toks, 0, |EmitWhere(cs).params|);
    }
  }

  // ---------------------------------------------------------------------------
  // Select lists and orderings
  // ---------------------------------------------------------------------------

  lemma OutputFits(o: Output, strict: bool)
    requires Reads(o.expr) && (!strict ==> Reads(o.alias))
    ensures Fits(OutputToks(o, strict), 0)
  {
    hide Reads;
    var alias := if strict then Ident(o.alias) else Bare(o.alias);
    FitsOne(Expr(o.expr));
    FitsFixed([AsKw]);
    FitsOne(alias);
    FitsConcat([Expr(o.expr)], [AsKw], 0, 0);
    FitsConcat([Expr(o.expr)] + [AsKw], [alias], 0, 0);
    assert OutputToks(o, strict) == [Expr(o.expr)] + [AsKw] + [alias];
  }

  predicate CleanOutputs(os: seq<Output>, strict: bool) {
    forall o :: o in os ==> Reads(o.expr) && (!strict ==> Reads(o.alias))
  }

  lemma {:induction false} OutputsFit(os: seq<Output>, strict: bool)
    requires CleanOutputs(os, strict)
    ensures Fits(JoinToks(Comma, OutputParts(os, strict)), 0)
  {
    hide Reads, OutputToks;
    if os != [] {
      assert os[0] in os && forall o :: o in os[1..] ==> o in os;
      OutputFits(os[0], strict);
      OutputsFit(os[1..], strict);
      JoinFits(Comma, OutputToks(os[0], strict), OutputParts(os[1..], strict), 0, 0);
    }
  }

  lemma TermFits(t: OrderTerm)
    requires Reads(t.expr)
    ensures Fits(TermToks(t), 0)
  {
    hide Reads;
    var tail := [if t.desc then Desc else Asc]
                + if t.nullsFirst.None? then [] else [if t.nullsFirst.value then NullsFirst else NullsLast];
    FitsOne(Expr(t.expr));
    FitsFixed(tail);
    FitsConcat([Expr(t.expr)], tail, 0, 0);
    assert TermToks(t) == [Expr(t.expr)] + tail;
  }

  lemma {:induction false} TermsFit(ts: seq<OrderTerm>)
    requires forall t :: t in ts ==> Reads(t.expr)
    ensures Fits(JoinToks(Comma, TermParts(ts)), 0) && Fits(OrderToks(ts), 0)
  {
    hide Reads, TermToks;
    if ts != [] {
      assert ts[0] in ts && forall t :: t in ts[1..] ==> t in ts;
      TermFits(ts[0]);
      TermsFit(ts[1..]);
      JoinFits(Comma, TermToks(ts[0]), TermParts(ts[1..]), 0, 0);
      FitsFixed([OrderBy]);
      FitsConcat([OrderBy], JoinToks(Comma, TermParts(ts)), 0, 0);
    }
  }

  predicate CleanQuery(q: Query, strict: bool) {
    && (forall c :: c in q.clauses ==> CleanClause(c))
    && CleanOutputs(q.outputs, strict)
    && forall t :: t in q.order ==> Reads(t.expr)
  }

  // ---------------------------------------------------------------------------
  // An accepted request on a clean spec is clean
  // ---------------------------------------------------------------------------

  /** Column expressions are literal text for psycopg, and so are the names the lenient dialect splices bare. */
  predicate CleanSpec(spec: Spec) {
    forall n :: n in spec.columns ==> Reads(spec.columns[n].expr) && (!spec.strict ==> Reads(n))
  }

  /** A reflected spec quotes its columns; it is clean whatever the names hold. */
  lemma ReflectedSpecIsClean(spec: Spec)
    requires spec.strict && forall n :: n in spec.columns ==> spec.columns[n].expr == QuoteIdent(n)
    ensures CleanSpec(spec)
  {
    forall n | n in spec.columns ensures Reads(spec.columns[n].expr) {
      QuotedReads(n);
    }
  }

  lemma ConditionExpr(col: Col, raw: string, strict: bool, inGroup: bool)
    ensures var f := ReadCondition(col, raw, strict, inGroup); f.Ok? ==> f.value.expr == col.expr
  {
    hide ParseOp, Unquote, MakeTest;
  }

  lemma {:induction false} MembersClean(conds: seq<string>, spec: Spec)
    requires CleanSpec(spec)
    ensures var fs := ReadMembers(conds, spec); fs.Ok? ==> forall f :: f in fs.value ==> Reads(f.expr)
  {
    hide Reads, ReadCondition;
    if conds != [] {
      var p := Partition(Strip(conds[0]), '.');
      if p.head in spec.columns {
        ConditionExpr(spec.columns[p.head], p.tail, spec.strict, true);
      }
      MembersClean(conds[1..], spec);
    }
  }

  lemma GroupClean(raw: string, spec: Spec)
    requires CleanSpec(spec)
    ensures var fs := ReadGroup(raw, spec); fs.Ok? ==> forall f :: f in fs.value ==> Reads(f.expr)
  {
    hide Reads, ReadMembers, SplitGroup, Inner;
    var conds := SplitGroup(Inner(Strip(raw)), spec.strict);
    if conds.Ok? {
      MembersClean(conds.value, spec);
    }
  }

  predicate CleanClauses(cs: seq<Clause>) {
    forall c :: c in cs ==> CleanClause(c)
  }

  lemma {:induction false} ColumnClausesClean(items: Params, spec: Spec, ignored: set<string>)
    requires CleanSpec(spec)
    ensures var cs := ColumnClauses(items, spec, ignored); cs.Ok? ==> CleanClauses(cs.value)
  {
    hide Reads, ReadCondition;
    if items != [] {
      if items[0].0 in spec.columns {
        ConditionExpr(spec.columns[items[0].0], items[0].1, spec.strict, false);
      }
      ColumnClausesClean(items[1..], spec, ignored);
    }
  }

  lemma {:induction false} GroupClausesClean(raws: seq<string>, spec: Spec, isOr: bool)
    requires CleanSpec(spec)
    ensures var cs := GroupClauses(raws, spec, isOr); cs.Ok? ==> CleanClauses(cs.value)
  {
    hide Reads, ReadGroup;
    if raws != [] {
      GroupClean(raws[0], spec);
      GroupClausesClean(raws[1..], spec, isOr);
    }
  }

  lemma {:induction false} AllOutputsClean(names: seq<string>, spec: Spec)
    requires CleanSpec(spec) && forall n :: n in names ==> n in spec.columns
    ensures CleanOutputs(AllOutputs(names, spec), spec.strict)
  {
    hide Reads;
    if names != [] {
      assert names[0] in names;
      AllOutputsClean(names[1..], spec);
    }
  }

  lemma PlainIdentClean(s: string)
    requires PlainIdent(s)
    ensures Reads(s)
  {
    var t := if s[|s| - 1] == '\n' then s[..|s| - 1] else s;
    assert s == t || s == t + "\n";
    assert '%' in t ==> 'a' <= '%' <= 'z' || 'A' <= '%' <= 'Z' || IsDigit('%') || '%' == '_';
    assert '"' in t ==> 'a' <= '"' <= 'z' || 'A' <= '"' <= 'Z' || IsDigit('"') || '"' == '_';
    PlainReads(s);
  }

  lemma SelectItemClean(item: string, spec: Spec)
    requires CleanSpec(spec) && ValidSpec(spec)
    ensures var os := ReadSelectItem(item, spec); os.Ok? ==> CleanOutputs(os.value, spec.strict)
  {
    hide Reads, PlainIdent;
    if item == "*" {
      AllOutputsClean(spec.names, spec);
    }
    var alias := Partition(item, ':').head;
    if PlainIdent(alias) {
      PlainIdentClean(alias);
    }
  }

  lemma {:induction false} SelectItemsClean(items: seq<string>, spec: Spec)
    requires CleanSpec(spec) && ValidSpec(spec)
    ensures var os := ReadSelectItems(items, spec); os.Ok? ==> CleanOutputs(os.value, spec.strict)
  {
    hide Reads, ReadSelectItem;
    if items != [] {
      SelectItemClean(Strip(items[0]), spec);
      SelectItemsClean(items[1..], spec);
    }
  }

  predicate CleanTerms(ts: seq<OrderTerm>) {
    forall t :: t in ts ==> Reads(t.expr)
  }

  lemma {:induction false} ModifyKeepsExpr(t: OrderTerm, mods: seq<string>)
    ensures var u := ModifyAll(t, mods); u.Ok? ==> u.value.expr == t.expr
    decreases |mods|
  {
    if mods != [] {
      var u := Modify(t, mods[0]);
      if u.Ok? {
        ModifyKeepsExpr(u.value, mods[1..]);
      }
    }
  }

  lemma {:induction false} OrderTermsClean(terms: seq<string>, spec: Spec)
    requires CleanSpec(spec)
    ensures var ts := ReadOrderTerms(terms, spec); ts.Ok? ==> CleanTerms(ts.value)
  {
    hide Reads, ModifyAll;
    if terms != [] {
      var parts := SplitOn(Strip(terms[0]), '.');
      if parts[0] in spec.columns {
        ModifyKeepsExpr(OrderTerm(spec.columns[parts[0]].expr, false, None), parts[1..]);
      }
      OrderTermsClean(terms[1..], spec);
    }
  }

  lemma {:induction false} DefaultTermsClean(ds: seq<(string, bool)>, spec: Spec)
    requires CleanSpec(spec) && forall d :: d in ds ==> d.0 in spec.columns
    ensures CleanTerms(DefaultTerms(ds, spec))
  {
    hide Reads;
    if ds != [] {
      assert ds[0] in ds;
      DefaultTermsClean(ds[1..], spec);
    }
  }

  lemma ClausesClean(items: Params, spec: Spec, reserved: set<string>)
    requires CleanSpec(spec)
    ensures var cs := ReadClauses(items, spec, reserved); cs.Ok? ==> CleanClauses(cs.value)
  {
    hide Reads, CleanClause, ColumnClauses, GroupClauses;
    ColumnClausesClean(items, spec, RESERVED + reserved);
    GroupClausesClean(GetList(items, "or"), spec, true);
    GroupClausesClean(GetList(items, "and"), spec, false);
  }

  /** The outputs of a request, asked for or by default. */
  lemma OutputsClean(sel: Option<string>, spec: Spec)
    requires CleanSpec(spec) && ValidSpec(spec)
    ensures var os := if Given(sel) then ReadSelect(sel.value, spec) else Ok(DefaultOutputs(spec));
            os.Ok? ==> CleanOutputs(os.value, spec.strict)
  {
    hide Reads, ReadSelectItems, AllOutputs, CleanSpec, CleanOutputs;
    if Given(sel) {
      SelectItemsClean(SplitOn(sel.value, ','), spec);
    } else {
      AllOutputsClean(if spec.defaultSelect.Some? then spec.defaultSelect.value else spec.names, spec);
    }
  }

  lemma OrderClean(ord: Option<string>, spec: Spec)
    requires CleanSpec(spec) && ValidSpec(spec)
    ensures var ts := if Given(ord) then ReadOrder(ord.value, spec) else Ok(DefaultTerms(spec.defaultOrder, spec));
            ts.Ok? ==> CleanTerms(ts.value)
  {
    hide Reads, ReadOrderTerms, DefaultTerms, CleanSpec, CleanTerms;
    if Given(ord) {
      OrderTermsClean(SplitOn(ord.value, ','), spec);
    } else {
      DefaultTermsClean(spec.defaultOrder, spec);
    }
  }

  lemma AcceptedQueryIsClean(items: Params, spec: Spec, reserved: set<string>)
    requires CleanSpec(spec) && ValidSpec(spec)
    ensures var q := ReadQuery(items, spec, reserved); q.Ok? ==> CleanQuery(q.value, spec.strict)
  {
    hide CleanClause, Reads, CleanOutputs, CleanSpec, ReadClauses, ReadSelect, ReadOrder, DefaultOutputs,
      DefaultTerms, ReadLimit, ReadOffset, Get, Given;
    ClausesClean(items, spec, reserved);
    OutputsClean(Get(items, "select"), spec);
    OrderClean(Get(items, "order"), spec);
  }

  // ---------------------------------------------------------------------------
  // Statements
  // ---------------------------------------------------------------------------

  /** psycopg scans the text into one placeholder per parameter, each exactly where its `Param` token stands, and the
      server's lexer reads in what it then receives exactly the words of the tokens. */
  ghost predicate Aligned(f: Frag) {
    && CleanToks(f.toks)
    && Scan(SqlOf(f.toks)) == Some(Segments(f.toks))
    && |Segments(f.toks)| == |f.params| + 1
    && LexAll(Segments(f.toks)) == Some(Words(f.toks))
  }

  lemma FittingIsAligned(f: Frag)
    requires Fits(f.toks, |f.params|) && f.toks != [] && !f.toks[0].Param?
    ensures Aligned(f)
  {
    ReadsWords(f.toks);
    PlaceholdersAligned(f.toks);
  }

  lemma PiecesFit(q: Query, strict: bool)
    requires CleanQuery(q, strict)
    ensures var qp := EmitQuery(q, strict);
            Fits(qp.selectList, 0) && Fits(qp.WhereSql(), |qp.whereParams|) && Fits(qp.orderSql, 0)
            && Fits(qp.limitSql, |qp.limitParams|)
  {
    hide Reads, CleanClause, EmitWhere, WhereToks, OrderToks, OutputParts;
    OutputsFit(q.outputs, strict);
    WhereFits(q.clauses);
    WhereSqlIs(q, strict);
    TermsFit(q.order);
    FitsFixed([LimitKw]);
    FitsOne(Param);
    FitsConcat([LimitKw], [Param], 0, 1);
    assert [LimitKw] + [Param] == [LimitKw, Param] == [LimitKw, Param] + [];
    if q.offset != 0 {
      FitsFixed([Space, OffsetKw]);
      FitsConcat([Space, OffsetKw], [Param], 0, 1);
      assert [Space, OffsetKw] + [Param] == [Space, OffsetKw, Param];
      FitsConcat([LimitKw, Param], [Space, OffsetKw, Param], 1, 1);
    }
  }

  /** The list endpoint's SELECT is aligned for every accepted request, lenient or strict. */
  lemma SelectAligned(q: Query, strict: bool, table: string)
    requires CleanQuery(q, strict)
    ensures Aligned(SelectFrag(table, EmitQuery(q, strict)))
  {
    hide Fits, EmitQuery, CleanQuery;
    var qp := EmitQuery(q, strict);
    PiecesFit(q, strict);
    var from := [FromKw, Ident(table), Space];
    FitsFixed([SelectKw]);
    FitsFixed(from);
    FitsFixed([Space]);
    var w, l := |qp.whereParams|, |qp.limitParams|;
    FitsConcat([SelectKw], qp.selectList, 0, 0);
    FitsConcat([SelectKw] + qp.selectList, from, 0, 0);
    FitsConcat([SelectKw] + qp.selectList + from, qp.WhereSql(), 0, w);
    FitsConcat([SelectKw] + qp.selectList + from + qp.WhereSql(), [Space], w, 0);
    FitsConcat([SelectKw] + qp.selectList + from + qp.WhereSql() + [Space], qp.orderSql, w, 0);
    FitsConcat([SelectKw] + qp.selectList + from + qp.WhereSql() + [Space] + qp.orderSql, [Space], w, 0);
    FitsConcat([SelectKw] + qp.selectList + from + qp.WhereSql() + [Space] + qp.orderSql + [Space], qp.limitSql, w, l);
    FittingIsAligned(SelectFrag(table, qp));
  }

  lemma WindowPartFits(kw: Tok, n: Option<int>)
    requires Fixed(kw) && Shuts(kw)
    ensures Fits(if n.Some? then [Space, kw, Param] else [], |IntParam(n)|)
  {
    hide Reads;
    FitsFixed([]);
    FitsFixed([Space, kw]);
    FitsOne(Param);
    FitsConcat([Space, kw], [Param], 0, 1);
    assert [Space, kw] + [Param] == [Space, kw, Param];
  }

  lemma TargetFits(q: Query, ti: TableInfo, window: Option<Window>)
    requires CleanQuery(q, true)
    ensures var f := TargetFrag(ti, EmitQuery(q, true), window); Fits(f.toks, |f.params|)
  {
    hide Fits, EmitQuery, CleanQuery;
    var qp := EmitQuery(q, true);
    PiecesFit(q, true);
    if window.Some? {
      var (l, o) := window.value;
      var head, open := [SelectKw, Ctid, FromKw, Ident(ti.name), Space], [WhereKw, Ctid, InKw, Open];
      FitsFixed(head);
      FitsFixed(open);
      FitsFixed([Space]);
      FitsFixed([Close]);
      WindowPartFits(LimitKw, l);
      WindowPartFits(OffsetKw, o);
      WindowFits(open, head, qp.WhereSql(), qp.orderSql, if l.Some? then [Space, LimitKw, Param] else [],
                 if o.Some? then [Space, OffsetKw, Param] else [], |qp.whereParams|, |IntParam(l)|, |IntParam(o)|);
    }
  }

  lemma WindowFits(open: seq<Tok>, head: seq<Tok>, where: seq<Tok>, order: seq<Tok>, limit: seq<Tok>, offset: seq<Tok>,
                   w: nat, n: nat, m: nat)
    requires Fits(open, 0) && Fits(head, 0) && Fits(where, w) && Fits(order, 0) && Fits(limit, n) && Fits(offset, m)
    requires Fits([Space], 0) && Fits([Close], 0)
    requires open != [] && Shuts(open[|open| - 1]) && head != [] && Shuts(head[|head| - 1])
    requires (limit != [] ==> Opens(limit[0])) && (offset != [] ==> Opens(offset[0]))
    ensures Fits(open + (head + where + [Space] + order + limit + offset) + [Close], w + n + m)
  {
    hide Fits;
    FitsConcat(head, where, 0, w);
    FitsConcat(head + where, [Space], w, 0);
    FitsConcat(head + where + [Space], order, w, 0);
    FitsConcat(head + where + [Space] + order, limit, w, n);
    FitsConcat(head + where + [Space] + order + limit, offset, w + n, m);
    var inner := head + where + [Space] + order + limit + offset;
    FitsConcat(open, inner, 0, w + n + m);
    FitsConcat(open + inner, [Close], w + n + m, 0);
  }

  lemma ReturningFits(q: Query, representation: bool)
    requires CleanQuery(q, true)
    ensures var list := ReturningList(q, representation); Fits(if list == [] then [] else [ReturningKw] + list, 0)
  {
    hide Reads, CleanQuery;
    PiecesFit(q, true);
    FitsFixed([]);
    FitsFixed([ReturningKw]);
    FitsConcat([ReturningKw], EmitQuery(q, true).selectList, 0, 0);
  }

  lemma DeleteAligned(q: Query, ti: TableInfo, representation: bool, window: Option<Window>)
    requires CleanQuery(q, true)
    ensures Aligned(DeleteFrag(ti, EmitQuery(q, true), ReturningList(q, representation), window))
  {
    hide Fits, EmitQuery, TargetFrag, CleanQuery;
    var target := TargetFrag(ti, EmitQuery(q, true), window);
    var head, list := [DeleteFrom, Ident(ti.name), Space], ReturningList(q, representation);
    TargetFits(q, ti, window);
    ReturningFits(q, representation);
    FitsFixed(head);
    FitsConcat(head, target.toks, 0, |target.params|);
    FitsConcat(head + target.toks, if list == [] then [] else [ReturningKw] + list, |target.params|, 0);
    FittingIsAligned(DeleteFrag(ti, EmitQuery(q, true), list, window));
  }

  lemma {:induction false} SetsFit(ti: TableInfo, body: Body)
    ensures Fits(JoinToks(Comma, SetParts(body)), |SetValues(ti, body)|)
  {
    hide Adapt;
    if body != [] {
      FitsFixed([Ident(body[0].0), Assign]);
      FitsOne(Param);
      FitsConcat([Ident(body[0].0), Assign], [Param], 0, 1);
      assert SetToks(body[0].0) == [Ident(body[0].0), Assign] + [Param];
      SetsFit(ti, body[1..]);
      JoinFits(Comma, SetToks(body[0].0), SetParts(body[1..]), 1, |SetValues(ti, body[1..])|);
    }
  }

  lemma UpdateAligned(q: Query, ti: TableInfo, body: Body, representation: bool, window: Option<Window>)
    requires CleanQuery(q, true)
    ensures var f := UpdateFrag(ti, body, EmitQuery(q, true), ReturningList(q, representation), window);
            f.Ok? ==> Aligned(f.value)
  {
    hide Fits, EmitQuery, TargetFrag, CleanQuery, SetParts, SetValues, Keys, JoinToks;
    var f := UpdateFrag(ti, body, EmitQuery(q, true), ReturningList(q, representation), window);
    if f.Ok? {
      var target := TargetFrag(ti, EmitQuery(q, true), window);
      var head, sets := [UpdateKw, Ident(ti.name), SetKw], JoinToks(Comma, SetParts(body));
      var list, n, w := ReturningList(q, representation), |SetValues(ti, body)|, |target.params|;
      TargetFits(q, ti, window);
      ReturningFits(q, representation);
      SetsFit(ti, body);
      FitsFixed(head);
      FitsFixed([Space]);
      FitsConcat(head, sets, 0, n);
      FitsConcat(head + sets, [Space], n, 0);
      FitsConcat(head + sets + [Space], target.toks, n, w);
      FitsConcat(head + sets + [Space] + target.toks, if list == [] then [] else [ReturningKw] + list, n + w, 0);
      FittingIsAligned(f.value);
    }
  }

  lemma {:induction false} CellsFit(ti: TableInfo, item: Body, cols: seq<string>)
    ensures Fits(JoinToks(Comma, CellParts(item, cols)), |CellValues(ti, item, cols)|)
  {
    hide Adapt;
    if cols != [] {
      FitsOne(Param);
      FitsOne(DefaultKw);
      CellsFit(ti, item, cols[1..]);
      JoinFits(Comma, CellToks(item, cols[0]), CellParts(item, cols[1..]), if HasKey(item, cols[0]) then 1 else 0,
               |CellValues(ti, item, cols[1..])|);
    }
  }

  lemma {:induction false} TuplesFit(ti: TableInfo, items: seq<Body>, cols: seq<string>)
    ensures Fits(JoinToks(Comma, TupleParts(items, cols)), |TupleValues(ti, items, cols)|)
  {
    hide CellParts, CellValues;
    if items != [] {
      var inner, n := JoinToks(Comma, CellParts(items[0], cols)), |CellValues(ti, items[0], cols)|;
      CellsFit(ti, items[0], cols);
      FitsFixed([Open]);
      FitsFixed([Close]);
      FitsConcat([Open], inner, 0, n);
      FitsConcat([Open] + inner, [Close], n, 0);
      TuplesFit(ti, items[1..], cols);
      JoinFits(Comma, [Open] + inner + [Close], TupleParts(items[1..], cols), n, |TupleValues(ti, items[1..], cols)|);
    }
  }

  lemma {:induction false} NamesFit(names: seq<string>)
    ensures Fits(JoinToks(Comma, IdentParts(names)), 0) && Fits(JoinToks(Comma, MergeParts(names)), 0)
    ensures Fits([Open] + JoinToks(Comma, IdentParts(names)) + [Close], 0)
  {
    if names != [] {
      NamesFit(names[1..]);
      FitsFixed([Ident(names[0])]);
      FitsFixed([Ident(names[0]), AssignExcluded, Ident(names[0])]);
      JoinFits(Comma, [Ident(names[0])], IdentParts(names[1..]), 0, 0);
      JoinFits(Comma, [Ident(names[0]), AssignExcluded, Ident(names[0])], MergeParts(names[1..]), 0, 0);
    }
    FitsFixed([Open]);
    FitsFixed([Close]);
    FitsConcat([Open], JoinToks(Comma, IdentParts(names)), 0, 0);
    FitsConcat([Open] + JoinToks(Comma, IdentParts(names)), [Close], 0, 0);
  }

  lemma ConflictFits(resolution: Option<Resolution>, cols: seq<string>, target: seq<string>)
    ensures Fits(ConflictToks(resolution, cols, target), 0)
    ensures var toks := ConflictToks(resolution, cols, target); toks != [] ==> toks[0] == OnConflict
  {
    hide Fits, Without, IdentParts, MergeParts, JoinToks;
    var update := Without(cols, target);
    var named := [Open] + JoinToks(Comma, IdentParts(target)) + [Close];
    var list := JoinToks(Comma, MergeParts(update));
    FitsFixed([]);
    FitsFixed([OnConflict]);
    FitsFixed([DoNothing]);
    FitsFixed([DoUpdateSet]);
    NamesFit(target);
    NamesFit(update);
    FitsConcat([OnConflict], named, 0, 0);
    FitsConcat([OnConflict] + named, [DoNothing], 0, 0);
    FitsConcat([DoUpdateSet], list, 0, 0);
    FitsConcat([OnConflict] + named, [DoUpdateSet] + list, 0, 0);
  }

  lemma ValuesFit(ti: TableInfo, items: seq<Body>, cols: seq<string>)
    ensures Fits(ValuesToks(ti, items, cols), if cols == [] then 0 else |TupleValues(ti, items, cols)|)
    ensures ValuesToks(ti, items, cols) != [] && ValuesToks(ti, items, cols)[0] == InsertInto
  {
    hide Fits, TupleParts, TupleValues, IdentParts, JoinToks;
    if cols == [] {
      FitsFixed([InsertInto, Ident(ti.name), DefaultValues]);
    } else {
      var head, named := [InsertInto, Ident(ti.name), Space], [Open] + JoinToks(Comma, IdentParts(cols)) + [Close];
      var rows := JoinToks(Comma, TupleParts(items, cols));
      FitsFixed(head);
      NamesFit(cols);
      FitsFixed([ValuesKw]);
      TuplesFit(ti, items, cols);
      FitsConcat(head, named, 0, 0);
      FitsConcat(head + named, [ValuesKw], 0, 0);
      FitsConcat(head + named + [ValuesKw], rows, 0, |TupleValues(ti, items, cols)|);
    }
  }

  lemma InsertAligned(ti: TableInfo, items: seq<Body>, columns: Option<string>, onConflict: Option<string>,
                      resolution: Option<Resolution>, q: Query, representation: bool)
    requires CleanQuery(q, true)
    ensures var f := InsertFrag(ti, items, columns, onConflict, resolution, ReturningList(q, representation));
            f.Ok? ==> Aligned(f.value)
  {
    hide Fits, CleanQuery, InsertPlan, ValuesToks, ConflictToks, TupleValues;
    var list := ReturningList(q, representation);
    var plan := InsertPlan(ti, items, columns, onConflict, resolution);
    if plan.Ok? {
      var (cols, target) := plan.value;
      var values, conflict := ValuesToks(ti, items, cols), ConflictToks(resolution, cols, target);
      var n := |TupleValues(ti, items, cols)|;
      ValuesFit(ti, items, cols);
      if cols == [] {
        NoCellsBindNothing(ti, items);
      }
      ConflictFits(resolution, cols, target);
      ReturningFits(q, representation);
      FitsConcat(values, conflict, n, 0);
      FitsConcat(values + conflict, if list == [] then [] else [ReturningKw] + list, n, 0);
      FittingIsAligned(InsertFrag(ti, items, columns, onConflict, resolution, list).value);
    }
  }
}
