/** `parse_query`: from the query parameters of a request to the pieces of a SELECT, UPDATE or DELETE. */
module QueryParser {
  import opened Results
  import opened Text
  import opened Scanners
  import opened SqlText
  import opened Values
  import opened Filters
  import opened WhereCompiler

  /** A router-authored spec refers only to its own columns. */
  ghost predicate ValidSpec(spec: Spec) {
    && (forall n :: n in spec.names <==> n in spec.columns)
    && (forall d :: d in spec.defaultOrder ==> d.0 in spec.columns)
    && (spec.defaultSelect.Some? ==> forall n :: n in spec.defaultSelect.value ==> n in spec.columns)
  }

  type Params = seq<(string, string)>

  /** `multi_items` values under one key, in order. */
  function GetList(items: Params, key: string): seq<string> {
    if items == [] then []
    else (if items[0].0 == key then [items[0].1] else []) + GetList(items[1..], key)
  }

  /** `query_params.get`: the last value of a repeated key. */
  function Get(items: Params, key: string): Option<string> {
    var vs := GetList(items, key);
    if vs == [] then None else Some(vs[|vs| - 1])
  }

  /** `if value:` — present and not empty. */
  predicate Given(v: Option<string>) {
    v.Some? && v.value != ""
  }

  const RESERVED: set<string> := {"select", "order", "limit", "offset", "or", "and"}

  // ---------------------------------------------------------------------------
  // The query as read, before any SQL
  // ---------------------------------------------------------------------------

  datatype Output = Output(expr: string, alias: string)

  datatype OrderTerm = OrderTerm(expr: string, desc: bool, nullsFirst: Option<bool>)

  datatype Query = Query(clauses: seq<Clause>, outputs: seq<Output>, order: seq<OrderTerm>, limit: int, offset: int)

  function ColumnClauses(items: Params, spec: Spec, ignored: set<string>): Result<seq<Clause>> {
    if items == [] then Ok([])
    else if items[0].0 in ignored || items[0].0 !in spec.columns then ColumnClauses(items[1..], spec, ignored)
    else
      var f :- ReadCondition(spec.columns[items[0].0], items[0].1, spec.strict, false);
      var cs :- ColumnClauses(items[1..], spec, ignored);
      Ok([One(f)] + cs)
  }

  function GroupClauses(raws: seq<string>, spec: Spec, isOr: bool): Result<seq<Clause>> {
    if raws == [] then Ok([])
    else
      var fs :- ReadGroup(raws[0], spec);
      var cs :- GroupClauses(raws[1..], spec, isOr);
      Ok([Group(isOr, fs)] + cs)
  }

  function ReadClauses(items: Params, spec: Spec, reserved: set<string>): Result<seq<Clause>> {
    var cols :- ColumnClauses(items, spec, RESERVED + reserved);
    var ors :- GroupClauses(GetList(items, "or"), spec, true);
    var ands :- GroupClauses(GetList(items, "and"), spec, false);
    Ok(cols + ors + ands)
  }

  /** `^[a-zA-Z_][a-zA-Z0-9_]*$`, which as in Python lets one final newline through. */
  predicate PlainIdent(s: string) {
    var t := if s != "" && s[|s| - 1] == '\n' then s[..|s| - 1] else s;
    t != "" && !IsDigit(t[0])
    && forall c :: c in t ==> 'a' <= c <= 'z' || 'A' <= c <= 'Z' || IsDigit(c) || c == '_'
  }

  function AllOutputs(names: seq<string>, spec: Spec): seq<Output>
    requires forall n :: n in names ==> n in spec.columns
  {
    if names == [] then []
    else assert names[0] in names; [Output(spec.columns[names[0]].expr, names[0])] + AllOutputs(names[1..], spec)
  }

  /** One stripped item of `?select=`: nothing, every column, or one column under an alias. */
  function ReadSelectItem(item: string, spec: Spec): Result<seq<Output>>
    requires ValidSpec(spec)
  {
    var p := Partition(item, ':');
    var alias := p.head;
    var name := if p.found then p.tail else item;
    if item == "" then Ok([])
    else if item == "*" then Ok(AllOutputs(spec.names, spec))
    else if (p.found || !spec.strict) && !PlainIdent(alias) then Err(BadRequest)
    else if name !in spec.columns then Err(BadRequest)
    else Ok([Output(spec.columns[name].expr, alias)])
  }

  function ReadSelectItems(items: seq<string>, spec: Spec): Result<seq<Output>>
    requires ValidSpec(spec)
  {
    if items == [] then Ok([])
    else
      var o :- ReadSelectItem(Strip(items[0]), spec);
      var os :- ReadSelectItems(items[1..], spec);
      Ok(o + os)
  }

  function ReadSelect(value: string, spec: Spec): Result<seq<Output>>
    requires ValidSpec(spec)
  {
    var os :- ReadSelectItems(SplitOn(value, ','), spec);
    if os == [] then Err(BadRequest) else Ok(os)
  }

  function DefaultOutputs(spec: Spec): seq<Output>
    requires ValidSpec(spec)
  {
    AllOutputs(if spec.defaultSelect.Some? then spec.defaultSelect.value else spec.names, spec)
  }

  /** One order modifier; the last direction and the last null placement win. */
  function Modify(t: OrderTerm, mod: string): Result<OrderTerm> {
    var m := Lower(mod);
    if m == "asc" then Ok(t.(desc := false))
    else if m == "desc" then Ok(t.(desc := true))
    else if m == "nullsfirst" then Ok(t.(nullsFirst := Some(true)))
    else if m == "nullslast" then Ok(t.(nullsFirst := Some(false)))
    else Err(BadRequest)
  }

  function ModifyAll(t: OrderTerm, mods: seq<string>): Result<OrderTerm>
    decreases |mods|
  {
    if mods == [] then Ok(t)
    else
      var u :- Modify(t, mods[0]);
      ModifyAll(u, mods[1..])
  }

  function Lowered(mods: seq<string>): seq<string> {
    seq(|mods|, i requires 0 <= i < |mods| => Lower(mods[i]))
  }

  predicate KnownModifier(word: string) {
    word == "asc" || word == "desc" || word == "nullsfirst" || word == "nullslast"
  }

  /** The word is there with no `other` after it. */
  predicate LastSays(words: seq<string>, word: string, other: string) {
    exists i :: 0 <= i < |words| && words[i] == word && other !in words[i + 1..]
  }

  /** What lower-cased modifiers ask for: descending when the last direction is, nulls where the last placement says. */
  predicate Modified(t: OrderTerm, words: seq<string>, r: OrderTerm) {
    && r.expr == t.expr
    && (r.desc <==> LastSays(words, "desc", "asc") || (t.desc && "asc" !in words))
    && (r.nullsFirst == Some(true) <==>
          LastSays(words, "nullsfirst", "nullslast") || (t.nullsFirst == Some(true) && "nullslast" !in words))
    && (r.nullsFirst == Some(false) <==>
          LastSays(words, "nullslast", "nullsfirst") || (t.nullsFirst == Some(false) && "nullsfirst" !in words))
  }

  lemma LastSaysCons(word0: string, rest: seq<string>, word: string, other: string)
    ensures LastSays([word0] + rest, word, other) <==> (word0 == word && other !in rest) || LastSays(rest, word, other)
  {
    var words := [word0] + rest;
    if LastSays(words, word, other) {
      var i :| 0 <= i < |words| && words[i] == word && other !in words[i + 1..];
      assert i > 0 ==> rest[i - 1] == word && rest[i..] == words[i + 1..];
      assert i == 0 ==> words[1..] == rest;
    }
    if LastSays(rest, word, other) {
      var i :| 0 <= i < |rest| && rest[i] == word && other !in rest[i + 1..];
      assert words[i + 1] == word && words[i + 2..] == rest[i + 1..];
    }
    if word0 == word && other !in rest {
      assert words[0] == word && words[1..] == rest;
    }
  }

  /** A word that is said either has the last say or is followed by the other. */
  lemma LastIsSaid(words: seq<string>, word: string, other: string)
    ensures LastSays(words, word, other) ==> word in words
    ensures word in words && other !in words ==> LastSays(words, word, other)
  {}

  lemma ModifyMeans(t: OrderTerm, mod: string)
    ensures Modify(t, mod).Ok? <==> KnownModifier(Lower(mod))
    ensures Modify(t, mod).Err? ==> Modify(t, mod).error == BadRequest
    ensures Modify(t, mod).Ok? ==>
              var u, w := Modify(t, mod).value, Lower(mod);
              && u.expr == t.expr
              && u.desc == (w == "desc" || (t.desc && w != "asc"))
              && u.nullsFirst == if w == "nullsfirst" then Some(true)
                                 else if w == "nullslast" then Some(false) else t.nullsFirst
  {
    hide Lower;
  }

  lemma ModifiedCons(t: OrderTerm, u: OrderTerm, word: string, rest: seq<string>, r: OrderTerm)
    requires Modified(u, rest, r) && u.expr == t.expr
    requires u.desc == (word == "desc" || (t.desc && word != "asc"))
    requires u.nullsFirst == if word == "nullsfirst" then Some(true)
                             else if word == "nullslast" then Some(false) else t.nullsFirst
    ensures Modified(t, [word] + rest, r)
  {
    LastSaysCons(word, rest, "desc", "asc");
    LastSaysCons(word, rest, "nullsfirst", "nullslast");
    LastSaysCons(word, rest, "nullslast", "nullsfirst");
    LastIsSaid(rest, "desc", "asc");
    LastIsSaid(rest, "nullsfirst", "nullslast");
    LastIsSaid(rest, "nullslast", "nullsfirst");
    hide LastSays;
  }

  /** A chain of modifiers is accepted exactly when all are known, and then the last of each kind wins. */
  lemma {:induction false} ModifyAllMeans(t: OrderTerm, mods: seq<string>)
    ensures ModifyAll(t, mods).Ok? <==> forall m :: m in mods ==> KnownModifier(Lower(m))
    ensures ModifyAll(t, mods).Err? ==> ModifyAll(t, mods).error == BadRequest
    ensures ModifyAll(t, mods).Ok? ==> Modified(t, Lowered(mods), ModifyAll(t, mods).value)
    decreases |mods|
  {
    hide Modify, Lower, KnownModifier, Modified;
    if mods == [] {
      assert Modified(t, Lowered(mods), t) by { NotModified(t, Lowered(mods)); }
    } else {
      ModifyMeans(t, mods[0]);
      assert mods == [mods[0]] + mods[1..];
      if Modify(t, mods[0]).Ok? {
        var u := Modify(t, mods[0]).value;
        ModifyAllMeans(u, mods[1..]);
        assert Lowered(mods) == [Lower(mods[0])] + Lowered(mods[1..]);
        if ModifyAll(u, mods[1..]).Ok? {
          ModifiedCons(t, u, Lower(mods[0]), Lowered(mods[1..]), ModifyAll(u, mods[1..]).value);
        }
      }
    }
  }

  lemma NotModified(t: OrderTerm, words: seq<string>)
    requires words == []
    ensures Modified(t, words, t)
  {}

  function ReadOrderTerm(term: string, spec: Spec): Result<OrderTerm> {
    var parts := SplitOn(term, '.');
    if parts[0] !in spec.columns then Err(BadRequest)
    else ModifyAll(OrderTerm(spec.columns[parts[0]].expr, false, None), parts[1..])
  }

  function ReadOrderTerms(terms: seq<string>, spec: Spec): Result<seq<OrderTerm>> {
    if terms == [] then Ok([])
    else
      var term := Strip(terms[0]);
      if term == "" then ReadOrderTerms(terms[1..], spec)
      else
        var t :- ReadOrderTerm(term, spec);
        var ts :- ReadOrderTerms(terms[1..], spec);
        Ok([t] + ts)
  }

  function ReadOrder(value: string, spec: Spec): Result<seq<OrderTerm>> {
    var ts :- ReadOrderTerms(SplitOn(value, ','), spec);
    if ts == [] then Err(BadRequest) else Ok(ts)
  }

  function DefaultTerms(ds: seq<(string, bool)>, spec: Spec): seq<OrderTerm>
    requires forall d :: d in ds ==> d.0 in spec.columns
  {
    if ds == [] then []
    else assert ds[0] in ds; [OrderTerm(spec.columns[ds[0].0].expr, ds[0].1, None)] + DefaultTerms(ds[1..], spec)
  }

  function ReadInt(value: Option<string>, default: int): Result<int> {
    if !Given(value) then Ok(default)
    else
      var n := ParseInt(value.value);
      if n.Some? then Ok(n.value) else Err(ValidationFailed)
  }

  /** A negative limit is refused; one over the maximum is clamped or refused. */
  function ReadLimit(value: Option<string>, spec: Spec): Result<int> {
    var n :- ReadInt(value, spec.defaultLimit);
    if n < 0 then Err(ValidationFailed)
    else if n > spec.maxLimit then if spec.clampLimit then Ok(spec.maxLimit) else Err(ValidationFailed)
    else Ok(n)
  }

  function ReadOffset(value: Option<string>): Result<int> {
    var n :- ReadInt(value, 0);
    if n < 0 then Err(ValidationFailed) else Ok(n)
  }

  /** What the request asks, or the first error `parse_query` meets. */
  function ReadQuery(items: Params, spec: Spec, reserved: set<string>): Result<Query>
    requires ValidSpec(spec)
  {
    var clauses :- ReadClauses(items, spec, reserved);
    var sel := Get(items, "select");
    var outputs :- if Given(sel) then ReadSelect(sel.value, spec) else Ok(DefaultOutputs(spec));
    var ord := Get(items, "order");
    var order :- if Given(ord) then ReadOrder(ord.value, spec) else Ok(DefaultTerms(spec.defaultOrder, spec));
    var limit :- ReadLimit(Get(items, "limit"), spec);
    var offset :- ReadOffset(Get(items, "offset"));
    Ok(Query(clauses, outputs, order, limit, offset))
  }

  // ---------------------------------------------------------------------------
  // The SQL pieces
  // ---------------------------------------------------------------------------

  datatype ParsedQuery = ParsedQuery(
    selectList: seq<Tok>, selected: seq<string>,
    whereClause: seq<Tok>, whereParams: seq<Value>,
    orderSql: seq<Tok>,
    limitSql: seq<Tok>, limitParams: seq<Value>, limit: int, offset: int)
  {
    /** `where_sql`: the clause behind WHERE, or nothing. */
    function WhereSql(): seq<Tok> {
      if whereClause == [] then [] else [WhereKw] + whereClause
    }
  }

  function OutputToks(o: Output, strict: bool): seq<Tok> {
    [Expr(o.expr), AsKw, if strict then Ident(o.alias) else Bare(o.alias)]
  }

  function OutputParts(os: seq<Output>, strict: bool): seq<seq<Tok>> {
    if os == [] then [] else [OutputToks(os[0], strict)] + OutputParts(os[1..], strict)
  }

  function Aliases(os: seq<Output>): seq<string> {
    if os == [] then [] else [os[0].alias] + Aliases(os[1..])
  }

  function TermToks(t: OrderTerm): seq<Tok> {
    [Expr(t.expr), if t.desc then Desc else Asc]
    + if t.nullsFirst.None? then [] else [if t.nullsFirst.value then NullsFirst else NullsLast]
  }

  function TermParts(ts: seq<OrderTerm>): seq<seq<Tok>> {
    if ts == [] then [] else [TermToks(ts[0])] + TermParts(ts[1..])
  }

  function OrderToks(ts: seq<OrderTerm>): seq<Tok> {
    if ts == [] then [] else [OrderBy] + JoinToks(Comma, TermParts(ts))
  }

  function EmitQuery(q: Query, strict: bool): ParsedQuery {
    var w := EmitWhere(q.clauses);
    ParsedQuery(
      JoinToks(Comma, OutputParts(q.outputs, strict)), Aliases(q.outputs),
      w.toks, w.params,
      OrderToks(q.order),
      [LimitKw, Param] + if q.offset != 0 then [Space, OffsetKw, Param] else [],
      [VInt(q.limit)] + if q.offset != 0 then [VInt(q.offset)] else [],
      q.limit, q.offset)
  }

  // ---------------------------------------------------------------------------
  // The builders, as loops
  // ---------------------------------------------------------------------------

  lemma FilterPartsSnoc(fs: seq<Filter>, f: Filter)
    ensures FilterParts(fs + [f]) == FilterParts(fs) + [EmitFilter(f).toks]
    ensures FilterParams(fs + [f]) == FilterParams(fs) + EmitFilter(f).params
  {
    hide EmitFilter;
    if fs == [] {
      assert [f][1..] == [] && [] + [f] == [f];
    } else {
      assert (fs + [f])[1..] == fs[1..] + [f];
      FilterPartsSnoc(fs[1..], f);
    }
  }

  method BuildBoolGroup(raw: string, spec: Spec, isOr: bool) returns (r: Result<Frag>)
    ensures r == var fs := ReadGroup(raw, spec); if fs.Ok? then Ok(EmitClause(Group(isOr, fs.value))) else Err(fs.error)
  {
    hide ReadMember, EmitFilter, SplitTopQuotedFrom, SplitTopFrom, Strip, JoinToks;
    var s := Inner(Strip(raw));
    var split;
    if spec.strict {
      split := SplitTopQuoted(s);
    } else {
      var pieces := SplitTop(s);
      split := Ok(pieces);
    }
    if split.Err? {
      return Err(split.error);
    }
    var conds := split.value;
    var parts: seq<seq<Tok>>, params: seq<Value> := [], [];
    ghost var read: seq<Filter> := [];
    assert conds[0..] == conds;
    PrependNothing(ReadMembers(conds, spec));
    for i := 0 to |conds|
      invariant ReadMembers(conds, spec) == Prepend(read, ReadMembers(conds[i..], spec))
      invariant |read| == i && parts == FilterParts(read) && |parts| == i && params == FilterParams(read)
    {
      assert conds[i..][1..] == conds[i + 1..];
      var f := ReadMember(conds[i], spec);
      if f.Err? {
        return Err(f.error);
      }
      PrependPrepend(read, [f.value], ReadMembers(conds[i + 1..], spec));
      FilterPartsSnoc(read, f.value);
      parts := parts + [EmitFilter(f.value).toks];
      params := params + EmitFilter(f.value).params;
      read := read + [f.value];
    }
    assert read + [] == read;
    if parts == [] {
      return Err(BadRequest);
    }
    return Ok(Frag([Open] + JoinToks(GroupSep(isOr), parts) + [Close], params));
  }

  lemma {:induction false} OutputPartsConcat(a: seq<Output>, b: seq<Output>, strict: bool)
    ensures OutputParts(a + b, strict) == OutputParts(a, strict) + OutputParts(b, strict)
  {
    hide OutputToks;
    if a == [] {
      assert a + b == b;
    } else {
      assert (a + b)[1..] == a[1..] + b;
      OutputPartsConcat(a[1..], b, strict);
    }
  }

  lemma {:induction false} AliasesConcat(a: seq<Output>, b: seq<Output>)
    ensures Aliases(a + b) == Aliases(a) + Aliases(b)
  {
    if a == [] {
      assert a + b == b;
    } else {
      assert (a + b)[1..] == a[1..] + b;
      AliasesConcat(a[1..], b);
    }
  }

  method BuildSelect(value: string, spec: Spec) returns (r: Result<(seq<Tok>, seq<string>)>)
    requires ValidSpec(spec)
    ensures r == var os := ReadSelect(value, spec);
                 if os.Ok? then Ok((JoinToks(Comma, OutputParts(os.value, spec.strict)), Aliases(os.value)))
                 else Err(os.error)
  {
    hide ReadSelectItem;
    var pieces: seq<seq<Tok>>, selected: seq<string> := [], [];
    var items := SplitOn(value, ',');
    ghost var read: seq<Output> := [];
    assert items[0..] == items;
    PrependNothing(ReadSelectItems(items, spec));
    for i := 0 to |items|
      invariant ReadSelectItems(items, spec) == Prepend(read, ReadSelectItems(items[i..], spec))
      invariant pieces == OutputParts(read, spec.strict) && selected == Aliases(read)
    {
      assert items[i..][1..] == items[i + 1..];
      var o := ReadSelectItem(Strip(items[i]), spec);
      if o.Err? {
        return Err(o.error);
      }
      PrependPrepend(read, o.value, ReadSelectItems(items[i + 1..], spec));
      OutputPartsConcat(read, o.value, spec.strict);
      AliasesConcat(read, o.value);
      pieces := pieces + OutputParts(o.value, spec.strict);
      selected := selected + Aliases(o.value);
      read := read + o.value;
    }
    assert read + [] == read;
    if pieces == [] {
      return Err(BadRequest);
    }
    return Ok((JoinToks(Comma, pieces), selected));
  }

  lemma TermPartsSnoc(ts: seq<OrderTerm>, t: OrderTerm)
    ensures TermParts(ts + [t]) == TermParts(ts) + [TermToks(t)]
  {
    if ts == [] {
      assert [] + [t] == [t] && [t][1..] == [];
    } else {
      assert (ts + [t])[1..] == ts[1..] + [t];
      TermPartsSnoc(ts[1..], t);
    }
  }

  method BuildOrder(value: string, spec: Spec) returns (r: Result<seq<Tok>>)
    ensures r == var ts := ReadOrder(value, spec); if ts.Ok? then Ok(OrderToks(ts.value)) else Err(ts.error)
  {
    var terms: seq<seq<Tok>> := [];
    var pieces := SplitOn(value, ',');
    ghost var read: seq<OrderTerm> := [];
    assert pieces[0..] == pieces;
    PrependNothing(ReadOrderTerms(pieces, spec));
    for i := 0 to |pieces|
      invariant ReadOrderTerms(pieces, spec) == Prepend(read, ReadOrderTerms(pieces[i..], spec))
      invariant terms == TermParts(read)
    {
      assert pieces[i..][1..] == pieces[i + 1..];
      var term := Strip(pieces[i]);
      if term == "" {
        continue;
      }
      var t := BuildOrderTerm(term, spec);
      if t.Err? {
        return Err(t.error);
      }
      PrependPrepend(read, [t.value], ReadOrderTerms(pieces[i + 1..], spec));
      TermPartsSnoc(read, t.value);
      terms := terms + [TermToks(t.value)];
      read := read + [t.value];
    }
    assert read + [] == read;
    if terms == [] {
      return Err(BadRequest);
    }
    return Ok([OrderBy] + JoinToks(Comma, terms));
  }

  /** What one order term asks for. */
  predicate TermMeans(term: string, spec: Spec, r: Result<OrderTerm>) {
    var parts := SplitOn(term, '.');
    && (r.Ok? <==> parts[0] in spec.columns && forall m :: m in parts[1..] ==> KnownModifier(Lower(m)))
    && (r.Ok? ==> parts[0] in spec.columns
                  && Modified(OrderTerm(spec.columns[parts[0]].expr, false, None), Lowered(parts[1..]), r.value))
    && (r.Err? ==> r.error == BadRequest)
  }

  lemma ReadOrderTermMeans(term: string, spec: Spec)
    ensures TermMeans(term, spec, ReadOrderTerm(term, spec))
  {
    hide KnownModifier, Modified, ModifyAll;
    var parts := SplitOn(term, '.');
    if parts[0] in spec.columns {
      ModifyAllMeans(OrderTerm(spec.columns[parts[0]].expr, false, None), parts[1..]);
    }
  }

  method BuildOrderTerm(term: string, spec: Spec) returns (r: Result<OrderTerm>)
    ensures r == ReadOrderTerm(term, spec)
    ensures TermMeans(term, spec, r)
  {
    ReadOrderTermMeans(term, spec);
    hide TermMeans;
    var parts := SplitOn(term, '.');
    if parts[0] !in spec.columns {
      return Err(BadRequest);
    }
    var t := OrderTerm(spec.columns[parts[0]].expr, false, None);
    for i := 1 to |parts|
      invariant ReadOrderTerm(term, spec) == ModifyAll(t, parts[i..])
    {
      assert parts[i..][1..] == parts[i + 1..];
      var u := Modify(t, parts[i]);
      if u.Err? {
        return u;
      }
      t := u.value;
    }
    return Ok(t);
  }

  lemma ClausePartsSnoc(cs: seq<Clause>, c: Clause)
    ensures ClauseParts(cs + [c]) == ClauseParts(cs) + [EmitClause(c).toks]
    ensures ClauseParams(cs + [c]) == ClauseParams(cs) + EmitClause(c).params
  {
    hide EmitClause;
    if cs == [] {
      assert [] + [c] == [c] && [c][1..] == [];
    } else {
      assert (cs + [c])[1..] == cs[1..] + [c];
      ClausePartsSnoc(cs[1..], c);
    }
  }

  lemma {:induction false} ClausePartsConcat(a: seq<Clause>, b: seq<Clause>)
    ensures ClauseParts(a + b) == ClauseParts(a) + ClauseParts(b)
    ensures ClauseParams(a + b) == ClauseParams(a) + ClauseParams(b)
  {
    hide EmitClause;
    if a == [] {
      assert a + b == b;
    } else {
      assert (a + b)[1..] == a[1..] + b;
      ClausePartsConcat(a[1..], b);
    }
  }

  /** The fragments and parameters a list of clauses appends. */
  function Appended(r: Result<seq<Clause>>): Result<(seq<seq<Tok>>, seq<Value>)> {
    if r.Ok? then Ok((ClauseParts(r.value), ClauseParams(r.value))) else Err(r.error)
  }

  method ColumnParts(items: Params, spec: Spec, ignored: set<string>) returns (r: Result<(seq<seq<Tok>>, seq<Value>)>)
    ensures r == Appended(ColumnClauses(items, spec, ignored))
  {
    hide ReadCondition, EmitClause, EmitFilter;
    var parts: seq<seq<Tok>>, params: seq<Value> := [], [];
    ghost var read: seq<Clause> := [];
    assert items[0..] == items;
    PrependNothing(ColumnClauses(items, spec, ignored));
    for i := 0 to |items|
      invariant ColumnClauses(items, spec, ignored) == Prepend(read, ColumnClauses(items[i..], spec, ignored))
      invariant parts == ClauseParts(read) && params == ClauseParams(read)
    {
      var (key, raw) := items[i];
      assert items[i..][1..] == items[i + 1..];
      if key in ignored || key !in spec.columns {
        continue;
      }
      var f := ReadCondition(spec.columns[key], raw, spec.strict, false);
      if f.Err? {
        return Err(f.error);
      }
      PrependPrepend(read, [One(f.value)], ColumnClauses(items[i + 1..], spec, ignored));
      ClausePartsSnoc(read, One(f.value));
      var frag := EmitClause(One(f.value));
      parts := parts + [frag.toks];
      params := params + frag.params;
      read := read + [One(f.value)];
    }
    assert read + [] == read;
    return Ok((parts, params));
  }

  method GroupParts(raws: seq<string>, spec: Spec, isOr: bool) returns (r: Result<(seq<seq<Tok>>, seq<Value>)>)
    ensures r == Appended(GroupClauses(raws, spec, isOr))
  {
    hide ReadGroup, EmitClause;
    var parts: seq<seq<Tok>>, params: seq<Value> := [], [];
    ghost var read: seq<Clause> := [];
    assert raws[0..] == raws;
    PrependNothing(GroupClauses(raws, spec, isOr));
    for i := 0 to |raws|
      invariant GroupClauses(raws, spec, isOr) == Prepend(read, GroupClauses(raws[i..], spec, isOr))
      invariant parts == ClauseParts(read) && params == ClauseParams(read)
    {
      assert raws[i..][1..] == raws[i + 1..];
      var frag := BuildBoolGroup(raws[i], spec, isOr);
      if frag.Err? {
        return Err(frag.error);
      }
      ghost var c := Group(isOr, ReadGroup(raws[i], spec).value);
      PrependPrepend(read, [c], GroupClauses(raws[i + 1..], spec, isOr));
      ClausePartsSnoc(read, c);
      parts := parts + [frag.value.toks];
      params := params + frag.value.params;
      read := read + [c];
    }
    assert read + [] == read;
    return Ok((parts, params));
  }

  lemma ClausesJoin(a: seq<Clause>, b: seq<Clause>, c: seq<Clause>)
    ensures ClauseParts(a + b + c) == ClauseParts(a) + ClauseParts(b) + ClauseParts(c)
    ensures ClauseParams(a + b + c) == ClauseParams(a) + ClauseParams(b) + ClauseParams(c)
  {
    ClausePartsConcat(a + b, c);
    ClausePartsConcat(a, b);
  }

  /** The WHERE pieces of `parse_query`: column filters, then or-groups, then and-groups. */
  method WherePieces(items: Params, spec: Spec, reserved: set<string>) returns (r: Result<Frag>)
    ensures r == var cs := ReadClauses(items, spec, reserved);
                 if cs.Ok? then Ok(EmitWhere(cs.value)) else Err(cs.error)
  {
    hide ColumnClauses, GroupClauses, ClauseParts, ClauseParams;
    var cols := ColumnParts(items, spec, RESERVED + reserved);
    if cols.Err? {
      return Err(cols.error);
    }
    var ors := GroupParts(GetList(items, "or"), spec, true);
    if ors.Err? {
      return Err(ors.error);
    }
    var ands := GroupParts(GetList(items, "and"), spec, false);
    if ands.Err? {
      return Err(ands.error);
    }
    ClausesJoin(ColumnClauses(items, spec, RESERVED + reserved).value,
                GroupClauses(GetList(items, "or"), spec, true).value,
                GroupClauses(GetList(items, "and"), spec, false).value);
    var parts := cols.value.0 + ors.value.0 + ands.value.0;
    return Ok(Frag(JoinToks(AndKw, parts), cols.value.1 + ors.value.1 + ands.value.1));
  }

  method ParseQuery(items: Params, spec: Spec, reserved: set<string>) returns (r: Result<ParsedQuery>)
    requires ValidSpec(spec)
    ensures r == var q := ReadQuery(items, spec, reserved);
                 if q.Ok? then Ok(EmitQuery(q.value, spec.strict)) else Err(q.error)
  {
    hide ReadClauses, EmitWhere, ReadSelect, ReadOrder, DefaultOutputs, DefaultTerms, OrderToks, OutputParts;
    var filter := WherePieces(items, spec, reserved);
    if filter.Err? {
      return Err(filter.error);
    }
    var selectList, selected;
    var sel := Get(items, "select");
    if Given(sel) {
      var s := BuildSelect(sel.value, spec);
      if s.Err? {
        return Err(s.error);
      }
      selectList, selected := s.value.0, s.value.1;
    } else {
      var os := DefaultOutputs(spec);
      selectList, selected := JoinToks(Comma, OutputParts(os, spec.strict)), Aliases(os);
    }
    var orderSql;
    var ord := Get(items, "order");
    if Given(ord) {
      var o := BuildOrder(ord.value, spec);
      if o.Err? {
        return Err(o.error);
      }
      orderSql := o.value;
    } else {
      orderSql := OrderToks(DefaultTerms(spec.defaultOrder, spec));
    }
    var limit := ReadLimit(Get(items, "limit"), spec);
    if limit.Err? {
      return Err(limit.error);
    }
    var offset := ReadOffset(Get(items, "offset"));
    if offset.Err? {
      return Err(offset.error);
    }
    var limitSql, limitParams := [LimitKw, Param], [VInt(limit.value)];
    if offset.value != 0 {
      limitSql := limitSql + [Space, OffsetKw, Param];
      limitParams := limitParams + [VInt(offset.value)];
    }
    assert offset.value == 0 ==> limitSql == limitSql + [] && limitParams == limitParams + [];
    return Ok(ParsedQuery(selectList, selected, filter.value.toks, filter.value.params, orderSql,
                          limitSql, limitParams, limit.value, offset.value));
  }
}
