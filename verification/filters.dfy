/** Reading a client's filter text: operators, values, single conditions and or/and groups. */
module Filters {
  import opened Results
  import opened Text
  import opened Scanners
  import opened SqlText
  import opened Values

  // ---------------------------------------------------------------------------
  // Specs and operators
  // ---------------------------------------------------------------------------

  datatype Col = Col(expr: string, ty: ColType)

  /** The allowlist of a resource: its columns in declared order, defaults, and the grammar dialect. */
  datatype Spec = Spec(names: seq<string>, columns: map<string, Col>, defaultOrder: seq<(string, bool)>,
                       defaultSelect: Option<seq<string>>, defaultLimit: int, maxLimit: int,
                       clampLimit: bool, strict: bool)

  datatype Op = Eq | Neq | Gt | Gte | Lt | Lte | Like | ILike | Match | IMatch
              | In | Is | Fts | Plfts | Phfts | Wfts
  {
    predicate IsFts() { Fts? || Plfts? || Phfts? || Wfts? }

    predicate IsPattern() { Like? || ILike? || Match? || IMatch? }

    predicate IsText() { IsPattern() || IsFts() }

    predicate IsSimple() { !In? && !Is? && !IsFts() }
  }

  type SimpleOp = op: Op | op.IsSimple() witness Eq

  type FtsOp = op: Op | op.IsFts() witness Fts

  function OpName(op: Op): string {
    match op
    case Eq => "eq"
    case Neq => "neq"
    case Gt => "gt"
    case Gte => "gte"
    case Lt => "lt"
    case Lte => "lte"
    case Like => "like"
    case ILike => "ilike"
    case Match => "match"
    case IMatch => "imatch"
    case In => "in"
    case Is => "is"
    case Fts => "fts"
    case Plfts => "plfts"
    case Phfts => "phfts"
    case Wfts => "wfts"
  }

  /** The operator a name stands for, if it is known to the grammar. */
  function OpOf(name: string): Option<Op> {
    if name == "eq" then Some(Eq) else if name == "neq" then Some(Neq)
    else if name == "gt" then Some(Gt) else if name == "gte" then Some(Gte)
    else if name == "lt" then Some(Lt) else if name == "lte" then Some(Lte)
    else if name == "like" then Some(Like) else if name == "ilike" then Some(ILike)
    else if name == "match" then Some(Match) else if name == "imatch" then Some(IMatch)
    else if name == "in" then Some(In) else if name == "is" then Some(Is)
    else if name == "fts" then Some(Fts) else if name == "plfts" then Some(Plfts)
    else if name == "phfts" then Some(Phfts) else if name == "wfts" then Some(Wfts)
    else None
  }

  predicate Letters(s: string) {
    s != "" && forall c :: c in s ==> 'a' <= c <= 'z'
  }

  predicate LangName(s: string) {
    s != "" && forall c :: c in s ==> 'a' <= c <= 'z' || c == '_'
  }

  /** `^([a-z]+)\(([a-z_]+)\)$`; as in Python, `$` also stops before one final newline. */
  function LangForm(tok: string): Option<(string, string)> {
    var t := if tok != "" && tok[|tok| - 1] == '\n' then tok[..|tok| - 1] else tok;
    var k := Find(t, '(');
    if k < |t| && t[|t| - 1] == ')' && k + 1 < |t| && Letters(t[..k]) && LangName(t[k + 1..|t| - 1])
    then Some((t[..k], t[k + 1..|t| - 1])) else None
  }

  function BaseOf(tok: string): string {
    var m := LangForm(tok);
    if m.Some? then m.value.0 else tok
  }

  datatype OpForm = OpForm(negate: bool, op: Op, lang: Option<string>, value: string)

  /** The body after an accepted `not.` prefix, and whether there was one. */
  function Negation(raw: string): (bool, string) {
    if "not." <= raw && OpOf(BaseOf(Partition(raw[4..], '.').head)).Some? then (true, raw[4..]) else (false, raw)
  }

  /** Splits a raw filter value into negation, operator, language and value. Without a known operator
      the strict dialect refuses and the lenient one takes the whole body as an exact match. */
  function ParseOp(raw: string, strict: bool): Result<OpForm> {
    var (negate, body) := Negation(raw);
    var p := Partition(body, '.');
    var m := LangForm(p.head);
    var op := OpOf(BaseOf(p.head));
    if p.found && op.Some? then
      if strict && m.Some? && !op.value.IsFts() then Err(BadRequest)
      else Ok(OpForm(negate, op.value, if m.Some? then Some(m.value.1) else None, p.tail))
    else if strict then Err(BadRequest)
    else Ok(OpForm(negate, Eq, None, body))
  }

  /** `re.sub(r"\\(.)", r"\1", s)`: the dot does not match a newline. */
  function Unescape(s: string): string {
    if s == "" then ""
    else if s[0] == '\\' && |s| > 1 && s[1] != '\n' then [s[1]] + Unescape(s[2..])
    else [s[0]] + Unescape(s[1..])
  }

  function Unquote(value: string): string {
    if |value| >= 2 && value[0] == '"' && value[|value| - 1] == '"' then Unescape(value[1..|value| - 1]) else value
  }

  // ---------------------------------------------------------------------------
  // Filters
  // ---------------------------------------------------------------------------

  type SomeValues = vs: seq<Value> | vs != [] witness [VInt(0)]

  datatype Test =
    | Compare(op: SimpleOp, v: Value)
    | OneOf(vs: SomeValues)
    | IsTest(word: IsWord)
    | Search(fn: FtsOp, lang: Option<string>, query: string)

  /** One condition on the column written as `expr`. */
  datatype Filter = Filter(expr: string, negate: bool, test: Test)

  function Parenthesised(s: string): bool {
    |s| >= 2 && s[0] == '(' && s[|s| - 1] == ')'
  }

  /** `s` without its outer parentheses, when it has both. */
  function Inner(s: string): string {
    if Parenthesised(s) then s[1..|s| - 1] else s
  }

  function ReadItems(value: string, strict: bool): Result<seq<string>> {
    var s := Strip(value);
    if strict then
      if Parenthesised(s) then SplitList(Inner(s)) else Err(BadRequest)
    else Ok(LenientItems(Inner(s)))
  }

  function IsWordOf(value: string): Option<IsWord> {
    var t := Lower(value);
    if t == "null" then Some(IsNull)
    else if t == "true" then Some(IsTrue)
    else if t == "false" then Some(IsFalse)
    else if t == "unknown" then Some(IsUnknown)
    else None
  }

  function ListTest(col: Col, items: seq<string>): Result<Test> {
    if items == [] then Err(BadRequest)
    else
      var vs :- CoerceAll(col.ty, items);
      Ok(OneOf(vs))
  }

  /** Every test but `in`, from its unquoted value. */
  function ScalarTest(col: Col, op: Op, lang: Option<string>, value: string): Result<Test>
    requires !op.In?
  {
    if op.IsText() && !col.ty.StrCol? then Err(BadRequest)
    else if op.Like? || op.ILike? then Ok(Compare(op, VStr(ReplaceChar(value, '*', "%"))))
    else if op.IsSimple() then
      var v :- Coerce(col.ty, value);
      Ok(Compare(op, v))
    else if op.Is? then
      var w := IsWordOf(value);
      if w.Some? then Ok(IsTest(w.value)) else Err(BadRequest)
    else Ok(Search(op, lang, value))
  }

  function MakeTest(col: Col, op: Op, lang: Option<string>, value: string, strict: bool): Result<Test> {
    if op.In? then
      var items :- ReadItems(value, strict);
      ListTest(col, items)
    else ScalarTest(col, op, lang, value)
  }

  /** One condition from its raw text; only inside a strict group is a quoted scalar unquoted. */
  function ReadCondition(col: Col, raw: string, strict: bool, inGroup: bool): Result<Filter>
  {
    var form :- ParseOp(raw, strict);
    var value := if strict && inGroup && !form.op.In? then Unquote(form.value) else form.value;
    var test :- MakeTest(col, form.op, form.lang, value, strict);
    Ok(Filter(col.expr, form.negate, test))
  }

  /** One condition of a group: `name.rest` on an allowlisted column. */
  function ReadMember(cond: string, spec: Spec): Result<Filter>
  {
    var p := Partition(Strip(cond), '.');
    if !p.found || p.head !in spec.columns then Err(BadRequest)
    else ReadCondition(spec.columns[p.head], p.tail, spec.strict, true)
  }

  function ReadMembers(conds: seq<string>, spec: Spec): (r: Result<seq<Filter>>)
    ensures r.Ok? ==> |r.value| == |conds|
  {
    if conds == [] then Ok([])
    else
      var f :- ReadMember(conds[0], spec);
      var fs :- ReadMembers(conds[1..], spec);
      Ok([f] + fs)
  }

  function SplitGroup(s: string, strict: bool): Result<seq<string>> {
    if strict then SplitTopQuotedFrom(s, START, "") else Ok(SplitTopFrom(s, 0, ""))
  }

  /** The conditions of `or=(...)` / `and=(...)`; an empty group is refused. */
  function ReadGroup(raw: string, spec: Spec): (r: Result<seq<Filter>>)
    ensures r.Ok? ==> r.value != []
  {
    var conds :- SplitGroup(Inner(Strip(raw)), spec.strict);
    var fs :- ReadMembers(conds, spec);
    if fs == [] then Err(BadRequest) else Ok(fs)
  }
}
