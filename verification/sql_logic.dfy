/** How the server reads a condition: SQL's boolean grammar over tokens, and three-valued evaluation. */
module SqlLogic {
  import opened Results
  import opened SqlText
  import opened Values

  datatype Truth = True3 | False3 | Unknown3

  function Not3(a: Truth): Truth {
    match a case True3 => False3 case False3 => True3 case Unknown3 => Unknown3
  }

  function And3(a: Truth, b: Truth): Truth {
    if a.False3? || b.False3? then False3 else if a.True3? && b.True3? then True3 else Unknown3
  }

  function Or3(a: Truth, b: Truth): Truth {
    if a.True3? || b.True3? then True3 else if a.False3? && b.False3? then False3 else Unknown3
  }

  function Of(b: Option<bool>): Truth {
    if b.None? then Unknown3 else if b.value then True3 else False3
  }

  datatype Pattern = LikePattern | ILikePattern | Regex | IRegex

  /** How a text-search query is read: with its own operators, as words, as a phrase, or as people write in search
      boxes. */
  datatype QueryKind = Operators | Words | Phrase | WebStyle

  datatype CellState = CellNull | CellTrue | CellFalse | CellOther

  /** One row as the operators see it; the operators themselves are the server's. `compare` is a three-way
      comparison of a column expression with a bound value; None is SQL's unknown (a null is involved). */
  datatype Row = Row(
    compare: (string, Value) -> Option<int>,
    matches: (Pattern, string, Value) -> Option<bool>,
    state: string -> CellState,
    search: (Option<Value>, string, QueryKind, Option<Value>, Value) -> Option<bool>)

  // ---------------------------------------------------------------------------
  // Expressions and their values
  // ---------------------------------------------------------------------------

  datatype Sql =
    | Relation(expr: string, sym: CmpSym, v: Value)
    | InValues(expr: string, vs: seq<Value>)
    | StateIs(expr: string, word: IsWord)
    | TextSearch(config: Option<Value>, expr: string, fn: TsFn, queryConfig: Option<Value>, query: Value)
    | Not(arg: Sql)
    | And(left: Sql, right: Sql)
    | Or(left: Sql, right: Sql)

  function Compare3(c: Option<int>, sym: CmpSym): Truth {
    if c.None? then Unknown3
    else
      match sym
      case Equal => Of(Some(c.value == 0))
      case NotEqual => Of(Some(c.value != 0))
      case Greater => Of(Some(c.value > 0))
      case GreaterEqual => Of(Some(c.value >= 0))
      case Less => Of(Some(c.value < 0))
      case LessEqual => Of(Some(c.value <= 0))
      case _ => Unknown3
  }

  function Relation3(row: Row, expr: string, sym: CmpSym, v: Value): Truth {
    match sym
    case LikeSym => Of(row.matches(LikePattern, expr, v))
    case ILikeSym => Of(row.matches(ILikePattern, expr, v))
    case Tilde => Of(row.matches(Regex, expr, v))
    case TildeStar => Of(row.matches(IRegex, expr, v))
    case _ => Compare3(row.compare(expr, v), sym)
  }

  /** `IN` is the disjunction of the equalities. */
  function In3(row: Row, expr: string, vs: seq<Value>): Truth {
    if vs == [] then False3 else Or3(Relation3(row, expr, Equal, vs[0]), In3(row, expr, vs[1..]))
  }

  function Is3(state: CellState, word: IsWord): Truth {
    match word
    case IsNull => if state.CellNull? then True3 else False3
    case IsUnknown => if state.CellNull? then True3 else False3
    case IsTrue => if state.CellTrue? then True3 else False3
    case IsFalse => if state.CellFalse? then True3 else False3
  }

  function KindOf(fn: TsFn): QueryKind {
    match fn
    case ToTsQuery => Operators
    case PlainToTsQuery => Words
    case PhraseToTsQuery => Phrase
    case WebsearchToTsQuery => WebStyle
  }

  function Eval(e: Sql, row: Row): Truth {
    match e
    case Relation(expr, sym, v) => Relation3(row, expr, sym, v)
    case InValues(expr, vs) => In3(row, expr, vs)
    case StateIs(expr, word) => Is3(row.state(expr), word)
    case TextSearch(config, expr, fn, queryConfig, query) =>
      Of(row.search(config, expr, KindOf(fn), queryConfig, query))
    case Not(a) => Not3(Eval(a, row))
    case And(l, r) => And3(Eval(l, row), Eval(r, row))
    case Or(l, r) => Or3(Eval(l, row), Eval(r, row))
  }

  // ---------------------------------------------------------------------------
  // The grammar: OR binds weaker than AND, AND weaker than NOT, NOT weaker than a comparison
  // ---------------------------------------------------------------------------

  /** Something read off the front of the tokens, and what is left of the tokens and the parameters. */
  datatype Got<T> = Got(v: T, toks: seq<Tok>, params: seq<Value>) | Bad

  function ReadParam(toks: seq<Tok>, ps: seq<Value>): (r: Got<Value>)
    ensures r.Got? ==> |r.toks| < |toks|
  {
    if toks != [] && toks[0].Param? && ps != [] then Got(ps[0], toks[1..], ps[1..]) else Bad
  }

  /** One or more parameters separated by commas. */
  function ReadParams(toks: seq<Tok>, ps: seq<Value>): (r: Got<seq<Value>>)
    ensures r.Got? ==> |r.toks| < |toks|
    decreases |toks|
  {
    var p := ReadParam(toks, ps);
    if p.Bad? then Bad
    else if p.toks != [] && p.toks[0].Comma? then
      var rest := ReadParams(p.toks[1..], p.params);
      if rest.Bad? then Bad else Got([p.v] + rest.v, rest.toks, rest.params)
    else Got([p.v], p.toks, p.params)
  }

  /** The tail of `expr` in a comparison, `IN` list or `IS` test. */
  function ReadTest(expr: string, toks: seq<Tok>, ps: seq<Value>): (r: Got<Sql>)
    ensures r.Got? ==> |r.toks| < |toks|
  {
    if toks == [] then Bad
    else
      match toks[0]
      case Cmp(sym) =>
        var p := ReadParam(toks[1..], ps);
        if p.Bad? then Bad else Got(Relation(expr, sym, p.v), p.toks, p.params)
      case IsKw(word) => Got(StateIs(expr, word), toks[1..], ps)
      case InKw =>
        if |toks| < 2 || !toks[1].Open? then Bad
        else
          var vs := ReadParams(toks[2..], ps);
          if vs.Bad? || vs.toks == [] || !vs.toks[0].Close? then Bad
          else Got(InValues(expr, vs.v), vs.toks[1..], vs.params)
      case _ => Bad
  }

  /** `( [config ,] operand )` of a text-search function; the operand of the vector is an expression. */
  function ReadVector(toks: seq<Tok>, ps: seq<Value>): (r: Got<(Option<Value>, string)>)
    ensures r.Got? ==> |r.toks| < |toks|
  {
    if |toks| >= 3 && toks[0].Open? && toks[1].Expr? && toks[2].Close? then Got((None, toks[1].text), toks[3..], ps)
    else if |toks| >= 5 && toks[0].Open? && toks[1].Param? && toks[2].Comma? && toks[3].Expr? && toks[4].Close?
            && ps != []
      then Got((Some(ps[0]), toks[3].text), toks[5..], ps[1..])
    else Bad
  }

  function ReadTsQuery(toks: seq<Tok>, ps: seq<Value>): (r: Got<(Option<Value>, Value)>)
    ensures r.Got? ==> |r.toks| < |toks|
  {
    if toks == [] || !toks[0].Open? then Bad
    else
      var vs := ReadParams(toks[1..], ps);
      if vs.Bad? || vs.toks == [] || !vs.toks[0].Close? then Bad
      else if |vs.v| == 1 then Got((None, vs.v[0]), vs.toks[1..], vs.params)
      else if |vs.v| == 2 then Got((Some(vs.v[0]), vs.v[1]), vs.toks[1..], vs.params)
      else Bad
  }

  function ReadSearch(toks: seq<Tok>, ps: seq<Value>): (r: Got<Sql>)
    ensures r.Got? ==> |r.toks| < |toks|
  {
    var l := ReadVector(toks, ps);
    if l.Bad? || |l.toks| < 2 || !l.toks[0].AtAt? || !l.toks[1].TsQuery? then Bad
    else
      var q := ReadTsQuery(l.toks[2..], l.params);
      if q.Bad? then Bad
      else Got(TextSearch(l.v.0, l.v.1, l.toks[1].fn, q.v.0, q.v.1), q.toks, q.params)
  }

  function ReadOr(toks: seq<Tok>, ps: seq<Value>): (r: Got<Sql>)
    ensures r.Got? ==> |r.toks| < |toks|
    decreases |toks|, 3
  {
    var l := ReadAnd(toks, ps);
    if l.Bad? then Bad
    else if l.toks != [] && l.toks[0].OrKw? then
      var r := ReadOr(l.toks[1..], l.params);
      if r.Bad? then Bad else Got(Or(l.v, r.v), r.toks, r.params)
    else l
  }

  function ReadAnd(toks: seq<Tok>, ps: seq<Value>): (r: Got<Sql>)
    ensures r.Got? ==> |r.toks| < |toks|
    decreases |toks|, 2
  {
    var l := ReadNot(toks, ps);
    if l.Bad? then Bad
    else if l.toks != [] && l.toks[0].AndKw? then
      var r := ReadAnd(l.toks[1..], l.params);
      if r.Bad? then Bad else Got(And(l.v, r.v), r.toks, r.params)
    else l
  }

  function ReadNot(toks: seq<Tok>, ps: seq<Value>): (r: Got<Sql>)
    ensures r.Got? ==> |r.toks| < |toks|
    decreases |toks|, 1
  {
    if toks != [] && toks[0].NotKw? then
      var a := ReadNot(toks[1..], ps);
      if a.Bad? then Bad else Got(Not(a.v), a.toks, a.params)
    else ReadPrimary(toks, ps)
  }

  function ReadPrimary(toks: seq<Tok>, ps: seq<Value>): (r: Got<Sql>)
    ensures r.Got? ==> |r.toks| < |toks|
    decreases |toks|, 0
  {
    if toks == [] then Bad
    else
      match toks[0]
      case Expr(text) => ReadTest(text, toks[1..], ps)
      case TsVector => ReadSearch(toks[1..], ps)
      case Open =>
        var e := ReadOr(toks[1..], ps);
        if e.Bad? || e.toks == [] || !e.toks[0].Close? then Bad else Got(e.v, e.toks[1..], e.params)
      case _ => Bad
  }

  /** A condition read to its end, with every parameter used. */
  function ReadWhole(toks: seq<Tok>, ps: seq<Value>): Option<Sql> {
    var r := ReadOr(toks, ps);
    if r.Got? && r.toks == [] && r.params == [] then Some(r.v) else None
  }
}
