/** How the server reads a whole statement from its tokens and parameters. */
module Statements {
  import opened Results
  import opened SqlText
  import opened Values
  import opened SqlLogic
  import opened QueryParser

  /** The rows a write applies to: all, those meeting a condition, or those a windowed subselect names. */
  datatype Target =
    | Every
    | Meeting(where: Sql)
    | Windowed(table: string, inner: Option<Sql>, order: seq<OrderTerm>, limit: Option<Value>, offset: Option<Value>)

  datatype Cell = Bound(v: Value) | Default

  datatype Conflict =
    | Fail
    | Skip(target: seq<string>)
    | Merge(target: seq<string>, sets: seq<(string, string)>)  // column, column of EXCLUDED

  datatype Stmt =
    | Select(outputs: seq<Output>, table: string, where: Option<Sql>, order: seq<OrderTerm>,
             limit: Option<Value>, offset: Option<Value>)
    | Insert(table: string, cols: seq<string>, rows: seq<seq<Cell>>, conflict: Conflict, returning: seq<Output>)
    | InsertDefaults(table: string, conflict: Conflict, returning: seq<Output>)
    | Update(table: string, sets: seq<(string, Value)>, on: Target, returning: seq<Output>)
    | Delete(table: string, on: Target, returning: seq<Output>)

  function SkipSpaces(toks: seq<Tok>): (r: seq<Tok>)
    ensures |r| <= |toks|
  {
    if toks != [] && toks[0].Space? then SkipSpaces(toks[1..]) else toks
  }

  /** Reads one item off the front of the tokens. */
  type Reader<T> = (seq<Tok>, seq<Value>) -> Got<T>

  /** One or more items separated by commas. */
  function ReadList<T>(item: Reader<T>, toks: seq<Tok>, ps: seq<Value>): Got<seq<T>>
    decreases |toks|
  {
    var h := item(toks, ps);
    if h.Bad? || |h.toks| >= |toks| then Bad
    else if h.toks != [] && h.toks[0].Comma? then
      var t := ReadList(item, h.toks[1..], h.params);
      if t.Bad? then Bad else Got([h.v] + t.v, t.toks, t.params)
    else Got([h.v], h.toks, h.params)
  }

  function ReadName(toks: seq<Tok>, ps: seq<Value>): Got<string> {
    if toks != [] && toks[0].Ident? then Got(toks[0].name, toks[1..], ps) else Bad
  }

  function ReadOutput(toks: seq<Tok>, ps: seq<Value>): Got<Output> {
    if |toks| >= 3 && toks[0].Expr? && toks[1].AsKw? && toks[2].Ident?
    then Got(Output(toks[0].text, toks[2].name), toks[3..], ps) else Bad
  }

  function ReadTerm(toks: seq<Tok>, ps: seq<Value>): Got<OrderTerm> {
    if |toks| < 2 || !toks[0].Expr? || (!toks[1].Asc? && !toks[1].Desc?) then Bad
    else
      var nulls := |toks| >= 3 && (toks[2].NullsFirst? || toks[2].NullsLast?);
      Got(OrderTerm(toks[0].text, toks[1].Desc?, if nulls then Some(toks[2].NullsFirst?) else None),
          if nulls then toks[3..] else toks[2..], ps)
  }

  function ReadSet(toks: seq<Tok>, ps: seq<Value>): Got<(string, Value)> {
    if |toks| >= 3 && toks[0].Ident? && toks[1].Assign? && toks[2].Param? && ps != []
    then Got((toks[0].name, ps[0]), toks[3..], ps[1..]) else Bad
  }

  function ReadMergeSet(toks: seq<Tok>, ps: seq<Value>): Got<(string, string)> {
    if |toks| >= 3 && toks[0].Ident? && toks[1].AssignExcluded? && toks[2].Ident?
    then Got((toks[0].name, toks[2].name), toks[3..], ps) else Bad
  }

  function ReadCell(toks: seq<Tok>, ps: seq<Value>): Got<Cell> {
    if toks != [] && toks[0].DefaultKw? then Got(Default, toks[1..], ps)
    else
      var p := ReadParam(toks, ps);
      if p.Bad? then Bad else Got(Bound(p.v), p.toks, p.params)
  }

  /** `( list )`. */
  function ReadBracketed<T>(item: Reader<T>, toks: seq<Tok>, ps: seq<Value>): Got<seq<T>> {
    if toks == [] || !toks[0].Open? then Bad
    else
      var r := ReadList(item, toks[1..], ps);
      if r.Bad? || r.toks == [] || !r.toks[0].Close? then Bad else Got(r.v, r.toks[1..], r.params)
  }

  function ReadTuple(toks: seq<Tok>, ps: seq<Value>): Got<seq<Cell>> {
    ReadBracketed(ReadCell, toks, ps)
  }

  // Clauses. Each is read from tokens whose leading spaces are skipped, and skips the spaces that follow it.

  function ReadWhere(toks: seq<Tok>, ps: seq<Value>): Got<Option<Sql>> {
    if toks == [] || !toks[0].WhereKw? then Got(None, toks, ps)
    else
      var e := ReadOr(toks[1..], ps);
      if e.Bad? then Bad else Got(Some(e.v), SkipSpaces(e.toks), e.params)
  }

  function ReadOrderBy(toks: seq<Tok>, ps: seq<Value>): Got<seq<OrderTerm>> {
    if toks == [] || !toks[0].OrderBy? then Got([], toks, ps)
    else
      var r := ReadList(ReadTerm, toks[1..], ps);
      if r.Bad? then Bad else Got(r.v, SkipSpaces(r.toks), r.params)
  }

  function ReadLimitClause(toks: seq<Tok>, ps: seq<Value>): Got<Option<Value>> {
    if toks == [] || !toks[0].LimitKw? then Got(None, toks, ps)
    else
      var p := ReadParam(toks[1..], ps);
      if p.Bad? then Bad else Got(Some(p.v), SkipSpaces(p.toks), p.params)
  }

  function ReadOffsetClause(toks: seq<Tok>, ps: seq<Value>): Got<Option<Value>> {
    if toks == [] || !toks[0].OffsetKw? then Got(None, toks, ps)
    else
      var p := ReadParam(toks[1..], ps);
      if p.Bad? then Bad else Got(Some(p.v), SkipSpaces(p.toks), p.params)
  }

  function ReadReturning(toks: seq<Tok>, ps: seq<Value>): Got<seq<Output>> {
    if toks == [] || !toks[0].ReturningKw? then Got([], toks, ps)
    else ReadList(ReadOutput, toks[1..], ps)
  }

  /** WHERE, ORDER BY, LIMIT and OFFSET of a select, in that order. */
  datatype Tail = Tail(where: Option<Sql>, order: seq<OrderTerm>, limit: Option<Value>, offset: Option<Value>)

  function ReadTail(toks: seq<Tok>, ps: seq<Value>): Got<Tail> {
    var w := ReadWhere(toks, ps);
    if w.Bad? then Bad else
    var o := ReadOrderBy(w.toks, w.params);
    if o.Bad? then Bad else
    var l := ReadLimitClause(o.toks, o.params);
    if l.Bad? then Bad else
    var f := ReadOffsetClause(l.toks, l.params);
    if f.Bad? then Bad else Got(Tail(w.v, o.v, l.v, f.v), f.toks, f.params)
  }

  /** `WHERE ctid IN (SELECT ctid FROM table ...)`. */
  function ReadCtidIn(toks: seq<Tok>, ps: seq<Value>): Got<Target> {
    if |toks| < 8 || !toks[0].WhereKw? || !toks[1].Ctid? || !toks[2].InKw? || !toks[3].Open? || !toks[4].SelectKw?
       || !toks[5].Ctid? || !toks[6].FromKw? || !toks[7].Ident? then Bad
    else
      var t := ReadTail(SkipSpaces(toks[8..]), ps);
      if t.Bad? || t.toks == [] || !t.toks[0].Close? then Bad
      else Got(Windowed(toks[7].name, t.v.where, t.v.order, t.v.limit, t.v.offset), SkipSpaces(t.toks[1..]), t.params)
  }

  function ReadTarget(toks: seq<Tok>, ps: seq<Value>): Got<Target> {
    if |toks| >= 2 && toks[0].WhereKw? && toks[1].Ctid? then ReadCtidIn(toks, ps)
    else
      var w := ReadWhere(toks, ps);
      if w.Bad? then Bad else Got(if w.v.None? then Every else Meeting(w.v.value), w.toks, w.params)
  }

  function ReadConflict(toks: seq<Tok>, ps: seq<Value>): Got<Conflict> {
    if toks == [] || !toks[0].OnConflict? then Got(Fail, toks, ps)
    else
      var t := ReadBracketed(ReadName, toks[1..], ps);
      if t.Bad? || t.toks == [] then Bad
      else if t.toks[0].DoNothing? then Got(Skip(t.v), t.toks[1..], t.params)
      else if t.toks[0].DoUpdateSet? then
        var s := ReadList(ReadMergeSet, t.toks[1..], t.params);
        if s.Bad? then Bad else Got(Merge(t.v, s.v), s.toks, s.params)
      else Bad
  }

  function ReadSelectStmt(toks: seq<Tok>, ps: seq<Value>): Got<Stmt> {
    var os := ReadList(ReadOutput, toks, ps);
    if os.Bad? || |os.toks| < 2 || !os.toks[0].FromKw? || !os.toks[1].Ident? then Bad
    else
      var t := ReadTail(SkipSpaces(os.toks[2..]), os.params);
      if t.Bad? then Bad
      else Got(Select(os.v, os.toks[1].name, t.v.where, t.v.order, t.v.limit, t.v.offset), t.toks, t.params)
  }

  function ReadUpdateStmt(toks: seq<Tok>, ps: seq<Value>): Got<Stmt> {
    if |toks| < 2 || !toks[0].Ident? || !toks[1].SetKw? then Bad
    else
      var s := ReadList(ReadSet, toks[2..], ps);
      if s.Bad? then Bad else
      var t := ReadTarget(SkipSpaces(s.toks), s.params);
      if t.Bad? then Bad else
      var r := ReadReturning(t.toks, t.params);
      if r.Bad? then Bad else Got(Update(toks[0].name, s.v, t.v, r.v), r.toks, r.params)
  }

  function ReadDeleteStmt(toks: seq<Tok>, ps: seq<Value>): Got<Stmt> {
    if toks == [] || !toks[0].Ident? then Bad
    else
      var t := ReadTarget(SkipSpaces(toks[1..]), ps);
      if t.Bad? then Bad else
      var r := ReadReturning(t.toks, t.params);
      if r.Bad? then Bad else Got(Delete(toks[0].name, t.v, r.v), r.toks, r.params)
  }

  /** ON CONFLICT and RETURNING of an insert. */
  function ReadInsertEnd(toks: seq<Tok>, ps: seq<Value>): Got<(Conflict, seq<Output>)> {
    var c := ReadConflict(toks, ps);
    if c.Bad? then Bad else
    var r := ReadReturning(c.toks, c.params);
    if r.Bad? then Bad else Got((c.v, r.v), r.toks, r.params)
  }

  function ReadInsertStmt(toks: seq<Tok>, ps: seq<Value>): Got<Stmt> {
    if |toks| < 2 || !toks[0].Ident? then Bad
    else if toks[1].DefaultValues? then
      var e := ReadInsertEnd(toks[2..], ps);
      if e.Bad? then Bad else Got(InsertDefaults(toks[0].name, e.v.0, e.v.1), e.toks, e.params)
    else
      var cols := ReadBracketed(ReadName, SkipSpaces(toks[1..]), ps);
      if cols.Bad? || cols.toks == [] || !cols.toks[0].ValuesKw? then Bad else
      var rows := ReadList(ReadTuple, cols.toks[1..], cols.params);
      if rows.Bad? then Bad else
      var e := ReadInsertEnd(rows.toks, rows.params);
      if e.Bad? then Bad else Got(Insert(toks[0].name, cols.v, rows.v, e.v.0, e.v.1), e.toks, e.params)
  }

  function ReadAnyStmt(toks: seq<Tok>, ps: seq<Value>): Got<Stmt> {
    if toks == [] then Bad
    else
      match toks[0]
      case SelectKw => ReadSelectStmt(toks[1..], ps)
      case UpdateKw => ReadUpdateStmt(toks[1..], ps)
      case DeleteFrom => ReadDeleteStmt(toks[1..], ps)
      case InsertInto => ReadInsertStmt(toks[1..], ps)
      case _ => Bad
  }

  /** A statement read to its end, with every parameter used. */
  function ReadStmt(toks: seq<Tok>, ps: seq<Value>): Option<Stmt> {
    var r := ReadAnyStmt(toks, ps);
    if r.Got? && r.toks == [] && r.params == [] then Some(r.v) else None
  }
}
