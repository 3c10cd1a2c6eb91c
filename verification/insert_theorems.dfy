/** A built INSERT, read by the server, stores for every item and column the item's value, or DEFAULT. */
module InsertTheorems {
  import opened Results
  import opened Scanners
  import opened SqlText
  import opened Values
  import opened Filters
  import opened SqlLogic
  import opened WhereCompiler
  import opened QueryParser
  import opened Statements
  import opened StatementLemmas
  import opened RestWrites
  import opened StatementTheorems

  /** DEFAULT exactly when the key is missing, else the item's adapted value. */
  function CellOf(ti: TableInfo, item: Body, c: string): Cell {
    if HasKey(item, c) then Bound(Adapt(Field(item, c), TypeOf(ti, c))) else Default
  }

  function CellsOf(ti: TableInfo, item: Body, cols: seq<string>): seq<Cell> {
    seq(|cols|, j requires 0 <= j < |cols| => CellOf(ti, item, cols[j]))
  }

  function RowsOf(ti: TableInfo, items: seq<Body>, cols: seq<string>): seq<seq<Cell>> {
    seq(|items|, i requires 0 <= i < |items| => CellsOf(ti, items[i], cols))
  }

  // ---------------------------------------------------------------------------
  // Tuples
  // ---------------------------------------------------------------------------

  function CellOwn(ti: TableInfo, item: Body, c: string): seq<Value> {
    if HasKey(item, c) then [Adapt(Field(item, c), TypeOf(ti, c))] else []
  }

  lemma CellReads(ti: TableInfo, item: Body, c: string)
    ensures ReadsAs(ReadCell, CellToks(item, c), CellOwn(ti, item, c), CellOf(ti, item, c))
  {
    hide Adapt;
    var own := CellOwn(ti, item, c);
    forall rest, ps: seq<Value>
      ensures ReadCell(CellToks(item, c) + rest, own + ps) == Got(CellOf(ti, item, c), rest, ps)
    {
      assert (CellToks(item, c) + rest)[1..] == rest;
      assert if HasKey(item, c) then (own + ps)[1..] == ps else own + ps == ps;
    }
  }

  function CellOwns(ti: TableInfo, item: Body, cols: seq<string>): seq<seq<Value>> {
    seq(|cols|, j requires 0 <= j < |cols| => CellOwn(ti, item, cols[j]))
  }

  lemma {:induction false} FlatCellOwns(ti: TableInfo, item: Body, cols: seq<string>)
    ensures Flat(CellOwns(ti, item, cols)) == CellValues(ti, item, cols)
  {
    hide Adapt;
    if cols != [] {
      FlatCellOwns(ti, item, cols[1..]);
      assert CellOwns(ti, item, cols)[1..] == CellOwns(ti, item, cols[1..]);
    }
  }

  lemma {:induction false} CellPartsAt(item: Body, cols: seq<string>)
    ensures |CellParts(item, cols)| == |cols|
    ensures forall j :: 0 <= j < |cols| ==> CellParts(item, cols)[j] == CellToks(item, cols[j])
  {
    if cols != [] {
      CellPartsAt(item, cols[1..]);
    }
  }

  function TupleToks(item: Body, cols: seq<string>): seq<Tok> {
    [Open] + JoinToks(Comma, CellParts(item, cols)) + [Close]
  }

  lemma CellsRead(ti: TableInfo, item: Body, cols: seq<string>, rest: seq<Tok>, ps: seq<Value>)
    requires cols != []
    ensures ReadList(ReadCell, JoinToks(Comma, CellParts(item, cols)) + ([Close] + rest),
                     CellValues(ti, item, cols) + ps)
         == Got(CellsOf(ti, item, cols), [Close] + rest, ps)
  {
    hide CellOwn, CellToks, CellOf, CellValues, ReadCell;
    CellPartsAt(item, cols);
    FlatCellOwns(ti, item, cols);
    forall j | 0 <= j < |cols|
      ensures ReadsAs(ReadCell, CellParts(item, cols)[j], CellOwns(ti, item, cols)[j], CellsOf(ti, item, cols)[j])
    {
      CellReads(ti, item, cols[j]);
    }
    ReadsList(ReadCell, CellParts(item, cols), CellOwns(ti, item, cols), CellsOf(ti, item, cols), [Close] + rest, ps);
  }

  lemma BracketedReads<T(!new)>(item: Reader<T>, list: seq<Tok>, vs: seq<T>, rest: seq<Tok>, ps: seq<Value>,
                                  after: seq<Value>)
    requires ReadList(item, list + ([Close] + rest), ps) == Got(vs, [Close] + rest, after)
    ensures ReadBracketed(item, [Open] + list + [Close] + rest, ps) == Got(vs, rest, after)
  {
    assert ([Open] + list + [Close] + rest)[1..] == list + ([Close] + rest);
    assert ([Close] + rest)[1..] == rest;
  }

  lemma TupleReads(ti: TableInfo, item: Body, cols: seq<string>)
    requires cols != []
    ensures ReadsAs(ReadTuple, TupleToks(item, cols), CellValues(ti, item, cols), CellsOf(ti, item, cols))
  {
    hide CellParts, CellValues, CellsOf, JoinToks;
    forall rest, ps: seq<Value>
      ensures ReadTuple(TupleToks(item, cols) + rest, CellValues(ti, item, cols) + ps)
           == Got(CellsOf(ti, item, cols), rest, ps)
    {
      CellsRead(ti, item, cols, rest, ps);
      BracketedReads(ReadCell, JoinToks(Comma, CellParts(item, cols)), CellsOf(ti, item, cols), rest,
                     CellValues(ti, item, cols) + ps, ps);
    }
  }

  function TupleOwns(ti: TableInfo, items: seq<Body>, cols: seq<string>): seq<seq<Value>> {
    seq(|items|, i requires 0 <= i < |items| => CellValues(ti, items[i], cols))
  }

  lemma {:induction false} TuplesAt(ti: TableInfo, items: seq<Body>, cols: seq<string>)
    ensures |TupleParts(items, cols)| == |items|
    ensures forall i :: 0 <= i < |items| ==> TupleParts(items, cols)[i] == TupleToks(items[i], cols)
    ensures Flat(TupleOwns(ti, items, cols)) == TupleValues(ti, items, cols)
  {
    hide CellParts, CellValues;
    if items != [] {
      TuplesAt(ti, items[1..], cols);
      assert TupleOwns(ti, items, cols)[1..] == TupleOwns(ti, items[1..], cols);
    }
  }

  lemma RowsRead(ti: TableInfo, items: seq<Body>, cols: seq<string>, rest: seq<Tok>, ps: seq<Value>)
    requires cols != [] && items != [] && Ends(rest)
    ensures ReadList(ReadTuple, JoinToks(Comma, TupleParts(items, cols)) + rest, TupleValues(ti, items, cols) + ps)
         == Got(RowsOf(ti, items, cols), rest, ps)
  {
    hide CellValues, CellsOf, TupleValues, TupleToks, ReadTuple;
    TuplesAt(ti, items, cols);
    forall i | 0 <= i < |items|
      ensures ReadsAs(ReadTuple, TupleParts(items, cols)[i], TupleOwns(ti, items, cols)[i], RowsOf(ti, items, cols)[i])
    {
      TupleReads(ti, items[i], cols);
    }
    ReadsList(ReadTuple, TupleParts(items, cols), TupleOwns(ti, items, cols), RowsOf(ti, items, cols), rest, ps);
  }

  // ---------------------------------------------------------------------------
  // Columns and conflict clause
  // ---------------------------------------------------------------------------

  lemma {:induction false} IdentPartsAt(names: seq<string>)
    ensures |IdentParts(names)| == |MergeParts(names)| == |names|
    ensures forall i :: 0 <= i < |names| ==> IdentParts(names)[i] == [Ident(names[i])]
    ensures forall i :: 0 <= i < |names| ==> MergeParts(names)[i] == [Ident(names[i]), AssignExcluded, Ident(names[i])]
  {
    if names != [] {
      IdentPartsAt(names[1..]);
    }
  }

  lemma NameReads(name: string)
    ensures ReadsAs(ReadName, [Ident(name)], [], name)
  {
    forall rest, ps: seq<Value> ensures ReadName([Ident(name)] + rest, [] + ps) == Got(name, rest, ps) {
      assert ([Ident(name)] + rest)[1..] == rest && [] + ps == ps;
    }
  }

  lemma NamesRead(names: seq<string>, rest: seq<Tok>, ps: seq<Value>)
    requires names != []
    ensures ReadBracketed(ReadName, ([Open] + JoinToks(Comma, IdentParts(names)) + [Close]) + rest, ps)
            == Got(names, rest, ps)
  {
    IdentPartsAt(names);
    forall i | 0 <= i < |names| ensures ReadsAs(ReadName, IdentParts(names)[i], [], names[i]) {
      NameReads(names[i]);
    }
    ReadsPlainList(ReadName, IdentParts(names), names, [Close] + rest, ps);
    BracketedReads(ReadName, JoinToks(Comma, IdentParts(names)), names, rest, ps, ps);
  }

  lemma MergeSetReads(name: string)
    ensures ReadsAs(ReadMergeSet, [Ident(name), AssignExcluded, Ident(name)], [], (name, name))
  {
    var part := [Ident(name), AssignExcluded, Ident(name)];
    forall rest, ps: seq<Value> ensures ReadMergeSet(part + rest, [] + ps) == Got((name, name), rest, ps) {
      assert (part + rest)[3..] == rest && [] + ps == ps;
    }
  }

  function Pairs(names: seq<string>): seq<(string, string)> {
    seq(|names|, i requires 0 <= i < |names| => (names[i], names[i]))
  }

  lemma MergeSetsRead(names: seq<string>, rest: seq<Tok>, ps: seq<Value>)
    requires names != [] && Ends(rest)
    ensures ReadList(ReadMergeSet, JoinToks(Comma, MergeParts(names)) + rest, ps) == Got(Pairs(names), rest, ps)
  {
    IdentPartsAt(names);
    forall i | 0 <= i < |names| ensures ReadsAs(ReadMergeSet, MergeParts(names)[i], [], Pairs(names)[i]) {
      MergeSetReads(names[i]);
    }
    ReadsPlainList(ReadMergeSet, MergeParts(names), Pairs(names), rest, ps);
  }

  lemma ReadsConflict(resolution: Option<Resolution>, cols: seq<string>, target: seq<string>, rest: seq<Tok>,
                      ps: seq<Value>)
    requires resolution.Some? ==> target != []
    requires rest == [] || rest[0].ReturningKw?
    ensures ReadConflict(ConflictToks(resolution, cols, target) + rest, ps)
         == Got(ConflictOf(resolution, cols, target), rest, ps)
  {
    hide Without, IdentParts, MergeParts, JoinToks, ReadBracketed, ReadList;
    var toks := ConflictToks(resolution, cols, target);
    if resolution.None? {
      assert toks + rest == rest;
    } else {
      var update := Without(cols, target);
      var named := [Open] + JoinToks(Comma, IdentParts(target)) + [Close];
      if resolution.value.IgnoreDuplicates? || update == [] {
        NamesRead(target, [DoNothing] + rest, ps);
        ConflictShape(named, [DoNothing], rest);
        assert ([DoNothing] + rest)[1..] == rest;
      } else {
        var list := JoinToks(Comma, MergeParts(update));
        NamesRead(target, [DoUpdateSet] + list + rest, ps);
        ConflictShape(named, [DoUpdateSet] + list, rest);
        assert ([DoUpdateSet] + list + rest)[1..] == list + rest;
        MergeSetsRead(update, rest, ps);
        assert ConflictOf(resolution, cols, target) == Merge(target, Pairs(update));
      }
    }
  }

  lemma ConflictShape(named: seq<Tok>, action: seq<Tok>, rest: seq<Tok>)
    ensures [OnConflict] + named + action + rest == [OnConflict] + (named + (action + rest))
    ensures ([OnConflict] + (named + (action + rest)))[1..] == named + (action + rest)
  {}

  // ---------------------------------------------------------------------------
  // The statement
  // ---------------------------------------------------------------------------

  function InsertOf(ti: TableInfo, items: seq<Body>, cols: seq<string>, conflict: Conflict, os: seq<Output>): Stmt {
    if cols == [] then InsertDefaults(ti.name, conflict, os)
    else Insert(ti.name, cols, RowsOf(ti, items, cols), conflict, os)
  }

  lemma ReadsInsertEnd(conflictToks: seq<Tok>, conflict: Conflict, os: seq<Output>)
    requires ReadConflict(conflictToks + ReturningToks(os), []) == Got(conflict, ReturningToks(os), [])
    ensures ReadInsertEnd(conflictToks + ReturningToks(os), []) == Got((conflict, os), [], [])
  {
    hide ReadConflict, ReturningToks, ReadReturning;
    ReadsReturning(os, []);
  }

  lemma ReadsValues(ti: TableInfo, items: seq<Body>, cols: seq<string>, end: seq<Tok>, e: (Conflict, seq<Output>))
    requires items != [] && cols != [] && Ends(end) && ReadInsertEnd(end, []) == Got(e, [], [])
    ensures ReadStmt(ValuesToks(ti, items, cols) + end, TupleValues(ti, items, cols))
         == Some(Insert(ti.name, cols, RowsOf(ti, items, cols), e.0, e.1))
  {
    hide ReadInsertEnd, TupleValues, RowsOf, IdentParts, TupleParts, JoinToks, ReadBracketed, ReadList, ReadStmt;
    var named := [Open] + JoinToks(Comma, IdentParts(cols)) + [Close];
    var rows := JoinToks(Comma, TupleParts(items, cols));
    ValuesShape(ti.name, named, rows, end);
    NamesRead(cols, [ValuesKw] + (rows + end), TupleValues(ti, items, cols));
    RowsRead(ti, items, cols, end, []);
    assert TupleValues(ti, items, cols) + [] == TupleValues(ti, items, cols);
    ReadsInsert(ti.name, named, cols, rows, RowsOf(ti, items, cols), end, TupleValues(ti, items, cols), e);
  }

  lemma ValuesShape(table: string, named: seq<Tok>, rows: seq<Tok>, end: seq<Tok>)
    ensures [InsertInto, Ident(table), Space] + named + [ValuesKw] + rows + end
         == [InsertInto] + ([Ident(table)] + ([Space] + (named + ([ValuesKw] + (rows + end)))))
  {}

  lemma ReadsInsert(table: string, named: seq<Tok>, cols: seq<string>, rows: seq<Tok>, cells: seq<seq<Cell>>,
                    end: seq<Tok>, ps: seq<Value>, e: (Conflict, seq<Output>))
    requires named != [] && named[0].Open?
    requires ReadBracketed(ReadName, named + ([ValuesKw] + (rows + end)), ps)
            == Got(cols, [ValuesKw] + (rows + end), ps)
    requires ReadList(ReadTuple, rows + end, ps) == Got(cells, end, []) && ReadInsertEnd(end, []) == Got(e, [], [])
    ensures ReadStmt([InsertInto] + ([Ident(table)] + ([Space] + (named + ([ValuesKw] + (rows + end))))), ps)
         == Some(Insert(table, cols, cells, e.0, e.1))
  {
    hide ReadBracketed, ReadList, ReadInsertEnd;
    var values := [ValuesKw] + (rows + end);
    var body := [Ident(table)] + ([Space] + (named + values));
    assert ([InsertInto] + body)[1..] == body;
    assert body[1..] == [Space] + (named + values) && ([Space] + (named + values))[1..] == named + values;
    assert body[1].Space?;
    assert SkipSpaces(body[1..]) == named + values;
    assert values[1..] == rows + end;
  }

  lemma ReadsDefaults(table: string, end: seq<Tok>, e: (Conflict, seq<Output>))
    requires ReadInsertEnd(end, []) == Got(e, [], [])
    ensures ReadStmt([InsertInto, Ident(table), DefaultValues] + end, []) == Some(InsertDefaults(table, e.0, e.1))
  {
    hide ReadInsertEnd;
    var toks := [InsertInto, Ident(table), DefaultValues] + end;
    assert toks[1..] == [Ident(table), DefaultValues] + end;
    assert ([Ident(table), DefaultValues] + end)[2..] == end;
  }

  lemma {:induction false} NoCellsBindNothing(ti: TableInfo, items: seq<Body>)
    ensures TupleValues(ti, items, []) == []
  {
    if items != [] {
      NoCellsBindNothing(ti, items[1..]);
    }
  }

  lemma InsertReadsRows(ti: TableInfo, items: seq<Body>, columns: Option<string>, onConflict: Option<string>,
                        resolution: Option<Resolution>, q: Query, representation: bool)
    requires items != [] && q.outputs != []
    ensures var plan := InsertPlan(ti, items, columns, onConflict, resolution);
            var f := InsertFrag(ti, items, columns, onConflict, resolution, ReturningList(q, representation));
            plan.Ok? ==>
              f.Ok? && ReadStmt(f.value.toks, f.value.params)
                    == Some(InsertOf(ti, items, plan.value.0, ConflictOf(resolution, plan.value.0, plan.value.1),
                                     Returned(q, representation)))
  {
    hide InsertColumns, UnionKeys, FirstSeen, SplitList, ValuesToks, ConflictToks, TupleValues, RowsOf, ConflictOf,
        ReturningToks, ReadStmt, Homogeneous;
    var plan := InsertPlan(ti, items, columns, onConflict, resolution);
    if plan.Ok? {
      var (cols, target) := plan.value;
      var os := Returned(q, representation);
      var conflict := ConflictToks(resolution, cols, target);
      var end := conflict + ReturningToks(os);
      ReturningIs(q, representation);
      ReturningStart(os);
      ReadsConflict(resolution, cols, target, ReturningToks(os), []);
      ReadsInsertEnd(conflict, ConflictOf(resolution, cols, target), os);
      ConflictEnds(resolution, cols, target, ReturningToks(os));
      Associative(ValuesToks(ti, items, cols), conflict, ReturningToks(os));
      if cols == [] {
        ReadsDefaults(ti.name, end, (ConflictOf(resolution, cols, target), os));
        NoCellsBindNothing(ti, items);
        assert ValuesToks(ti, items, []) == [InsertInto, Ident(ti.name), DefaultValues] by { DefaultsToks(ti, items); }
      } else {
        ReadsValues(ti, items, cols, end, (ConflictOf(resolution, cols, target), os));
      }
    }
  }

  // ---------------------------------------------------------------------------
  // The plan
  // ---------------------------------------------------------------------------

  /** The item has a value under the column's name. */
  predicate Sends(item: Body, c: string) {
    exists k :: 0 <= k < |item| && item[k].0 == c
  }

  /** The columns of an insert: the listed ones, or the keys of the items in first-seen order. All are known, and there
      is one unless it is a single row of defaults. */
  ghost predicate Columned(ti: TableInfo, items: seq<Body>, columns: Option<string>, cols: seq<string>) {
    && (if columns.Some? then SplitList(columns.value) == Ok(cols) && cols != [] else FirstSeen(cols, AllKeys(items)))
    && (forall c :: c in cols ==> c in ti.dataTypes)
    && (cols == [] ==> |items| == 1)
  }

  /** The columns and the conflict target of an insert. The target is the listed one, or the primary key; its columns
      are known, and without a column list a merge has every item send every column. */
  ghost predicate Planned(ti: TableInfo, items: seq<Body>, columns: Option<string>, onConflict: Option<string>,
                          resolution: Option<Resolution>, cols: seq<string>, target: seq<string>)
  {
    && Columned(ti, items, columns, cols)
    && (if resolution.None? then target == []
        else
          target != []
          && if onConflict.None? || onConflict.value == "" then target == ti.pk
             else SplitList(onConflict.value) == Ok(target) && forall c :: c in target ==> c in ti.dataTypes)
    && (resolution == Some(MergeDuplicates) && columns.None? ==>
          forall item, c :: item in items && c in cols ==> Sends(item, c))
  }

  lemma {:induction false} HasKeySends(item: Body, c: string)
    ensures HasKey(item, c) <==> Sends(item, c)
  {
    if item != [] {
      HasKeySends(item[1..], c);
      if k :| 0 <= k < |item| && item[k].0 == c {
        assert k > 0 ==> item[1..][k - 1].0 == c;
      }
      if k :| 0 <= k < |item[1..]| && item[1..][k].0 == c {
        assert item[k + 1].0 == c;
      }
    }
  }

  lemma SameSends(items: seq<Body>, cols: seq<string>)
    ensures Homogeneous(items, cols) <==> forall item, c :: item in items && c in cols ==> Sends(item, c)
  {
    hide HasKey, Sends;
    forall item: Body, c ensures HasKey(item, c) <==> Sends(item, c) {
      HasKeySends(item, c);
    }
  }

  lemma SameColumns(ti: TableInfo, items: seq<Body>, columns: Option<string>, cols: seq<string>, others: seq<string>)
    requires Columned(ti, items, columns, cols) && Columned(ti, items, columns, others)
    ensures forall c :: c in cols <==> c in others
  {
    hide SplitList, FirstAt, AllKeys;
    if columns.None? {
      assert forall c :: c in cols <==> c in AllKeys(items);
      assert forall c :: c in others <==> c in AllKeys(items);
    }
  }

  lemma ColumnsAreColumned(ti: TableInfo, items: seq<Body>, columns: Option<string>, cols: seq<string>)
    ensures InsertColumns(ti, items, columns) == Ok(cols) ==> Columned(ti, items, columns, cols)
    ensures InsertColumns(ti, items, columns).Err? ==> !Columned(ti, items, columns, cols)
  {
    hide SplitList, UnionKeys, FirstAt, AllKeys;
    UnionIsFirstSeen(items);
    if columns.None? && FirstSeen(cols, AllKeys(items)) {
      var union := UnionKeys([], items);
      assert forall c :: c in cols <==> c in AllKeys(items);
      assert forall c :: c in union <==> c in AllKeys(items);
      assert cols != [] ==> cols[0] in cols;
      assert union != [] ==> union[0] in union;
    }
  }

  lemma TargetIsPlanned(ti: TableInfo, onConflict: Option<string>, target: seq<string>)
    ensures ConflictTarget(ti, onConflict) == Ok(target) <==>
              target != []
              && if onConflict.None? || onConflict.value == "" then target == ti.pk
                 else SplitList(onConflict.value) == Ok(target) && forall c :: c in target ==> c in ti.dataTypes
  {
    hide SplitList;
  }

  /** An insert is planned exactly when there is such a plan, and then as one. */
  lemma PlanIsPlanned(ti: TableInfo, items: seq<Body>, columns: Option<string>, onConflict: Option<string>,
                      resolution: Option<Resolution>)
    ensures var plan := InsertPlan(ti, items, columns, onConflict, resolution);
            && (plan.Ok? ==> Planned(ti, items, columns, onConflict, resolution, plan.value.0, plan.value.1))
            && (plan.Err? ==> forall cols, target :: !Planned(ti, items, columns, onConflict, resolution, cols, target))
  {
    hide InsertPlan, Planned;
    var plan := InsertPlan(ti, items, columns, onConflict, resolution);
    if plan.Ok? {
      ThePlanIsPlanned(ti, items, columns, onConflict, resolution);
    } else {
      forall cols, target ensures !Planned(ti, items, columns, onConflict, resolution, cols, target) {
        OthersAreNot(ti, items, columns, onConflict, resolution, cols, target);
      }
    }
  }

  lemma ThePlanIsPlanned(ti: TableInfo, items: seq<Body>, columns: Option<string>, onConflict: Option<string>,
                         resolution: Option<Resolution>)
    requires InsertPlan(ti, items, columns, onConflict, resolution).Ok?
    ensures var (cols, target) := InsertPlan(ti, items, columns, onConflict, resolution).value;
            Planned(ti, items, columns, onConflict, resolution, cols, target)
  {
    var (cols, target) := InsertPlan(ti, items, columns, onConflict, resolution).value;
    ColumnsAreColumned(ti, items, columns, cols);
    TargetIsPlanned(ti, onConflict, target);
    SameSends(items, cols);
    hide InsertColumns, ConflictTarget, SplitList, Columned, Sends, Homogeneous;
  }

  lemma OthersAreNot(ti: TableInfo, items: seq<Body>, columns: Option<string>, onConflict: Option<string>,
                     resolution: Option<Resolution>, cols: seq<string>, target: seq<string>)
    requires InsertPlan(ti, items, columns, onConflict, resolution).Err?
    ensures !Planned(ti, items, columns, onConflict, resolution, cols, target)
  {
    ColumnsAreColumned(ti, items, columns, cols);
    TargetIsPlanned(ti, onConflict, target);
    hide InsertColumns, ConflictTarget, SplitList, Columned, Sends, Homogeneous;
    if InsertColumns(ti, items, columns).Ok? && Columned(ti, items, columns, cols) {
      var planned := InsertColumns(ti, items, columns).value;
      ColumnsAreColumned(ti, items, columns, planned);
      SameColumns(ti, items, columns, cols, planned);
      SameSends(items, planned);
    }
  }

  lemma DefaultsToks(ti: TableInfo, items: seq<Body>)
    ensures ValuesToks(ti, items, []) == [InsertInto, Ident(ti.name), DefaultValues]
  {}

  lemma ConflictEnds(resolution: Option<Resolution>, cols: seq<string>, target: seq<string>, rest: seq<Tok>)
    requires rest == [] || rest[0].ReturningKw?
    ensures Ends(ConflictToks(resolution, cols, target) + rest)
  {
    if resolution.None? {
      assert ConflictToks(resolution, cols, target) + rest == rest;
    }
  }

  // ---------------------------------------------------------------------------
  // What is stored
  // ---------------------------------------------------------------------------

  /** DEFAULT when the item does not send the column, and otherwise the value it sends, carried as it is sent. */
  predicate CellStores(ti: TableInfo, item: Body, c: string, cell: Cell) {
    if Sends(item, c) then
      cell.Bound?
      && exists k :: 0 <= k < |item| && item[k].0 == c && (forall l :: 0 <= l < k ==> item[l].0 != c)
                     && Carries(cell.v, item[k].1, ti, c)
    else cell == Default
  }

  /** A row for every item, in order, with a cell for every column. */
  predicate RowsStore(ti: TableInfo, items: seq<Body>, cols: seq<string>, rows: seq<seq<Cell>>) {
    |rows| == |items|
    && forall i :: 0 <= i < |rows| ==>
         |rows[i]| == |cols| && forall j :: 0 <= j < |cols| ==> CellStores(ti, items[i], cols[j], rows[i][j])
  }

  /** On a conflict with the target an insert fails when it has no resolution, keeps the stored row when duplicates are
      ignored or no column is left, and otherwise overwrites exactly the columns outside the target, each with its own
      value. */
  ghost predicate Resolves(resolution: Option<Resolution>, cols: seq<string>, target: seq<string>, c: Conflict) {
    if resolution.None? then c == Conflict.Fail
    else if resolution.value.IgnoreDuplicates? || (forall x :: x in cols ==> x in target) then c == Skip(target)
    else
      && c.Merge? && c.target == target && c.sets != []
      && (forall p :: p in c.sets ==> p.0 == p.1)
      && forall x :: multiset(Firsts(c.sets))[x] == if x in target then 0 else multiset(cols)[x]
  }

  function Firsts(ps: seq<(string, string)>): seq<string> {
    seq(|ps|, i requires 0 <= i < |ps| => ps[i].0)
  }

  /** The statement inserts the items under these columns. */
  ghost predicate Stores(stmt: Stmt, ti: TableInfo, items: seq<Body>, resolution: Option<Resolution>, cols: seq<string>,
                   target: seq<string>, returning: seq<Output>)
  {
    if cols == [] then
      stmt.InsertDefaults? && stmt.table == ti.name && Resolves(resolution, cols, target, stmt.conflict)
      && stmt.returning == returning
    else
      stmt.Insert? && stmt.table == ti.name && stmt.cols == cols && RowsStore(ti, items, cols, stmt.rows)
      && Resolves(resolution, cols, target, stmt.conflict) && stmt.returning == returning
  }

  lemma {:induction false} FieldIsFirst(item: Body, c: string)
    requires HasKey(item, c)
    ensures exists k :: 0 <= k < |item| && item[k].0 == c && (forall l :: 0 <= l < k ==> item[l].0 != c)
                        && item[k].1 == Field(item, c)
  {
    if item[0].0 != c {
      FieldIsFirst(item[1..], c);
      var k :| 0 <= k < |item[1..]| && item[1..][k].0 == c && (forall l :: 0 <= l < k ==> item[1..][l].0 != c)
               && item[1..][k].1 == Field(item[1..], c);
      assert item[k + 1].0 == c;
      forall l | 0 <= l < k + 1 ensures item[l].0 != c {
        assert l > 0 ==> item[1..][l - 1].0 == item[l].0;
      }
    }
  }

  lemma CellIsStored(ti: TableInfo, item: Body, c: string)
    ensures CellStores(ti, item, c, CellOf(ti, item, c))
  {
    HasKeySends(item, c);
    hide Adapt, HasKey, Field, Sends, Carries;
    if HasKey(item, c) {
      FieldIsFirst(item, c);
      AdaptCarries(Field(item, c), ti, c);
    }
  }

  lemma RowsAreStored(ti: TableInfo, items: seq<Body>, cols: seq<string>)
    ensures RowsStore(ti, items, cols, RowsOf(ti, items, cols))
  {
    hide CellStores, CellOf;
    forall i, j | 0 <= i < |items| && 0 <= j < |cols|
      ensures CellStores(ti, items[i], cols[j], RowsOf(ti, items, cols)[i][j])
    {
      CellIsStored(ti, items[i], cols[j]);
    }
  }

  lemma {:induction false} WithoutIsDifference(cols: seq<string>, target: seq<string>)
    ensures forall x :: multiset(Without(cols, target))[x] == if x in target then 0 else multiset(cols)[x]
  {
    if cols != [] {
      WithoutIsDifference(cols[1..], target);
      assert cols == [cols[0]] + cols[1..];
    }
  }

  lemma ConflictResolves(resolution: Option<Resolution>, cols: seq<string>, target: seq<string>)
    ensures Resolves(resolution, cols, target, ConflictOf(resolution, cols, target))
  {
    WithoutIsDifference(cols, target);
    hide Without;
    var update := Without(cols, target);
    assert forall x :: x in cols ==> multiset(cols)[x] > 0;
    assert update != [] ==> update[0] in multiset(update);
    if update == [] {
      forall x | x in cols ensures x in target {
        assert multiset(update)[x] == 0;
      }
    } else {
      assert update[0] in multiset(cols) && update[0] in cols && update[0] !in target;
      assert Firsts(Pairs(update)) == update;
    }
  }

  /** An insert is built exactly when it can be planned; the server reads it, its parameters bound in order, as storing
      every item under the planned columns, with the planned action on a conflict. */
  lemma InsertReadsBack(ti: TableInfo, items: seq<Body>, columns: Option<string>, onConflict: Option<string>,
                        resolution: Option<Resolution>, q: Query, representation: bool)
    requires items != [] && q.outputs != []
    ensures var f := InsertFrag(ti, items, columns, onConflict, resolution, ReturningList(q, representation));
            && (f.Err? ==> forall cols, target :: !Planned(ti, items, columns, onConflict, resolution, cols, target))
            && (f.Ok? ==>
                  var stmt := ReadStmt(f.value.toks, f.value.params);
                  stmt.Some? && exists cols, target ::
                    && Planned(ti, items, columns, onConflict, resolution, cols, target)
                    && Stores(stmt.value, ti, items, resolution, cols, target,
                              if representation then q.outputs else []))
  {
    PlanIsPlanned(ti, items, columns, onConflict, resolution);
    InsertReadsRows(ti, items, columns, onConflict, resolution, q, representation);
    hide InsertPlan, Planned, RowsOf, ConflictOf, ReadStmt, ReturningList, Resolves, RowsStore;
    var plan := InsertPlan(ti, items, columns, onConflict, resolution);
    if plan.Ok? {
      RowsAreStored(ti, items, plan.value.0);
      ConflictResolves(resolution, plan.value.0, plan.value.1);
    }
  }

  /** Without a column list, nothing a client sends is lost: every key of every item has a column, and the row holds the
      value sent, carried as it is sent. */
  lemma EveryKeyIsStored(ti: TableInfo, items: seq<Body>, onConflict: Option<string>, resolution: Option<Resolution>,
                         cols: seq<string>, target: seq<string>, rows: seq<seq<Cell>>, i: nat, k: nat)
    requires Planned(ti, items, None, onConflict, resolution, cols, target) && RowsStore(ti, items, cols, rows)
    requires i < |items| && k < |items[i]| && forall l :: 0 <= l < k ==> items[i][l].0 != items[i][k].0
    ensures exists j :: 0 <= j < |cols| && cols[j] == items[i][k].0
              && rows[i][j].Bound? && Carries(rows[i][j].v, items[i][k].1, ti, items[i][k].0)
  {
    hide Carries, HasKey, AllKeys, FirstAt;
    var key := items[i][k].0;
    HasKeySends(items[i], key);
    KeyOfItem(items, i, key);
    assert key in cols;
    var j :| 0 <= j < |cols| && cols[j] == key;
    assert CellStores(ti, items[i], cols[j], rows[i][j]);
  }

  /** A merge upsert whose columns are the items' own keys never writes DEFAULT over a stored value. */
  lemma MergeHasNoDefault(ti: TableInfo, items: seq<Body>, onConflict: Option<string>, cols: seq<string>,
                          target: seq<string>, rows: seq<seq<Cell>>)
    requires Planned(ti, items, None, onConflict, Some(MergeDuplicates), cols, target)
    requires RowsStore(ti, items, cols, rows)
    ensures forall i, j :: 0 <= i < |items| && 0 <= j < |cols| ==> rows[i][j].Bound?
  {
    hide Carries, FirstSeen, AllKeys, Sends;
    forall i, j | 0 <= i < |items| && 0 <= j < |cols| ensures rows[i][j].Bound? {
      assert items[i] in items && cols[j] in cols;
      assert CellStores(ti, items[i], cols[j], rows[i][j]);
    }
  }
}
