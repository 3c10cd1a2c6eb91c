/** The INSERT, UPDATE and DELETE builders of the user-table API, and the row window of a write. */
module RestWrites {
  import opened Results
  import opened Text
  import opened Scanners
  import opened SqlText
  import opened Values
  import opened Filters
  import opened SqlLogic
  import opened WhereCompiler
  import opened QueryParser
  import opened Statements
  import opened StatementLemmas

  /** A reflected table: column types, primary key, and the allowlist built from its catalog rows. */
  datatype TableInfo = TableInfo(name: string, dataTypes: map<string, string>, pk: seq<string>, spec: Spec)

  /** A JSON object in key order. */
  type Body = seq<(string, Json)>

  predicate HasKey(item: Body, key: string) {
    item != [] && (item[0].0 == key || HasKey(item[1..], key))
  }

  function Field(item: Body, key: string): Json
    requires HasKey(item, key)
  {
    if item[0].0 == key then item[0].1 else Field(item[1..], key)
  }

  /** Non-null values for json columns, and objects anywhere, bind as jsonb. */
  function Adapt(value: Json, dataType: Option<string>): Value {
    if !value.JNull? && (dataType == Some("json") || dataType == Some("jsonb")) then VJsonb(value)
    else if value.JObject? then VJsonb(value)
    else VPlain(value)
  }

  function TypeOf(ti: TableInfo, c: string): Option<string> {
    if c in ti.dataTypes then Some(ti.dataTypes[c]) else None
  }

  predicate AllKnown(ti: TableInfo, cols: seq<string>) {
    forall c :: c in cols ==> c in ti.dataTypes
  }

  // ---------------------------------------------------------------------------
  // SELECT
  // ---------------------------------------------------------------------------

  /** `SELECT list FROM table where order limit`, as the list endpoint assembles it. */
  function SelectFrag(table: string, qp: ParsedQuery): Frag {
    Frag([SelectKw] + qp.selectList + [FromKw, Ident(table), Space] + qp.WhereSql() + [Space] + qp.orderSql
         + [Space] + qp.limitSql,
         qp.whereParams + qp.limitParams)
  }

  // ---------------------------------------------------------------------------
  // UPDATE and DELETE
  // ---------------------------------------------------------------------------

  /** The client's explicit limit and offset; at least one is present. */
  type Window = (Option<int>, Option<int>)

  /** A `ctid` subselect over the ordered, limited rows. */
  function WindowFrag(ti: TableInfo, qp: ParsedQuery, w: Window): Frag {
    Frag([WhereKw, Ctid, InKw, Open]
         + ([SelectKw, Ctid, FromKw, Ident(ti.name), Space] + qp.WhereSql() + [Space] + qp.orderSql
            + (if w.0.Some? then [Space, LimitKw, Param] else [])
            + (if w.1.Some? then [Space, OffsetKw, Param] else []))
         + [Close],
         qp.whereParams + (if w.0.Some? then [VInt(w.0.value)] else []) + (if w.1.Some? then [VInt(w.1.value)] else []))
  }

  function TargetFrag(ti: TableInfo, qp: ParsedQuery, window: Option<Window>): Frag {
    if window.Some? then WindowFrag(ti, qp, window.value) else Frag(qp.WhereSql(), qp.whereParams)
  }

  function SetToks(key: string): seq<Tok> {
    [Ident(key), Assign, Param]
  }

  function SetParts(body: Body): seq<seq<Tok>> {
    if body == [] then [] else [SetToks(body[0].0)] + SetParts(body[1..])
  }

  function SetValues(ti: TableInfo, body: Body): seq<Value> {
    if body == [] then [] else [Adapt(body[0].1, TypeOf(ti, body[0].0))] + SetValues(ti, body[1..])
  }

  function Keys(body: Body): seq<string> {
    if body == [] then [] else [body[0].0] + Keys(body[1..])
  }

  function UpdateFrag(ti: TableInfo, body: Body, qp: ParsedQuery, returning: seq<Tok>, window: Option<Window>)
    : Result<Frag>
  {
    if body == [] then Err(BadRequest)
    else if !AllKnown(ti, Keys(body)) then Err(UnknownColumn)
    else
      var target := TargetFrag(ti, qp, window);
      Ok(Frag([UpdateKw, Ident(ti.name), SetKw] + JoinToks(Comma, SetParts(body)) + [Space] + target.toks
              + (if returning == [] then [] else [ReturningKw] + returning),
              SetValues(ti, body) + target.params))
  }

  lemma SetSnoc(ti: TableInfo, body: Body, kv: (string, Json))
    ensures SetParts(body + [kv]) == SetParts(body) + [SetToks(kv.0)]
    ensures SetValues(ti, body + [kv]) == SetValues(ti, body) + [Adapt(kv.1, TypeOf(ti, kv.0))]
    ensures Keys(body + [kv]) == Keys(body) + [kv.0]
  {
    hide Adapt;
    if body == [] {
      assert [] + [kv] == [kv] && [kv][1..] == [];
    } else {
      assert (body + [kv])[1..] == body[1..] + [kv];
      SetSnoc(ti, body[1..], kv);
    }
  }

  lemma KeyAmong(body: Body, i: nat)
    requires i < |body|
    ensures body[i].0 in Keys(body)
  {
    if i > 0 {
      KeyAmong(body[1..], i - 1);
    }
  }

  method BuildUpdate(ti: TableInfo, body: Body, qp: ParsedQuery, returning: seq<Tok>, window: Option<Window>)
    returns (r: Result<Frag>)
    ensures r == UpdateFrag(ti, body, qp, returning, window)
  {
    hide WindowFrag, Adapt;
    if body == [] {
      return Err(BadRequest);
    }
    var setParts: seq<seq<Tok>>, params: seq<Value> := [], [];
    for i := 0 to |body|
      invariant setParts == SetParts(body[..i]) && params == SetValues(ti, body[..i])
      invariant AllKnown(ti, Keys(body[..i]))
    {
      var (key, value) := body[i];
      KeyAmong(body, i);
      if key !in ti.dataTypes {
        return Err(UnknownColumn);
      }
      SetSnoc(ti, body[..i], body[i]);
      assert body[..i + 1] == body[..i] + [body[i]];
      setParts := setParts + [SetToks(key)];
      params := params + [Adapt(value, TypeOf(ti, key))];
    }
    assert body[..|body|] == body;
    var target := TargetFrag(ti, qp, window);
    var toks := [UpdateKw, Ident(ti.name), SetKw] + JoinToks(Comma, setParts) + [Space] + target.toks;
    params := params + target.params;
    if returning != [] {
      toks := toks + ([ReturningKw] + returning);
    }
    assert returning == [] ==> toks + [] == toks;
    return Ok(Frag(toks, params));
  }

  function DeleteFrag(ti: TableInfo, qp: ParsedQuery, returning: seq<Tok>, window: Option<Window>): Frag {
    var target := TargetFrag(ti, qp, window);
    Frag([DeleteFrom, Ident(ti.name), Space] + target.toks
         + (if returning == [] then [] else [ReturningKw] + returning),
         target.params)
  }

  /** The client's explicit window: none when neither key has a value, refused when the limit is over the maximum. */
  function WriteWindow(items: Params, maxLimit: int): Result<Option<Window>>
    requires ReadInt(Get(items, "limit"), 0).Ok? && ReadInt(Get(items, "offset"), 0).Ok?
  {
    var limit := if Given(Get(items, "limit")) then ParseInt(Get(items, "limit").value) else None;
    var offset := if Given(Get(items, "offset")) then ParseInt(Get(items, "offset").value) else None;
    if limit.Some? && limit.value > maxLimit then Err(BadRequest)
    else if limit.None? && offset.None? then Ok(None)
    else Ok(Some((limit, offset)))
  }

  // ---------------------------------------------------------------------------
  // INSERT
  // ---------------------------------------------------------------------------

  datatype Resolution = MergeDuplicates | IgnoreDuplicates

  /** The keys of `item` not already listed, appended in order. */
  function AddKeys(cols: seq<string>, item: Body): seq<string>
    decreases |item|
  {
    if item == [] then cols
    else AddKeys(if item[0].0 in cols then cols else cols + [item[0].0], item[1..])
  }

  function UnionKeys(cols: seq<string>, items: seq<Body>): seq<string>
    decreases |items|
  {
    if items == [] then cols else UnionKeys(AddKeys(cols, items[0]), items[1..])
  }

  function InsertColumns(ti: TableInfo, items: seq<Body>, columns: Option<string>): Result<seq<string>> {
    var cols :- if columns.Some? then SplitList(columns.value) else Ok(UnionKeys([], items));
    if columns.Some? && cols == [] then Err(BadRequest)
    else if !AllKnown(ti, cols) then Err(UnknownColumn)
    else if cols == [] && |items| != 1 then Err(BadRequest)
    else Ok(cols)
  }

  function CellToks(item: Body, c: string): seq<Tok> {
    if HasKey(item, c) then [Param] else [DefaultKw]
  }

  function CellParts(item: Body, cols: seq<string>): seq<seq<Tok>> {
    if cols == [] then [] else [CellToks(item, cols[0])] + CellParts(item, cols[1..])
  }

  function CellValues(ti: TableInfo, item: Body, cols: seq<string>): seq<Value> {
    if cols == [] then []
    else
      (if HasKey(item, cols[0]) then [Adapt(Field(item, cols[0]), TypeOf(ti, cols[0]))] else [])
      + CellValues(ti, item, cols[1..])
  }

  function TupleParts(items: seq<Body>, cols: seq<string>): seq<seq<Tok>> {
    if items == [] then []
    else [[Open] + JoinToks(Comma, CellParts(items[0], cols)) + [Close]] + TupleParts(items[1..], cols)
  }

  function TupleValues(ti: TableInfo, items: seq<Body>, cols: seq<string>): seq<Value> {
    if items == [] then [] else CellValues(ti, items[0], cols) + TupleValues(ti, items[1..], cols)
  }

  function IdentParts(names: seq<string>): seq<seq<Tok>> {
    if names == [] then [] else [[Ident(names[0])]] + IdentParts(names[1..])
  }

  function MergeParts(names: seq<string>): seq<seq<Tok>> {
    if names == [] then [] else [[Ident(names[0]), AssignExcluded, Ident(names[0])]] + MergeParts(names[1..])
  }

  /** `INSERT INTO table (columns) VALUES tuples`, or the one-row DEFAULT VALUES form. */
  function ValuesToks(ti: TableInfo, items: seq<Body>, cols: seq<string>): seq<Tok> {
    if cols == [] then [InsertInto, Ident(ti.name), DefaultValues]
    else
      [InsertInto, Ident(ti.name), Space] + ([Open] + JoinToks(Comma, IdentParts(cols)) + [Close])
      + [ValuesKw] + JoinToks(Comma, TupleParts(items, cols))
  }

  function ConflictTarget(ti: TableInfo, onConflict: Option<string>): Result<seq<string>> {
    var target :- if Given(onConflict) then SplitList(onConflict.value) else Ok(ti.pk);
    if Given(onConflict) && !AllKnown(ti, target) then Err(UnknownColumn)
    else if target == [] then Err(BadRequest)
    else Ok(target)
  }

  /** Every item carries every insert column. */
  predicate Homogeneous(items: seq<Body>, cols: seq<string>) {
    forall item, c :: item in items && c in cols ==> HasKey(item, c)
  }

  /** `[c for c in cols if c not in target]`. */
  function Without(cols: seq<string>, target: seq<string>): seq<string> {
    if cols == [] then [] else (if cols[0] in target then [] else [cols[0]]) + Without(cols[1..], target)
  }

  /** What an insert does on a conflict: fail, keep the stored row, or overwrite the listed columns. */
  function ConflictOf(resolution: Option<Resolution>, cols: seq<string>, target: seq<string>): Conflict {
    var update := Without(cols, target);
    if resolution.None? then Conflict.Fail
    else if resolution.value.IgnoreDuplicates? || update == [] then Skip(target)
    else Merge(target, seq(|update|, i requires 0 <= i < |update| => (update[i], update[i])))
  }

  function ConflictToks(resolution: Option<Resolution>, cols: seq<string>, target: seq<string>): seq<Tok> {
    var update := Without(cols, target);
    if resolution.None? then []
    else
      [OnConflict] + ([Open] + JoinToks(Comma, IdentParts(target)) + [Close])
      + if resolution.value.IgnoreDuplicates? || update == [] then [DoNothing]
        else [DoUpdateSet] + JoinToks(Comma, MergeParts(update))
  }

  /** The insert the request asks for, or the first error: its columns and its conflict target. */
  function InsertPlan(ti: TableInfo, items: seq<Body>, columns: Option<string>, onConflict: Option<string>,
                      resolution: Option<Resolution>): Result<(seq<string>, seq<string>)>
  {
    var cols :- InsertColumns(ti, items, columns);
    var target :- if resolution.Some? then ConflictTarget(ti, onConflict) else Ok([]);
    if resolution == Some(MergeDuplicates) && columns.None? && !Homogeneous(items, cols) then Err(BadRequest)
    else Ok((cols, target))
  }

  function InsertFrag(ti: TableInfo, items: seq<Body>, columns: Option<string>, onConflict: Option<string>,
                      resolution: Option<Resolution>, returning: seq<Tok>): Result<Frag>
  {
    var (cols, target) :- InsertPlan(ti, items, columns, onConflict, resolution);
    Ok(Frag(ValuesToks(ti, items, cols) + ConflictToks(resolution, cols, target)
            + (if returning == [] then [] else [ReturningKw] + returning),
            TupleValues(ti, items, cols)))
  }

  /** Every key of every item, in the order the loops meet them. */
  function AllKeys(items: seq<Body>): seq<string> {
    if items == [] then [] else Keys(items[0]) + AllKeys(items[1..])
  }

  /** The index of the first occurrence, or the length when there is none. */
  function FirstAt(keys: seq<string>, k: string): (i: nat)
    ensures i <= |keys|
    ensures i < |keys| ==> keys[i] == k
    ensures i < |keys| <==> k in keys
  {
    if keys == [] || keys[0] == k then 0 else 1 + FirstAt(keys[1..], k)
  }

  /** The listed columns are the keys, each once, in the order they were first met. */
  ghost predicate FirstSeen(cols: seq<string>, keys: seq<string>) {
    && (forall c :: c in cols <==> c in keys)
    && forall i, j :: 0 <= i < j < |cols| ==> FirstAt(keys, cols[i]) < FirstAt(keys, cols[j])
  }

  lemma {:induction false} FirstAtSnoc(keys: seq<string>, k: string, x: string)
    ensures FirstAt(keys + [k], x) == if x in keys then FirstAt(keys, x) else if x == k then |keys| else |keys| + 1
  {
    if keys == [] {
      assert [] + [k] == [k];
    } else {
      assert (keys + [k])[1..] == keys[1..] + [k];
      assert x in keys <==> x == keys[0] || x in keys[1..];
      FirstAtSnoc(keys[1..], k, x);
    }
  }

  lemma FirstSeenSnoc(cols: seq<string>, keys: seq<string>, k: string)
    requires FirstSeen(cols, keys)
    ensures FirstSeen(if k in cols then cols else cols + [k], keys + [k])
  {
    var next := if k in cols then cols else cols + [k];
    forall i, j | 0 <= i < j < |next| ensures FirstAt(keys + [k], next[i]) < FirstAt(keys + [k], next[j]) {
      FirstAtSnoc(keys, k, next[i]);
      FirstAtSnoc(keys, k, next[j]);
      assert next[i] in cols && (j < |cols| ==> next[j] in cols);
    }
  }

  lemma {:induction false} AddKeysSeen(cols: seq<string>, keys: seq<string>, item: Body)
    requires FirstSeen(cols, keys)
    ensures FirstSeen(AddKeys(cols, item), keys + Keys(item))
    decreases |item|
  {
    hide FirstSeen;
    if item == [] {
      assert keys + [] == keys;
    } else {
      var k := item[0].0;
      FirstSeenSnoc(cols, keys, k);
      AddKeysSeen(if k in cols then cols else cols + [k], keys + [k], item[1..]);
      assert keys + [k] + Keys(item[1..]) == keys + Keys(item);
    }
  }

  lemma {:induction false} UnionKeysSeen(cols: seq<string>, keys: seq<string>, items: seq<Body>)
    requires FirstSeen(cols, keys)
    ensures FirstSeen(UnionKeys(cols, items), keys + AllKeys(items))
    decreases |items|
  {
    hide FirstSeen, AddKeys, Keys;
    if items == [] {
      assert keys + [] == keys;
    } else {
      AddKeysSeen(cols, keys, items[0]);
      UnionKeysSeen(AddKeys(cols, items[0]), keys + Keys(items[0]), items[1..]);
      assert keys + Keys(items[0]) + AllKeys(items[1..]) == keys + AllKeys(items);
    }
  }

  /** Without a column list the insert columns are the items' keys, each once, in first-seen order. */
  lemma UnionIsFirstSeen(items: seq<Body>)
    ensures FirstSeen(UnionKeys([], items), AllKeys(items))
  {
    UnionKeysSeen([], [], items);
    assert [] + AllKeys(items) == AllKeys(items);
  }

  lemma {:induction false} KeyOfItem(items: seq<Body>, i: nat, key: string)
    requires i < |items| && HasKey(items[i], key)
    ensures key in AllKeys(items)
  {
    if i > 0 {
      KeyOfItem(items[1..], i - 1, key);
    } else {
      HasKeyIn(items[0], key);
    }
  }

  lemma {:induction false} HasKeyIn(item: Body, key: string)
    ensures HasKey(item, key) <==> key in Keys(item)
  {
    if item != [] {
      HasKeyIn(item[1..], key);
    }
  }

  method UnionOfKeys(items: seq<Body>) returns (cols: seq<string>)
    ensures cols == UnionKeys([], items)
    ensures FirstSeen(cols, AllKeys(items))
  {
    UnionIsFirstSeen(items);
    cols := [];
    for i := 0 to |items|
      invariant UnionKeys([], items) == UnionKeys(cols, items[i..])
    {
      var item := items[i];
      assert items[i..][1..] == items[i + 1..];
      ghost var before := cols;
      for j := 0 to |item|
        invariant AddKeys(before, item) == AddKeys(cols, item[j..])
      {
        assert item[j..][1..] == item[j + 1..];
        if item[j].0 !in cols {
          cols := cols + [item[j].0];
        }
      }
    }
  }

  lemma CellSnoc(ti: TableInfo, item: Body, cols: seq<string>, c: string)
    ensures CellParts(item, cols + [c]) == CellParts(item, cols) + [CellToks(item, c)]
    ensures CellValues(ti, item, cols + [c]) == CellValues(ti, item, cols) + CellValues(ti, item, [c])
  {
    hide Adapt;
    if cols == [] {
      assert [] + [c] == [c] && [c][1..] == [];
    } else {
      assert (cols + [c])[1..] == cols[1..] + [c];
      CellSnoc(ti, item, cols[1..], c);
    }
  }

  lemma {:induction false} TupleSnoc(ti: TableInfo, items: seq<Body>, item: Body, cols: seq<string>)
    ensures TupleParts(items + [item], cols)
         == TupleParts(items, cols) + [[Open] + JoinToks(Comma, CellParts(item, cols)) + [Close]]
    ensures TupleValues(ti, items + [item], cols) == TupleValues(ti, items, cols) + CellValues(ti, item, cols)
  {
    hide CellValues, CellParts, JoinToks;
    if items == [] {
      assert [] + [item] == [item] && [item][1..] == [];
    } else {
      assert (items + [item])[1..] == items[1..] + [item];
      TupleSnoc(ti, items[1..], item, cols);
    }
  }

  /** One `%s` per present key, DEFAULT for a missing one; the parameters grow alongside. */
  method BuildTuples(ti: TableInfo, items: seq<Body>, cols: seq<string>)
    returns (valueRows: seq<seq<Tok>>, params: seq<Value>)
    ensures valueRows == TupleParts(items, cols) && params == TupleValues(ti, items, cols)
  {
    hide Adapt;
    valueRows, params := [], [];
    for i := 0 to |items|
      invariant valueRows == TupleParts(items[..i], cols) && params == TupleValues(ti, items[..i], cols)
    {
      var item := items[i];
      var placeholders: seq<seq<Tok>> := [];
      ghost var before := params;
      for j := 0 to |cols|
        invariant placeholders == CellParts(item, cols[..j]) && params == before + CellValues(ti, item, cols[..j])
      {
        var c := cols[j];
        CellSnoc(ti, item, cols[..j], c);
        assert cols[..j + 1] == cols[..j] + [c];
        assert [c][1..] == [];
        if HasKey(item, c) {
          placeholders := placeholders + [[Param]];
          params := params + [Adapt(Field(item, c), TypeOf(ti, c))];
        } else {
          placeholders := placeholders + [[DefaultKw]];
        }
      }
      assert cols[..|cols|] == cols;
      TupleSnoc(ti, items[..i], item, cols);
      assert items[..i + 1] == items[..i] + [item];
      valueRows := valueRows + [[Open] + JoinToks(Comma, placeholders) + [Close]];
    }
    assert items[..|items|] == items;
  }

  /** Looks for an item that misses an insert column. */
  method AllKeysMatch(items: seq<Body>, cols: seq<string>) returns (ok: bool)
    ensures ok == Homogeneous(items, cols)
  {
    for i := 0 to |items|
      invariant Homogeneous(items[..i], cols)
    {
      for j := 0 to |cols|
        invariant forall c :: c in cols[..j] ==> HasKey(items[i], c)
      {
        if !HasKey(items[i], cols[j]) {
          return false;
        }
      }
    }
    return true;
  }

  method BuildInsert(ti: TableInfo, items: seq<Body>, columns: Option<string>, onConflict: Option<string>,
                     resolution: Option<Resolution>, returning: seq<Tok>) returns (r: Result<Frag>)
    ensures r == InsertFrag(ti, items, columns, onConflict, resolution, returning)
  {
    hide TupleParts, TupleValues, SplitList, ConflictToks;
    var cols;
    if columns.Some? {
      var listed := SplitQuotedList(columns.value);
      if listed.Err? {
        return Err(listed.error);
      }
      cols := listed.value;
      if cols == [] {
        return Err(BadRequest);
      }
    } else {
      cols := UnionOfKeys(items);
    }
    if !AllKnown(ti, cols) {
      return Err(UnknownColumn);
    }
    var valueRows, params := BuildTuples(ti, items, cols);
    var toks: seq<Tok>;
    if cols == [] {
      if |items| != 1 {
        return Err(BadRequest);
      }
      toks := [InsertInto, Ident(ti.name), DefaultValues];
    } else {
      toks := [InsertInto, Ident(ti.name), Space] + ([Open] + JoinToks(Comma, IdentParts(cols)) + [Close])
              + [ValuesKw] + JoinToks(Comma, valueRows);
    }
    assert toks == ValuesToks(ti, items, cols);
    var target: seq<string> := [];
    if resolution.Some? {
      var t := ConflictTarget(ti, onConflict);
      if t.Err? {
        return Err(t.error);
      }
      target := t.value;
      if resolution.value.MergeDuplicates? && columns.None? {
        var same := AllKeysMatch(items, cols);
        if !same {
          return Err(BadRequest);
        }
      }
    }
    toks := toks + ConflictToks(resolution, cols, target);
    if returning != [] {
      toks := toks + ([ReturningKw] + returning);
    }
    assert returning == [] ==> toks + [] == toks;
    return Ok(Frag(toks, params));
  }
}
