/** What a request asks for under its keys: the numbers, the columns and the order, apart from the parser. */
module Asked {
  import opened Results
  import opened Text
  import opened Values
  import opened Numerals
  import opened Literals
  import opened Filters
  import opened QueryParser
  import opened SelectOrder

  // ---------------------------------------------------------------------------
  // The text under a key
  // ---------------------------------------------------------------------------

  /** The last parameter under the key. */
  predicate LastAt(items: Params, key: string, i: nat) {
    i < |items| && items[i].0 == key && forall j :: i < j < |items| ==> items[j].0 != key
  }

  /** The text of the last parameter under the key, if there is one. */
  ghost function TextUnder(items: Params, key: string): Option<string> {
    if exists i: nat :: LastAt(items, key, i) then var i: nat :| LastAt(items, key, i); Some(items[i].1) else None
  }

  /** An absent key and an empty text ask for nothing. */
  ghost predicate Filled(items: Params, key: string) {
    TextUnder(items, key).Some? && TextUnder(items, key).value != ""
  }

  /** The number written under the key. */
  ghost function Written(items: Params, key: string): Option<int> {
    if Filled(items, key) && exists n :: SpellsInt(TextUnder(items, key).value, n)
    then var n :| SpellsInt(TextUnder(items, key).value, n); Some(n)
    else None
  }

  lemma LastIsOne(items: Params, key: string, i: nat, j: nat)
    requires LastAt(items, key, i) && LastAt(items, key, j)
    ensures i == j
  {}

  lemma {:induction false} GetIsLast(items: Params, key: string)
    ensures Get(items, key) == TextUnder(items, key)
  {
    LastListed(items, key);
    if exists i: nat :: LastAt(items, key, i) {
      var i: nat :| LastAt(items, key, i);
      forall j: nat | LastAt(items, key, j) ensures items[j].1 == items[i].1 {
        LastIsOne(items, key, i, j);
      }
    }
  }

  lemma {:induction false} LastListed(items: Params, key: string)
    ensures GetList(items, key) == [] <==> !exists i: nat :: LastAt(items, key, i)
    ensures forall i: nat :: LastAt(items, key, i) ==>
              GetList(items, key) != [] && GetList(items, key)[|GetList(items, key)| - 1] == items[i].1
  {
    if items != [] {
      var rest := items[1..];
      LastListed(rest, key);
      forall i: nat ensures LastAt(rest, key, i) <==> LastAt(items, key, i + 1) {
        LastInRest(items, key, i);
      }
      if i: nat :| LastAt(items, key, i) {
        assert i > 0 ==> LastAt(rest, key, i - 1);
      }
      forall i: nat | LastAt(items, key, i)
        ensures GetList(items, key) != [] && GetList(items, key)[|GetList(items, key)| - 1] == items[i].1
      {
        if i > 0 {
          assert LastAt(rest, key, i - 1);
        } else {
          FirstIsLast(items, key);
        }
      }
      if items[0].0 == key && GetList(rest, key) == [] {
        NoneListed(rest, key);
        assert LastAt(items, key, 0);
      }
    }
  }

  lemma LastInRest(items: Params, key: string, i: nat)
    requires items != []
    ensures LastAt(items[1..], key, i) <==> LastAt(items, key, i + 1)
  {
    var rest := items[1..];
    assert forall j :: 0 <= j < |rest| ==> rest[j] == items[j + 1];
    if LastAt(rest, key, i) {
      forall j | i + 1 < j < |items| ensures items[j].0 != key {
        assert rest[j - 1] == items[j];
      }
    }
  }

  lemma FirstIsLast(items: Params, key: string)
    requires LastAt(items, key, 0)
    ensures GetList(items, key) == [items[0].1]
  {
    var rest := items[1..];
    assert forall j :: 0 <= j < |rest| ==> rest[j] == items[j + 1];
    NoneUnder(rest, key);
  }

  lemma {:induction false} NoneUnder(items: Params, key: string)
    requires forall j :: 0 <= j < |items| ==> items[j].0 != key
    ensures GetList(items, key) == []
  {
    if items != [] {
      NoneUnder(items[1..], key);
    }
  }

  lemma {:induction false} NoneListed(items: Params, key: string)
    requires GetList(items, key) == []
    ensures forall j :: 0 <= j < |items| ==> items[j].0 != key
  {
    if items != [] {
      NoneListed(items[1..], key);
    }
  }

  lemma ReadsWritten(items: Params, key: string)
    ensures Filled(items, key) <==> Given(Get(items, key))
    ensures Written(items, key) == if Filled(items, key) then ParseInt(TextUnder(items, key).value) else None
  {
    GetIsLast(items, key);
    hide Get, TextUnder, ParseInt, SpellsInt;
    if Filled(items, key) {
      var text := TextUnder(items, key).value;
      forall n ensures ParseInt(text) == Some(n) <==> SpellsInt(text, n) {
        ParseIntIsSpelled(text, n);
      }
      if ParseInt(text).Some? {
        assert SpellsInt(text, ParseInt(text).value);
      }
    }
  }

  // ---------------------------------------------------------------------------
  // The page
  // ---------------------------------------------------------------------------

  /** Something other than a number stands under the key. */
  ghost predicate Unreadable(items: Params, key: string) {
    Filled(items, key) && Written(items, key).None?
  }

  /** The limit before any bound: the number written, or the default when nothing is. */
  ghost function LimitWritten(items: Params, spec: Spec): int {
    if Written(items, "limit").Some? then Written(items, "limit").value else spec.defaultLimit
  }

  /** A limit no page can have: unreadable, negative, or over the maximum where that is not cut. */
  ghost predicate LimitRefused(items: Params, spec: Spec) {
    || Unreadable(items, "limit") || LimitWritten(items, spec) < 0
    || (LimitWritten(items, spec) > spec.maxLimit && !spec.clampLimit)
  }

  /** The limit of the page: as written, and cut to the maximum. */
  ghost function PageLimit(items: Params, spec: Spec): int {
    if LimitWritten(items, spec) > spec.maxLimit then spec.maxLimit else LimitWritten(items, spec)
  }

  /** The offset of the page; nothing written is no offset. */
  ghost function PageOffset(items: Params): int {
    if Written(items, "offset").Some? then Written(items, "offset").value else 0
  }

  ghost predicate OffsetRefused(items: Params) {
    Unreadable(items, "offset") || PageOffset(items) < 0
  }

  /** The parser's limit is the page's, and it refuses exactly what no page can have. */
  lemma ReadsLimit(items: Params, spec: Spec)
    ensures ReadLimit(Get(items, "limit"), spec)
         == if LimitRefused(items, spec) then Err(ValidationFailed) else Ok(PageLimit(items, spec))
  {
    ReadsWritten(items, "limit");
    GetIsLast(items, "limit");
    hide Get, TextUnder, ParseInt, Written;
  }

  lemma ReadsOffset(items: Params)
    ensures ReadOffset(Get(items, "offset"))
         == if OffsetRefused(items) then Err(ValidationFailed) else Ok(PageOffset(items))
  {
    ReadsWritten(items, "offset");
    GetIsLast(items, "offset");
    hide Get, TextUnder, ParseInt, Written;
  }

  // ---------------------------------------------------------------------------
  // The columns
  // ---------------------------------------------------------------------------

  predicate IsLetter(c: char) {
    'a' <= c <= 'z' || 'A' <= c <= 'Z' || c == '_'
  }

  /** Letters and figures, no figure first. */
  predicate IsName(s: string) {
    s != "" && IsLetter(s[0]) && forall c :: c in s ==> IsLetter(c) || '0' <= c <= '9'
  }

  /** A plain name, after which one newline goes unnoticed. */
  ghost predicate PlainWord(s: string) {
    exists t: string :: IsName(t) && (s == t || s == t + "\n")
  }

  /** The columns under their own names, in this order. */
  predicate Columns(names: seq<string>, spec: Spec, os: seq<Output>) {
    |os| == |names|
    && forall i :: 0 <= i < |names| ==>
         names[i] in spec.columns && os[i] == Output(spec.columns[names[i]].expr, names[i])
  }

  /** One item of a select list: a star is every column; `alias:name` is a column under a plain alias; a name alone is a
      column under its own name, which the lenient dialect takes only when it is plain. */
  ghost predicate ItemAsks(item: string, spec: Spec, os: seq<Output>) {
    if item == "*" then Columns(spec.names, spec, os)
    else
      exists alias: string, name: string ::
        && name in spec.columns && os == [Output(spec.columns[name].expr, alias)]
        && (if ':' in item then item == alias + ":" + name && ':' !in alias && PlainWord(alias)
            else item == name && alias == name && (spec.strict || PlainWord(alias)))
  }

  /** The outputs of the items, one after the other. */
  ghost predicate ItemsAsk(pieces: seq<string>, spec: Spec, os: seq<Output>) {
    if pieces == [] then os == []
    else exists k: nat :: k <= |os| && ItemAsks(pieces[0], spec, os[..k]) && ItemsAsk(pieces[1..], spec, os[k..])
  }

  /** The output columns a request asks for: those listed under `select`, or else the default ones. */
  ghost predicate OutputsAsked(items: Params, spec: Spec, os: seq<Output>) {
    if Filled(items, "select")
    then ItemsAsk(StrippedNonEmpty(SplitOn(TextUnder(items, "select").value, ',')), spec, os) && os != []
    else Columns(if spec.defaultSelect.Some? then spec.defaultSelect.value else spec.names, spec, os)
  }

  // ---------------------------------------------------------------------------
  // The order
  // ---------------------------------------------------------------------------

  /** The order a request asks for: the terms listed under `order`, or else the default one. */
  ghost predicate OrderAsked(items: Params, spec: Spec, ts: seq<OrderTerm>) {
    if Filled(items, "order") then
      var pieces := StrippedNonEmpty(SplitOn(TextUnder(items, "order").value, ','));
      ts != [] && |ts| == |pieces| && forall i :: 0 <= i < |ts| ==> TermMeans(pieces[i], spec, Ok(ts[i]))
    else
      |ts| == |spec.defaultOrder|
      && forall i :: 0 <= i < |ts| ==>
           spec.defaultOrder[i].0 in spec.columns
           && ts[i] == OrderTerm(spec.columns[spec.defaultOrder[i].0].expr, spec.defaultOrder[i].1, None)
  }

  // ---------------------------------------------------------------------------
  // The parser agrees
  // ---------------------------------------------------------------------------

  function Trunk(s: string): string {
    if s != "" && s[|s| - 1] == '\n' then s[..|s| - 1] else s
  }

  lemma PlainIsTrunk(s: string)
    ensures PlainIdent(s) <==> IsName(Trunk(s))
  {
    var t := Trunk(s);
    assert t != "" ==> t[0] in t;
    if PlainIdent(s) {
      forall c | c in t ensures IsLetter(c) || '0' <= c <= '9' {
        assert IsDigit(c) ==> '0' <= c <= '9';
      }
    }
    if IsName(t) {
      forall c | c in t ensures 'a' <= c <= 'z' || 'A' <= c <= 'Z' || IsDigit(c) || c == '_' {
        assert IsLetter(c) || '0' <= c <= '9';
      }
    }
  }

  lemma WordIsTrunk(s: string)
    ensures PlainWord(s) <==> IsName(Trunk(s))
  {
    var t := Trunk(s);
    assert t == s || s == t + "\n";
    if PlainWord(s) {
      var u :| IsName(u) && (s == u || s == u + "\n");
      assert s == u + "\n" ==> s[..|s| - 1] == u;
      assert s == u ==> s[|s| - 1] in u;
      assert u == t;
    }
  }

  lemma {:induction false} AllAreColumns(names: seq<string>, spec: Spec)
    requires forall n :: n in names ==> n in spec.columns
    ensures Columns(names, spec, AllOutputs(names, spec))
  {
    if names != [] {
      AllAreColumns(names[1..], spec);
    }
  }

  /** What is read of one item is what it asks for, and a refused item asks for nothing there is. */
  lemma ItemIsAsked(item: string, spec: Spec)
    requires ValidSpec(spec) && item != ""
    ensures var r := ReadSelectItem(item, spec);
            && (r.Ok? ==> ItemAsks(item, spec, r.value))
            && (r.Err? ==> r.error == BadRequest && forall os :: !ItemAsks(item, spec, os))
  {
    AllAreColumns(spec.names, spec);
    hide AllOutputs, Columns, PlainWord, PlainIdent, IsName, Trunk;
    if item != "*" {
      var p := Partition(item, ':');
      PlainIsTrunk(p.head);
      WordIsTrunk(p.head);
      var name := if p.found then p.tail else item;
      forall alias: string, n: string |
        if ':' in item then item == alias + ":" + n && ':' !in alias else item == n && alias == n
        ensures alias == p.head && n == name
      {
        if ':' in item {
          assert alias + ":" + n == alias + [':'] + n;
          PartitionOf(alias, ':', n);
        }
      }
      if p.found {
        assert item == p.head + ":" + p.tail;
      }
    }
  }

  /** The items ask for no outputs there are. */
  ghost predicate NothingAsked(pieces: seq<string>, spec: Spec) {
    forall os :: !ItemsAsk(pieces, spec, os)
  }

  lemma {:induction false} ItemsAreAsked(items: seq<string>, spec: Spec)
    requires ValidSpec(spec)
    ensures var pieces, r := StrippedNonEmpty(items), ReadSelectItems(items, spec);
            && (r.Ok? ==> ItemsAsk(pieces, spec, r.value))
            && (r.Err? ==> r.error == BadRequest && NothingAsked(pieces, spec))
  {
    hide ItemAsks, ReadSelectItem, Strip, ValidSpec, NothingAsked;
    if items != [] {
      var x, more := Strip(items[0]), StrippedNonEmpty(items[1..]);
      ItemsAreAsked(items[1..], spec);
      var r, rest := ReadSelectItem(x, spec), ReadSelectItems(items[1..], spec);
      if x == "" {
        BlankItem(spec);
        assert StrippedNonEmpty(items) == [] + more == more;
        if rest.Ok? {
          assert [] + rest.value == rest.value;
        }
      } else {
        assert StrippedNonEmpty(items) == [x] + more;
        ItemIsAsked(x, spec);
        if r.Ok? && rest.Ok? {
          OneMoreItem(x, more, spec, r.value, rest.value);
        } else {
          NothingMore(x, more, spec);
        }
      }
    }
  }

  lemma OneMoreItem(item: string, more: seq<string>, spec: Spec, os: seq<Output>, rest: seq<Output>)
    requires ItemAsks(item, spec, os) && ItemsAsk(more, spec, rest)
    ensures ItemsAsk([item] + more, spec, os + rest)
  {
    hide ItemAsks;
    assert ([item] + more)[1..] == more;
    assert (os + rest)[..|os|] == os && (os + rest)[|os|..] == rest;
  }

  lemma OneItemLess(item: string, more: seq<string>, spec: Spec, os: seq<Output>) returns (k: nat)
    requires ItemsAsk([item] + more, spec, os)
    ensures k <= |os| && ItemAsks(item, spec, os[..k]) && ItemsAsk(more, spec, os[k..])
  {
    hide ItemAsks;
    assert ([item] + more)[1..] == more;
    k :| k <= |os| && ItemAsks(item, spec, os[..k]) && ItemsAsk(more, spec, os[k..]);
  }

  lemma NothingMore(item: string, more: seq<string>, spec: Spec)
    requires NothingAsked(more, spec) || forall os :: !ItemAsks(item, spec, os)
    ensures NothingAsked([item] + more, spec)
  {
    hide ItemAsks;
    forall os ensures !ItemsAsk([item] + more, spec, os) {
      if ItemsAsk([item] + more, spec, os) {
        var k := OneItemLess(item, more, spec, os);
      }
    }
  }

  lemma NothingSelected(value: string, spec: Spec, os: seq<Output>)
    requires ValidSpec(spec) && ReadSelect(value, spec).Err?
    ensures ReadSelect(value, spec).error == BadRequest
    ensures !(ItemsAsk(StrippedNonEmpty(SplitOn(value, ',')), spec, os) && os != [])
  {
    hide StrippedNonEmpty, SplitOn, ReadSelectItems;
    var pieces := SplitOn(value, ',');
    ItemsAreAsked(pieces, spec);
    if ReadSelectItems(pieces, spec).Ok? && ItemsAsk(StrippedNonEmpty(pieces), spec, os) {
      AskedOnce(StrippedNonEmpty(pieces), spec, os, []);
    }
  }

  /** The outputs read are those asked for, and a refused select asks for nothing there is. */
  lemma OutputsAreAsked(items: Params, spec: Spec)
    requires ValidSpec(spec)
    ensures var sel := Get(items, "select");
            var r := if Given(sel) then ReadSelect(sel.value, spec) else Ok(DefaultOutputs(spec));
            && (r.Ok? ==> OutputsAsked(items, spec, r.value))
            && (r.Err? ==> r.error == BadRequest && forall os :: !OutputsAsked(items, spec, os))
  {
    GetIsLast(items, "select");
    AllAreColumns(spec.names, spec);
    hide Get, TextUnder, StrippedNonEmpty, SplitOn, ItemsAsk, ReadSelectItems, Columns, AllOutputs;
    if Filled(items, "select") {
      var pieces := SplitOn(TextUnder(items, "select").value, ',');
      ItemsAreAsked(pieces, spec);
      forall os | ReadSelect(TextUnder(items, "select").value, spec).Err? ensures !OutputsAsked(items, spec, os) {
        NothingSelected(TextUnder(items, "select").value, spec, os);
      }
    } else if spec.defaultSelect.Some? {
      AllAreColumns(spec.defaultSelect.value, spec);
    }
  }

  /** Items ask for one list of outputs at most. */
  lemma {:induction false} AskedOnce(pieces: seq<string>, spec: Spec, os: seq<Output>, qs: seq<Output>)
    requires ItemsAsk(pieces, spec, os) && ItemsAsk(pieces, spec, qs)
    ensures os == qs
    decreases |pieces|
  {
    hide ItemAsks;
    if pieces != [] {
      var k: nat :| k <= |os| && ItemAsks(pieces[0], spec, os[..k]) && ItemsAsk(pieces[1..], spec, os[k..]);
      var l: nat :| l <= |qs| && ItemAsks(pieces[0], spec, qs[..l]) && ItemsAsk(pieces[1..], spec, qs[l..]);
      AskedOnce(pieces[1..], spec, os[k..], qs[l..]);
      ItemAskedOnce(pieces[0], spec, os[..k], qs[..l]);
      assert os == os[..k] + os[k..] && qs == qs[..l] + qs[l..];
    }
  }

  lemma ItemAskedOnce(item: string, spec: Spec, os: seq<Output>, qs: seq<Output>)
    requires ItemAsks(item, spec, os) && ItemAsks(item, spec, qs)
    ensures os == qs
  {
    hide PlainWord;
    if item != "*" && ':' in item {
      forall alias: string, name: string | item == alias + ":" + name && ':' !in alias
        ensures Partition(item, ':') == Parts(alias, true, name)
      {
        assert alias + ":" + name == alias + [':'] + name;
        PartitionOf(alias, ':', name);
      }
    }
  }

  lemma {:induction false} DefaultTermsAre(ds: seq<(string, bool)>, spec: Spec)
    requires forall d :: d in ds ==> d.0 in spec.columns
    ensures var ts := DefaultTerms(ds, spec);
            |ts| == |ds| && forall i :: 0 <= i < |ts| ==>
              ds[i].0 in spec.columns && ts[i] == OrderTerm(spec.columns[ds[i].0].expr, ds[i].1, None)
  {
    if ds != [] {
      assert ds[0] in ds && forall d :: d in ds[1..] ==> d in ds;
      DefaultTermsAre(ds[1..], spec);
    }
  }

  /** The order read is the one asked for, and a refused one asks for nothing there is. */
  lemma OrderIsAsked(items: Params, spec: Spec)
    requires ValidSpec(spec)
    ensures var ord := Get(items, "order");
            var r := if Given(ord) then ReadOrder(ord.value, spec) else Ok(DefaultTerms(spec.defaultOrder, spec));
            && (r.Ok? ==> OrderAsked(items, spec, r.value))
            && (r.Err? ==> r.error == BadRequest && forall ts :: !OrderAsked(items, spec, ts))
  {
    GetIsLast(items, "order");
    DefaultTermsAre(spec.defaultOrder, spec);
    hide Get, TextUnder, StrippedNonEmpty, SplitOn, TermMeans, ReadOrderTerm, DefaultTerms;
    if Filled(items, "order") {
      var value := TextUnder(items, "order").value;
      var pieces := StrippedNonEmpty(SplitOn(value, ','));
      OrderMeans(value, spec);
      OrderRefusal(value, spec);
      if ReadOrder(value, spec).Err? && pieces != [] {
        var p :| p in pieces && ReadOrderTerm(p, spec).Err?;
        var i :| 0 <= i < |pieces| && pieces[i] == p;
        forall t ensures !TermMeans(pieces[i], spec, Ok(t)) {
          RefusedMeansNothing(p, spec, t);
        }
      }
    }
  }

  lemma RefusedMeansNothing(term: string, spec: Spec, t: OrderTerm)
    requires ReadOrderTerm(term, spec).Err?
    ensures !TermMeans(term, spec, Ok(t))
  {
    ReadOrderTermMeans(term, spec);
    hide Modified, KnownModifier, ReadOrderTerm;
  }

  lemma OrderRefusal(value: string, spec: Spec)
    ensures ReadOrder(value, spec).Err? ==> ReadOrder(value, spec).error == BadRequest
  {
    TermsRefusal(SplitOn(value, ','), spec);
  }

  lemma {:induction false} TermsRefusal(terms: seq<string>, spec: Spec)
    ensures ReadOrderTerms(terms, spec).Err? ==> ReadOrderTerms(terms, spec).error == BadRequest
  {
    hide Strip, ReadOrderTerm;
    if terms != [] {
      ReadOrderTermMeans(Strip(terms[0]), spec);
      TermsRefusal(terms[1..], spec);
    }
  }

  /** The columns, the order and the page a request asks for. */
  ghost predicate Asks(items: Params, spec: Spec, q: Query) {
    OutputsAsked(items, spec, q.outputs) && OrderAsked(items, spec, q.order)
    && q.limit == PageLimit(items, spec) && q.offset == PageOffset(items)
  }

  /** Some columns, some order and some page are asked for. */
  ghost predicate Answerable(items: Params, spec: Spec) {
    && (exists os :: OutputsAsked(items, spec, os))
    && (exists ts :: OrderAsked(items, spec, ts))
    && !LimitRefused(items, spec) && !OffsetRefused(items)
  }

  /** Apart from its filters, a request is read as what it asks for, and refused exactly when that is nothing there
      is. */
  lemma ReadsAsked(items: Params, spec: Spec, reserved: set<string>)
    requires ValidSpec(spec)
    ensures var cs, q := ReadClauses(items, spec, reserved), ReadQuery(items, spec, reserved);
            && (q.Ok? <==> cs.Ok? && Answerable(items, spec))
            && (q.Ok? ==> q.value.clauses == cs.value && Asks(items, spec, q.value))
            && (cs.Err? ==> q == Err(cs.error))
            && (cs.Ok? && q.Err? ==> q.error == BadRequest || q.error == ValidationFailed)
  {
    OutputsAreAsked(items, spec);
    OrderIsAsked(items, spec);
    ReadsLimit(items, spec);
    ReadsOffset(items);
    hide ReadClauses, ReadSelect, ReadOrder, DefaultOutputs, DefaultTerms, ReadLimit, ReadOffset, Get, OutputsAsked,
      OrderAsked, LimitRefused, OffsetRefused, PageLimit, PageOffset, ValidSpec;
  }
}
