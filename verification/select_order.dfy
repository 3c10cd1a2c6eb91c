/** What `?select=` and `?order=` ask for, and that printed select lists and order terms read back. */
module SelectOrder {
  import opened Results
  import opened Text
  import opened Values
  import opened Filters
  import opened QueryParser

  // ---------------------------------------------------------------------------
  // ?order=
  // ---------------------------------------------------------------------------

  /** An order is accepted exactly when some term is not blank and every such term is accepted; then it lists what each
      of them asks for, in their order. */
  lemma OrderMeans(value: string, spec: Spec)
    ensures var pieces, r := StrippedNonEmpty(SplitOn(value, ',')), ReadOrder(value, spec);
            && (r.Ok? <==> pieces != [] && forall p :: p in pieces ==> ReadOrderTerm(p, spec).Ok?)
            && (r.Ok? ==> |r.value| == |pieces|
                          && forall i :: 0 <= i < |pieces| ==> TermMeans(pieces[i], spec, Ok(r.value[i])))
  {
    hide StrippedNonEmpty, ReadOrderTerm, TermMeans;
    OrderTermsMean(SplitOn(value, ','), spec);
  }

  lemma {:induction false} OrderTermsMean(terms: seq<string>, spec: Spec)
    ensures var pieces, r := StrippedNonEmpty(terms), ReadOrderTerms(terms, spec);
            && (r.Ok? <==> forall p :: p in pieces ==> ReadOrderTerm(p, spec).Ok?)
            && (r.Ok? ==> |r.value| == |pieces|
                          && forall i :: 0 <= i < |pieces| ==> TermMeans(pieces[i], spec, Ok(r.value[i])))
  {
    hide Strip, ReadOrderTerm, TermMeans;
    if terms != [] {
      var term := Strip(terms[0]);
      OrderTermsMean(terms[1..], spec);
      ReadOrderTermMeans(term, spec);
      var more := StrippedNonEmpty(terms[1..]);
      if term == "" {
        assert [] + more == more;
      } else {
        assert forall p :: p in [term] + more <==> p == term || p in more;
      }
    }
  }

  /** One wished order term. */
  datatype Wish = Wish(name: string, desc: bool, nullsFirst: Option<bool>)

  predicate PrintableWish(w: Wish) {
    '.' !in w.name && ',' !in w.name && (w.name != "" ==> !IsSpace(w.name[0]))
  }

  function WishParts(w: Wish): seq<string> {
    [w.name, if w.desc then "desc" else "asc"]
    + if w.nullsFirst.None? then [] else [if w.nullsFirst.value then "nullsfirst" else "nullslast"]
  }

  function PrintWish(w: Wish): string {
    Join(".", WishParts(w))
  }

  function PrintWishes(ws: seq<Wish>): seq<string> {
    if ws == [] then [] else [PrintWish(ws[0])] + PrintWishes(ws[1..])
  }

  function WishMeant(w: Wish, spec: Spec): Result<OrderTerm> {
    if w.name in spec.columns then Ok(OrderTerm(spec.columns[w.name].expr, w.desc, w.nullsFirst)) else Err(BadRequest)
  }

  function WishesMeant(ws: seq<Wish>, spec: Spec): Result<seq<OrderTerm>> {
    if ws == [] then Ok([])
    else
      var t :- WishMeant(ws[0], spec);
      var ts :- WishesMeant(ws[1..], spec);
      Ok([t] + ts)
  }

  lemma ModifierWords(t: OrderTerm)
    ensures Modify(t, "asc") == Ok(t.(desc := false)) && Modify(t, "desc") == Ok(t.(desc := true))
    ensures Modify(t, "nullsfirst") == Ok(t.(nullsFirst := Some(true)))
    ensures Modify(t, "nullslast") == Ok(t.(nullsFirst := Some(false)))
  {
    assert Lower("asc") == "asc" && Lower("desc") == "desc";
    assert Lower("nullsfirst") == "nullsfirst" && Lower("nullslast") == "nullslast";
  }

  lemma WishModifies(t: OrderTerm, w: Wish)
    requires !t.desc && t.nullsFirst.None?
    ensures ModifyAll(t, WishParts(w)[1..]) == Ok(OrderTerm(t.expr, w.desc, w.nullsFirst))
  {
    hide Modify;
    var mods := WishParts(w)[1..];
    var u := t.(desc := w.desc);
    ModifierWords(t);
    ModifierWords(u);
    assert mods[0] == if w.desc then "desc" else "asc";
    assert ModifyAll(t, mods) == ModifyAll(u, mods[1..]);
    if w.nullsFirst.Some? {
      assert mods[1..] == [if w.nullsFirst.value then "nullsfirst" else "nullslast"];
      assert ModifyAll(u, mods[1..]) == ModifyAll(u.(nullsFirst := w.nullsFirst), mods[1..][1..]);
    } else {
      assert mods[1..] == [];
    }
  }

  lemma WordsFree(w: Wish)
    requires PrintableWish(w)
    ensures forall p :: p in WishParts(w) ==> '.' !in p && ',' !in p
    ensures !IsSpace(WishParts(w)[|WishParts(w)| - 1][|WishParts(w)[|WishParts(w)| - 1]| - 1])
  {}

  lemma JoinEnds(parts: seq<string>)
    requires parts != [] && parts[|parts| - 1] != ""
    ensures Join(".", parts) != ""
    ensures Join(".", parts)[|Join(".", parts)| - 1] == parts[|parts| - 1][|parts[|parts| - 1]| - 1]
  {
    if |parts| > 1 {
      JoinEnds(parts[1..]);
    }
  }

  lemma {:induction false} JoinFree(parts: seq<string>, c: char)
    requires c != '.' && forall p :: p in parts ==> c !in p
    ensures c !in Join(".", parts)
  {
    if |parts| > 1 {
      assert parts[0] in parts && forall p :: p in parts[1..] ==> p in parts;
      JoinFree(parts[1..], c);
    }
  }

  lemma PrintedWish(w: Wish)
    requires PrintableWish(w)
    ensures var s := PrintWish(w); s != "" && Trimmed(s) && ',' !in s && SplitOn(s, '.') == WishParts(w)
  {
    hide IsSpace;
    assert !IsSpace('.') by { DotIsNoSpace(); }
    WordsFree(w);
    var parts := WishParts(w);
    JoinEnds(parts);
    JoinFree(parts, ',');
    SplitOnJoined('.', parts);
    assert PrintWish(w)[0] == if w.name == "" then '.' else w.name[0];
  }

  lemma DotIsNoSpace()
    ensures !IsSpace('.')
  {}

  lemma WishReadsBack(w: Wish, spec: Spec)
    requires PrintableWish(w)
    ensures ReadOrderTerm(PrintWish(w), spec) == WishMeant(w, spec)
  {
    hide WishParts, PrintWish, ModifyAll;
    PrintedWish(w);
    assert WishParts(w)[0] == w.name by { FirstPart(w); }
    if w.name in spec.columns {
      WishModifies(OrderTerm(spec.columns[w.name].expr, false, None), w);
    }
  }

  lemma FirstPart(w: Wish)
    ensures |WishParts(w)| >= 2 && WishParts(w)[0] == w.name
  {}

  lemma {:induction false} WishesReadBack(ws: seq<Wish>, spec: Spec)
    requires forall w :: w in ws ==> PrintableWish(w)
    ensures ReadOrderTerms(PrintWishes(ws), spec) == WishesMeant(ws, spec)
    ensures forall p :: p in PrintWishes(ws) ==> ',' !in p
  {
    hide PrintableWish, PrintWish, WishMeant, ReadOrderTerm, Strip, Trimmed;
    if ws != [] {
      assert ws[0] in ws && forall w :: w in ws[1..] ==> w in ws;
      PrintedWish(ws[0]);
      StripTrimmed(PrintWish(ws[0]));
      WishReadsBack(ws[0], spec);
      WishesReadBack(ws[1..], spec);
      assert PrintWishes(ws)[1..] == PrintWishes(ws[1..]);
    }
  }

  /** Printed order terms read back as exactly the columns, directions and null placements wished for. */
  lemma OrderReadsBack(ws: seq<Wish>, spec: Spec)
    requires forall w :: w in ws ==> PrintableWish(w)
    ensures ReadOrder(Join(",", PrintWishes(ws)), spec) == if ws == [] then Err(BadRequest) else WishesMeant(ws, spec)
  {
    hide PrintableWish, PrintWish, WishMeant, ReadOrderTerm;
    if ws == [] {
      NothingOrdered(spec);
    } else {
      WishesReadBack(ws, spec);
      SplitOnJoined(',', PrintWishes(ws));
      hide ReadOrderTerms, SplitOn, Join;
      assert WishesMeant(ws, spec) != Ok([]);
    }
  }

  lemma NothingOrdered(spec: Spec)
    ensures ReadOrder("", spec) == Err(BadRequest)
  {
    SplitOnFirst("", ',', "");
    var pieces := SplitOn("", ',');
    assert Strip(pieces[0]) == "" && pieces[1..] == [];
    assert ReadOrderTerms(pieces, spec) == ReadOrderTerms(pieces[1..], spec);
  }

  // ---------------------------------------------------------------------------
  // ?select=
  // ---------------------------------------------------------------------------

  /** One wished item of a select list: every column, or one, under its own name or an alias. */
  datatype Item = Star | Column(name: string, alias: Option<string>)

  /** Names and aliases the select grammar can carry; the lenient dialect splices an alias bare. */
  predicate PrintableItem(x: Item, strict: bool) {
    match x
    case Star => true
    case Column(name, None) =>
      name != "" && Trimmed(name) && name != "*" && ',' !in name && ':' !in name && (strict || PlainIdent(name))
    case Column(name, Some(alias)) =>
      PlainIdent(alias) && !IsSpace(alias[0]) && ',' !in name && (name != "" ==> !IsSpace(name[|name| - 1]))
  }

  function PrintItem(x: Item): string {
    match x
    case Star => "*"
    case Column(name, None) => name
    case Column(name, Some(alias)) => alias + ":" + name
  }

  function PrintItems(xs: seq<Item>): seq<string> {
    if xs == [] then [] else [PrintItem(xs[0])] + PrintItems(xs[1..])
  }

  function ItemMeant(x: Item, spec: Spec): Result<seq<Output>>
    requires ValidSpec(spec)
  {
    match x
    case Star => Ok(AllOutputs(spec.names, spec))
    case Column(name, alias) =>
      if name !in spec.columns then Err(BadRequest)
      else Ok([Output(spec.columns[name].expr, if alias.Some? then alias.value else name)])
  }

  function ItemsMeant(xs: seq<Item>, spec: Spec): Result<seq<Output>>
    requires ValidSpec(spec)
  {
    if xs == [] then Ok([])
    else
      var o :- ItemMeant(xs[0], spec);
      var os :- ItemsMeant(xs[1..], spec);
      Ok(o + os)
  }

  lemma IdentChars(s: string)
    requires PlainIdent(s)
    ensures s != "" && ',' !in s && ':' !in s
  {
    var t := if s[|s| - 1] == '\n' then s[..|s| - 1] else s;
    assert s == t || s == t + "\n";
    assert ',' in t ==> 'a' <= ',' <= 'z' || 'A' <= ',' <= 'Z' || IsDigit(',') || ',' == '_';
    assert ':' in t ==> 'a' <= ':' <= 'z' || 'A' <= ':' <= 'Z' || IsDigit(':') || ':' == '_';
  }

  lemma PrintedItem(x: Item, strict: bool)
    requires PrintableItem(x, strict)
    ensures var s := PrintItem(x); s != "" && Trimmed(s) && ',' !in s
  {
    if x.Column? && x.alias.Some? {
      IdentChars(x.alias.value);
      hide IsSpace, PlainIdent;
      assert !IsSpace(':') by { ColonIsNoSpace(); }
      var s := PrintItem(x);
      assert s[|s| - 1] == if x.name == "" then ':' else x.name[|x.name| - 1];
    }
  }

  lemma ColonIsNoSpace()
    ensures !IsSpace(':')
  {}

  lemma ItemReadsBack(x: Item, spec: Spec)
    requires ValidSpec(spec) && PrintableItem(x, spec.strict)
    ensures ReadSelectItem(PrintItem(x), spec) == ItemMeant(x, spec)
  {
    hide AllOutputs, ValidSpec, IsSpace;
    match x
    case Star =>
    case Column(name, None) =>
      PartitionOf(name, ':', "");
    case Column(name, Some(alias)) =>
      IdentChars(alias);
      hide PlainIdent;
      assert PrintItem(x) == alias + [':'] + name;
      PartitionOf(alias, ':', name);
      assert PrintItem(x)[|alias|] == ':';
      assert PrintItem(x) != "*";
  }

  lemma {:induction false} ItemsReadBack(xs: seq<Item>, spec: Spec)
    requires ValidSpec(spec) && forall x :: x in xs ==> PrintableItem(x, spec.strict)
    ensures ReadSelectItems(PrintItems(xs), spec) == ItemsMeant(xs, spec)
    ensures forall p :: p in PrintItems(xs) ==> ',' !in p
  {
    hide ValidSpec, PrintableItem, PrintItem, ItemMeant, ReadSelectItem, Strip, Trimmed;
    if xs != [] {
      assert xs[0] in xs && forall x :: x in xs[1..] ==> x in xs;
      PrintedItem(xs[0], spec.strict);
      StripTrimmed(PrintItem(xs[0]));
      ItemReadsBack(xs[0], spec);
      ItemsReadBack(xs[1..], spec);
      assert PrintItems(xs)[1..] == PrintItems(xs[1..]);
    }
  }

  /** A printed select list reads back as exactly the columns and names wished for, a star standing for all columns. */
  lemma SelectListReadsBack(xs: seq<Item>, spec: Spec)
    requires ValidSpec(spec) && xs != [] && forall x :: x in xs ==> PrintableItem(x, spec.strict)
    ensures ReadSelect(Join(",", PrintItems(xs)), spec)
         == if ItemsMeant(xs, spec) == Ok([]) then Err(BadRequest) else ItemsMeant(xs, spec)
  {
    hide ValidSpec, PrintableItem, PrintItem, ItemMeant, ReadSelectItem;
    ItemsReadBack(xs, spec);
    SplitOnJoined(',', PrintItems(xs));
  }

  /** Any accepted select list, however written: blank items are skipped, every other item is a star, a name, or
      `alias:name`, and its outputs stand in order. */
  lemma {:induction false} SelectMeans(items: seq<string>, spec: Spec)
    requires ValidSpec(spec)
    ensures ReadSelectItems(items, spec).Ok? <==>
            forall p :: p in StrippedNonEmpty(items) ==> ReadSelectItem(p, spec).Ok?
    ensures ReadSelectItems(items, spec) == ReadSelectItems(StrippedNonEmpty(items), spec)
  {
    hide ValidSpec, ReadSelectItem;
    if items != [] {
      var x, more := Strip(items[0]), StrippedNonEmpty(items[1..]);
      SelectMeans(items[1..], spec);
      var lead := StripForm(items[0]);
      StripTrimmed(x);
      hide Strip;
      if x == "" {
        assert [] + more == more;
        assert ReadSelectItem(x, spec) == Ok([]) by { BlankItem(spec); }
        if ReadSelectItems(items[1..], spec).Ok? {
          assert [] + ReadSelectItems(items[1..], spec).value == ReadSelectItems(items[1..], spec).value;
        }
      } else {
        assert ([x] + more)[1..] == more;
        assert forall p :: p in [x] + more <==> p == x || p in more;
      }
    }
  }

  lemma BlankItem(spec: Spec)
    requires ValidSpec(spec)
    ensures ReadSelectItem("", spec) == Ok([])
  {}
}
