/** What a client prints as a group is what the grammar reads back. */
module GroupRoundTrip {
  import opened Results
  import opened Text
  import opened Scanners
  import opened Values
  import opened Filters
  import opened Wishes

  // ---------------------------------------------------------------------------
  // Printing a condition
  // ---------------------------------------------------------------------------

  /** A condition as a client means it, before any text is written. */
  datatype AnyCond =
    | Scalar(name: string, negate: bool, op: Op, lang: Option<string>, value: string)
    | Members(name: string, negate: bool, items: seq<string>)

  /** A list has items instead of a value, and a language stands only where one is allowed. */
  predicate Sensible(c: AnyCond) {
    c.Scalar? ==> !c.op.In? && (c.lang.Some? ==> c.op.IsFts() && LangName(c.lang.value))
  }

  type Cond = c: AnyCond | Sensible(c) witness Members("", false, [])

  function OpText(op: Op, lang: Option<string>): string {
    OpName(op) + if lang.Some? then "(" + lang.value + ")" else ""
  }

  function OpPart(c: Cond): string {
    if c.Scalar? then OpText(c.op, c.lang) else "in"
  }

  /** A list between parentheses, its items quoted or bare. */
  function ListText(items: seq<string>, quotes: Habit): string {
    "(" + PrintList(items, quotes) + ")"
  }

  function ValuePart(c: Cond, quotes: Habit): string {
    if c.Scalar? then Styled(c.value, quotes) else ListText(c.items, quotes)
  }

  function NotPart(c: Cond): string {
    if c.negate then "not." else ""
  }

  /** `name.[not.]op.value`, the value or the items of a list quoted or bare, as the client's habit is. */
  function PrintRest(c: Cond, quotes: Habit): string {
    NotPart(c) + (OpPart(c) + "." + ValuePart(c, quotes))
  }

  function PrintCond(c: Cond, quotes: Habit): string {
    c.name + "." + PrintRest(c, quotes)
  }

  function PrintConds(cs: seq<Cond>, quotes: Habit): seq<string> {
    if cs == [] then [] else [PrintCond(cs[0], quotes)] + PrintConds(cs[1..], quotes)
  }

  function PrintGroup(cs: seq<Cond>, quotes: Habit): string {
    "(" + Join(",", PrintConds(cs, quotes)) + ")"
  }

  // ---------------------------------------------------------------------------
  // What a dialect can carry
  // ---------------------------------------------------------------------------

  /** Only the strict dialect reads quotes, and then a bare item may hold none; a bare item has no comma in it and no
      blank at its ends. */
  predicate ItemCarried(x: string, strict: bool, quotes: Habit) {
    if quotes(x) then strict else BareItem(x) && (strict ==> '"' !in x)
  }

  /** A bare value does not look quoted to the strict dialect and does not end in a blank. */
  predicate ValueCarried(x: string, strict: bool, quotes: Habit) {
    if quotes(x) then strict
    else (strict ==> !LooksQuoted(x)) && (x != "" ==> !IsSpace(x[|x| - 1]))
  }

  predicate LooksQuoted(x: string) {
    |x| >= 2 && x[0] == '"' && x[|x| - 1] == '"'
  }

  predicate PlainName(name: string) {
    '.' !in name && (name != "" ==> !IsSpace(name[0]))
  }

  /** What a group of the dialect can carry: a name without a dot, values that read as written, and no comma or
      parenthesis that the splitter would take for its own. */
  predicate Carried(c: Cond, strict: bool, quotes: Habit) {
    && PlainName(c.name)
    && (match c
        case Scalar(_, _, _, _, value) => ValueCarried(value, strict, quotes)
        case Members(_, _, items) => forall x :: x in items ==> ItemCarried(x, strict, quotes))
    && Whole(PrintCond(c, quotes), strict)
  }

  /** Names the group grammar can carry bare. */
  predicate Printable(c: Cond) {
    Plain(c.name) && PlainName(c.name)
  }

  // ---------------------------------------------------------------------------
  // Meaning of a condition against a spec
  // ---------------------------------------------------------------------------

  /** The filter a condition means on a column: its operator, and the values its texts spell for the column's type. */
  ghost function FilterOf(c: Cond, col: Col): Result<Filter> {
    var test :- if c.Scalar? then Wished(col, c.op, c.lang, c.value) else WishedList(col, c.items);
    Ok(Filter(col.expr, c.negate, test))
  }

  /** The filter the client meant; a group may name allowlisted columns only. */
  ghost function Meant(c: Cond, spec: Spec): Result<Filter> {
    if c.name !in spec.columns then Err(BadRequest) else FilterOf(c, spec.columns[c.name])
  }

  ghost function MeantAll(cs: seq<Cond>, spec: Spec): Result<seq<Filter>> {
    if cs == [] then Ok([])
    else
      var f :- Meant(cs[0], spec);
      var fs :- MeantAll(cs[1..], spec);
      Ok([f] + fs)
  }

  /** The parser's test is the one wished for. */
  lemma FilterOfIs(c: Cond, col: Col)
    ensures var test := if c.Scalar? then ScalarTest(col, c.op, c.lang, c.value) else ListTest(col, c.items);
            FilterOf(c, col) == if test.Ok? then Ok(Filter(col.expr, c.negate, test.value)) else Err(test.error)
  {
    hide ScalarTest, ListTest, Wished, WishedList;
    if c.Scalar? {
      ScalarTestIsWished(col, c.op, c.lang, c.value);
    } else {
      ListTestIsWished(col, c.items);
    }
  }

  // ---------------------------------------------------------------------------
  // Reading operators back
  // ---------------------------------------------------------------------------

  lemma OpNameReadsBack(op: Op)
    ensures OpOf(OpName(op)) == Some(op)
  {}

  lemma OpNameLetters(op: Op)
    ensures Letters(OpName(op)) && OpName(op) != "not"
  {}

  lemma LangFormPlain(name: string)
    requires Letters(name)
    ensures LangForm(name) == None
  {
    assert name[|name| - 1] in name;
    FindIs(name, '(', "");
  }

  lemma LangFormOf(name: string, lang: string)
    requires Letters(name) && LangName(lang)
    ensures LangForm(name + "(" + lang + ")") == Some((name, lang))
  {
    var t := name + "(" + lang + ")";
    assert t == name + ['('] + (lang + ")");
    FindIs(name, '(', lang + ")");
    assert t[..|name|] == name;
    assert t[|name| + 1..|t| - 1] == lang;
  }

  lemma OpTextReadsBack(op: Op, lang: Option<string>)
    requires lang.Some? ==> LangName(lang.value)
    ensures BaseOf(OpText(op, lang)) == OpName(op)
    ensures LangForm(OpText(op, lang)) == if lang.Some? then Some((OpName(op), lang.value)) else None
    ensures '.' !in OpText(op, lang) && OpText(op, lang) != "not"
  {
    OpNameLetters(op);
    var name := OpName(op);
    if lang.Some? {
      LangFormOf(name, lang.value);
      assert OpText(op, lang) == name + "(" + lang.value + ")";
    } else {
      assert OpText(op, lang) == name;
      LangFormPlain(name);
    }
  }

  lemma NotPrefix(t: string, rest: string)
    requires '.' !in t && t != "not"
    ensures !("not." <= t + "." + rest)
  {
    var s := t + "." + rest;
    if |t| < 3 {
      assert s[|t|] == '.';
    } else if |t| == 3 {
      assert s[..3] == t;
    } else {
      assert s[3] == t[3];
    }
  }

  lemma NegationPrinted(negate: bool, op: Op, lang: Option<string>, value: string)
    requires lang.Some? ==> LangName(lang.value)
    ensures var body := OpText(op, lang) + "." + value;
            Negation((if negate then "not." else "") + body) == (negate, body)
  {
    var t := OpText(op, lang);
    var body := t + "." + value;
    OpTextReadsBack(op, lang);
    if negate {
      OpNameReadsBack(op);
      PartitionOf(t, '.', value);
      assert ("not." + body)[4..] == body;
    } else {
      assert "" + body == body;
      NotPrefix(t, value);
    }
  }

  /** The operator part of a printed condition reads back, negated or not. */
  lemma ParsePrinted(negate: bool, op: Op, lang: Option<string>, value: string, strict: bool)
    requires lang.Some? ==> LangName(lang.value) && op.IsFts()
    ensures ParseOp((if negate then "not." else "") + (OpText(op, lang) + "." + value), strict)
         == Ok(OpForm(negate, op, lang, value))
  {
    NegationPrinted(negate, op, lang, value);
    OpTextReadsBack(op, lang);
    OpNameReadsBack(op);
    PartitionOf(OpText(op, lang), '.', value);
  }

  // ---------------------------------------------------------------------------
  // Reading values back
  // ---------------------------------------------------------------------------

  lemma {:induction false} UnescapeEscaped(x: string)
    ensures Unescape(Escape(x)) == x
  {
    if x != "" {
      var e, tail := Escape(x), Escape(x[1..]);
      UnescapeEscaped(x[1..]);
      if x[0] == '"' || x[0] == '\\' {
        assert e[2..] == tail;
      } else {
        assert e[1..] == tail;
      }
      assert [x[0]] + x[1..] == x;
    }
  }

  lemma UnquoteQuoted(x: string)
    ensures Unquote(Quote(x)) == x
  {
    UnescapeEscaped(x);
    assert Quote(x)[1..|Quote(x)| - 1] == Escape(x);
  }

  lemma {:induction false} StrippedBareItems(items: seq<string>)
    requires forall x :: x in items ==> BareItem(x)
    ensures StrippedNonEmpty(items) == items
  {
    hide Strip;
    if items != [] {
      assert items[0] in items && forall x :: x in items[1..] ==> x in items;
      assert BareItem(items[0]);
      StripTrimmed(items[0]);
      StrippedBareItems(items[1..]);
    }
  }

  lemma BlankPiece()
    ensures StrippedNonEmpty([""]) == []
  {
    assert Strip("") == "" && [""][1..] == [];
  }

  lemma {:induction false} BareListIsJoined(items: seq<string>, quotes: Habit)
    requires forall x :: x in items ==> !quotes(x)
    ensures PrintList(items, quotes) == Join(",", items)
  {
    if items != [] {
      assert items[0] in items && forall x :: x in items[1..] ==> x in items;
      BareListIsJoined(items[1..], quotes);
    }
  }

  /** To the lenient dialect a list is what stands between its commas; quotes are mere characters. */
  lemma LenientItemsReadBack(items: seq<string>)
    requires forall x :: x in items ==> BareItem(x)
    ensures LenientItems(Join(",", items)) == items
  {
    if items == [] {
      SplitOnFirst("", ',', "");
      assert SplitOn("", ',') == [""];
      BlankPiece();
    } else {
      forall x | x in items ensures ',' !in x {
        assert BareItem(x);
      }
      SplitOnJoined(',', items);
      StrippedBareItems(items);
    }
  }

  lemma ReadPrintedItems(items: seq<string>, strict: bool, quotes: Habit)
    requires forall x :: x in items ==> ItemCarried(x, strict, quotes)
    ensures ReadItems(ListText(items, quotes), strict) == Ok(items)
  {
    hide PrintList, LenientItems, SplitList;
    var s := ListText(items, quotes);
    assert !IsSpace('(') && !IsSpace(')');
    hide IsSpace;
    StripTrimmed(s);
    assert Inner(s) == PrintList(items, quotes);
    if strict {
      forall x | x in items ensures quotes(x) || (BareItem(x) && '"' !in x) {
        assert ItemCarried(x, strict, quotes);
      }
      SplitListOfPrinted(items, quotes);
    } else {
      forall x | x in items ensures !quotes(x) && BareItem(x) {
        assert ItemCarried(x, strict, quotes);
      }
      BareListIsJoined(items, quotes);
      LenientItemsReadBack(items);
    }
  }

  /** A condition's operator part is read off, whatever stands for its value. */
  lemma ReadForm(c: Cond, col: Col, value: string, strict: bool, inGroup: bool)
    ensures var v := if strict && inGroup && c.Scalar? then Unquote(value) else value;
            var items := ReadItems(value, strict);
            ReadCondition(col, NotPart(c) + (OpPart(c) + "." + value), strict, inGroup)
            == if c.Scalar? then FilterOf(if c.Scalar? then c.(value := v) else c, col)
               else if items.Ok? then FilterOf(if c.Members? then c.(items := items.value) else c, col)
               else Err(items.error)
  {
    hide ScalarTest, ListTest, ReadItems, Unquote, OpText, ParseOp, FilterOf;
    if c.Scalar? {
      FilterOfIs(c.(value := if strict && inGroup then Unquote(value) else value), col);
      ParsePrinted(c.negate, c.op, c.lang, value, strict);
    } else {
      if ReadItems(value, strict).Ok? {
        FilterOfIs(c.(items := ReadItems(value, strict).value), col);
      }
      assert OpText(In, None) == "in" by { OpInText(); }
      ParsePrinted(c.negate, In, None, value, strict);
    }
  }

  lemma OpInText()
    ensures OpText(In, None) == "in"
  {}

  lemma ReadPrintedRest(c: Cond, col: Col, strict: bool, quotes: Habit)
    requires Carried(c, strict, quotes)
    ensures ReadCondition(col, PrintRest(c, quotes), strict, true) == FilterOf(c, col)
  {
    hide ReadCondition, FilterOf, OpPart, NotPart, Whole, ItemCarried, PrintList;
    ReadForm(c, col, ValuePart(c, quotes), strict, true);
    if c.Scalar? {
      UnquoteQuoted(c.value);
      assert !quotes(c.value) && strict ==> Unquote(c.value) == c.value;
    } else {
      ReadPrintedItems(c.items, strict, quotes);
    }
  }

  lemma PrintCondTrimmed(c: Cond, strict: bool, quotes: Habit)
    requires Carried(c, strict, quotes)
    ensures Trimmed(PrintCond(c, quotes))
  {
    var s, v := PrintCond(c, quotes), ValuePart(c, quotes);
    assert s[|s| - 1] == if v == "" then '.' else v[|v| - 1];
    assert s[0] == if c.name == "" then '.' else c.name[0];
  }

  /** A printed condition reads back as the filter that was meant. */
  lemma MemberRoundTrip(c: Cond, spec: Spec, quotes: Habit)
    requires Carried(c, spec.strict, quotes)
    ensures ReadMember(PrintCond(c, quotes), spec) == Meant(c, spec)
  {
    hide PrintRest, ReadCondition, FilterOf, Strip, Trimmed, Whole, ItemCarried, ValueCarried;
    PrintCondTrimmed(c, spec.strict, quotes);
    StripTrimmed(PrintCond(c, quotes));
    assert PrintCond(c, quotes) == c.name + ['.'] + PrintRest(c, quotes);
    PartitionOf(c.name, '.', PrintRest(c, quotes));
    if c.name in spec.columns {
      ReadPrintedRest(c, spec.columns[c.name], spec.strict, quotes);
    }
  }

  // ---------------------------------------------------------------------------
  // Reading groups back
  // ---------------------------------------------------------------------------

  lemma {:induction false} MembersRoundTrip(cs: seq<Cond>, spec: Spec, quotes: Habit)
    requires forall c :: c in cs ==> Carried(c, spec.strict, quotes)
    ensures ReadMembers(PrintConds(cs, quotes), spec) == MeantAll(cs, spec)
    ensures forall p :: p in PrintConds(cs, quotes) ==> Whole(p, spec.strict)
  {
    hide PrintCond, Meant, ReadMember, Whole;
    if cs != [] {
      assert cs[0] in cs && forall c :: c in cs[1..] ==> c in cs;
      MemberRoundTrip(cs[0], spec, quotes);
      assert Whole(PrintCond(cs[0], quotes), spec.strict) by { assert Carried(cs[0], spec.strict, quotes); }
      hide Carried;
      MembersRoundTrip(cs[1..], spec, quotes);
      assert PrintConds(cs, quotes)[1..] == PrintConds(cs[1..], quotes);
    }
  }

  lemma GroupSplits(texts: seq<string>, strict: bool)
    requires forall p :: p in texts ==> Whole(p, strict)
    ensures SplitGroup(Join(",", texts), strict) == Ok(texts)
  {
    hide Whole;
    if strict {
      SplitJoined(texts);
    } else {
      SplitTopJoined(texts);
    }
  }

  /** A list of conditions that the dialect can carry, printed as a group with any of its values quoted, and read by the
      server, is exactly the list of filters that was meant, in order. */
  lemma GroupReadsBack(cs: seq<Cond>, spec: Spec, quotes: Habit)
    requires forall c :: c in cs ==> Carried(c, spec.strict, quotes)
    ensures ReadGroup(PrintGroup(cs, quotes), spec) == if cs == [] then Err(BadRequest) else MeantAll(cs, spec)
  {
    assert !IsSpace('(') && !IsSpace(')');
    hide Carried, ReadMembers, MeantAll, Whole, Strip, IsSpace, SplitGroup;
    var g, texts := PrintGroup(cs, quotes), PrintConds(cs, quotes);
    StripTrimmed(g);
    assert Inner(g) == Join(",", texts);
    MembersRoundTrip(cs, spec, quotes);
    GroupSplits(texts, spec.strict);
    NothingMeant(spec);
    SomethingMeant(cs, spec);
  }

  lemma NothingMeant(spec: Spec)
    ensures MeantAll([], spec) == Ok([])
  {}

  lemma SomethingMeant(cs: seq<Cond>, spec: Spec)
    ensures cs != [] ==> MeantAll(cs, spec) != Ok([])
  {
    hide Meant;
  }

  // ---------------------------------------------------------------------------
  // The usual forms
  // ---------------------------------------------------------------------------

  lemma ThroughTwo(a: string, b: string, st: State)
    requires Through(a, st) == Some(st) && Through(b, st) == Some(st)
    ensures Through(a + b, st) == Some(st)
  {
    ThroughConcat(a, b, st);
  }

  lemma ThroughBracketed(p: string)
    requires Through(p, State(1, false, false)) == Some(State(1, false, false))
    ensures Through("(" + p + ")", START) == Some(START)
  {
    var inside := State(1, false, false);
    ThroughConcat(p, ")", inside);
    assert Through(")", inside) == Some(START);
    assert ("(" + p + ")")[1..] == p + ")";
  }

  lemma ThroughOpPart(c: Cond)
    ensures Through(OpPart(c), START) == Some(START)
  {
    var op := if c.Scalar? then c.op else In;
    OpNameLetters(op);
    ThroughPlain(OpName(op), START);
    if c.Scalar? && c.lang.Some? {
      ThroughPlain(c.lang.value, State(1, false, false));
      ThroughBracketed(c.lang.value);
      ThroughTwo(OpName(op), "(" + c.lang.value + ")", START);
    } else {
      assert OpPart(c) == OpName(op);
    }
  }

  /** Every value is quoted or plain: without comma, parenthesis or quote. */
  predicate QuotedOrPlain(c: Cond, quotes: Habit) {
    match c
    case Scalar(_, _, _, _, value) => quotes(value) || (Plain(value) && (value != "" ==> !IsSpace(value[|value| - 1])))
    case Members(_, _, items) => forall x :: x in items ==> quotes(x) || (BareItem(x) && Plain(x))
  }

  predicate Unquoted(c: Cond, quotes: Habit) {
    if c.Scalar? then !quotes(c.value) else forall x :: x in c.items ==> !quotes(x)
  }

  lemma ThroughValuePart(c: Cond, quotes: Habit)
    requires QuotedOrPlain(c, quotes)
    ensures Through(ValuePart(c, quotes), START) == Some(START)
  {
    hide Plain, BareItem;
    if c.Scalar? {
      ThroughStyled(c.value, quotes, START);
    } else {
      ThroughPrintedList(c.items, quotes, State(1, false, false));
      ThroughBracketed(PrintList(c.items, quotes));
    }
  }

  lemma ThroughPrinted(c: Cond, quotes: Habit)
    requires Printable(c) && QuotedOrPlain(c, quotes)
    ensures Through(PrintCond(c, quotes), START) == Some(START)
  {
    hide Through, OpPart, ValuePart, QuotedOrPlain;
    ThroughOpPart(c);
    ThroughValuePart(c, quotes);
    ThroughPlain(".", START);
    ThroughPlain(NotPart(c), START);
    ThroughPlain(c.name, START);
    ThroughTwo(OpPart(c), ".", START);
    ThroughTwo(OpPart(c) + ".", ValuePart(c, quotes), START);
    ThroughTwo(NotPart(c), OpPart(c) + "." + ValuePart(c, quotes), START);
    ThroughTwo(c.name, ".", START);
    ThroughTwo(c.name + ".", PrintRest(c, quotes), START);
  }

  lemma {:induction false} JoinPlain(items: seq<string>)
    requires forall x :: x in items ==> '"' !in x
    ensures '"' !in Join(",", items)
  {
    if |items| > 1 {
      assert items[0] in items && forall x :: x in items[1..] ==> x in items;
      JoinPlain(items[1..]);
    } else if |items| == 1 {
      assert items[0] in items;
    }
  }

  lemma UnquotedIsQuoteFree(c: Cond, quotes: Habit)
    requires Printable(c) && QuotedOrPlain(c, quotes) && Unquoted(c, quotes)
    ensures '"' !in PrintCond(c, quotes)
  {
    var op := if c.Scalar? then c.op else In;
    OpNameLetters(op);
    assert '"' !in OpPart(c);
    if c.Members? {
      forall x | x in c.items ensures '"' !in x {
        assert Plain(x);
      }
      JoinPlain(c.items);
      BareListIsJoined(c.items, quotes);
    }
    hide OpPart, Join, PrintList;
    assert '"' !in ValuePart(c, quotes);
    hide ValuePart;
    assert '"' !in NotPart(c) && '"' !in c.name;
  }

  /** Conditions whose values are quoted or plain can be carried: by the strict dialect all of them, by the lenient one
      those without a quoted value. */
  lemma UsualIsCarried(c: Cond, strict: bool, quotes: Habit)
    requires Printable(c) && QuotedOrPlain(c, quotes) && (!strict ==> Unquoted(c, quotes))
    ensures Carried(c, strict, quotes)
  {
    ThroughPrinted(c, quotes);
    if !strict {
      UnquotedIsQuoteFree(c, quotes);
      QuoteFreeThrough(PrintCond(c, quotes), 0);
    }
    hide Through, Level, PrintCond, IsSpace;
    PrintedNotEmpty(c, quotes);
    if c.Scalar? {
      assert !quotes(c.value) && c.value != "" ==> c.value[0] in c.value;
    }
  }

  lemma PrintedNotEmpty(c: Cond, quotes: Habit)
    ensures PrintCond(c, quotes) != ""
  {}

  /** Any conditions at all, printed strictly with every value quoted. */
  lemma QuotedGroupReadsBack(cs: seq<Cond>, spec: Spec)
    requires spec.strict && forall c :: c in cs ==> Printable(c)
    ensures ReadGroup(PrintGroup(cs, _ => true), spec) == if cs == [] then Err(BadRequest) else MeantAll(cs, spec)
  {
    var always: Habit := _ => true;
    hide Printable, Carried, PrintGroup, ReadGroup, MeantAll;
    forall c | c in cs ensures Carried(c, true, always) {
      assert QuotedOrPlain(c, always);
      UsualIsCarried(c, true, always);
    }
    GroupReadsBack(cs, spec, always);
  }

  /** Conditions printed without quotes are, in either dialect, exactly the filters meant. */
  lemma BareGroupReadsBack(cs: seq<Cond>, spec: Spec)
    requires forall c :: c in cs ==> Printable(c) && QuotedOrPlain(c, _ => false)
    ensures ReadGroup(PrintGroup(cs, _ => false), spec) == if cs == [] then Err(BadRequest) else MeantAll(cs, spec)
  {
    var never: Habit := _ => false;
    hide Printable, Carried, PrintGroup, ReadGroup, MeantAll, QuotedOrPlain;
    forall c | c in cs ensures Carried(c, spec.strict, never) {
      UsualIsCarried(c, spec.strict, never);
    }
    GroupReadsBack(cs, spec, never);
  }
}
