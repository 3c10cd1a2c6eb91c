/** The hand-written scanners of the query grammar: quoted lists and the commas that split a group. */
module Scanners {
  import opened Results
  import opened Text

  // ---------------------------------------------------------------------------
  // Quoted lists
  // ---------------------------------------------------------------------------

  function SkipBlanks(s: string): (r: string)
    ensures |r| <= |s|
  {
    if s != "" && s[0] == ' ' then SkipBlanks(s[1..]) else s
  }

  datatype Quoted = Closed(value: string, rest: string) | Unterminated

  /** What an opened quote reads up to its closing quote; a backslash takes the next character as is. */
  function ReadQuoted(s: string): (q: Quoted)
    ensures q.Closed? ==> |q.rest| < |s|
  {
    if s == "" then Unterminated
    else if s[0] == '"' then Closed("", s[1..])
    else
      var escape := s[0] == '\\' && |s| > 1;
      var q := ReadQuoted(if escape then s[2..] else s[1..]);
      if q.Unterminated? then q else Closed([if escape then s[1] else s[0]] + q.value, q.rest)
  }

  /** One step of a list: nothing left, refused, or at most one item and what follows its comma. */
  datatype Item = Done | Refused | Item(items: seq<string>, rest: string)

  /** The text after the comma that must follow a quoted value. */
  function AfterQuoted(q: Quoted): Item {
    if q.Unterminated? then Refused
    else
      var u := SkipBlanks(q.rest);
      if u == "" then Item([q.value], "")
      else if u[0] != ',' then Refused
      else Item([q.value], u[1..])
  }

  /** An unquoted value runs to the next comma and is stripped; a blank one is dropped. */
  function PlainItem(t: string): Item {
    var k := Find(t, ',');
    var token := Strip(t[..k]);
    if '"' in token then Refused
    else Item(if token != "" then [token] else [], if k < |t| then t[k + 1..] else "")
  }

  function ReadItem(s: string): (i: Item)
    ensures i.Item? ==> |i.rest| < |s|
  {
    var t := SkipBlanks(s);
    if t == "" then Done
    else if t[0] == '"' then AfterQuoted(ReadQuoted(t[1..]))
    else PlainItem(t)
  }

  /** The items of a list such as `a,"b,c"`; malformed quoting is refused. */
  function SplitList(s: string): Result<seq<string>>
    decreases |s|
  {
    match ReadItem(s)
    case Done => Ok([])
    case Refused => Err(BadRequest)
    case Item(items, rest) => Prepend(items, SplitList(rest))
  }

  method SkipBlanksAt(raw: string, start: nat) returns (i: nat)
    requires start <= |raw|
    ensures start <= i <= |raw| && SkipBlanks(raw[start..]) == raw[i..]
    ensures i < |raw| ==> raw[i] != ' '
  {
    i := start;
    while i < |raw| && raw[i] == ' '
      invariant start <= i <= |raw|
      invariant SkipBlanks(raw[start..]) == SkipBlanks(raw[i..])
    {
      assert raw[i..][1..] == raw[i + 1..];
      i := i + 1;
    }
  }

  /** Reads from just after an opening quote; the quote is closed when the result stops inside the text. */
  method ReadQuotedAt(raw: string, start: nat) returns (buf: string, i: nat)
    requires start <= |raw|
    ensures start <= i <= |raw|
    ensures ReadQuoted(raw[start..]) == if i < |raw| then Closed(buf, raw[i + 1..]) else Unterminated
  {
    i, buf := start, "";
    while i < |raw| && raw[i] != '"'
      invariant start <= i <= |raw|
      invariant ReadQuoted(raw[start..]) == WithPrefix(buf, ReadQuoted(raw[i..]))
    {
      ReadQuotedStep(raw[i..], buf);
      assert raw[i..][1..] == raw[i + 1..];
      if raw[i] == '\\' && i + 1 < |raw| {
        assert raw[i..][2..] == raw[i + 2..];
        i := i + 1;
      }
      buf := buf + [raw[i]];
      i := i + 1;
    }
    assert buf + "" == buf;
    assert i < |raw| ==> raw[i..][1..] == raw[i + 1..];
  }

  /** What follows the separator at `i`. */
  function AfterComma(raw: string, i: nat): string
    requires i <= |raw|
  {
    if i < |raw| then raw[i + 1..] else ""
  }

  /** The branch for a value that opens with a quote at `start`. */
  method QuotedItemAt(raw: string, start: nat) returns (r: Result<string>, i: nat)
    requires start < |raw| && raw[start] == '"'
    ensures r.Ok? ==> start < i <= |raw| && (i < |raw| ==> raw[i] == ',')
    ensures AfterQuoted(ReadQuoted(raw[start..][1..])) ==
            if r.Ok? then Item([r.value], AfterComma(raw, i)) else Refused
    ensures r.Err? ==> r.error == BadRequest
  {
    assert raw[start..][1..] == raw[start + 1..];
    var buf;
    buf, i := ReadQuotedAt(raw, start + 1);
    if i >= |raw| {
      return Err(BadRequest), i;
    }
    i := SkipBlanksAt(raw, i + 1);
    if i < |raw| {
      assert raw[i..][1..] == raw[i + 1..];
      if raw[i] != ',' {
        return Err(BadRequest), i;
      }
    }
    return Ok(buf), i;
  }

  /** The branch for a bare value at `start`: up to the next comma, stripped. */
  method PlainItemAt(raw: string, start: nat) returns (r: Result<string>, j: nat)
    requires start < |raw|
    ensures start <= j <= |raw| && (j < |raw| ==> raw[j] == ',')
    ensures PlainItem(raw[start..]) ==
            if r.Ok? then Item(if r.value != "" then [r.value] else [], AfterComma(raw, j)) else Refused
    ensures r.Err? ==> r.error == BadRequest
  {
    j := start + Find(raw[start..], ',');
    FindFirst(raw[start..], ',');
    var token := Strip(raw[start..j]);
    assert raw[start..][..j - start] == raw[start..j];
    assert j < |raw| ==> raw[start..][j - start + 1..] == raw[j + 1..];
    return if '"' in token then Err(BadRequest) else Ok(token), j;
  }

  /** The index-scanning loop computes `SplitList`, and terminates on every text. */
  method SplitQuotedList(raw: string) returns (r: Result<seq<string>>)
    ensures r == SplitList(raw)
  {
    hide SkipBlanks, AfterQuoted, PlainItem, ReadQuoted;
    var items: seq<string> := [];
    var i, n := 0, |raw|;
    assert raw[0..] == raw;
    PrependNothing(SplitList(raw));
    while i < n
      invariant 0 <= i <= n
      invariant SplitList(raw) == Prepend(items, SplitList(raw[i..]))
    {
      ghost var here, had := raw[i..], items;
      i := SkipBlanksAt(raw, i);
      if i >= n {
        assert ReadItem(here) == Done;
        break;
      }
      ghost var step := if raw[i] == '"' then AfterQuoted(ReadQuoted(raw[i..][1..])) else PlainItem(raw[i..]);
      assert ReadItem(here) == step;
      if raw[i] == '"' {
        var item;
        item, i := QuotedItemAt(raw, i);
        if item.Err? {
          return Err(item.error);
        }
        items := items + [item.value];
      } else {
        var token;
        token, i := PlainItemAt(raw, i);
        if token.Err? {
          return Err(token.error);
        }
        if token.value != "" {
          items := items + [token.value];
        }
      }
      PrependPrepend(had, step.items, SplitList(step.rest));
      assert items == had + step.items && step.rest == AfterComma(raw, i);
      assert SplitList(here) == Prepend(step.items, SplitList(step.rest));
      if i < n && raw[i] == ',' {
        i := i + 1;
      }
      assert raw[n..] == "";
      assert raw[i..] == step.rest;
    }
    assert items + [] == items;
    return Ok(items);
  }

  function WithPrefix(buf: string, q: Quoted): Quoted {
    if q.Unterminated? then q else Closed(buf + q.value, q.rest)
  }

  lemma ReadQuotedStep(s: string, buf: string)
    requires s != "" && s[0] != '"'
    ensures var escape := s[0] == '\\' && |s| > 1;
            WithPrefix(buf, ReadQuoted(s)) ==
            WithPrefix(buf + [if escape then s[1] else s[0]], ReadQuoted(if escape then s[2..] else s[1..]))
  {
    var escape := s[0] == '\\' && |s| > 1;
    var c := if escape then s[1] else s[0];
    var q := ReadQuoted(if escape then s[2..] else s[1..]);
    if q.Closed? {
      assert buf + ([c] + q.value) == buf + [c] + q.value;
    }
  }

  /** PostgREST's escape of a quoted value: a backslash before each quote and backslash. */
  function Escape(x: string): string {
    if x == "" then ""
    else (if x[0] == '"' || x[0] == '\\' then ['\\', x[0]] else [x[0]]) + Escape(x[1..])
  }

  function Quote(x: string): string {
    "\"" + Escape(x) + "\""
  }

  /** Which texts a client puts in quotes. */
  type Habit = string -> bool

  function Styled(x: string, quotes: Habit): string {
    if quotes(x) then Quote(x) else x
  }

  function PrintList(items: seq<string>, quotes: Habit): string {
    if items == [] then ""
    else if |items| == 1 then Styled(items[0], quotes)
    else Styled(items[0], quotes) + "," + PrintList(items[1..], quotes)
  }

  /** An item that reads as itself between commas. */
  predicate BareItem(x: string) {
    x != "" && Trimmed(x) && ',' !in x
  }

  /** One escaped character in front of a closed text. */
  lemma ReadUnit(unit: string, c: char, tail: string)
    requires ReadQuoted(tail).Closed? && tail != ""
    requires unit == ['\\', c] || (unit == [c] && c != '"' && c != '\\')
    ensures ReadQuoted(unit + tail) == Closed([c] + ReadQuoted(tail).value, ReadQuoted(tail).rest)
  {
    assert (unit + tail)[|unit|..] == tail;
  }

  lemma {:induction false} ReadEscaped(x: string, rest: string)
    ensures ReadQuoted(Escape(x) + "\"" + rest) == Closed(x, rest)
  {
    if x == "" {
      assert ("\"" + rest)[1..] == rest;
    } else {
      ReadEscaped(x[1..], rest);
      var tail := Escape(x[1..]) + "\"" + rest;
      var unit := if x[0] == '"' || x[0] == '\\' then ['\\', x[0]] else [x[0]];
      assert Escape(x) + "\"" + rest == unit + tail;
      ReadUnit(unit, x[0], tail);
      assert x == [x[0]] + x[1..];
    }
  }

  lemma ReadQuotedItem(body: string, value: string, rest: string, tail: string)
    requires ReadQuoted(body) == Closed(value, rest)
    requires if rest == "" then tail == "" else rest[0] == ',' && rest[1..] == tail
    ensures ReadItem("\"" + body) == Item([value], tail)
  {
    hide ReadQuoted;
    assert ("\"" + body)[1..] == body;
    assert SkipBlanks("\"" + body) == "\"" + body;
    assert SkipBlanks(rest) == rest;
  }

  lemma NothingToRead()
    ensures SplitList("") == Ok([])
  {}

  /** A list whose items are quoted, whatever their characters, or stand bare between commas, survives printing and
      splitting. */
  lemma {:induction false} SplitListOfPrinted(items: seq<string>, quotes: Habit)
    requires forall x :: x in items ==> quotes(x) || (BareItem(x) && '"' !in x)
    ensures SplitList(PrintList(items, quotes)) == Ok(items)
  {
    NothingToRead();
    if items != [] {
      hide ReadItem, PrintList, BareItem;
      assert items[0] in items && forall x :: x in items[1..] ==> x in items;
      PrintedFirst(items, quotes);
      ItemThenRest(PrintList(items, quotes), [items[0]], PrintList(items[1..], quotes));
      hide SplitList;
      SplitListOfPrinted(items[1..], quotes);
      assert items == [items[0]] + items[1..];
    }
  }

  lemma ItemThenRest(s: string, items: seq<string>, rest: string)
    requires ReadItem(s) == Item(items, rest)
    ensures SplitList(s) == Prepend(items, SplitList(rest))
  {}

  /** The first item of a printed list is read off its front. */
  lemma PrintedFirst(items: seq<string>, quotes: Habit)
    requires items != [] && (quotes(items[0]) || (BareItem(items[0]) && '"' !in items[0]))
    ensures ReadItem(PrintList(items, quotes)) == Item([items[0]], PrintList(items[1..], quotes))
  {
    hide ReadItem, Escape, ReadQuoted, PrintList, BareItem;
    var tail := PrintList(items[1..], quotes);
    var rest := if |items| == 1 then "" else "," + tail;
    PrintedShape(items, quotes);
    if quotes(items[0]) {
      QuoteShape(items[0], rest);
      ReadEscaped(items[0], rest);
      ReadQuotedItem(Escape(items[0]) + "\"" + rest, items[0], rest, tail);
    } else {
      ReadBareItem(items[0], rest, tail);
    }
  }

  lemma ReadBareItem(x: string, rest: string, tail: string)
    requires BareItem(x) && '"' !in x
    requires if rest == "" then tail == "" else rest == [','] + tail
    ensures ReadItem(x + rest) == Item([x], tail)
  {
    var t := x + rest;
    FindIs(x, ',', tail);
    assert x + rest == if rest == "" then x else x + [','] + tail;
    assert x[0] in x && x[0] == t[0];
    assert t[..|x|] == x;
    StripTrimmed(x);
    assert SkipBlanks(t) == t by { NoBlankToSkip(t); }
    assert rest != "" ==> t[|x| + 1..] == tail;
  }

  lemma NoBlankToSkip(t: string)
    requires t != "" && !IsSpace(t[0])
    ensures SkipBlanks(t) == t
  {}

  lemma PrintedShape(items: seq<string>, quotes: Habit)
    requires items != []
    ensures var tail := PrintList(items[1..], quotes);
            var rest := if |items| == 1 then "" else "," + tail;
            && PrintList(items, quotes) == Styled(items[0], quotes) + rest
            && if rest == "" then tail == "" else rest == [','] + tail && rest[0] == ',' && rest[1..] == tail
  {
    hide Styled;
    var first, tail := Styled(items[0], quotes), PrintList(items[1..], quotes);
    assert first + "" == first;
    FirstThen(first, tail);
  }

  lemma FirstThen(first: string, tail: string)
    ensures first + "," + tail == first + ("," + tail) && ("," + tail)[0] == ',' && ("," + tail)[1..] == tail
  {}

  lemma QuoteShape(x: string, rest: string)
    ensures Quote(x) + rest == "\"" + (Escape(x) + "\"" + rest)
  {
    hide Escape;
  }

  /** The lenient reading of an `in` list: split on commas, strip, drop the blank items. */
  function LenientItems(s: string): seq<string> {
    StrippedNonEmpty(SplitOn(s, ','))
  }

  lemma LenientItemsStep(s: string)
    ensures var k := Find(s, ','); var x := Strip(s[..k]);
            LenientItems(s) == (if x != "" then [x] else []) + LenientItems(if k < |s| then s[k + 1..] else "")
  {
    var k := Find(s, ',');
    var parts := SplitOn(s, ',');
    if k < |s| {
      var rest := SplitOn(s[k + 1..], ',');
      assert parts == [s[..k]] + rest;
      assert parts[1..] == rest;
    } else {
      assert s[..k] == s;
      assert parts == [s] && parts[1..] == [];
      assert SplitOn("", ',') == [""] && [""][1..] == [];
      assert LenientItems("") == [] == StrippedNonEmpty(parts[1..]);
    }
  }

  lemma LenientItemsSkipBlank(s: string)
    requires s != "" && s[0] == ' '
    ensures LenientItems(s) == LenientItems(s[1..])
  {
    var k := Find(s, ',');
    LenientItemsStep(s);
    LenientItemsStep(s[1..]);
    assert s[..k][1..] == s[1..][..k - 1];
    assert Strip(s[..k]) == Strip(s[1..][..k - 1]);
    assert k < |s| ==> s[1..][k..] == s[k + 1..];
  }

  /** Without a quote in it, the strict splitter reads a list exactly as the lenient one does. */
  lemma {:induction false} QuoteFreeSplitList(s: string)
    requires '"' !in s
    ensures SplitList(s) == Ok(LenientItems(s))
    decreases |s|
  {
    if s == "" {
      assert SplitOn(s, ',') == [""] && [""][1..] == [];
    } else if s[0] == ' ' {
      LenientItemsSkipBlank(s);
      QuoteFreeSplitList(s[1..]);
      assert ReadItem(s) == ReadItem(s[1..]);
    } else {
      var k := Find(s, ',');
      LenientItemsStep(s);
      FindFirst(s, ',');
      var lead := StripForm(s[..k]);
      var x := Strip(s[..k]);
      var rest := if k < |s| then s[k + 1..] else "";
      assert ReadItem(s) == PlainItem(s) == Item(if x != "" then [x] else [], rest);
      QuoteFreeSplitList(rest);
    }
  }

  // ---------------------------------------------------------------------------
  // Top-level commas of a group
  // ---------------------------------------------------------------------------

  /** Lenient dialect: commas at parenthesis depth zero separate, quotes are ordinary characters. */
  function SplitTopFrom(s: string, depth: int, buf: string): seq<string> {
    if s == "" then if buf != "" then [buf] else []
    else if s[0] == '(' then SplitTopFrom(s[1..], depth + 1, buf + [s[0]])
    else if s[0] == ')' then SplitTopFrom(s[1..], depth - 1, buf + [s[0]])
    else if s[0] == ',' && depth == 0 then [buf] + SplitTopFrom(s[1..], depth, "")
    else SplitTopFrom(s[1..], depth, buf + [s[0]])
  }

  method SplitTop(s: string) returns (parts: seq<string>)
    ensures parts == SplitTopFrom(s, 0, "")
  {
    parts := [];
    var depth := 0;
    var buf := "";
    for i := 0 to |s|
      invariant SplitTopFrom(s, 0, "") == parts + SplitTopFrom(s[i..], depth, buf)
    {
      var ch := s[i];
      assert s[i..][1..] == s[i + 1..];
      if ch == '(' {
        depth := depth + 1;
        buf := buf + [ch];
      } else if ch == ')' {
        depth := depth - 1;
        buf := buf + [ch];
      } else if ch == ',' && depth == 0 {
        parts := parts + [buf];
        buf := "";
      } else {
        buf := buf + [ch];
      }
    }
    if buf != "" {
      parts := parts + [buf];
    }
  }

  /** Where the strict scanner stands: parenthesis depth, inside quotes, after a backslash. */
  datatype State = State(depth: int, inQuotes: bool, escaped: bool)

  const START := State(0, false, false)

  function Step(st: State, ch: char): State {
    if st.escaped then st.(escaped := false)
    else if st.inQuotes && ch == '\\' then st.(escaped := true)
    else if ch == '"' then st.(inQuotes := !st.inQuotes)
    else if !st.inQuotes && ch == '(' then st.(depth := st.depth + 1)
    else if !st.inQuotes && ch == ')' then st.(depth := st.depth - 1)
    else st
  }

  predicate Separates(st: State, ch: char) {
    ch == ',' && !st.escaped && !st.inQuotes && st.depth == 0
  }

  /** Strict dialect: only commas outside quotes at depth zero separate; an open quote is refused. */
  function SplitTopQuotedFrom(s: string, st: State, buf: string): Result<seq<string>> {
    if s == "" then if st.inQuotes then Err(BadRequest) else Ok(if buf != "" then [buf] else [])
    else if Separates(st, s[0]) then Prepend([buf], SplitTopQuotedFrom(s[1..], st, ""))
    else SplitTopQuotedFrom(s[1..], Step(st, s[0]), buf + [s[0]])
  }

  method SplitTopQuoted(s: string) returns (r: Result<seq<string>>)
    ensures r == SplitTopQuotedFrom(s, START, "")
  {
    var parts: seq<string> := [];
    var depth, inQuotes, escaped := 0, false, false;
    var buf := "";
    assert s[0..] == s;
    PrependNothing(SplitTopQuotedFrom(s, START, ""));
    for i := 0 to |s|
      invariant SplitTopQuotedFrom(s, START, "")
             == Prepend(parts, SplitTopQuotedFrom(s[i..], State(depth, inQuotes, escaped), buf))
    {
      var ch := s[i];
      assert s[i..][1..] == s[i + 1..];
      if escaped {
        buf := buf + [ch];
        escaped := false;
      } else if inQuotes && ch == '\\' {
        buf := buf + [ch];
        escaped := true;
      } else if ch == '"' {
        inQuotes := !inQuotes;
        buf := buf + [ch];
      } else if !inQuotes && ch == '(' {
        depth := depth + 1;
        buf := buf + [ch];
      } else if !inQuotes && ch == ')' {
        depth := depth - 1;
        buf := buf + [ch];
      } else if !inQuotes && ch == ',' && depth == 0 {
        PrependPrepend(parts, [buf], SplitTopQuotedFrom(s[i + 1..], State(depth, inQuotes, escaped), ""));
        parts := parts + [buf];
        buf := "";
      } else {
        buf := buf + [ch];
      }
    }
    if inQuotes {
      return Err(BadRequest);
    }
    assert s[|s|..] == "";
    assert parts + [] == parts;
    if buf != "" {
      parts := parts + [buf];
    }
    return Ok(parts);
  }

  /** The state after reading `p` from `st`, when no comma of `p` separates. */
  function Through(p: string, st: State): Option<State> {
    if p == "" then Some(st)
    else if Separates(st, p[0]) then None
    else Through(p[1..], Step(st, p[0]))
  }

  lemma {:induction false} ThroughConcat(p: string, q: string, st: State)
    requires Through(p, st).Some?
    ensures Through(p + q, st) == Through(q, Through(p, st).value)
  {
    if p == "" {
      assert p + q == q;
    } else {
      assert (p + q)[1..] == p[1..] + q;
      ThroughConcat(p[1..], q, Step(st, p[0]));
    }
  }

  lemma {:induction false} SplitThrough(p: string, rest: string, st: State, buf: string)
    requires Through(p, st).Some?
    ensures SplitTopQuotedFrom(p + rest, st, buf) == SplitTopQuotedFrom(rest, Through(p, st).value, buf + p)
  {
    if p == "" {
      assert p + rest == rest && buf + p == buf;
    } else {
      assert (p + rest)[1..] == p[1..] + rest;
      SplitThrough(p[1..], rest, Step(st, p[0]), buf + [p[0]]);
      assert buf + [p[0]] + p[1..] == buf + p;
    }
  }

  function Deeper(depth: int, ch: char): int {
    if ch == '(' then depth + 1 else if ch == ')' then depth - 1 else depth
  }

  /** The parenthesis depth after `p`, read from `depth` with quotes as ordinary characters, when no comma of `p`
      stands at depth zero. */
  function Level(p: string, depth: int): Option<int> {
    if p == "" then Some(depth)
    else if p[0] == ',' && depth == 0 then None
    else Level(p[1..], Deeper(depth, p[0]))
  }

  /** A text that its dialect reads as one condition: it leaves the scanner where it found it. */
  predicate Whole(p: string, strict: bool) {
    p != "" && if strict then Through(p, START) == Some(START) else Level(p, 0) == Some(0)
  }

  lemma SplitWhole(p: string, more: string)
    requires Whole(p, true)
    ensures SplitTopQuotedFrom(p, START, "") == Ok([p])
    ensures SplitTopQuotedFrom(p + "," + more, START, "") == Prepend([p], SplitTopQuotedFrom(more, START, ""))
  {
    SplitThrough(p, "", START, "");
    assert p + "" == p && "" + p == p;
    SplitThrough(p, "," + more, START, "");
    assert p + ("," + more) == p + "," + more;
    assert ("," + more)[1..] == more;
  }

  /** Joining whole conditions with commas and splitting gives the conditions back. */
  lemma {:induction false} SplitJoined(ps: seq<string>)
    requires forall p :: p in ps ==> Whole(p, true)
    ensures SplitTopQuotedFrom(Join(",", ps), START, "") == Ok(ps)
  {
    if ps != [] {
      assert Whole(ps[0], true);
      assert forall p :: p in ps[1..] ==> p in ps;
      SplitJoined(ps[1..]);
      SplitWhole(ps[0], Join(",", ps[1..]));
      assert ps == if |ps| == 1 then [ps[0]] else [ps[0]] + ps[1..];
    }
  }

  lemma {:induction false} SplitLevel(p: string, rest: string, depth: int, buf: string)
    requires Level(p, depth).Some?
    ensures SplitTopFrom(p + rest, depth, buf) == SplitTopFrom(rest, Level(p, depth).value, buf + p)
  {
    if p == "" {
      assert p + rest == rest && buf + p == buf;
    } else {
      assert (p + rest)[1..] == p[1..] + rest;
      SplitLevel(p[1..], rest, Deeper(depth, p[0]), buf + [p[0]]);
      assert buf + [p[0]] + p[1..] == buf + p;
    }
  }

  lemma SplitTopWhole(p: string, more: string)
    requires Whole(p, false)
    ensures SplitTopFrom(p, 0, "") == [p]
    ensures SplitTopFrom(p + "," + more, 0, "") == [p] + SplitTopFrom(more, 0, "")
  {
    SplitLevel(p, "", 0, "");
    assert p + "" == p && "" + p == p;
    SplitLevel(p, "," + more, 0, "");
    assert p + ("," + more) == p + "," + more;
    assert ("," + more)[1..] == more;
  }

  /** The same for the lenient splitter, whatever quotes the conditions hold. */
  lemma {:induction false} SplitTopJoined(ps: seq<string>)
    requires forall p :: p in ps ==> Whole(p, false)
    ensures SplitTopFrom(Join(",", ps), 0, "") == ps
  {
    if ps != [] {
      assert Whole(ps[0], false);
      assert forall p :: p in ps[1..] ==> p in ps;
      SplitTopJoined(ps[1..]);
      SplitTopWhole(ps[0], Join(",", ps[1..]));
      assert ps == if |ps| == 1 then [ps[0]] else [ps[0]] + ps[1..];
    }
  }

  /** Without a quote in it, a text leaves both scanners in step. */
  lemma {:induction false} QuoteFreeThrough(p: string, depth: int)
    requires '"' !in p
    ensures Through(p, State(depth, false, false))
         == if Level(p, depth).Some? then Some(State(Level(p, depth).value, false, false)) else None
  {
    if p != "" && !(p[0] == ',' && depth == 0) {
      QuoteFreeThrough(p[1..], Step(State(depth, false, false), p[0]).depth);
    }
  }

  predicate Plain(s: string) {
    forall c :: c in s ==> c != ',' && c != '(' && c != ')' && c != '"'
  }

  lemma {:induction false} ThroughPlain(s: string, st: State)
    requires Plain(s) && !st.inQuotes && !st.escaped
    ensures Through(s, st) == Some(st)
  {
    if s != "" {
      assert forall c :: c in s[1..] ==> c in s;
      assert s[0] in s;
      ThroughPlain(s[1..], st);
    }
  }

  lemma {:induction false} ThroughEscaped(x: string, st: State)
    requires st.inQuotes && !st.escaped
    ensures Through(Escape(x), st) == Some(st)
  {
    if x != "" {
      ThroughEscaped(x[1..], st);
      var e := Escape(x);
      if x[0] == '"' || x[0] == '\\' {
        assert e[1..][1..] == Escape(x[1..]);
      } else {
        assert e[1..] == Escape(x[1..]);
      }
    }
  }

  lemma ThroughQuote(x: string, st: State)
    requires !st.inQuotes && !st.escaped
    ensures Through(Quote(x), st) == Some(st)
  {
    var inside := st.(inQuotes := true);
    assert Quote(x)[1..] == Escape(x) + "\"";
    ThroughEscaped(x, inside);
    ThroughConcat(Escape(x), "\"", inside);
    assert Through("\"", inside) == Some(st);
  }

  lemma ThroughStyled(x: string, quotes: Habit, st: State)
    requires !st.inQuotes && !st.escaped && (quotes(x) || Plain(x))
    ensures Through(Styled(x, quotes), st) == Some(st)
  {
    if quotes(x) {
      ThroughQuote(x, st);
    } else {
      ThroughPlain(x, st);
    }
  }

  lemma {:induction false} ThroughPrintedList(items: seq<string>, quotes: Habit, st: State)
    requires !st.inQuotes && !st.escaped && st.depth > 0 && forall x :: x in items ==> quotes(x) || Plain(x)
    ensures Through(PrintList(items, quotes), st) == Some(st)
  {
    hide Styled, Plain;
    if items != [] {
      assert items[0] in items && forall x :: x in items[1..] ==> x in items;
      ThroughStyled(items[0], quotes, st);
      if |items| > 1 {
        ThroughPrintedList(items[1..], quotes, st);
        var first, tail := Styled(items[0], quotes), PrintList(items[1..], quotes);
        FirstThen(first, tail);
        ThroughConcat(first, "," + tail, st);
      }
    }
  }

  /** Without a quote in it, the strict group splitter is the lenient one. */
  lemma {:induction false} QuoteFreeSplitTop(s: string, depth: int, buf: string)
    requires '"' !in s
    ensures SplitTopQuotedFrom(s, State(depth, false, false), buf) == Ok(SplitTopFrom(s, depth, buf))
  {
    if s != "" {
      if s[0] == ',' && depth == 0 {
        QuoteFreeSplitTop(s[1..], depth, "");
      } else {
        QuoteFreeSplitTop(s[1..], Step(State(depth, false, false), s[0]).depth, buf + [s[0]]);
      }
    }
  }
}
