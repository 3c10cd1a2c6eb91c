/** Which texts spell an integer, a float or a truth value, told without the parser: digits in groups, a sign, blanks
    around them, a fraction and an exponent, and words in any mixture of cases; and that the parser reads just those. */
module Literals {
  import opened Results
  import opened Text
  import opened Values
  import opened Numerals

  // ---------------------------------------------------------------------------
  // Spellings
  // ---------------------------------------------------------------------------

  predicate Blanks(s: string) {
    forall c :: c in s ==> IsSpace(c)
  }

  datatype Sign = NoSign | Plus | Minus

  function SignText(sign: Sign): string {
    match sign
    case NoSign => ""
    case Plus => "+"
    case Minus => "-"
  }

  function Signed(sign: Sign, n: nat): int {
    if sign == Minus then 0 - n else n
  }

  /** A digit, or an underscore right after one. */
  predicate DigitOrGap(s: string, i: nat)
    requires i < |s|
  {
    IsDigit(s[i]) || (s[i] == '_' && i > 0 && IsDigit(s[i - 1]))
  }

  /** Digits, and underscores only singly and between digits. */
  predicate Grouped(s: string) {
    && s != "" && IsDigit(s[0]) && IsDigit(s[|s| - 1])
    && forall i :: 0 <= i < |s| ==> DigitOrGap(s, i)
  }

  /** The digits without their underscores. */
  function Ungrouped(s: string): string {
    if s == "" then "" else (if s[0] == '_' then "" else [s[0]]) + Ungrouped(s[1..])
  }

  /** `text` is `core` with blanks around it. */
  ghost predicate Around(text: string, core: string) {
    exists lead: string, trail: string :: Blanks(lead) && Blanks(trail) && text == lead + core + trail
  }

  /** A decimal integer: an optional sign and digits. */
  ghost predicate SpellsInt(text: string, n: int) {
    exists sign: Sign, digits: string ::
      Grouped(digits) && Around(text, SignText(sign) + digits) && n == Signed(sign, NatOf(Ungrouped(digits)))
  }

  /** `c` is the letter `l` in lower or upper case; the Kelvin sign is a capital k. */
  predicate CaseOf(c: char, l: char) {
    c == l || ('a' <= l <= 'z' && c as int == l as int - 32) || (l == 'k' && c == '\U{212A}')
  }

  /** The word in any mixture of cases. */
  predicate AnyCase(s: string, word: string) {
    |s| == |word| && forall i :: 0 <= i < |s| ==> CaseOf(s[i], word[i])
  }

  /** Digits on at least one side of an optional point. */
  ghost predicate Fraction(s: string) {
    || Grouped(s)
    || exists whole: string, places: string ::
         s == whole + "." + places && (whole != "" || places != "") && (whole == "" || Grouped(whole))
         && (places == "" || Grouped(places))
  }

  /** Nothing, or an `e` with an optionally signed number of digits. */
  ghost predicate Exponent(s: string) {
    s == "" || exists e: char, sign: Sign, digits: string ::
                 s == [e] + SignText(sign) + digits && CaseOf(e, 'e') && Grouped(digits)
  }

  /** A number with an optional exponent, or a word for what is none. */
  ghost predicate FloatBody(body: string) {
    AnyCase(body, "inf") || AnyCase(body, "infinity") || AnyCase(body, "nan")
    || exists m: string, x: string :: body == m + x && Fraction(m) && Exponent(x)
  }

  /** An optional sign and what follows it. */
  ghost predicate FloatText(s: string) {
    exists sign: Sign, body: string :: s == SignText(sign) + body && FloatBody(body)
  }

  predicate SpellsBool(text: string, b: bool) {
    if b then AnyCase(text, "true") || AnyCase(text, "t") || text == "1"
    else AnyCase(text, "false") || AnyCase(text, "f") || text == "0"
  }

  /** The value a text spells for a column of the type; a float keeps its text. */
  ghost predicate Spells(ty: ColType, text: string, v: Value) {
    match ty
    case IntCol => v.VInt? && SpellsInt(text, v.i)
    case FloatCol => v.VFloat? && FloatText(v.text) && Around(text, v.text)
    case BoolCol => v.VBool? && SpellsBool(text, v.b)
    case StrCol => v == VStr(text)
  }

  // ---------------------------------------------------------------------------
  // Blanks around a text
  // ---------------------------------------------------------------------------

  lemma {:induction false} LStripBlanks(lead: string, s: string)
    requires Blanks(lead)
    ensures LStrip(lead + s) == LStrip(s)
  {
    hide IsSpace;
    if lead == "" {
      assert lead + s == s;
    } else {
      assert lead[0] in lead && forall c :: c in lead[1..] ==> c in lead;
      assert (lead + s)[1..] == lead[1..] + s;
      LStripBlanks(lead[1..], s);
    }
  }

  lemma {:induction false} RStripBlanks(s: string, trail: string)
    requires Blanks(trail)
    ensures RStrip(s + trail) == RStrip(s)
  {
    hide IsSpace;
    if trail == "" {
      assert s + trail == s;
    } else {
      var init := trail[..|trail| - 1];
      assert trail[|trail| - 1] in trail && forall c :: c in init ==> c in trail;
      assert (s + trail)[..|s + trail| - 1] == s + init;
      RStripBlanks(s, init);
    }
  }

  lemma StripAround(text: string, core: string)
    requires Around(text, core) && core != "" && Trimmed(core)
    ensures Strip(text) == core
  {
    hide IsSpace;
    var lead: string, trail: string :| Blanks(lead) && Blanks(trail) && text == lead + core + trail;
    assert text == lead + (core + trail);
    LStripBlanks(lead, core + trail);
    assert (core + trail)[0] == core[0];
    assert LStrip(core + trail) == core + trail;
    RStripBlanks(core, trail);
  }

  lemma AroundStrip(text: string)
    ensures Around(text, Strip(text))
  {
    hide IsSpace, Strip;
    var lead := StripForm(text);
    var core := Strip(text);
    var a, b := text[..lead], text[lead + |core|..];
    assert forall i :: 0 <= i < |b| ==> b[i] == text[lead + |core| + i];
    assert text == a + core + b;
    assert Blanks(a) && Blanks(b);
  }

  // ---------------------------------------------------------------------------
  // Digits
  // ---------------------------------------------------------------------------

  /** Digits read after a number, from the left. */
  function After(acc: nat, digits: string): nat
    decreases |digits|
  {
    if digits == "" then acc else After(acc * 10 + DigitOf(digits[0]), digits[1..])
  }

  lemma {:induction false} AfterSnoc(acc: nat, digits: string, d: char)
    ensures After(acc, digits + [d]) == After(acc, digits) * 10 + DigitOf(d)
    decreases |digits|
  {
    if digits == "" {
      assert [d][1..] == "" && "" + [d] == [d];
    } else {
      assert (digits + [d])[1..] == digits[1..] + [d];
      AfterSnoc(acc * 10 + DigitOf(digits[0]), digits[1..], d);
    }
  }

  lemma {:induction false} AfterIsNat(digits: string)
    ensures After(0, digits) == NatOf(digits)
  {
    if digits != "" {
      var init, d := digits[..|digits| - 1], digits[|digits| - 1];
      assert digits == init + [d];
      AfterSnoc(0, init, d);
      AfterIsNat(init);
    }
  }

  /** The digits from some place of grouped digits on: after a digit, an underscore may come first. */
  predicate GroupedFrom(s: string, ok: bool) {
    if s == "" then ok
    else if IsDigit(s[0]) then GroupedFrom(s[1..], true)
    else s[0] == '_' && ok && GroupedFrom(s[1..], false)
  }

  lemma {:induction false} DigitsFromIs(s: string, acc: nat, ok: bool)
    ensures DigitsFrom(s, acc, ok) == if GroupedFrom(s, ok) then Some(After(acc, Ungrouped(s))) else None
  {
    if s != "" {
      if IsDigit(s[0]) {
        DigitsFromIs(s[1..], acc * 10 + (s[0] as int - '0' as int), true);
        assert ([s[0]] + Ungrouped(s[1..]))[1..] == Ungrouped(s[1..]);
      } else {
        DigitsFromIs(s[1..], acc, false);
        assert "" + Ungrouped(s[1..]) == Ungrouped(s[1..]);
      }
    }
  }

  /** The form from a place on, by positions. */
  predicate GroupedAt(s: string, ok: bool) {
    if s == "" then ok
    else
      && (IsDigit(s[0]) || (ok && s[0] == '_')) && IsDigit(s[|s| - 1])
      && forall i :: 1 <= i < |s| ==> DigitOrGap(s, i)
  }

  lemma GroupedStep(s: string, ok: bool)
    requires s != "" && (IsDigit(s[0]) || (ok && s[0] == '_'))
    ensures GroupedAt(s, ok) <==> GroupedAt(s[1..], IsDigit(s[0]))
  {
    hide IsDigit;
    var t := s[1..];
    assert forall i :: 0 <= i < |t| ==> t[i] == s[i + 1];
    assert forall i :: 1 <= i < |t| ==> (DigitOrGap(t, i) <==> DigitOrGap(s, i + 1));
    if GroupedAt(s, ok) && t != "" {
      assert DigitOrGap(s, 1);
    }
    if GroupedAt(t, IsDigit(s[0])) {
      forall i | 1 <= i < |s| ensures DigitOrGap(s, i) {
        assert i > 1 ==> DigitOrGap(t, i - 1);
      }
    }
  }

  lemma {:induction false} GroupedFromIs(s: string, ok: bool)
    ensures GroupedFrom(s, ok) <==> GroupedAt(s, ok)
  {
    if s != "" && (IsDigit(s[0]) || (ok && s[0] == '_')) {
      assert IsDigit(s[0]) ==> s[0] != '_';
      GroupedStep(s, ok);
      hide GroupedAt, IsDigit;
      GroupedFromIs(s[1..], IsDigit(s[0]));
    }
  }

  lemma GroupedIs(s: string)
    ensures GroupedFrom(s, false) <==> Grouped(s)
  {
    GroupedFromIs(s, false);
    hide IsDigit, GroupedFrom;
    if s != "" {
      assert DigitOrGap(s, 0) <==> IsDigit(s[0]);
      hide DigitOrGap;
    }
  }

  lemma DigitsAre(s: string)
    ensures DigitsFrom(s, 0, false) == if Grouped(s) then Some(NatOf(Ungrouped(s))) else None
    ensures Digits(s) <==> Grouped(s)
  {
    DigitsFromIs(s, 0, false);
    GroupedIs(s);
    AfterIsNat(Ungrouped(s));
  }

  // ---------------------------------------------------------------------------
  // Integers
  // ---------------------------------------------------------------------------

  lemma DigitSolid(c: char)
    requires IsDigit(c)
    ensures !IsSpace(c) && c != '+' && c != '-'
  {}

  lemma SignsSolid()
    ensures !IsSpace('+') && !IsSpace('-')
  {}

  lemma SignedTrimmed(sign: Sign, digits: string)
    requires Grouped(digits)
    ensures var s := SignText(sign) + digits;
            && s != "" && Trimmed(s) && Unsigned(s) == digits && (s[0] == '-' <==> sign == Minus)
  {
    hide IsDigit, IsSpace;
    var s := SignText(sign) + digits;
    DigitSolid(digits[0]);
    DigitSolid(digits[|digits| - 1]);
    SignsSolid();
    assert s[|s| - 1] == digits[|digits| - 1];
    assert s[0] == if sign == NoSign then digits[0] else if sign == Plus then '+' else '-';
    assert s[|SignText(sign)|..] == digits;
  }

  lemma UnsignedSign(t: string) returns (sign: Sign)
    ensures t == SignText(sign) + Unsigned(t) && (t != "" ==> (t[0] == '-' <==> sign == Minus))
    ensures t == "" ==> sign == NoSign
  {
    sign := if t != "" && t[0] == '-' then Minus else if t != "" && t[0] == '+' then Plus else NoSign;
    assert sign != NoSign ==> t == [t[0]] + t[1..];
  }

  lemma ReadIsSpelled(text: string)
    ensures ParseInt(text).Some? ==> SpellsInt(text, ParseInt(text).value)
  {
    hide Strip, Around, NatOf, DigitsFrom, Ungrouped, Grouped;
    var t := Strip(text);
    DigitsAre(Unsigned(t));
    if ParseInt(text).Some? {
      var sign := UnsignedSign(t);
      AroundStrip(text);
      var digits := Unsigned(t);
      assert t != "" by { assert Grouped(digits) ==> digits != "" by { GroupedNotEmpty(digits); } }
      assert Grouped(digits) && Around(text, SignText(sign) + digits);
      assert ParseInt(text).value == Signed(sign, NatOf(Ungrouped(digits)));
    }
  }

  lemma GroupedNotEmpty(s: string)
    ensures Grouped(s) ==> s != ""
  {}

  lemma SpelledIsRead(text: string, sign: Sign, digits: string)
    requires Grouped(digits) && Around(text, SignText(sign) + digits)
    ensures ParseInt(text) == Some(Signed(sign, NatOf(Ungrouped(digits))))
  {
    hide Strip, Around, NatOf, DigitsFrom, Ungrouped, Grouped, IsDigit, Trimmed;
    SignedTrimmed(sign, digits);
    StripAround(text, SignText(sign) + digits);
    DigitsAre(digits);
  }

  /** An integer is read exactly from its spellings, and from nothing else. */
  lemma ParseIntIsSpelled(text: string, n: int)
    ensures ParseInt(text) == Some(n) <==> SpellsInt(text, n)
  {
    hide ParseInt, Around, NatOf, Ungrouped, Grouped;
    ReadIsSpelled(text);
    if SpellsInt(text, n) {
      var sign: Sign, digits: string :|
        Grouped(digits) && Around(text, SignText(sign) + digits) && n == Signed(sign, NatOf(Ungrouped(digits)));
      SpelledIsRead(text, sign, digits);
    }
  }

  /** An integer as it is usually written. */
  function Shown(n: int): string {
    if n < 0 then "-" + Decimal(-n) else Decimal(n)
  }

  lemma {:induction false} PlainDigits(s: string)
    requires s != "" && AllDigits(s)
    ensures Grouped(s) && Ungrouped(s) == s
  {
    assert s[0] in s && s[|s| - 1] in s;
    assert forall i :: 0 <= i < |s| ==> s[i] in s;
    UngroupedPlain(s);
  }

  lemma {:induction false} UngroupedPlain(s: string)
    requires AllDigits(s)
    ensures Ungrouped(s) == s
  {
    if s != "" {
      assert s[0] in s && forall c :: c in s[1..] ==> c in s;
      UngroupedPlain(s[1..]);
      assert s == [s[0]] + s[1..];
    }
  }

  /** Every integer is read back from its decimal text. */
  lemma ShownReadsBack(n: int)
    ensures ParseInt(Shown(n)) == Some(n)
  {
    var m := if n < 0 then 0 - n else n;
    var sign := if n < 0 then Minus else NoSign;
    DecimalReadsBack(m);
    PlainDigits(Decimal(m));
    hide Grouped, Decimal, Ungrouped, NatOf, ParseInt;
    ItselfAround(Shown(n));
    assert "" + Decimal(m) == Decimal(m);
    SpelledIsRead(Shown(n), sign, Decimal(m));
  }

  lemma ItselfAround(s: string)
    ensures Around(s, s)
  {
    assert s == "" + s + "" && Blanks("");
  }

  // ---------------------------------------------------------------------------
  // Words in any case
  // ---------------------------------------------------------------------------

  lemma LowerIsCaseOf(c: char, l: char)
    requires 'a' <= l <= 'z'
    ensures LowerChar(c) == l <==> CaseOf(c, l)
  {}

  /** A word of small letters, in any mixture of cases, is what lower-casing makes of it. */
  lemma LowerIsAnyCase(s: string, word: string)
    requires forall l :: l in word ==> 'a' <= l <= 'z'
    ensures Lower(s) == word <==> AnyCase(s, word)
  {
    forall i | 0 <= i < |s| && |s| == |word| ensures Lower(s)[i] == word[i] <==> CaseOf(s[i], word[i]) {
      assert word[i] in word;
      LowerIsCaseOf(s[i], word[i]);
    }
    hide CaseOf, LowerChar;
  }

  /** So is a single digit, in the one form it has. */
  lemma LowerDigit(s: string, d: char)
    requires IsDigit(d)
    ensures Lower(s) == [d] <==> s == [d]
  {}

  lemma ParseBoolIsSpelled(text: string, b: bool)
    ensures ParseBool(text) == Some(b) <==> SpellsBool(text, b)
  {
    LowerIsAnyCase(text, "true");
    LowerIsAnyCase(text, "t");
    LowerIsAnyCase(text, "false");
    LowerIsAnyCase(text, "f");
    LowerDigit(text, '1');
    LowerDigit(text, '0');
    assert "t"[0] != "f"[0] && "t"[0] != "1"[0] && "f"[0] != "1"[0] && "t"[0] != "0"[0] && "1"[0] != "0"[0];
    assert |"true"| == 4 && |"false"| == 5;
    hide Lower, AnyCase;
  }

  // ---------------------------------------------------------------------------
  // Floats
  // ---------------------------------------------------------------------------

  predicate Figure(c: char) {
    IsDigit(c) || c == '_' || c == '.'
  }

  lemma GroupedFigures(s: string)
    requires Grouped(s)
    ensures forall c :: c in s ==> IsDigit(c) || c == '_'
  {
    hide IsDigit;
    forall c | c in s ensures IsDigit(c) || c == '_' {
      var i :| 0 <= i < |s| && s[i] == c;
      assert DigitOrGap(s, i);
    }
  }

  lemma FractionFigures(s: string)
    requires Fraction(s)
    ensures s != "" && forall c :: c in s ==> Figure(c)
  {
    hide Grouped, IsDigit;
    if Grouped(s) {
      GroupedNotEmpty(s);
      GroupedFigures(s);
    } else {
      var whole: string, places: string :|
        s == whole + "." + places && (whole != "" || places != "") && (whole == "" || Grouped(whole))
        && (places == "" || Grouped(places));
      if whole != "" {
        GroupedFigures(whole);
      }
      if places != "" {
        GroupedFigures(places);
      }
    }
  }

  lemma MantissaIsSpelled(s: string)
    requires Mantissa(s)
    ensures Fraction(s)
  {
    hide Grouped, Digits;
    var p := Partition(s, '.');
    DigitsAre(p.head);
    DigitsAre(p.tail);
    if Grouped(p.head) {
      GroupedNotEmpty(p.head);
    }
    if Grouped(p.tail) {
      GroupedNotEmpty(p.tail);
    }
    assert p.found ==> s == p.head + "." + p.tail;
  }

  lemma NoPoint(s: string)
    ensures Grouped(s) ==> '.' !in s
  {
    if Grouped(s) {
      GroupedFigures(s);
      hide Grouped;
    }
  }

  lemma FractionIsRead(s: string)
    requires Fraction(s)
    ensures Mantissa(s)
  {
    hide Grouped, Digits;
    NoPoint(s);
    DigitsAre(s);
    if Grouped(s) {
      PartitionOf(s, '.', "");
    } else {
      var whole: string, places: string :|
        s == whole + "." + places && (whole != "" || places != "") && (whole == "" || Grouped(whole))
        && (places == "" || Grouped(places));
      NoPoint(whole);
      assert s == whole + ['.'] + places;
      PartitionOf(whole, '.', places);
      DigitsAre(whole);
      DigitsAre(places);
    }
  }

  lemma MantissaIsFraction(s: string)
    ensures Mantissa(s) <==> Fraction(s)
  {
    hide Mantissa, Fraction;
    if Mantissa(s) {
      MantissaIsSpelled(s);
    }
    if Fraction(s) {
      FractionIsRead(s);
    }
  }

  lemma LowerSame(s: string)
    requires forall c :: c in s ==> LowerChar(c) == c
    ensures Lower(s) == s
  {
    hide LowerChar;
    assert forall i :: 0 <= i < |s| ==> s[i] in s;
  }

  lemma LowerFigures(s: string)
    requires forall c :: c in s ==> Figure(c) || c == '+' || c == '-'
    ensures Lower(s) == s && 'e' !in s
  {
    forall c | c in s ensures LowerChar(c) == c {
    }
    LowerSame(s);
  }

  /** Figures and signs are no letters, so lower-casing did not make them. */
  lemma LowerBack(s: string)
    requires forall c :: c in Lower(s) ==> Figure(c) || c == '+' || c == '-'
    ensures Lower(s) == s
  {
    forall c | c in s ensures LowerChar(c) == c {
      var i :| 0 <= i < |s| && s[i] == c;
      assert Lower(s)[i] in Lower(s);
    }
    LowerSame(s);
  }

  lemma LowerConcat(a: string, b: string)
    ensures Lower(a + b) == Lower(a) + Lower(b)
  {
    hide LowerChar;
  }

  /** The syntax of a number without its sign. */
  predicate NumberSyntax(body: string) {
    var p := Partition(Lower(body), 'e');
    Mantissa(p.head) && (p.found ==> Digits(Unsigned(p.tail)))
  }

  lemma SignedFigures(sign: Sign, digits: string)
    requires Grouped(digits)
    ensures forall c :: c in SignText(sign) + digits ==> Figure(c) || c == '+' || c == '-'
  {
    GroupedFigures(digits);
    hide Grouped;
  }

  lemma NumberIsRead(m: string, x: string)
    requires Fraction(m) && Exponent(x)
    ensures NumberSyntax(m + x)
  {
    hide Fraction, Mantissa, Digits, Grouped, Figure, Lower, NumberSyntax, CaseOf, SignText;
    if x == "" {
      assert m + x == m;
      PlainNumberIsRead(m);
    } else {
      var e: char, sign: Sign, digits: string :|
        x == [e] + SignText(sign) + digits && CaseOf(e, 'e') && Grouped(digits);
      assert x == [e] + (SignText(sign) + digits);
      ExponentIsRead(m, e, sign, digits);
    }
  }

  lemma PlainNumberIsRead(m: string)
    requires Fraction(m)
    ensures NumberSyntax(m)
  {
    hide Fraction, Mantissa, Digits, Grouped, Figure, Lower;
    FractionFigures(m);
    MantissaIsFraction(m);
    LowerFigures(m);
    PartitionOf(m, 'e', "");
  }

  lemma ExponentIsRead(m: string, e: char, sign: Sign, digits: string)
    requires Fraction(m) && CaseOf(e, 'e') && Grouped(digits)
    ensures NumberSyntax(m + ([e] + (SignText(sign) + digits)))
  {
    hide Fraction, Mantissa, Digits, Grouped, Figure, Lower, CaseOf, SignText, Unsigned;
    var tail := SignText(sign) + digits;
    FractionFigures(m);
    MantissaIsFraction(m);
    LowerFigures(m);
    SignedFigures(sign, digits);
    LowerFigures(tail);
    LowerLetter(e);
    LowerConcat([e], tail);
    LowerConcat(m, [e] + tail);
    assert Lower(m + ([e] + tail)) == m + ['e'] + tail;
    PartitionOf(m, 'e', tail);
    SignedTrimmed(sign, digits);
    DigitsAre(digits);
  }

  lemma LowerLetter(e: char)
    requires CaseOf(e, 'e')
    ensures Lower([e]) == ['e']
  {
    LowerIsCaseOf(e, 'e');
  }

  lemma NumberIsSpelled(body: string) returns (m: string, x: string)
    requires NumberSyntax(body)
    ensures body == m + x && Fraction(m) && Exponent(x)
  {
    hide Fraction, Mantissa, Digits, Figure, Lower, Exponent;
    var t := Lower(body);
    var p := Partition(t, 'e');
    var k := |p.head|;
    m, x := body[..k], body[k..];
    assert body == m + x;
    LowerConcat(m, x);
    MantissaIsFraction(p.head);
    FractionFigures(p.head);
    assert Lower(m) == p.head by { assert p.head == t[..k]; }
    LowerBack(m);
    if p.found {
      assert Lower(x) == ['e'] + p.tail by { assert t[k..] == ['e'] + p.tail; }
      ExponentIsSpelled(x, p.tail);
    } else {
      assert x == "";
      NoExponent();
    }
  }

  lemma NoExponent()
    ensures Exponent("")
  {}

  lemma ExponentIsSpelled(x: string, tail: string)
    requires Lower(x) == ['e'] + tail && Digits(Unsigned(tail))
    ensures Exponent(x)
  {
    hide Digits, Grouped, Figure, Lower, CaseOf;
    var e, rest := x[0], x[1..];
    assert x == [e] + rest;
    LowerConcat([e], rest);
    assert Lower([e]) == ['e'] && Lower(rest) == tail;
    var sign := UnsignedSign(tail);
    DigitsAre(Unsigned(tail));
    SignedFigures(sign, Unsigned(tail));
    LowerBack(rest);
    LetterIs(e);
    assert x == [e] + SignText(sign) + Unsigned(tail);
  }

  lemma LetterIs(e: char)
    requires Lower([e]) == ['e']
    ensures CaseOf(e, 'e')
  {
    LowerIsCaseOf(e, 'e');
    assert Lower([e])[0] == LowerChar(e);
  }

  predicate Solid(s: string) {
    forall c :: c in s ==> !IsSpace(c)
  }

  lemma SolidTrimmed(s: string)
    requires Solid(s)
    ensures Trimmed(s)
  {
    hide IsSpace;
    assert s != "" ==> s[0] in s && s[|s| - 1] in s;
  }

  lemma FiguresSolid(s: string)
    requires forall c :: c in s ==> Figure(c) || c == '+' || c == '-'
    ensures Solid(s)
  {
    forall c | c in s ensures !IsSpace(c) {
    }
  }

  lemma WordSolid(s: string, word: string)
    requires AnyCase(s, word) && forall l :: l in word ==> 'a' <= l <= 'z'
    ensures Solid(s)
  {
    forall c | c in s ensures !IsSpace(c) {
      var i :| 0 <= i < |s| && s[i] == c;
      assert word[i] in word && CaseOf(s[i], word[i]);
    }
  }

  lemma NumberSolid(m: string, x: string)
    requires Fraction(m) && Exponent(x)
    ensures Solid(m + x) && m != "" && Figure(m[0])
  {
    hide Fraction, Grouped, Figure, IsSpace;
    FractionFigures(m);
    FiguresSolid(m);
    assert m[0] in m;
    if x != "" {
      var e: char, sign: Sign, digits: string :|
        x == [e] + SignText(sign) + digits && CaseOf(e, 'e') && Grouped(digits);
      SignedFigures(sign, digits);
      FiguresSolid(SignText(sign) + digits);
      assert !IsSpace(e) by { LetterSolid(e); }
      assert x == [e] + (SignText(sign) + digits);
    }
  }

  lemma LetterSolid(e: char)
    requires CaseOf(e, 'e')
    ensures !IsSpace(e)
  {}

  lemma BodyIsRead(body: string)
    ensures var t := Lower(body);
            FloatBody(body) <==> t == "inf" || t == "infinity" || t == "nan" || NumberSyntax(body)
  {
    LowerIsAnyCase(body, "inf");
    LowerIsAnyCase(body, "infinity");
    LowerIsAnyCase(body, "nan");
    hide Fraction, Exponent, AnyCase, Lower, NumberSyntax;
    if m: string, x: string :| body == m + x && Fraction(m) && Exponent(x) {
      NumberIsRead(m, x);
    }
    if NumberSyntax(body) {
      var m, x := NumberIsSpelled(body);
    }
  }

  lemma BodySolid(body: string)
    requires FloatBody(body)
    ensures Solid(body) && body != "" && body[0] != '+' && body[0] != '-'
  {
    hide Fraction, Exponent, IsSpace;
    if AnyCase(body, "inf") {
      WordSolid(body, "inf");
      assert CaseOf(body[0], "inf"[0]);
    } else if AnyCase(body, "infinity") {
      WordSolid(body, "infinity");
      assert CaseOf(body[0], "infinity"[0]);
    } else if AnyCase(body, "nan") {
      WordSolid(body, "nan");
      assert CaseOf(body[0], "nan"[0]);
    } else {
      var m: string, x: string :| body == m + x && Fraction(m) && Exponent(x);
      NumberSolid(m, x);
    }
  }

  lemma FloatSolid(sign: Sign, body: string)
    requires FloatBody(body)
    ensures var s := SignText(sign) + body; s != "" && Trimmed(s) && Unsigned(s) == body
  {
    hide FloatBody;
    BodySolid(body);
    var s := SignText(sign) + body;
    assert Solid(s);
    SolidTrimmed(s);
    assert s[|SignText(sign)|..] == body;
  }

  lemma FloatReadIsSpelled(text: string)
    requires FloatSyntax(text)
    ensures FloatText(Strip(text)) && Around(text, Strip(text))
  {
    hide Strip, Around, FloatBody, Lower, NumberSyntax;
    var t := Strip(text);
    AroundStrip(text);
    BodyIsRead(Unsigned(t));
    assert NumberSyntax(Unsigned(t)) <==>
           Mantissa(Partition(Lower(Unsigned(t)), 'e').head)
           && (Partition(Lower(Unsigned(t)), 'e').found ==> Digits(Unsigned(Partition(Lower(Unsigned(t)), 'e').tail)))
      by { NumberSyntaxIs(Unsigned(t)); }
    var sign := UnsignedSign(t);
    assert FloatBody(Unsigned(t));
  }

  lemma NumberSyntaxIs(body: string)
    ensures NumberSyntax(body) <==>
            var p := Partition(Lower(body), 'e'); Mantissa(p.head) && (p.found ==> Digits(Unsigned(p.tail)))
  {}

  lemma FloatSpelledIsRead(text: string, s: string)
    requires FloatText(s) && Around(text, s)
    ensures FloatSyntax(text) && Strip(text) == s
  {
    hide Strip, Around, FloatBody, Lower, NumberSyntax;
    var sign: Sign, body: string :| s == SignText(sign) + body && FloatBody(body);
    FloatSolid(sign, body);
    StripAround(text, s);
    BodyIsRead(body);
    NumberSyntaxIs(body);
  }

  // ---------------------------------------------------------------------------
  // Values
  // ---------------------------------------------------------------------------

  /** Coercion gives exactly the value the text spells for the column's type, and refuses a text that spells none. */
  lemma CoerceIsSpelled(ty: ColType, text: string, v: Value)
    ensures Coerce(ty, text) == Ok(v) <==> Spells(ty, text, v)
    ensures Coerce(ty, text).Err? ==> Coerce(ty, text) == Err(BadRequest)
  {
    hide ParseInt, SpellsInt, FloatSyntax, FloatText, Around, ParseBool, SpellsBool, Strip;
    match ty
    case IntCol =>
      if v.VInt? {
        ParseIntIsSpelled(text, v.i);
      }
    case FloatCol =>
      if FloatSyntax(text) {
        FloatReadIsSpelled(text);
      }
      if v.VFloat? && FloatText(v.text) && Around(text, v.text) {
        FloatSpelledIsRead(text, v.text);
      }
    case BoolCol =>
      if v.VBool? {
        ParseBoolIsSpelled(text, v.b);
      }
    case StrCol =>
  }
}
