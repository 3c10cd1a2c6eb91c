/** The decimal literal a vector is written as: eight places, trailing zeros and a trailing point stripped. Read back,
    every component is the nearest multiple of a hundred-millionth. */
module VectorLiteral {
  import opened Results
  import opened Text
  import opened Values
  import opened Numerals

  // ---------------------------------------------------------------------------
  // Digits
  // ---------------------------------------------------------------------------

  /** The last `k` digits of a number. */
  function Fixed(n: nat, k: nat): string {
    if k == 0 then "" else Fixed(n / 10, k - 1) + [DigitChar(n % 10)]
  }

  /** The value of the digits after a point. */
  function FracOf(s: string): real {
    if s == "" then 0.0 else (DigitOf(s[0]) as real + FracOf(s[1..])) / 10.0
  }

  lemma {:induction false} FixedReadsBack(n: nat, k: nat)
    ensures |Fixed(n, k)| == k && AllDigits(Fixed(n, k))
    ensures NatOf(Fixed(n, k)) == n % Power(k)
  {
    if k > 0 {
      FixedReadsBack(n / 10, k - 1);
      var init := Fixed(n / 10, k - 1);
      assert (init + [DigitChar(n % 10)])[..|init|] == init;
      ModTimesTen(n, Power(k - 1));
    }
  }

  function Power(k: nat): (p: nat)
    ensures p > 0
  {
    if k == 0 then 1 else 10 * Power(k - 1)
  }

  lemma ModTimesTen(n: nat, p: nat)
    requires p > 0
    ensures (n / 10) % p * 10 + n % 10 == n % (10 * p)
  {
    var q, d := n / 10, n % 10;
    var a, r := q / p, q % p;
    assert q == a * p + r && n == q * 10 + d;
    assert n == a * (10 * p) + (r * 10 + d) by { Regroup(a, p, r, d, n); }
    assert 0 <= r * 10 + d < 10 * p;
    Quotient(n, 10 * p, a, r * 10 + d);
  }

  lemma Regroup(a: int, p: int, r: int, d: int, n: int)
    requires n == (a * p + r) * 10 + d
    ensures n == a * (10 * p) + (r * 10 + d)
  {}

  lemma Quotient(n: int, m: int, a: int, r: int)
    requires m > 0 && 0 <= r < m && n == a * m + r
    ensures n % m == r
  {
    var b, s := n / m, n % m;
    assert n == b * m + s;
    Apart(a, b, m, r - s);
  }

  lemma Apart(a: int, b: int, m: int, e: int)
    requires m > 0 && -m < e < m && (b - a) * m == e
    ensures e == 0
  {
    if b > a {
      Multiple(b - a, m);
    } else if b < a {
      Multiple(a - b, m);
      Negated(b - a, a - b, m);
    }
  }

  lemma Multiple(k: int, m: int)
    requires k >= 1 && m > 0
    ensures k * m >= m
  {}

  lemma Negated(k: int, l: int, m: int)
    requires k + l == 0
    ensures k * m == 0 - l * m
  {}

  /** One tenth to the power `k`. */
  function Tenth(k: nat): real {
    if k == 0 then 1.0 else Tenth(k - 1) / 10.0
  }

  function Product(a: real, b: real): real {
    a * b
  }

  lemma {:induction false} FracSnoc(s: string, c: char)
    ensures FracOf(s + [c]) == FracOf(s) + Product(DigitOf(c) as real, Tenth(|s| + 1))
  {
    hide DigitOf;
    if s == "" {
      assert [c][1..] == "" && s + [c] == [c];
      assert Tenth(1) == 1.0 / 10.0;
    } else {
      hide Product;
      var t := s[1..];
      assert (s + [c])[1..] == t + [c];
      FracSnoc(t, c);
      TenthOf(DigitOf(c) as real, Tenth(|s|));
    }
  }

  lemma TenthOf(d: real, t: real)
    ensures Product(d, t) / 10.0 == Product(d, t / 10.0)
  {}

  lemma {:induction false} FracIsNat(s: string)
    ensures FracOf(s) == Product(NatOf(s) as real, Tenth(|s|))
  {
    hide DigitOf;
    if s == "" {
      assert Tenth(0) == 1.0;
    } else {
      hide Product;
      var init, c := s[..|s| - 1], s[|s| - 1];
      assert s == init + [c];
      FracIsNat(init);
      FracSnoc(init, c);
      hide FracOf;
      TenTenths(NatOf(init) as real, DigitOf(c) as real, Tenth(|init|));
      assert NatOf(s) as real == NatOf(init) as real * 10.0 + DigitOf(c) as real;
      assert Tenth(|s|) == Tenth(|init|) / 10.0;
    }
  }

  lemma TenTenths(n: real, d: real, t: real)
    ensures Product(n, t) + Product(d, t / 10.0) == Product(n * 10.0 + d, t / 10.0)
  {}

  // ---------------------------------------------------------------------------
  // One number
  // ---------------------------------------------------------------------------

  const PLACES := 8
  const UNITS := 100000000

  /** The nearest whole number, ties to even, as formatting rounds. */
  function Nearest(x: real): int {
    var low := x.Floor;
    var rest := x - low as real;
    if rest < 0.5 || (rest == 0.5 && low % 2 == 0) then low else low + 1
  }

  lemma NearestIsNear(x: real)
    ensures -0.5 <= Nearest(x) as real - x <= 0.5
    ensures Nearest(x) as real - x == 0.5 || Nearest(x) as real - x == -0.5 ==> Nearest(x) % 2 == 0
    ensures x >= 0.0 ==> Nearest(x) >= 0
  {}

  function Abs(x: real): real {
    if x < 0.0 then 0.0 - x else x
  }

  /** How many hundred-millionths `f"{x:.8f}"` writes. */
  function Units(x: real): nat {
    NearestIsNear(Abs(x) * UNITS as real);
    Nearest(Abs(x) * UNITS as real)
  }

  /** `f"{x:.8f}"` of a finite number that is not negative zero. */
  function FixedPoint(x: real): string {
    (if x < 0.0 then "-" else "") + Decimal(Units(x) / UNITS) + "." + Fixed(Units(x) % UNITS, PLACES)
  }

  /** `s.rstrip(c)` for one character. */
  function RStripChar(s: string, c: char): string {
    if s != "" && s[|s| - 1] == c then RStripChar(s[..|s| - 1], c) else s
  }

  /** `_fmt`. */
  function Fmt(x: real): string {
    var s := RStripChar(RStripChar(FixedPoint(x), '0'), '.');
    if s == "" then "0" else s
  }

  /** What a decimal text denotes. */
  function ReadUnsigned(s: string): real {
    var p := Partition(s, '.');
    NatOf(p.head) as real + FracOf(p.tail)
  }

  function ReadNumber(s: string): real {
    if s != "" && s[0] == '-' then 0.0 - ReadUnsigned(s[1..]) else ReadUnsigned(s)
  }

  /** The number `x` is written as: the nearest multiple of a hundred-millionth. */
  function Rounded(x: real): real {
    var n := Units(x) as real * Tenth(PLACES);
    if x < 0.0 then 0.0 - n else n
  }

  lemma EighthTenth()
    ensures Tenth(PLACES) * UNITS as real == 1.0
    ensures Tenth(PLACES) == 0.00000001
  {
    assert Tenth(1) == 0.1 && Tenth(2) == 0.01;
    assert Tenth(3) == 0.001 && Tenth(4) == 0.0001;
    assert Tenth(5) == 0.00001 && Tenth(6) == 0.000001;
    assert Tenth(7) == 0.0000001;
  }

  /** At most half a unit in the eighth place is lost. */
  lemma RoundedIsNear(x: real)
    ensures Abs(Rounded(x) - x) <= 0.000000005
  {
    EighthTenth();
    NearestIsNear(Abs(x) * UNITS as real);
  }

  /** Stripping zeros after a point leaves the value, and stops at the point. */
  lemma {:induction false} StripZeros(head: string, frac: string) returns (kept: string)
    ensures RStripChar(head + "." + frac, '0') == head + "." + kept
    ensures kept <= frac && FracOf(kept) == FracOf(frac)
    ensures kept == "" || kept[|kept| - 1] != '0'
  {
    var s := head + "." + frac;
    if frac == "" {
      kept := "";
      assert s[|s| - 1] == '.';
    } else {
      var init, c := frac[..|frac| - 1], frac[|frac| - 1];
      assert frac == init + [c];
      assert s[|s| - 1] == c && s[..|s| - 1] == head + "." + init;
      if c == '0' {
        FracSnoc(init, c);
        kept := StripZeros(head, init);
      } else {
        kept := frac;
      }
    }
  }

  lemma RStripLast(s: string, c: char)
    requires s != "" && s[|s| - 1] != c
    ensures RStripChar(s, c) == s
  {}

  lemma RStripOne(s: string, c: char)
    requires s != "" && s[|s| - 1] != c
    ensures RStripChar(s + [c], c) == s
  {
    assert (s + [c])[..|s|] == s;
  }

  /** Dropping the point of a text without places. */
  lemma StripPoint(head: string, kept: string) returns (text: string)
    requires head != "" && AllDigits(head) && AllDigits(kept) && (kept == "" || kept[|kept| - 1] != '0')
    ensures RStripChar(head + "." + kept, '.') == text
    ensures text == if kept == "" then head else head + ['.'] + kept
    ensures IsDigit(text[0]) && (forall c :: c in text ==> IsDigit(c) || c == '.')
    ensures '.' in text ==> text[|text| - 1] != '0' && text[|text| - 1] != '.'
  {
    assert head[0] in head && head[|head| - 1] in head;
    if kept == "" {
      text := head;
      RStripOne(head, '.');
      assert head + "." + kept == head + ['.'];
    } else {
      text := head + ['.'] + kept;
      assert head + "." + kept == text;
      assert text[|text| - 1] == kept[|kept| - 1] && kept[|kept| - 1] in kept;
      RStripLast(text, '.');
    }
  }

  lemma ReadsAs(head: string, kept: string)
    requires '.' !in head
    ensures ReadUnsigned(head + ['.'] + kept) == NatOf(head) as real + FracOf(kept)
    ensures ReadUnsigned(head) == NatOf(head) as real
  {
    PartitionOf(head, '.', kept);
    assert FracOf("") == 0.0;
  }

  /** The text of a number without its sign. */
  lemma UnsignedFmt(head: string, frac: string) returns (text: string)
    requires head != "" && AllDigits(head) && AllDigits(frac)
    ensures RStripChar(RStripChar(head + "." + frac, '0'), '.') == text
    ensures text != "" && ReadUnsigned(text) == NatOf(head) as real + FracOf(frac)
    ensures IsDigit(text[0]) && (forall c :: c in text ==> IsDigit(c) || c == '.')
    ensures '.' in text ==> text[|text| - 1] != '0' && text[|text| - 1] != '.'
  {
    hide RStripChar, ReadUnsigned, NatOf;
    var kept := StripZeros(head, frac);
    assert '.' !in head;
    assert forall c :: c in kept ==> c in frac;
    text := StripPoint(head, kept);
    ReadsAs(head, kept);
    assert FracOf("") == 0.0;
  }

  lemma {:induction false} RStripSigned(s: string, c: char)
    requires RStripChar(s, c) != "" && c != '-'
    ensures RStripChar("-" + s, c) == "-" + RStripChar(s, c)
  {
    var t := "-" + s;
    if s[|s| - 1] == c {
      assert t[..|t| - 1] == "-" + s[..|s| - 1];
      RStripSigned(s[..|s| - 1], c);
    }
  }

  predicate NumberText(s: string) {
    s != "" && forall c :: c in s ==> IsDigit(c) || c == '.' || c == '-'
  }

  /** The digits of a number, without its sign. */
  lemma DigitsReadBack(x: real) returns (text: string)
    ensures var s := Decimal(Units(x) / UNITS) + "." + Fixed(Units(x) % UNITS, PLACES);
            text == RStripChar(RStripChar(s, '0'), '.') && RStripChar(s, '0') != ""
    ensures text != "" && ReadUnsigned(text) == Units(x) as real * Tenth(PLACES)
    ensures IsDigit(text[0]) && forall c :: c in text ==> IsDigit(c) || c == '.'
    ensures '.' in text ==> text[|text| - 1] != '0' && text[|text| - 1] != '.'
  {
    hide RStripChar, Fixed, Decimal, FracOf, NatOf, Units, ReadUnsigned, Tenth, AllDigits, Power, IsDigit;
    var n := Units(x);
    DecimalReadsBack(n / UNITS);
    FixedReadsBack(n % UNITS, PLACES);
    var head, frac := Decimal(n / UNITS), Fixed(n % UNITS, PLACES);
    text := UnsignedFmt(head, frac);
    UnitsSplit(n, frac);
    StrippedNonEmptyInside(head + "." + frac);
  }

  lemma StrippedNonEmptyInside(s: string)
    ensures RStripChar(s, '0') == "" ==> RStripChar(RStripChar(s, '0'), '.') == ""
  {}

  lemma SignedShape(a: string, b: string, c: string)
    ensures "-" + a + b + c == "-" + (a + b + c)
    ensures "" + a + b + c == a + b + c
  {}

  lemma FmtIs(x: real, text: string)
    requires var s := Decimal(Units(x) / UNITS) + "." + Fixed(Units(x) % UNITS, PLACES);
             text == RStripChar(RStripChar(s, '0'), '.') && RStripChar(s, '0') != "" && text != ""
    ensures Fmt(x) == if x < 0.0 then "-" + text else text
  {
    hide RStripChar, Fixed, Decimal, Units;
    var head, frac := Decimal(Units(x) / UNITS), Fixed(Units(x) % UNITS, PLACES);
    var s := head + "." + frac;
    SignedShape(head, ".", frac);
    if x < 0.0 {
      RStripSigned(s, '0');
      RStripSigned(RStripChar(s, '0'), '.');
    }
  }

  /** Every number is written as the nearest eight-place decimal, without trailing zeros or a trailing point. */
  lemma FmtReadsBack(x: real)
    ensures ReadNumber(Fmt(x)) == Rounded(x)
    ensures NumberText(Fmt(x))
    ensures '.' in Fmt(x) ==> Fmt(x)[|Fmt(x)| - 1] != '0' && Fmt(x)[|Fmt(x)| - 1] != '.'
  {
    hide RStripChar, Fixed, Decimal, Units, ReadUnsigned, Tenth, Fmt;
    var text := DigitsReadBack(x);
    FmtIs(x, text);
    assert ("-" + text)[1..] == text;
  }

  lemma UnitsSplit(n: nat, frac: string)
    requires |frac| == PLACES && NatOf(frac) == (n % UNITS) % Power(PLACES)
    ensures (n / UNITS) as real + FracOf(frac) == n as real * Tenth(PLACES)
  {
    hide FracOf, NatOf, Power, Tenth;
    PowerEight();
    FracIsNat(frac);
    EighthTenth();
    assert n == n / UNITS * UNITS + n % UNITS;
    assert n as real == (n / UNITS) as real * UNITS as real + (n % UNITS) as real;
  }

  lemma PowerEight()
    ensures Power(PLACES) == UNITS
  {
    assert Power(2) == 100 && Power(4) == 10000;
    assert Power(6) == 1000000;
  }

  // ---------------------------------------------------------------------------
  // The vector
  // ---------------------------------------------------------------------------

  function FmtAll(v: seq<real>): seq<string> {
    if v == [] then [] else [Fmt(v[0])] + FmtAll(v[1..])
  }

  /** `mem_vector_literal`. */
  function Literal(v: seq<real>): string {
    "[" + Join(",", FmtAll(v)) + "]"
  }

  function ReadAll(parts: seq<string>): seq<real> {
    if parts == [] then [] else [ReadNumber(parts[0])] + ReadAll(parts[1..])
  }

  /** The components of a bracketed list of decimals. */
  function ReadVector(s: string): Option<seq<real>> {
    if |s| < 2 || s[0] != '[' || s[|s| - 1] != ']' then None
    else if |s| == 2 then Some([])
    else Some(ReadAll(SplitOn(s[1..|s| - 1], ',')))
  }

  function RoundedAll(v: seq<real>): seq<real> {
    seq(|v|, i requires 0 <= i < |v| => Rounded(v[i]))
  }

  lemma ReadAllCons(x: string, rest: seq<string>)
    ensures ReadAll([x] + rest) == [ReadNumber(x)] + ReadAll(rest)
  {
    hide ReadNumber;
    assert ([x] + rest)[1..] == rest;
  }

  lemma RoundedCons(v: seq<real>)
    requires v != []
    ensures RoundedAll(v) == [Rounded(v[0])] + RoundedAll(v[1..])
  {
    hide Rounded;
  }

  lemma {:induction false} FmtAllReadsBack(v: seq<real>)
    ensures ReadAll(FmtAll(v)) == RoundedAll(v)
    ensures |FmtAll(v)| == |v| && forall p :: p in FmtAll(v) ==> NumberText(p)
  {
    hide Fmt, Rounded, ReadNumber, NumberText, ReadAll, RoundedAll;
    if v == [] {
      assert ReadAll([]) == RoundedAll([]) by { NothingReadsBack(); }
    } else {
      FmtReadsBack(v[0]);
      FmtAllReadsBack(v[1..]);
      ReadAllCons(Fmt(v[0]), FmtAll(v[1..]));
      RoundedCons(v);
    }
  }

  lemma NothingReadsBack()
    ensures ReadAll([]) == RoundedAll([])
  {}

  /** A vector's literal holds each component, in order, to the nearest eighth place. */
  lemma LiteralReadsBack(v: seq<real>)
    ensures ReadVector(Literal(v)) == Some(RoundedAll(v))
    ensures forall i :: 0 <= i < |v| ==> Abs(RoundedAll(v)[i] - v[i]) <= 0.000000005
  {
    hide Fmt, Rounded, ReadNumber;
    FmtAllReadsBack(v);
    forall i | 0 <= i < |v| ensures Abs(RoundedAll(v)[i] - v[i]) <= 0.000000005 {
      RoundedIsNear(v[i]);
    }
    var inner := Join(",", FmtAll(v));
    var s := "[" + inner + "]";
    assert s[1..|s| - 1] == inner;
    if v == [] {
      assert RoundedAll(v) == [];
    } else {
      var parts := FmtAll(v);
      assert parts[0] in parts;
      SplitOnJoined(',', parts);
      assert inner != "" by { JoinNonEmpty(parts); }
    }
  }

  lemma JoinNonEmpty(parts: seq<string>)
    requires parts != [] && parts[0] != ""
    ensures Join(",", parts) != ""
  {}
}
