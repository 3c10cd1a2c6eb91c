/** Python string operations the query grammar is written with: stripping, finding, partitioning, splitting, joining and
    replacing, on characters rather than bytes. What counts as a blank is what `str.isspace` accepts. */
module Text {

  /** `str.isspace` for one character; also what `\s` matches and `strip()` removes. */
  predicate IsSpace(c: char) {
    var n := c as int;
    9 <= n <= 13 || 28 <= n <= 32 || n == 0x85 || n == 0xA0 || n == 0x1680 || 0x2000 <= n <= 0x200A
    || n == 0x2028 || n == 0x2029 || n == 0x202F || n == 0x205F || n == 0x3000
  }

  function LStrip(s: string): string {
    if s != "" && IsSpace(s[0]) then LStrip(s[1..]) else s
  }

  function RStrip(s: string): string {
    if s != "" && IsSpace(s[|s| - 1]) then RStrip(s[..|s| - 1]) else s
  }

  function Strip(s: string): string {
    RStrip(LStrip(s))
  }

  /** A text with no blank at either end. */
  predicate Trimmed(s: string) {
    s != "" ==> !IsSpace(s[0]) && !IsSpace(s[|s| - 1])
  }

  lemma {:induction false} LStripForm(s: string)
    ensures |LStrip(s)| <= |s| && LStrip(s) == s[|s| - |LStrip(s)|..]
    ensures LStrip(s) != "" ==> !IsSpace(LStrip(s)[0])
    ensures forall i :: 0 <= i < |s| - |LStrip(s)| ==> IsSpace(s[i])
  {
    hide IsSpace;
    if s != "" && IsSpace(s[0]) {
      var t := s[1..];
      LStripForm(t);
      forall i | 0 <= i < |s| - |LStrip(s)| ensures IsSpace(s[i]) {
        assert i > 0 ==> s[i] == t[i - 1];
      }
      assert t[|t| - |LStrip(t)|..] == s[|s| - |LStrip(t)|..];
    }
  }

  lemma {:induction false} RStripForm(s: string)
    ensures |RStrip(s)| <= |s| && RStrip(s) == s[..|RStrip(s)|]
    ensures RStrip(s) != "" ==> !IsSpace(RStrip(s)[|RStrip(s)| - 1])
    ensures forall i :: |RStrip(s)| <= i < |s| ==> IsSpace(s[i])
  {
    hide IsSpace;
    if s != "" && IsSpace(s[|s| - 1]) {
      RStripForm(s[..|s| - 1]);
    }
  }

  /** `strip()` returns a trimmed contiguous piece with only blanks cut away on either side. */
  lemma StripForm(s: string) returns (lead: nat)
    ensures lead + |Strip(s)| <= |s| && Strip(s) == s[lead..lead + |Strip(s)|]
    ensures Trimmed(Strip(s))
    ensures forall i :: 0 <= i < lead ==> IsSpace(s[i])
    ensures forall i :: lead + |Strip(s)| <= i < |s| ==> IsSpace(s[i])
    ensures forall c :: c in Strip(s) ==> c in s
  {
    hide IsSpace;
    LStripForm(s);
    RStripForm(LStrip(s));
    lead := |s| - |LStrip(s)|;
    var r := Strip(s);
    assert forall i :: 0 <= i < |LStrip(s)| ==> LStrip(s)[i] == s[lead + i];
    forall i | lead + |r| <= i < |s| ensures IsSpace(s[i]) {
      assert s[i] == LStrip(s)[i - lead];
    }
  }

  lemma StripTrimmed(s: string)
    requires Trimmed(s)
    ensures Strip(s) == s
  {}

  /** The first index of `c`, or the length when it does not occur (`find` with -1 read as n). */
  function Find(s: string, c: char): (k: nat)
    ensures k <= |s|
  {
    if s == "" || s[0] == c then 0 else 1 + Find(s[1..], c)
  }

  lemma {:induction false} FindFirst(s: string, c: char)
    ensures Find(s, c) < |s| ==> s[Find(s, c)] == c
    ensures c !in s[..Find(s, c)]
  {
    if s != "" && s[0] != c {
      FindFirst(s[1..], c);
      assert s[..Find(s, c)] == [s[0]] + s[1..][..Find(s, c) - 1];
    }
  }

  lemma FindIs(a: string, c: char, b: string)
    requires c !in a
    ensures Find(a + [c] + b, c) == |a|
    ensures Find(a, c) == |a|
  {
    if a != "" {
      assert (a + [c] + b)[1..] == a[1..] + [c] + b;
      assert a == [a[0]] + a[1..];
      FindIs(a[1..], c, b);
    }
  }

  /** `s.partition(".")` as (head, whether the separator was found, tail). */
  datatype Parts = Parts(head: string, found: bool, tail: string)

  function Partition(s: string, c: char): (p: Parts)
    ensures s == if p.found then p.head + [c] + p.tail else p.head
    ensures !p.found ==> p.tail == ""
    ensures c !in p.head
    ensures |p.tail| <= |s|
  {
    FindFirst(s, c);
    var k := Find(s, c);
    if k < |s| then Parts(s[..k], true, s[k + 1..])
    else assert s[..k] == s; Parts(s, false, "")
  }

  lemma PartitionOf(a: string, c: char, b: string)
    requires c !in a
    ensures Partition(a + [c] + b, c) == Parts(a, true, b)
    ensures Partition(a, c) == Parts(a, false, "")
  {
    FindIs(a, c, b);
  }

  /** `s.split(c)` for a one-character separator. */
  function SplitOn(s: string, c: char): (r: seq<string>)
    ensures |r| >= 1
  {
    var k := Find(s, c);
    if k == |s| then [s] else [s[..k]] + SplitOn(s[k + 1..], c)
  }

  /** `[x.strip() for x in parts if x.strip() != ""]`. */
  function StrippedNonEmpty(parts: seq<string>): seq<string> {
    if parts == [] then []
    else
      var x := Strip(parts[0]);
      (if x != "" then [x] else []) + StrippedNonEmpty(parts[1..])
  }

  /** `lower()` on the characters whose lower case is an ASCII letter: A-Z and the Kelvin sign. */
  function LowerChar(c: char): char {
    if 'A' <= c <= 'Z' then (c as int + 32) as char
    else if c == '\U{212A}' then 'k'
    else c
  }

  function Lower(s: string): (r: string)
    ensures |r| == |s|
    ensures forall i :: 0 <= i < |s| ==> r[i] == LowerChar(s[i])
  {
    seq(|s|, i requires 0 <= i < |s| => LowerChar(s[i]))
  }

  /** `sep.join(parts)`. */
  function Join(sep: string, parts: seq<string>): string {
    if parts == [] then ""
    else if |parts| == 1 then parts[0]
    else parts[0] + sep + Join(sep, parts[1..])
  }

  lemma SplitOnFirst(head: string, c: char, rest: string)
    requires c !in head
    ensures SplitOn(head + [c] + rest, c) == [head] + SplitOn(rest, c)
    ensures SplitOn(head, c) == [head]
  {
    FindIs(head, c, rest);
    hide Find;
    var s := head + [c] + rest;
    assert s[..|head|] == head && s[|head| + 1..] == rest;
  }

  /** Splitting undoes joining when no part holds the separator. */
  lemma {:induction false} SplitOnJoined(c: char, parts: seq<string>)
    requires parts != [] && forall p :: p in parts ==> c !in p
    ensures SplitOn(Join([c], parts), c) == parts
  {
    hide SplitOn;
    var head := parts[0];
    assert head in parts;
    if |parts| == 1 {
      SplitOnFirst(head, c, "");
      assert parts == [head];
    } else {
      SplitOnFirst(head, c, Join([c], parts[1..]));
      SplitOnJoined(c, parts[1..]);
      assert parts == [head] + parts[1..];
    }
  }

  /** `x.replace(a, b)` for one-character `a`. */
  function ReplaceChar(s: string, a: char, b: string): string {
    if s == "" then "" else (if s[0] == a then b else [s[0]]) + ReplaceChar(s[1..], a, b)
  }

  lemma ReplaceCharConcat(x: string, y: string, a: char, b: string)
    ensures ReplaceChar(x + y, a, b) == ReplaceChar(x, a, b) + ReplaceChar(y, a, b)
  {
    if x == "" {
      assert x + y == y;
    } else {
      assert (x + y)[1..] == x[1..] + y;
      ReplaceCharConcat(x[1..], y, a, b);
    }
  }
}
