/** What the chat routes write into SQL values: the LIKE pattern of a message search, and the literal of a text
    array. */
module Escapes {
  import opened Results
  import opened Text
  import opened Scanners
  import opened AnswerText

  // ---------------------------------------------------------------------------
  // The search pattern
  // ---------------------------------------------------------------------------

  /** `.replace("\\", "\\\\").replace("%", "\\%").replace("_", "\\_")`. */
  function Escaped(needle: string): string {
    ReplaceChar(ReplaceChar(ReplaceChar(needle, '\\', "\\\\"), '%', "\\%"), '_', "\\_")
  }

  function Pattern(needle: string): string {
    "%" + Escaped(needle) + "%"
  }

  /** The pattern of `search_messages`, or its refusal of a short needle. */
  function SearchPattern(q: string): Result<string> {
    if |Strip(q)| < 2 then Err(MissingField) else Ok(Pattern(Strip(q)))
  }

  predicate Special(c: char) {
    c == '\\' || c == '%' || c == '_'
  }

  /** One escape per character. */
  function EscapeEach(needle: string): string {
    if needle == "" then ""
    else (if Special(needle[0]) then ['\\', needle[0]] else [needle[0]]) + EscapeEach(needle[1..])
  }

  /** SQL's LIKE with backslash as the escape character; a pattern ending in a lone backslash is an error, here no
      match. */
  predicate Like(text: string, pattern: string)
    decreases |pattern|, |text|
  {
    if pattern == "" then text == ""
    else if pattern[0] == '%' then Like(text, pattern[1..]) || (text != "" && Like(text[1..], pattern))
    else if text == "" then false
    else if pattern[0] == '_' then Like(text[1..], pattern[1..])
    else if pattern[0] == '\\' then |pattern| > 1 && text[0] == pattern[1] && Like(text[1..], pattern[2..])
    else text[0] == pattern[0] && Like(text[1..], pattern[1..])
  }

  /** A case folding that leaves the three special characters to themselves. */
  ghost predicate Folding(fold: char -> char) {
    forall c :: if Special(c) then fold(c) == c else !Special(fold(c))
  }

  function Fold(fold: char -> char, s: string): (r: string)
    ensures |r| == |s| && forall i :: 0 <= i < |s| ==> r[i] == fold(s[i])
  {
    if s == "" then "" else [fold(s[0])] + Fold(fold, s[1..])
  }

  /** ILIKE: both sides folded, then matched. */
  predicate ILike(fold: char -> char, text: string, pattern: string) {
    Like(Fold(fold, text), Fold(fold, pattern))
  }

  lemma ReplaceOne(c: char, a: char, b: string)
    ensures ReplaceChar([c], a, b) == if c == a then b else [c]
  {
    assert ReplaceChar("", a, b) == "";
  }

  lemma ReplaceTwo(c: char, d: char, a: char, b: string)
    requires c != a
    ensures ReplaceChar([c, d], a, b) == [c] + if d == a then b else [d]
  {
    assert [c, d][1..] == [d];
    ReplaceOne(d, a, b);
  }

  /** The three replaces do to one character what one escape does. */
  lemma EscapedOne(c: char)
    ensures Escaped([c]) == if Special(c) then ['\\', c] else [c]
  {
    ReplaceOne(c, '\\', "\\\\");
    if c == '\\' {
      ReplaceTwo('\\', '\\', '%', "\\%");
      ReplaceTwo('\\', '\\', '_', "\\_");
    } else {
      ReplaceOne(c, '%', "\\%");
      ReplaceTwo('\\', '%', '_', "\\_");
      ReplaceOne(c, '_', "\\_");
    }
  }

  /** No replace sees what an earlier one inserted as if it came from the needle. */
  lemma {:induction false} SequentialIsPerCharacter(needle: string)
    ensures Escaped(needle) == EscapeEach(needle)
  {
    if needle != "" {
      var c, rest := [needle[0]], needle[1..];
      assert needle == c + rest;
      var b1, p1 := ReplaceChar(c, '\\', "\\\\"), ReplaceChar(rest, '\\', "\\\\");
      ReplaceCharConcat(c, rest, '\\', "\\\\");
      ReplaceCharConcat(b1, p1, '%', "\\%");
      ReplaceCharConcat(ReplaceChar(b1, '%', "\\%"), ReplaceChar(p1, '%', "\\%"), '_', "\\_");
      assert Escaped(needle) == Escaped(c) + Escaped(rest);
      EscapedOne(needle[0]);
      SequentialIsPerCharacter(rest);
    }
  }

  lemma {:induction false} FoldConcat(fold: char -> char, a: string, b: string)
    ensures Fold(fold, a + b) == Fold(fold, a) + Fold(fold, b)
  {
    assert forall i :: 0 <= i < |a + b| ==> Fold(fold, a + b)[i] == (Fold(fold, a) + Fold(fold, b))[i];
  }

  lemma {:induction false} FoldEscaped(fold: char -> char, needle: string)
    requires Folding(fold)
    ensures Fold(fold, EscapeEach(needle)) == EscapeEach(Fold(fold, needle))
  {
    if needle != "" {
      var unit := if Special(needle[0]) then ['\\', needle[0]] else [needle[0]];
      assert Special('\\');
      FoldEscaped(fold, needle[1..]);
      FoldConcat(fold, unit, EscapeEach(needle[1..]));
      assert Fold(fold, unit) == if Special(needle[0]) then ['\\', fold(needle[0])] else [fold(needle[0])];
    }
  }

  lemma {:induction false} PercentMatchesAll(text: string)
    ensures Like(text, "%")
  {
    if text != "" {
      PercentMatchesAll(text[1..]);
    }
  }

  /** One escaped character of a pattern takes exactly that character of the text. */
  lemma LikeOne(text: string, c: char, rest: string)
    ensures Like(text, (if Special(c) then ['\\', c] else [c]) + rest)
            <==> text != "" && text[0] == c && Like(text[1..], rest)
  {
    var p := (if Special(c) then ['\\', c] else [c]) + rest;
    assert if Special(c) then p[2..] == rest else p[1..] == rest;
  }

  lemma PrefixOne(text: string, needle: string)
    requires needle != ""
    ensures needle <= text <==> text != "" && text[0] == needle[0] && needle[1..] <= text[1..]
  {
    if text != "" && text[0] == needle[0] && needle[1..] <= text[1..] {
      assert needle == [needle[0]] + needle[1..] && text == [text[0]] + text[1..];
    }
  }

  /** An escaped needle and a percent sign match exactly the texts that begin with the needle. */
  lemma {:induction false} EscapedMatchesPrefix(text: string, needle: string)
    ensures Like(text, EscapeEach(needle) + "%") <==> needle <= text
  {
    hide Like, Special;
    if needle == "" {
      assert EscapeEach(needle) + "%" == "%";
      PercentMatchesAll(text);
    } else {
      var unit := if Special(needle[0]) then ['\\', needle[0]] else [needle[0]];
      assert EscapeEach(needle) + "%" == unit + (EscapeEach(needle[1..]) + "%");
      LikeOne(text, needle[0], EscapeEach(needle[1..]) + "%");
      PrefixOne(text, needle);
      if text != "" {
        EscapedMatchesPrefix(text[1..], needle[1..]);
      }
    }
  }

  lemma ContainsStep(text: string, needle: string)
    requires text != ""
    ensures Contains(text, needle) <==> needle <= text || Contains(text[1..], needle)
  {
    if Contains(text, needle) {
      var i: nat :| i <= |text| && At(text, needle, i);
      if i > 0 {
        assert text[1..][i - 1..i - 1 + |needle|] == text[i..i + |needle|];
        assert At(text[1..], needle, i - 1);
      }
    }
    if needle <= text {
      assert At(text, needle, 0);
    }
    if Contains(text[1..], needle) {
      var i: nat :| i <= |text[1..]| && At(text[1..], needle, i);
      assert text[1..][i..i + |needle|] == text[i + 1..i + 1 + |needle|];
      assert At(text, needle, i + 1);
    }
  }

  lemma {:induction false} PercentEscapedPercent(text: string, needle: string)
    ensures Like(text, "%" + EscapeEach(needle) + "%") <==> Contains(text, needle)
  {
    hide EscapeEach;
    var p := "%" + EscapeEach(needle) + "%";
    assert p[1..] == EscapeEach(needle) + "%";
    EscapedMatchesPrefix(text, needle);
    if text == "" {
      assert Contains(text, needle) <==> needle == "" by {
        if needle == "" {
          assert At(text, needle, 0);
        }
      }
    } else {
      PercentEscapedPercent(text[1..], needle);
      ContainsStep(text, needle);
    }
  }

  /** Matching the built pattern is plain containment, case apart: no character of the needle is a wildcard. */
  lemma PatternIsContainment(fold: char -> char, text: string, needle: string)
    requires Folding(fold)
    ensures ILike(fold, text, Pattern(needle)) <==> Contains(Fold(fold, text), Fold(fold, needle))
  {
    SequentialIsPerCharacter(needle);
    hide EscapeEach, Escaped, Like, Contains;
    assert Special('%');
    FoldConcat(fold, "%" + EscapeEach(needle), "%");
    FoldConcat(fold, "%", EscapeEach(needle));
    assert Fold(fold, "%") == "%";
    FoldEscaped(fold, needle);
    PercentEscapedPercent(Fold(fold, text), Fold(fold, needle));
  }

  /** A search is refused exactly when the trimmed text is shorter than two characters, and otherwise finds exactly the
      messages that contain it, case apart. */
  lemma SearchIsContainment(fold: char -> char, text: string, q: string)
    requires Folding(fold)
    ensures var p := SearchPattern(q);
            && (p.Err? <==> |Strip(q)| < 2)
            && (p.Ok? ==> (ILike(fold, text, p.value) <==> Contains(Fold(fold, text), Fold(fold, Strip(q)))))
  {
    PatternIsContainment(fold, text, Strip(q));
    hide Strip, ILike, Contains, Pattern;
  }

  // ---------------------------------------------------------------------------
  // Array literals
  // ---------------------------------------------------------------------------

  /** One element of `_pg_array`. */
  function Element(item: string): string {
    "\"" + ReplaceChar(ReplaceChar(item, '\\', "\\\\"), '"', "\\\"") + "\""
  }

  function Elements(items: seq<string>): seq<string> {
    if items == [] then [] else [Element(items[0])] + Elements(items[1..])
  }

  /** `_pg_array`. */
  function ArrayLiteral(items: seq<string>): string {
    "{" + Join(",", Elements(items)) + "}"
  }

  /** PostgreSQL's array input on quoted elements. */
  function ReadElements(s: string): Option<seq<string>>
    decreases |s|
  {
    if s == "" || s[0] != '"' then None
    else
      var q := ReadQuoted(s[1..]);
      if q.Unterminated? then None
      else if q.rest == "}" then Some([q.value])
      else if q.rest == "" || q.rest[0] != ',' then None
      else
        var more := ReadElements(q.rest[1..]);
        if more.Some? then Some([q.value] + more.value) else None
  }

  function ReadArray(s: string): Option<seq<string>> {
    if s == "{}" then Some([]) else if s == "" || s[0] != '{' then None else ReadElements(s[1..])
  }

  lemma {:induction false} ElementIsQuoted(item: string)
    ensures ReplaceChar(ReplaceChar(item, '\\', "\\\\"), '"', "\\\"") == Escape(item)
  {
    if item != "" {
      var c, rest := [item[0]], item[1..];
      assert item == c + rest;
      ReplaceCharConcat(c, rest, '\\', "\\\\");
      ReplaceCharConcat(ReplaceChar(c, '\\', "\\\\"), ReplaceChar(rest, '\\', "\\\\"), '"', "\\\"");
      ElementIsQuoted(rest);
      ReplaceOne(item[0], '\\', "\\\\");
      if item[0] == '\\' {
        ReplaceTwo('\\', '\\', '"', "\\\"");
      } else {
        ReplaceOne(item[0], '"', "\\\"");
      }
    }
  }

  lemma ReadElementsStep(body: string, value: string, rest: string)
    requires ReadQuoted(body) == Closed(value, rest)
    ensures rest == "}" ==> ReadElements("\"" + body) == Some([value])
    ensures rest != "" && rest[0] == ',' && ReadElements(rest[1..]).Some? ==>
      ReadElements("\"" + body) == Some([value] + ReadElements(rest[1..]).value)
  {
    hide ReadQuoted;
    assert ("\"" + body)[1..] == body;
  }

  lemma ElementsCons(x: string, xs: seq<string>)
    ensures Elements([x] + xs) == [Element(x)] + Elements(xs)
    ensures Join(",", Elements([x] + xs))
         == if xs == [] then Element(x) else Element(x) + "," + Join(",", Elements(xs))
  {
    assert ([x] + xs)[1..] == xs;
    assert ([Element(x)] + Elements(xs))[1..] == Elements(xs);
  }

  lemma ElementIs(x: string)
    ensures Element(x) == "\"" + Escape(x) + "\""
  {
    ElementIsQuoted(x);
  }

  lemma LastShape(e: string)
    ensures "\"" + e + "\"" + "}" == "\"" + (e + "\"" + "}")
  {}

  lemma MoreShape(e: string, rest: string)
    ensures "\"" + e + "\"" + "," + rest + "}" == "\"" + (e + "\"" + ("," + (rest + "}")))
  {}

  lemma {:induction false} ElementsReadBack(items: seq<string>)
    requires items != []
    ensures ReadElements(Join(",", Elements(items)) + "}") == Some(items)
  {
    hide Escape, Element, ReadQuoted, ReadElements, Join, Elements;
    var x, xs := items[0], items[1..];
    assert items == [x] + xs;
    ElementsCons(x, xs);
    ElementIs(x);
    if xs == [] {
      assert items == [x];
      LastShape(Escape(x));
      ReadEscaped(x, "}");
      ReadElementsStep(Escape(x) + "\"" + "}", x, "}");
    } else {
      var rest := Join(",", Elements(xs));
      MoreShape(Escape(x), rest);
      ReadEscaped(x, "," + (rest + "}"));
      ElementsReadBack(xs);
      assert ("," + (rest + "}"))[1..] == rest + "}";
      ReadElementsStep(Escape(x) + "\"" + ("," + (rest + "}")), x, "," + (rest + "}"));
    }
  }

  /** Every list of texts, quotes, backslashes, commas and braces included, survives its array literal. */
  lemma ArrayReadsBack(items: seq<string>)
    ensures ReadArray(ArrayLiteral(items)) == Some(items)
  {
    if items != [] {
      var s := Join(",", Elements(items)) + "}";
      assert ArrayLiteral(items) == "{" + s && ArrayLiteral(items)[1..] == s;
      ElementsReadBack(items);
      JoinStarts(items);
    }
  }

  lemma JoinStarts(items: seq<string>)
    requires items != []
    ensures Join(",", Elements(items)) != "" && Join(",", Elements(items))[0] == '"'
  {
    assert Elements(items)[0] == Element(items[0]);
  }
}
