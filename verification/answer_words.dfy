/** What "the same words" means: the words of a text, and that normalising keeps exactly those. */
module AnswerWords {
  import opened Text
  import opened AnswerText
  import opened Literals

  predicate Word(s: string) {
    s != "" && forall c :: c in s ==> !IsSpace(c)
  }

  /** The words of a text, in order: what stands between its blanks. */
  ghost predicate HasWords(text: string, words: seq<string>)
    decreases |words|
  {
    if words == [] then Blanks(text)
    else
      exists lead: string, rest: string ::
        && Blanks(lead) && Word(words[0]) && text == lead + words[0] + rest
        && (rest == "" || IsSpace(rest[0])) && HasWords(rest, words[1..])
  }

  /** A character apart from its case and its typography. */
  function Folded(c: char): char {
    match c
    case '\U{2018}' => '\''
    case '\U{2019}' => '\''
    case '\U{201C}' => '"'
    case '\U{201D}' => '"'
    case '\U{2013}' => '-'
    case '\U{2014}' => '-'
    case '\U{212A}' => 'k'
    case _ => if 'A' <= c <= 'Z' then 'a' + (c - 'A') else c
  }

  function FoldedWord(word: string): string {
    seq(|word|, i requires 0 <= i < |word| => Folded(word[i]))
  }

  function FoldedWords(words: seq<string>): seq<string> {
    seq(|words|, i requires 0 <= i < |words| => FoldedWord(words[i]))
  }

  // ---------------------------------------------------------------------------
  // Every text has its words
  // ---------------------------------------------------------------------------

  function SkipBlanks(s: string): (n: nat)
    ensures n <= |s| && Blanks(s[..n]) && (n < |s| ==> !IsSpace(s[n]))
  {
    if s != "" && IsSpace(s[0]) then
      var n := SkipBlanks(s[1..]);
      assert s[..n + 1] == [s[0]] + s[1..][..n];
      n + 1
    else 0
  }

  function SkipWord(s: string): (n: nat)
    ensures n <= |s| && (forall c :: c in s[..n] ==> !IsSpace(c)) && (n < |s| ==> IsSpace(s[n]))
    ensures s != "" && !IsSpace(s[0]) ==> n > 0
  {
    if s != "" && !IsSpace(s[0]) then
      var n := SkipWord(s[1..]);
      assert s[..n + 1] == [s[0]] + s[1..][..n];
      n + 1
    else 0
  }

  lemma MoreWords(lead: string, word: string, rest: string, words: seq<string>)
    requires Blanks(lead) && Word(word) && (rest == "" || IsSpace(rest[0])) && HasWords(rest, words)
    ensures HasWords(lead + word + rest, [word] + words)
  {
    hide IsSpace, Word, Blanks;
    assert ([word] + words)[1..] == words;
  }

  lemma NoWords(text: string, words: seq<string>)
    requires words == []
    ensures HasWords(text, words) <==> Blanks(text)
  {}

  /** Every text has words. */
  lemma {:induction false} SomeWords(text: string) returns (words: seq<string>)
    ensures HasWords(text, words)
    decreases |text|
  {
    hide IsSpace, HasWords, Blanks;
    var n := SkipBlanks(text);
    if n == |text| {
      assert text[..n] == text;
      NoWords(text, []);
      return [];
    }
    var k := SkipWord(text[n..]);
    var word, rest := text[n..][..k], text[n..][k..];
    var more := SomeWords(rest);
    words := [word] + more;
    assert text == text[..n] + word + rest;
    MoreWords(text[..n], word, rest, more);
  }

  // ---------------------------------------------------------------------------
  // Normalising keeps the words
  // ---------------------------------------------------------------------------

  lemma {:induction false} CollapseBlanks(lead: string, x: string)
    requires Blanks(lead) && (x == "" || !IsSpace(x[0]))
    ensures Collapse(lead + x) == (if lead == "" then "" else " ") + Collapse(x)
  {
    hide IsSpace;
    if lead == "" {
      assert lead + x == x;
    } else {
      assert lead[0] in lead && (forall c :: c in lead[1..] ==> c in lead);
      assert (lead + x)[1..] == lead[1..] + x;
      CollapseBlanks(lead[1..], x);
      assert |lead| > 1 ==> lead[1] in lead;
    }
  }

  lemma {:induction false} CollapseWord(word: string, x: string)
    requires forall c :: c in word ==> !IsSpace(c)
    ensures Collapse(word + x) == word + Collapse(x)
  {
    hide IsSpace;
    if word == "" {
      assert word + x == x;
    } else {
      assert word[0] in word && (forall c :: c in word[1..] ==> c in word);
      assert (word + x)[1..] == word[1..] + x;
      CollapseWord(word[1..], x);
      assert word == [word[0]] + word[1..];
    }
  }

  predicate AtMostOneSpace(s: string) {
    s == "" || s == " "
  }

  lemma FirstWord(text: string, words: seq<string>) returns (lead: string, rest: string)
    requires HasWords(text, words) && words != []
    ensures Blanks(lead) && Word(words[0]) && text == lead + words[0] + rest
    ensures (rest == "" || IsSpace(rest[0])) && HasWords(rest, words[1..])
  {
    hide Blanks, Word, IsSpace;
    lead, rest :| Blanks(lead) && Word(words[0]) && text == lead + words[0] + rest
                  && (rest == "" || IsSpace(rest[0])) && HasWords(rest, words[1..]);
  }

  lemma CollapseFirst(lead: string, word: string, rest: string)
    requires Blanks(lead) && Word(word)
    ensures Collapse(lead + word + rest) == (if lead == "" then "" else " ") + (word + Collapse(rest))
  {
    hide IsSpace, Collapse;
    assert word[0] in word;
    assert lead + word + rest == lead + (word + rest);
    CollapseBlanks(lead, word + rest);
    CollapseWord(word, rest);
  }

  /** Collapsing leaves the words with one space between them, and perhaps one at either end. */
  lemma {:induction false} CollapsedWords(text: string, words: seq<string>) returns (lead: string, trail: string)
    requires HasWords(text, words) && words != []
    ensures AtMostOneSpace(lead) && AtMostOneSpace(trail)
    ensures text != "" && IsSpace(text[0]) ==> lead == " "
    ensures Collapse(text) == lead + Join(" ", words) + trail
    decreases |words|
  {
    hide IsSpace, Collapse, HasWords, Word, Blanks;
    var blanks, rest := FirstWord(text, words);
    CollapseFirst(blanks, words[0], rest);
    lead := if blanks == "" then "" else " ";
    StartsBlank(blanks, words[0], rest);
    if |words| == 1 {
      OnlyBlanks(rest, words[1..]);
      trail := if rest == "" then "" else " ";
      assert lead + (words[0] + trail) == lead + words[0] + trail;
    } else {
      NoWordsInNothing(words[1..]);
      var space, end := CollapsedWords(rest, words[1..]);
      trail := end;
      Associates(lead, words[0], " ", Join(" ", words[1..]), end);
    }
  }

  lemma Associates(a: string, b: string, c: string, d: string, e: string)
    ensures a + (b + (c + d + e)) == a + (b + c + d) + e
  {}

  lemma StartsBlank(lead: string, word: string, rest: string)
    requires Blanks(lead) && Word(word)
    ensures IsSpace((lead + word + rest)[0]) <==> lead != ""
  {
    hide IsSpace;
    assert word[0] in word;
    assert lead != "" ==> lead[0] in lead;
  }

  lemma OnlyBlanks(rest: string, words: seq<string>)
    requires words == [] && HasWords(rest, words)
    ensures Collapse(rest) == if rest == "" then "" else " "
  {
    assert rest + "" == rest;
    CollapseBlanks(rest, "");
    CollapseNothing();
  }

  lemma CollapseNothing()
    ensures Collapse("") == ""
  {}

  lemma NoWordsInNothing(words: seq<string>)
    requires words != []
    ensures !HasWords("", words)
  {}

  lemma {:induction false} JoinedIsTrimmed(words: seq<string>)
    requires words != [] && forall w :: w in words ==> Word(w)
    ensures var j := Join(" ", words); j != "" && !IsSpace(j[0]) && !IsSpace(j[|j| - 1])
  {
    hide IsSpace;
    var w := words[0];
    assert w in words && w[0] in w && w[|w| - 1] in w;
    if |words| > 1 {
      assert forall x :: x in words[1..] ==> x in words;
      JoinedIsTrimmed(words[1..]);
    }
  }

  lemma {:induction false} WordsAreWords(text: string, words: seq<string>)
    requires HasWords(text, words)
    ensures forall w :: w in words ==> Word(w)
    decreases |words|
  {
    hide IsSpace, HasWords, Word, Blanks;
    if words != [] {
      var lead, rest := FirstWord(text, words);
      WordsAreWords(rest, words[1..]);
      assert forall w :: w in words <==> w == words[0] || w in words[1..];
    }
  }

  // ---------------------------------------------------------------------------
  // Typography and case
  // ---------------------------------------------------------------------------

  function Translated(words: seq<string>): seq<string> {
    seq(|words|, i requires 0 <= i < |words| => Translate(words[i]))
  }

  lemma {:induction false} TranslateConcat(a: string, b: string)
    ensures Translate(a + b) == Translate(a) + Translate(b)
  {
    hide PlainChar;
    if a == "" {
      assert a + b == b;
    } else {
      assert (a + b)[1..] == a[1..] + b;
      TranslateConcat(a[1..], b);
    }
  }

  lemma TranslateBlank(s: string)
    ensures Blanks(s) ==> Blanks(Translate(s))
    ensures Word(s) ==> Word(Translate(s))
    ensures s != "" ==> Translate(s) != "" && (IsSpace(Translate(s)[0]) <==> IsSpace(s[0]))
    ensures s == "" ==> Translate(s) == ""
  {
    TranslatePlain(s);
    var t := Translate(s);
    forall i | 0 <= i < |s| ensures IsSpace(t[i]) <==> IsSpace(s[i]) {
      PlainCharSpace(s[i]);
    }
    hide IsSpace, PlainChar, Translate;
    assert forall i :: 0 <= i < |s| ==> s[i] in s;
  }

  /** Typography has no part in where words begin and end. */
  lemma {:induction false} TranslatedHasWords(text: string, words: seq<string>)
    requires HasWords(text, words)
    ensures HasWords(Translate(text), Translated(words))
    decreases |words|
  {
    hide IsSpace, Translate, Word, Blanks, HasWords;
    if words == [] {
      NoWords(text, words);
      TranslateBlank(text);
      NoWords(Translate(text), Translated(words));
    } else {
      var lead, rest := FirstWord(text, words);
      TranslatedHasWords(rest, words[1..]);
      TranslateConcat(lead + words[0], rest);
      TranslateConcat(lead, words[0]);
      TranslateBlank(lead);
      TranslateBlank(words[0]);
      TranslateBlank(rest);
      MoreWords(Translate(lead), Translate(words[0]), Translate(rest), Translated(words[1..]));
      assert Translated(words) == [Translate(words[0])] + Translated(words[1..]);
    }
  }

  lemma FoldChar(c: char)
    ensures LowerChar(PlainChar(c)) == Folded(c) || IsSpace(c)
  {}

  lemma FoldWord(word: string)
    requires Word(word)
    ensures Lower(Translate(word)) == FoldedWord(word)
  {
    TranslatePlain(word);
    forall i | 0 <= i < |word| ensures Lower(Translate(word))[i] == Folded(word[i]) {
      assert word[i] in word;
      FoldChar(word[i]);
    }
  }

  lemma {:induction false} LowerJoin(words: seq<string>)
    ensures Lower(Join(" ", words)) == Join(" ", seq(|words|, i requires 0 <= i < |words| => Lower(words[i])))
  {
    var lowered := seq(|words|, i requires 0 <= i < |words| => Lower(words[i]));
    if |words| > 1 {
      LowerJoin(words[1..]);
      assert lowered[1..] == seq(|words[1..]|, i requires 0 <= i < |words[1..]| => Lower(words[1..][i]));
      assert Lower(" ") == " " && LowerChar(' ') == ' ';
      hide LowerChar;
    }
  }

  /** Normalising keeps exactly the words of a text, apart from their case and typography, one space between them. */
  lemma NormIsWords(text: string, words: seq<string>)
    requires HasWords(text, words)
    ensures Norm(text) == Join(" ", FoldedWords(words))
  {
    TranslatedHasWords(text, words);
    WordsAreWords(text, words);
    var ws := Translated(words);
    var t := Translate(text);
    WordsAreWords(t, ws);
    hide IsSpace, Word, Blanks, HasWords, Collapse, Translate, Strip;
    if words == [] {
      OnlyBlanks(t, ws);
      BlankStrips();
    } else {
      var lead, trail := CollapsedWords(t, ws);
      JoinedIsTrimmed(ws);
      SpacesStrip(lead, Join(" ", ws), trail);
      LowerJoin(ws);
      forall i | 0 <= i < |words| ensures Lower(ws[i]) == FoldedWord(words[i]) {
        FoldWord(words[i]);
      }
      assert seq(|ws|, i requires 0 <= i < |ws| => Lower(ws[i])) == FoldedWords(words);
    }
  }

  lemma BlankStrips()
    ensures Strip("") == "" && Strip(" ") == "" && Lower("") == ""
  {}

  lemma SpacesStrip(lead: string, core: string, trail: string)
    requires AtMostOneSpace(lead) && AtMostOneSpace(trail)
    requires core != "" && Trimmed(core)
    ensures Strip(lead + core + trail) == core
  {
    assert IsSpace(' ');
    hide IsSpace, Strip;
    assert Blanks(lead) && Blanks(trail);
    StripAround(lead + core + trail, core);
  }
}
