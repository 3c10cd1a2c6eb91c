/** The words an SQL lexer reads in the text the server receives: key words, operators, quoted names and parameters, and
    that the text of every token and of tokens beside each other reads as exactly the words they stand for. */
module SqlWords {
  import opened Results
  import opened Text
  import opened SqlText

  // ---------------------------------------------------------------------------
  // The server's lexer
  // ---------------------------------------------------------------------------

  datatype Lexeme =
    | Word(text: string)  // a key word, a function or an unquoted name
    | Sym(text: string)   // an operator, or one mark of punctuation
    | Name(text: string)  // a quoted identifier
    | Hole                // a bound parameter

  predicate WordChar(c: char) {
    'a' <= c <= 'z' || 'A' <= c <= 'Z' || '0' <= c <= '9' || c == '_' || c == '$'
  }

  predicate OpChar(c: char) {
    c == '=' || c == '<' || c == '>' || c == '~' || c == '*' || c == '@' || c == '!' || c == '+' || c == '-' || c == '/'
    || c == '%' || c == '^' || c == '&' || c == '|' || c == '#' || c == ':' || c == '?'
  }

  /** How many characters of a kind `s` starts with. */
  function Run(s: string, word: bool): (n: nat)
    ensures n <= |s|
  {
    if s != "" && (if word then WordChar(s[0]) else OpChar(s[0])) then 1 + Run(s[1..], word) else 0
  }

  datatype Head = Head(read: seq<Lexeme>, length: nat)

  /** What is read off the front: nothing for a blank, the longest word or operator, a quoted name, or a single mark;
      a name that is not closed fails. */
  function Front(s: string): (h: Option<Head>)
    requires s != ""
    ensures h.Some? ==> 0 < h.value.length <= |s|
  {
    if IsSpace(s[0]) then Some(Head([], 1))
    else if s[0] == '"' then
      var name := ReadIdentBody(s[1..]);
      if name.None? then None else Some(Head([Name(name.value.0)], |s| - |name.value.1|))
    else if WordChar(s[0]) then Some(Head([Word(s[..Run(s, true)])], Run(s, true)))
    else if OpChar(s[0]) then Some(Head([Sym(s[..Run(s, false)])], Run(s, false)))
    else Some(Head([Sym([s[0]])], 1))
  }

  function Lex(s: string): Option<seq<Lexeme>>
    decreases |s|
  {
    if s == "" then Some([])
    else
      var h := Front(s);
      if h.None? then None
      else
        var rest := Lex(s[h.value.length..]);
        if rest.None? then None else Some(h.value.read + rest.value)
  }

  /** Characters that no text beside them runs into. */
  predicate Free(c: char) {
    IsSpace(c) || c == '(' || c == ')' || c == ','
  }

  /** The segments around the placeholders; a parameter stands free of what is before and after it. */
  function LexAll(segments: seq<string>): Option<seq<Lexeme>>
    requires segments != []
  {
    var first := Lex(segments[0]);
    if first.None? then None
    else if |segments| == 1 then first
    else if segments[0] == "" || !Free(segments[0][|segments[0]| - 1]) then None
    else if segments[1] != "" && !Free(segments[1][0]) then None
    else
      var rest := LexAll(segments[1..]);
      if rest.None? then None else Some(first.value + [Hole] + rest.value)
  }

  // ---------------------------------------------------------------------------
  // Texts that do not run together
  // ---------------------------------------------------------------------------

  /** The characters run together: two of a word, two of an operator, or a closing and an opening quote. */
  predicate Sticky(c: char, d: char) {
    (WordChar(c) && WordChar(d)) || (OpChar(c) && OpChar(d)) || (c == '"' && d == '"')
  }

  predicate Apart(a: string, b: string) {
    a != "" && b != "" ==> !Sticky(a[|a| - 1], b[0])
  }

  lemma {:induction false} RunConcat(a: string, b: string, word: bool)
    requires Run(a, word) < |a| || b == "" || !(if word then WordChar(b[0]) else OpChar(b[0]))
    ensures Run(a + b, word) == Run(a, word)
  {
    hide WordChar, OpChar;
    if a == "" {
      assert a + b == b;
    } else {
      assert (a + b)[1..] == a[1..] + b;
      if (if word then WordChar(a[0]) else OpChar(a[0])) {
        RunConcat(a[1..], b, word);
      }
    }
  }

  lemma {:induction false} RunKind(s: string, word: bool)
    ensures forall i :: 0 <= i < Run(s, word) ==> if word then WordChar(s[i]) else OpChar(s[i])
  {
    hide WordChar, OpChar;
    if s != "" && (if word then WordChar(s[0]) else OpChar(s[0])) {
      RunKind(s[1..], word);
    }
  }

  lemma {:induction false} BodyConcat(a: string, b: string)
    requires ReadIdentBody(a).Some? && (b == "" || b[0] != '"' || a[|a| - 1] != '"')
    ensures ReadIdentBody(a + b) == Some((ReadIdentBody(a).value.0, ReadIdentBody(a).value.1 + b))
    decreases |a|
  {
    var k := if a[0] != '"' then 1 else if |a| >= 2 && a[1] == '"' then 2 else 0;
    assert (a + b)[1..] == a[1..] + b;
    if k > 0 {
      assert (a + b)[k..] == a[k..] + b;
      assert ReadIdentBody(a[k..]).Some?;
      BodyConcat(a[k..], b);
    }
  }

  lemma {:induction false} BodyRest(a: string)
    requires ReadIdentBody(a).Some?
    ensures var rest := ReadIdentBody(a).value.1; rest == a[|a| - |rest|..]
    ensures ReadIdentBody(a).value.1 == "" ==> a[|a| - 1] == '"'
    decreases |a|
  {
    var k := if a[0] != '"' then 1 else if |a| >= 2 && a[1] == '"' then 2 else 0;
    if k > 0 {
      assert ReadIdentBody(a[k..]).Some?;
      BodyRest(a[k..]);
    }
  }

  lemma FrontConcat(a: string, b: string)
    requires a != "" && Front(a).Some? && Apart(a, b)
    ensures Front(a + b) == Front(a)
  {
    assert (a + b)[0] == a[0] && (a + b)[1..] == a[1..] + b;
    if !IsSpace(a[0]) {
      hide IsSpace, WordChar, OpChar;
      if a[0] == '"' {
        BodyRest(a[1..]);
        BodyConcat(a[1..], b);
      } else if WordChar(a[0]) || OpChar(a[0]) {
        var word := WordChar(a[0]);
        RunKind(a, word);
        RunConcat(a, b, word);
        assert (a + b)[..Run(a, word)] == a[..Run(a, word)];
      }
    }
  }

  /** Texts that do not run together are read one after the other. */
  lemma {:induction false} LexConcat(a: string, b: string)
    requires Lex(a).Some? && Lex(b).Some? && Apart(a, b)
    ensures Lex(a + b) == Some(Lex(a).value + Lex(b).value)
    decreases |a|
  {
    hide Sticky, Front;
    if a == "" {
      assert a + b == b && [] + Lex(b).value == Lex(b).value;
    } else {
      FrontConcat(a, b);
      var k := Front(a).value.length;
      assert (a + b)[k..] == a[k..] + b;
      assert Apart(a[k..], b);
      LexConcat(a[k..], b);
      var read, rest, more := Front(a).value.read, Lex(a[k..]).value, Lex(b).value;
      assert read + (rest + more) == (read + rest) + more;
    }
  }

  // ---------------------------------------------------------------------------
  // The words of a token
  // ---------------------------------------------------------------------------

  function SymLexeme(s: CmpSym): Lexeme {
    match s
    case Equal => Sym("=")
    case NotEqual => Sym("<>")
    case Greater => Sym(">")
    case GreaterEqual => Sym(">=")
    case Less => Sym("<")
    case LessEqual => Sym("<=")
    case LikeSym => Word("LIKE")
    case ILikeSym => Word("ILIKE")
    case Tilde => Sym("~")
    case TildeStar => Sym("~*")
  }

  function IsLexeme(w: IsWord): Lexeme {
    match w
    case IsNull => Word("NULL")
    case IsTrue => Word("TRUE")
    case IsFalse => Word("FALSE")
    case IsUnknown => Word("UNKNOWN")
  }

  function FnLexeme(f: TsFn): Lexeme {
    match f
    case ToTsQuery => Word("to_tsquery")
    case PlainToTsQuery => Word("plainto_tsquery")
    case PhraseToTsQuery => Word("phraseto_tsquery")
    case WebsearchToTsQuery => Word("websearch_to_tsquery")
  }

  function ConditionWords(t: Tok): seq<Lexeme> {
    match t
    case Open => [Sym("(")]
    case Close => [Sym(")")]
    case Comma => [Sym(",")]
    case NotKw => [Word("NOT")]
    case AndKw => [Word("AND")]
    case OrKw => [Word("OR")]
    case InKw => [Word("IN")]
    case AtAt => [Sym("@@")]
    case TsVector => [Word("to_tsvector")]
    case IsKw(w) => [Word("IS"), IsLexeme(w)]
    case Cmp(s) => [SymLexeme(s)]
    case TsQuery(f) => [FnLexeme(f)]
    case _ => []
  }

  function SelectWords(t: Tok): seq<Lexeme> {
    match t
    case SelectKw => [Word("SELECT")]
    case AsKw => [Word("AS")]
    case FromKw => [Word("FROM")]
    case WhereKw => [Word("WHERE")]
    case Ctid => [Word("ctid")]
    case OrderBy => [Word("ORDER"), Word("BY")]
    case Asc => [Word("ASC")]
    case Desc => [Word("DESC")]
    case NullsFirst => [Word("NULLS"), Word("FIRST")]
    case NullsLast => [Word("NULLS"), Word("LAST")]
    case LimitKw => [Word("LIMIT")]
    case OffsetKw => [Word("OFFSET")]
    case _ => []
  }

  function InsertWords(t: Tok): seq<Lexeme> {
    match t
    case InsertInto => [Word("INSERT"), Word("INTO")]
    case ValuesKw => [Word("VALUES")]
    case DefaultKw => [Word("DEFAULT")]
    case DefaultValues => [Word("DEFAULT"), Word("VALUES")]
    case OnConflict => [Word("ON"), Word("CONFLICT")]
    case DoNothing => [Word("DO"), Word("NOTHING")]
    case DoUpdateSet => [Word("DO"), Word("UPDATE"), Word("SET")]
    case AssignExcluded => [Sym("="), Word("EXCLUDED"), Sym(".")]
    case _ => []
  }

  function UpdateWords(t: Tok): seq<Lexeme> {
    match t
    case UpdateKw => [Word("UPDATE")]
    case SetKw => [Word("SET")]
    case Assign => [Sym("=")]
    case DeleteFrom => [Word("DELETE"), Word("FROM")]
    case ReturningKw => [Word("RETURNING")]
    case _ => []
  }

  /** What a spliced expression or alias reads as by itself. */
  function SplicedWords(text: string): seq<Lexeme> {
    if Clean(text) && Lex(Scan(text).value[0]).Some? then Lex(Scan(text).value[0]).value else []
  }

  function TokWords(t: Tok): seq<Lexeme> {
    match t
    case Param => [Hole]
    case Expr(text) => SplicedWords(text)
    case Ident(name) => [Name(name)]
    case Bare(name) => SplicedWords(name)
    case _ => ConditionWords(t) + SelectWords(t) + InsertWords(t) + UpdateWords(t)
  }

  function Words(toks: seq<Tok>): seq<Lexeme> {
    if toks == [] then [] else TokWords(toks[0]) + Words(toks[1..])
  }

  // ---------------------------------------------------------------------------
  // Fixed words
  // ---------------------------------------------------------------------------

  predicate OfKind(s: string, word: bool) {
    s != "" && forall c :: c in s ==> if word then WordChar(c) else OpChar(c)
  }

  lemma KindsApart(c: char)
    ensures WordChar(c) ==> !IsSpace(c) && c != '"' && !OpChar(c)
    ensures OpChar(c) ==> !IsSpace(c) && c != '"'
    ensures IsSpace(c) ==> !WordChar(c) && !OpChar(c) && c != '"'
  {}

  lemma {:induction false} RunAll(s: string, word: bool)
    requires forall c :: c in s ==> if word then WordChar(c) else OpChar(c)
    ensures Run(s, word) == |s|
  {
    hide WordChar, OpChar;
    if s != "" {
      assert s[0] in s && forall c :: c in s[1..] ==> c in s;
      RunAll(s[1..], word);
    }
  }

  lemma LexOne(s: string, word: bool)
    requires OfKind(s, word)
    ensures Lex(s) == Some([if word then Word(s) else Sym(s)])
  {
    RunAll(s, word);
    KindsApart(s[0]);
    assert s[0] in s;
    hide WordChar, OpChar, IsSpace;
    assert s[..|s|] == s && s[|s|..] == "";
    var read := [if word then Word(s) else Sym(s)];
    assert Front(s) == Some(Head(read, |s|)) && read + [] == read;
  }

  predicate SpaceOrNone(s: string) {
    s == "" || s == " "
  }

  lemma LexSpace(s: string)
    requires SpaceOrNone(s)
    ensures Lex(s) == Some([])
  {
    if s == " " {
      assert Front(s) == Some(Head([], 1)) && s[1..] == "";
      var none: seq<Lexeme> := [];
      assert Lex(s[1..]) == Some(none) && none + none == none;
    }
  }

  lemma SpaceApart(a: string, b: string)
    requires SpaceOrNone(a) || SpaceOrNone(b)
    ensures Apart(a, b)
  {
    assert !WordChar(' ') && !OpChar(' ') && ' ' != '"';
    hide WordChar, OpChar;
  }

  /** A text with at most one space at either end. */
  lemma Spaced(lead: string, s: string, trail: string)
    requires SpaceOrNone(lead) && SpaceOrNone(trail) && Lex(s).Some?
    ensures Lex(lead + s + trail) == Lex(s)
  {
    hide Lex, Apart;
    LexSpace(lead);
    LexSpace(trail);
    SpaceApart(lead, s);
    LexConcat(lead, s);
    SpaceApart(lead + s, trail);
    LexConcat(lead + s, trail);
    assert [] + Lex(s).value == Lex(s).value && Lex(s).value + [] == Lex(s).value;
  }

  lemma Phrase(text: string, lead: string, word: string, trail: string)
    requires text == lead + word + trail && SpaceOrNone(lead) && SpaceOrNone(trail) && OfKind(word, true)
    ensures Lex(text) == Some([Word(word)])
  {
    hide Lex, OfKind;
    LexOne(word, true);
    Spaced(lead, word, trail);
  }

  lemma Phrase2(text: string, lead: string, first: string, second: string, trail: string)
    requires text == lead + (first + " " + second) + trail && SpaceOrNone(lead) && SpaceOrNone(trail)
    requires OfKind(first, true) && OfKind(second, true)
    ensures Lex(text) == Some([Word(first), Word(second)])
  {
    hide Lex, OfKind, Apart;
    LexOne(first, true);
    Phrase(second, "", second, "");
    LexSpace(" ");
    SpaceApart(first, " ");
    LexConcat(first, " ");
    SpaceEnds(first, second);
    LexConcat(first + " ", second);
    assert [Word(first)] + [] == [Word(first)];
    assert [Word(first)] + [Word(second)] == [Word(first), Word(second)];
    Spaced(lead, first + " " + second, trail);
  }

  lemma SpaceEnds(a: string, b: string)
    ensures Apart(a + " ", b) && Apart(a, " " + b)
  {
    assert !WordChar(' ') && !OpChar(' ') && ' ' != '"';
    hide WordChar, OpChar;
  }

  lemma Phrase3(text: string, lead: string, first: string, second: string, third: string, trail: string)
    requires text == lead + (first + " " + (second + " " + third)) + trail && SpaceOrNone(lead) && SpaceOrNone(trail)
    requires OfKind(first, true) && OfKind(second, true) && OfKind(third, true)
    ensures Lex(text) == Some([Word(first), Word(second), Word(third)])
  {
    hide Lex, OfKind, Apart;
    var more := second + " " + third;
    Phrase2(more, "", second, third, "");
    LexOne(first, true);
    LexSpace(" ");
    SpaceApart(first, " ");
    LexConcat(first, " ");
    SpaceEnds(first, more);
    LexConcat(first + " ", more);
    assert [Word(first)] + [] == [Word(first)];
    assert [Word(first)] + [Word(second), Word(third)] == [Word(first), Word(second), Word(third)];
    Spaced(lead, first + " " + more, trail);
  }

  lemma Operator(text: string, lead: string, op: string, trail: string)
    requires text == lead + op + trail && SpaceOrNone(lead) && SpaceOrNone(trail) && OfKind(op, false)
    ensures Lex(text) == Some([Sym(op)])
  {
    hide Lex, OfKind;
    LexOne(op, false);
    Spaced(lead, op, trail);
  }

  predicate Mark(c: char) {
    c == '(' || c == ')' || c == ',' || c == '.'
  }

  lemma LexMark(text: string, c: char, trail: string)
    requires text == [c] + trail && Mark(c) && SpaceOrNone(trail)
    ensures Lex(text) == Some([Sym([c])])
  {
    var none: seq<Lexeme> := [];
    LexSpace(trail);
    assert text[1..] == trail;
    assert Front(text) == Some(Head([Sym([c])], 1));
    hide Front;
    assert [Sym([c])] + none == [Sym([c])];
  }

  lemma SymLexes(s: CmpSym)
    ensures Lex(" " + SymText(s) + " ") == Some([SymLexeme(s)])
  {
    hide Lex;
    match s
    case Equal => Operator(" = ", " ", "=", " ");
    case NotEqual => Operator(" <> ", " ", "<>", " ");
    case Greater => Operator(" > ", " ", ">", " ");
    case GreaterEqual => Operator(" >= ", " ", ">=", " ");
    case Less => Operator(" < ", " ", "<", " ");
    case LessEqual => Operator(" <= ", " ", "<=", " ");
    case LikeSym => Phrase(" LIKE ", " ", "LIKE", " ");
    case ILikeSym => Phrase(" ILIKE ", " ", "ILIKE", " ");
    case Tilde => Operator(" ~ ", " ", "~", " ");
    case TildeStar => Operator(" ~* ", " ", "~*", " ");
  }

  lemma IsPhrase(word: string)
    requires OfKind(word, true)
    ensures Lex(" IS " + word) == Some([Word("IS"), Word(word)])
  {
    hide Lex;
    Phrase2(" IS " + word, " ", "IS", word, "");
  }

  lemma IsLexes(w: IsWord)
    ensures Lex(" IS " + IsText(w)) == Some([Word("IS"), IsLexeme(w)])
  {
    hide Lex;
    match w
    case IsNull => IsPhrase("NULL");
    case IsTrue => IsPhrase("TRUE");
    case IsFalse => IsPhrase("FALSE");
    case IsUnknown => IsPhrase("UNKNOWN");
  }

  lemma FnLexes(f: TsFn)
    ensures Lex(TsFnText(f)) == Some([FnLexeme(f)])
  {
    hide Lex;
    match f
    case ToTsQuery => LexOne("to_tsquery", true);
    case PlainToTsQuery => LexOne("plainto_tsquery", true);
    case PhraseToTsQuery => LexOne("phraseto_tsquery", true);
    case WebsearchToTsQuery => LexOne("websearch_to_tsquery", true);
  }

  lemma LogicLexes(t: Tok)
    requires t.NotKw? || t.AndKw? || t.OrKw?
    ensures Lex(ConditionText(t)) == Some(ConditionWords(t))
  {
    hide Lex;
    if t.NotKw? {
      Phrase("NOT ", "", "NOT", " ");
    } else if t.AndKw? {
      Phrase(" AND ", " ", "AND", " ");
    } else {
      Phrase(" OR ", " ", "OR", " ");
    }
  }

  lemma TsVectorLexes()
    ensures Lex("to_tsvector") == Some([Word("to_tsvector")])
  {
    hide Lex;
    LexOne("to_tsvector", true);
  }

  lemma ConditionLexes(t: Tok)
    ensures Lex(ConditionText(t)) == Some(ConditionWords(t))
  {
    hide Lex;
    match t
    case Open => LexMark("(", '(', "");
    case Close => LexMark(")", ')', "");
    case Comma => LexMark(", ", ',', " ");
    case Space => LexSpace(" ");
    case NotKw => LogicLexes(t);
    case AndKw => LogicLexes(t);
    case OrKw => LogicLexes(t);
    case InKw => Phrase(" IN ", " ", "IN", " ");
    case AtAt => Operator(" @@ ", " ", "@@", " ");
    case TsVector => TsVectorLexes();
    case IsKw(w) => IsLexes(w);
    case Cmp(s) => SymLexes(s);
    case TsQuery(f) => FnLexes(f);
    case _ => LexSpace("");
  }

  lemma DirectionLexes(t: Tok)
    requires t.Asc? || t.Desc?
    ensures Lex(SelectText(t)) == Some(SelectWords(t))
  {
    hide Lex;
    if t.Asc? {
      Phrase(" ASC", " ", "ASC", "");
    } else {
      Phrase(" DESC", " ", "DESC", "");
    }
  }

  lemma PageLexes(t: Tok)
    requires t.LimitKw? || t.OffsetKw?
    ensures Lex(SelectText(t)) == Some(SelectWords(t))
  {
    hide Lex;
    if t.LimitKw? {
      Phrase("LIMIT ", "", "LIMIT", " ");
    } else {
      Phrase("OFFSET ", "", "OFFSET", " ");
    }
  }

  lemma OrderByLexes()
    ensures Lex("ORDER BY ") == Some([Word("ORDER"), Word("BY")])
  {
    hide Lex;
    Phrase2("ORDER BY ", "", "ORDER", "BY", " ");
  }

  lemma NullsFirstLexes()
    ensures Lex(" NULLS FIRST") == Some([Word("NULLS"), Word("FIRST")])
  {
    hide Lex;
    Phrase2(" NULLS FIRST", " ", "NULLS", "FIRST", "");
  }

  lemma NullsLastLexes()
    ensures Lex(" NULLS LAST") == Some([Word("NULLS"), Word("LAST")])
  {
    hide Lex;
    Phrase2(" NULLS LAST", " ", "NULLS", "LAST", "");
  }

  lemma SelectLexes(t: Tok)
    ensures Lex(SelectText(t)) == Some(SelectWords(t))
  {
    hide Lex;
    match t
    case SelectKw => Phrase("SELECT ", "", "SELECT", " ");
    case AsKw => Phrase(" AS ", " ", "AS", " ");
    case FromKw => Phrase(" FROM ", " ", "FROM", " ");
    case WhereKw => Phrase("WHERE ", "", "WHERE", " ");
    case Ctid => LexOne("ctid", true);
    case OrderBy => OrderByLexes();
    case Asc => DirectionLexes(t);
    case Desc => DirectionLexes(t);
    case NullsFirst => NullsFirstLexes();
    case NullsLast => NullsLastLexes();
    case LimitKw => PageLexes(t);
    case OffsetKw => PageLexes(t);
    case _ => LexSpace("");
  }

  lemma InsertIntoLexes()
    ensures Lex("INSERT INTO ") == Some([Word("INSERT"), Word("INTO")])
  {
    hide Lex;
    Phrase2("INSERT INTO ", "", "INSERT", "INTO", " ");
  }

  lemma ValueWordLexes(t: Tok)
    requires t.ValuesKw? || t.DefaultKw?
    ensures Lex(InsertText(t)) == Some(InsertWords(t))
  {
    hide Lex;
    if t.ValuesKw? {
      Phrase(" VALUES ", " ", "VALUES", " ");
    } else {
      LexOne("DEFAULT", true);
    }
  }

  lemma DefaultValuesLexes()
    ensures Lex(" DEFAULT VALUES") == Some([Word("DEFAULT"), Word("VALUES")])
  {
    hide Lex;
    Phrase2(" DEFAULT VALUES", " ", "DEFAULT", "VALUES", "");
  }

  lemma OnConflictLexes()
    ensures Lex(" ON CONFLICT ") == Some([Word("ON"), Word("CONFLICT")])
  {
    hide Lex;
    Phrase2(" ON CONFLICT ", " ", "ON", "CONFLICT", " ");
  }

  lemma DoNothingLexes()
    ensures Lex(" DO NOTHING") == Some([Word("DO"), Word("NOTHING")])
  {
    hide Lex;
    Phrase2(" DO NOTHING", " ", "DO", "NOTHING", "");
  }

  lemma DoUpdateSetLexes()
    ensures Lex(" DO UPDATE SET ") == Some([Word("DO"), Word("UPDATE"), Word("SET")])
  {
    hide Lex;
    Phrase3(" DO UPDATE SET ", " ", "DO", "UPDATE", "SET", " ");
  }

  lemma InsertLexes(t: Tok)
    ensures Lex(InsertText(t)) == Some(InsertWords(t))
  {
    hide Lex;
    match t
    case InsertInto => InsertIntoLexes();
    case ValuesKw => ValueWordLexes(t);
    case DefaultKw => ValueWordLexes(t);
    case DefaultValues => DefaultValuesLexes();
    case OnConflict => OnConflictLexes();
    case DoNothing => DoNothingLexes();
    case DoUpdateSet => DoUpdateSetLexes();
    case AssignExcluded => ExcludedLexes();
    case _ => LexSpace("");
  }

  lemma ExcludedLexes()
    ensures Lex(" = EXCLUDED.") == Some([Sym("="), Word("EXCLUDED"), Sym(".")])
  {
    hide Lex, Apart;
    Operator(" = ", " ", "=", " ");
    LexOne("EXCLUDED", true);
    LexMark(".", '.', "");
    SpaceEnds(" =", "EXCLUDED");
    assert " =" + " " == " = " && " = " + "EXCLUDED" == " = EXCLUDED" && " = EXCLUDED" + "." == " = EXCLUDED.";
    LexConcat(" = ", "EXCLUDED");
    assert Apart(" = EXCLUDED", ".") by { DotApart(" = EXCLUDED"); }
    LexConcat(" = EXCLUDED", ".");
    assert [Sym("=")] + [Word("EXCLUDED")] + [Sym(".")] == [Sym("="), Word("EXCLUDED"), Sym(".")];
  }

  lemma DotApart(a: string)
    ensures Apart(a, ".")
  {
    assert !WordChar('.') && !OpChar('.');
    hide WordChar, OpChar;
  }

  lemma DeleteFromLexes()
    ensures Lex("DELETE FROM ") == Some([Word("DELETE"), Word("FROM")])
  {
    hide Lex;
    Phrase2("DELETE FROM ", "", "DELETE", "FROM", " ");
  }

  lemma UpdateLexes(t: Tok)
    ensures Lex(UpdateText(t)) == Some(UpdateWords(t))
  {
    hide Lex;
    match t
    case UpdateKw => Phrase("UPDATE ", "", "UPDATE", " ");
    case SetKw => Phrase(" SET ", " ", "SET", " ");
    case Assign => Operator(" = ", " ", "=", " ");
    case DeleteFrom => DeleteFromLexes();
    case ReturningKw => Phrase(" RETURNING ", " ", "RETURNING", " ");
    case _ => LexSpace("");
  }

  /** Every fixed token reads as its words. */
  lemma FixedLexes(t: Tok)
    ensures Lex(FixedText(t)) == Some(ConditionWords(t) + SelectWords(t) + InsertWords(t) + UpdateWords(t))
  {
    ConditionLexes(t);
    SelectLexes(t);
    InsertLexes(t);
    UpdateLexes(t);
    hide Lex, Apart;
    var none: seq<Lexeme> := [];
    var a, b, c, d := ConditionText(t), SelectText(t), InsertText(t), UpdateText(t);
    LexSpace("");
    OneIsText(t);
    assert FixedText(t) == a + b + c + d;
    assert forall x: seq<Lexeme> :: x + none == x && none + x == x;
    assert forall x: string :: x + "" == x && "" + x == x;
  }

  /** At most one of the tables has a text for a token. */
  lemma OneIsText(t: Tok)
    ensures ConditionText(t) != "" ==> SelectText(t) == "" && InsertText(t) == "" && UpdateText(t) == ""
    ensures SelectText(t) != "" ==> InsertText(t) == "" && UpdateText(t) == ""
    ensures InsertText(t) != "" ==> UpdateText(t) == ""
  {}

  // ---------------------------------------------------------------------------
  // Whole statements
  // ---------------------------------------------------------------------------

  /** A text that may be spliced: literal to psycopg, something, and whole by itself to the server. */
  predicate Reads(text: string) {
    Clean(text) && Scan(text).value[0] != "" && Lex(Scan(text).value[0]).Some?
  }

  predicate Written(t: Tok) {
    (t.Expr? ==> Reads(t.text)) && (t.Bare? ==> Reads(t.name))
  }

  predicate AllWritten(toks: seq<Tok>) {
    forall i :: 0 <= i < |toks| ==> Written(toks[i])
  }

  /** The token's text starts (ends) with a blank, a bracket or a comma. */
  predicate Opens(t: Tok) {
    match t
    case Open | Close | Comma | Space | AndKw | OrKw | InKw | IsKw(_) | Cmp(_) | AtAt | AsKw | FromKw => true
    case Asc | Desc | NullsFirst | NullsLast | ValuesKw | DefaultValues | OnConflict | DoNothing | DoUpdateSet => true
    case AssignExcluded | SetKw | Assign | ReturningKw => true
    case _ => false
  }

  predicate Shuts(t: Tok) {
    match t
    case Open | Close | Comma | Space | NotKw | AndKw | OrKw | InKw | Cmp(_) | AtAt | SelectKw | AsKw | FromKw => true
    case WhereKw | OrderBy | LimitKw | OffsetKw | InsertInto | ValuesKw | OnConflict | DoUpdateSet | UpdateKw => true
    case SetKw | Assign | DeleteFrom | ReturningKw => true
    case _ => false
  }

  /** Two tokens that may stand beside each other. */
  predicate Beside(t: Tok, u: Tok) {
    Shuts(t) || Opens(u) || (t.AssignExcluded? && u.Ident?)
  }

  predicate KeptApart(toks: seq<Tok>) {
    forall i :: 0 <= i < |toks| - 1 ==> Beside(toks[i], toks[i + 1])
  }

  lemma FreeIsApart(c: char, d: char)
    requires Free(c) || Free(d)
    ensures !Sticky(c, d)
  {}

  /** The text has something in it, and starts and ends as its token says. */
  predicate Edged(text: string, t: Tok) {
    text != "" && (Opens(t) ==> Free(text[0])) && (Shuts(t) ==> Free(text[|text| - 1]))
  }

  lemma ConditionEdged(t: Tok)
    ensures ConditionWords(t) != [] || t.Space? ==> Edged(ConditionText(t), t)
  {
    assert IsSpace(' ') && Free(' ') && Free('(') && Free(')') && Free(',');
    hide IsSpace;
  }

  lemma SelectEdged(t: Tok)
    ensures SelectWords(t) != [] ==> Edged(SelectText(t), t)
  {
    assert IsSpace(' ') && Free(' ');
    hide IsSpace, Free;
  }

  lemma InsertEdged(t: Tok)
    ensures InsertWords(t) != [] ==> Edged(InsertText(t), t)
  {
    assert IsSpace(' ') && Free(' ');
    hide IsSpace, Free;
  }

  lemma UpdateEdged(t: Tok)
    ensures UpdateWords(t) != [] ==> Edged(UpdateText(t), t)
  {
    assert IsSpace(' ') && Free(' ');
    hide IsSpace, Free;
  }

  predicate Plain(t: Tok) {
    !t.Param? && !t.Expr? && !t.Ident? && !t.Bare?
  }

  lemma SomeWords(t: Tok)
    requires Plain(t)
    ensures t.Space? || ConditionWords(t) != [] || SelectWords(t) != [] || InsertWords(t) != [] || UpdateWords(t) != []
  {}

  lemma FixedEdged(t: Tok)
    requires Plain(t)
    ensures Edged(FixedText(t), t)
  {
    SomeWords(t);
    ConditionEdged(t);
    SelectEdged(t);
    InsertEdged(t);
    UpdateEdged(t);
    OneIsText(t);
    hide ConditionText, SelectText, InsertText, UpdateText, ConditionWords, SelectWords, InsertWords, UpdateWords,
      Opens, Shuts, Free;
    var a, b, c, d := ConditionText(t), SelectText(t), InsertText(t), UpdateText(t);
    assert forall x: string :: x + "" == x && "" + x == x;
  }

  lemma TokEdged(t: Tok)
    requires !t.Param? && Written(t)
    ensures Edged(ServerText(t), t)
    ensures Lex(ServerText(t)) == Some(TokWords(t))
  {
    if Plain(t) {
      FixedEdged(t);
      FixedLexes(t);
      hide FixedText, Lex, ConditionWords, SelectWords, InsertWords, UpdateWords, Edged;
    } else {
      hide Lex, FixedText;
      if t.Ident? {
        IdentLexes(t.name);
      }
    }
  }

  lemma IdentLexes(name: string)
    ensures Lex(SqlIdent(name)) == Some([Name(name)])
  {
    var none: seq<Lexeme> := [];
    var s := SqlIdent(name);
    QuotedIdentReadsBack(name, "");
    assert s + "" == s;
    assert !IsSpace('"');
    hide IsSpace, ReadIdentBody;
    assert Front(s) == Some(Head([Name(name)], |s|));
    assert s[|s|..] == "";
    assert [Name(name)] + none == [Name(name)];
  }

  lemma BesideApart(t: Tok, u: Tok)
    requires !t.Param? && !u.Param? && Written(t) && Written(u) && Beside(t, u)
    ensures Apart(ServerText(t), ServerText(u))
  {
    if t.AssignExcluded? && u.Ident? {
      ExcludedApart(u.name);
    } else {
      hide ServerText, Edged, Written, Shuts, Opens, Sticky, Free;
      TokEdged(t);
      TokEdged(u);
      EdgesApart(ServerText(t), t, ServerText(u), u);
    }
  }

  lemma EdgesApart(a: string, t: Tok, b: string, u: Tok)
    requires Edged(a, t) && Edged(b, u) && (Shuts(t) || Opens(u))
    ensures Apart(a, b)
  {
    hide Shuts, Opens, Sticky, Free;
    FreeIsApart(a[|a| - 1], b[0]);
  }

  lemma ExcludedApart(name: string)
    ensures Apart(ServerText(AssignExcluded), ServerText(Ident(name)))
  {
    var a, b := ServerText(AssignExcluded), SqlIdent(name);
    assert a == " = EXCLUDED." && b[0] == '"';
    assert !WordChar('.') && !OpChar('.');
    hide WordChar, OpChar, FixedText;
  }

  /** A parameter may stand after the text, and before the other. */
  predicate HoleFits(before: string, after: string) {
    before != "" && Free(before[|before| - 1]) && (after != "" ==> Free(after[0]))
  }

  lemma MoreSegments(first: string, rest: seq<string>)
    requires rest != []
    ensures LexAll([first] + rest) ==
            if Lex(first).Some? && LexAll(rest).Some? && HoleFits(first, rest[0])
            then Some(Lex(first).value + [Hole] + LexAll(rest).value) else None
  {
    hide Lex, Free;
    assert ([first] + rest)[1..] == rest;
  }

  lemma OneSegment(first: string)
    ensures LexAll([first]) == Lex(first)
  {}

  lemma LastOf(a: string, b: string, after: string)
    requires b != ""
    ensures HoleFits(a + b, after) <==> HoleFits(b, after)
  {
    assert (a + b)[|a + b| - 1] == b[|b| - 1];
  }

  lemma Regroup(a: seq<Lexeme>, b: seq<Lexeme>, c: seq<Lexeme>)
    ensures (a + b) + [Hole] + c == a + (b + [Hole] + c)
  {}

  /** One more text in front of the first segment. */
  lemma LexAllFront(text: string, segments: seq<string>)
    requires segments != [] && Lex(text).Some? && LexAll(segments).Some? && segments[0] != ""
    requires Apart(text, segments[0])
    ensures LexAll([text + segments[0]] + segments[1..]) == Some(Lex(text).value + LexAll(segments).value)
  {
    hide Lex, LexAll, Apart, Free, HoleFits;
    var first, rest := segments[0], segments[1..];
    if rest == [] {
      assert segments == [first] && [text + first] + rest == [text + first];
      OneSegment(first);
      OneSegment(text + first);
      LexConcat(text, first);
    } else {
      assert segments == [first] + rest;
      MoreSegments(first, rest);
      MoreSegments(text + first, rest);
      LexConcat(text, first);
      LastOf(text, first, rest[0]);
      Regroup(Lex(text).value, Lex(first).value, LexAll(rest).value);
    }
  }

  /** A parameter in front of the segments. */
  lemma LexAllHole(text: string, segments: seq<string>)
    requires text != "" && Free(text[|text| - 1]) && Lex(text).Some?
    requires segments != [] && LexAll(segments).Some? && (segments[0] != "" ==> Free(segments[0][0]))
    ensures LexAll([text] + segments) == Some(Lex(text).value + [Hole] + LexAll(segments).value)
  {
    hide Lex, LexAll, Free;
    MoreSegments(text, segments);
  }

  lemma SegmentsOf(toks: seq<Tok>)
    requires toks != [] && !toks[0].Param? && CleanToks(toks)
    ensures var more := Segments(toks[1..]);
            Segments(toks) == [ServerText(toks[0]) + more[0]] + more[1..]
  {}

  lemma SegmentsAfterHole(toks: seq<Tok>)
    requires toks != [] && toks[0].Param? && CleanToks(toks)
    ensures Segments(toks) == [""] + Segments(toks[1..])
  {}

  lemma SegmentStart(toks: seq<Tok>)
    requires AllWritten(toks) && CleanToks(toks) && toks != [] && !toks[0].Param?
    ensures var text, first := ServerText(toks[0]), Segments(toks)[0];
            text != "" && first != "" && first[0] == text[0]
  {
    hide ServerText, Segments, Edged;
    SegmentsOf(toks);
    TokEdged(toks[0]);
    NonEmpty(ServerText(toks[0]), toks[0]);
  }

  lemma NonEmpty(text: string, t: Tok)
    requires Edged(text, t)
    ensures text != ""
    ensures Opens(t) ==> Free(text[0])
    ensures Shuts(t) ==> Free(text[|text| - 1])
  {
    hide Opens, Shuts, Free;
  }

  lemma WrittenIsClean(toks: seq<Tok>)
    requires AllWritten(toks)
    ensures CleanToks(toks)
  {
    hide Lex, Clean;
    assert forall i :: 0 <= i < |toks| ==> Written(toks[i]);
  }

  lemma OneToken(t: Tok)
    requires !t.Param? && Written(t) && CleanToks([t])
    ensures LexAll(Segments([t])) == Some(Words([t]))
  {
    hide Lex, ServerText, TokWords, Clean;
    TokEdged(t);
    assert [t][1..] == [] && Segments([]) == [""];
    assert ServerText(t) + "" == ServerText(t);
    assert Segments([t]) == [ServerText(t)];
    assert TokWords(t) + [] == TokWords(t);
  }

  lemma SameStartApart(a: string, b: string, c: string)
    requires Apart(a, b) && b != "" && c != "" && b[0] == c[0]
    ensures Apart(a, c)
  {
    hide Sticky;
  }

  /** Beside a parameter stands a token free of it. */
  lemma BesideHole(t: Tok, u: Tok)
    requires Beside(t, u)
    ensures u.Param? ==> Shuts(t)
    ensures t.Param? ==> Opens(u) && !u.Param?
  {}

  lemma NothingAfter()
    ensures CleanToks([]) && Segments([]) == [""] && LexAll([""]) == Some([]) && Words([]) == []
  {}

  /** A token with a parameter after it. */
  lemma {:induction false} HoleNext(toks: seq<Tok>)
    requires |toks| >= 2 && !toks[0].Param? && toks[1].Param? && AllWritten(toks) && KeptApart(toks) && CleanToks(toks)
    ensures LexAll(Segments(toks)) == Some(Words(toks))
    decreases |toks|, 0
  {
    hide Lex, LexAll, Segments, ServerText, Written, Beside, TokWords, Apart, Edged, Clean;
    var t, rest, more := toks[0], toks[1..], toks[2..];
    assert Beside(toks[0], toks[1]);
    BesideHole(t, toks[1]);
    SegmentsOf(toks);
    assert rest[1..] == more;
    SegmentsAfterHole(rest);
    TokEdged(t);
    NonEmpty(ServerText(t), t);
    assert ServerText(t) + "" == ServerText(t);
    assert Segments(toks) == [ServerText(t)] + Segments(more);
    assert TokWords(toks[1]) == [Hole] by { HoleWords(); }
    assert Words(toks) == TokWords(t) + ([Hole] + Words(more));
    assert TokWords(t) + ([Hole] + Words(more)) == TokWords(t) + [Hole] + Words(more);
    if more == [] {
      NothingAfter();
    } else {
      assert Beside(toks[1], toks[2]);
      BesideHole(toks[1], toks[2]);
      ReadsWords(more);
      SegmentStart(more);
      TokEdged(more[0]);
      NonEmpty(ServerText(more[0]), more[0]);
    }
    LexAllHole(ServerText(t), Segments(more));
  }

  lemma HoleWords()
    ensures TokWords(Param) == [Hole]
  {}

  /** The text of tokens that may stand beside each other, as the server receives it with its parameters in place, reads
      as exactly the words of the tokens: nothing runs together and nothing is split. */
  lemma {:induction false} ReadsWords(toks: seq<Tok>)
    requires toks != [] && !toks[0].Param? && AllWritten(toks) && KeptApart(toks)
    ensures CleanToks(toks) && LexAll(Segments(toks)) == Some(Words(toks))
    decreases |toks|, 1
  {
    WrittenIsClean(toks);
    hide Lex, LexAll, Segments, ServerText, CleanToks, Written, Beside, TokWords, Apart, Edged;
    var t, rest := toks[0], toks[1..];
    assert AllWritten(rest) && KeptApart(rest);
    WrittenIsClean(rest);
    SegmentsOf(toks);
    TokEdged(t);
    NonEmpty(ServerText(t), t);
    if rest == [] {
      assert toks == [t];
      OneToken(t);
    } else if rest[0].Param? {
      HoleNext(toks);
    } else {
      ReadsWords(rest);
      SegmentStart(rest);
      BesideApart(t, rest[0]);
      SameStartApart(ServerText(t), ServerText(rest[0]), Segments(rest)[0]);
      LexAllFront(ServerText(t), Segments(rest));
    }
  }

  // ---------------------------------------------------------------------------
  // Texts that may be spliced
  // ---------------------------------------------------------------------------

  /** Without a quotation mark nothing is left open. */
  lemma {:induction false} LexUnquoted(s: string)
    requires '"' !in s
    ensures Lex(s).Some?
    decreases |s|
  {
    if s != "" {
      var h := FrontUnquoted(s);
      assert forall c :: c in s[h..] ==> c in s;
      LexUnquoted(s[h..]);
    }
  }

  lemma FrontUnquoted(s: string) returns (h: nat)
    requires s != "" && '"' !in s
    ensures Front(s).Some? && h == Front(s).value.length
  {
    assert s[0] in s;
    h := Front(s).value.length;
  }

  lemma PlainReads(s: string)
    requires s != "" && '%' !in s && '"' !in s
    ensures Reads(s)
  {
    ScanPlain(s);
    LexUnquoted(s);
  }

  lemma QuotedReads(name: string)
    ensures Reads(QuoteIdent(name))
  {
    QuotedIdentScansClean(name);
    IdentLexes(name);
    hide Lex, Scan;
  }
}
