/** SQL as tokens whose texts make up the statement, and psycopg's scan of that text for `%s`. */
module SqlText {
  import opened Results
  import opened Text

  datatype CmpSym = Equal | NotEqual | Greater | GreaterEqual | Less | LessEqual
                  | LikeSym | ILikeSym | Tilde | TildeStar

  datatype IsWord = IsNull | IsTrue | IsFalse | IsUnknown

  datatype TsFn = ToTsQuery | PlainToTsQuery | PhraseToTsQuery | WebsearchToTsQuery

  datatype Tok =
    | Param                    // one bound parameter
    | Expr(text: string)       // a column expression, spliced as the router or the reflection wrote it
    | Ident(name: string)      // a quoted identifier
    | Bare(name: string)       // an output alias spliced unquoted (lenient dialect)
    | Open | Close | Comma | Space
    | NotKw | AndKw | OrKw | InKw | IsKw(word: IsWord) | Cmp(sym: CmpSym)
    | TsVector | AtAt | TsQuery(fn: TsFn)
    | SelectKw | AsKw | FromKw | WhereKw | Ctid
    | OrderBy | Asc | Desc | NullsFirst | NullsLast | LimitKw | OffsetKw
    | InsertInto | ValuesKw | DefaultKw | DefaultValues
    | OnConflict | DoNothing | DoUpdateSet | AssignExcluded
    | UpdateKw | SetKw | Assign | DeleteFrom | ReturningKw

  function SymText(s: CmpSym): (r: string)
    ensures '%' !in r
  {
    match s
    case Equal => "="
    case NotEqual => "<>"
    case Greater => ">"
    case GreaterEqual => ">="
    case Less => "<"
    case LessEqual => "<="
    case LikeSym => "LIKE"
    case ILikeSym => "ILIKE"
    case Tilde => "~"
    case TildeStar => "~*"
  }

  function IsText(w: IsWord): (r: string)
    ensures '%' !in r
  {
    match w
    case IsNull => "NULL"
    case IsTrue => "TRUE"
    case IsFalse => "FALSE"
    case IsUnknown => "UNKNOWN"
  }

  function TsFnText(f: TsFn): (r: string)
    ensures '%' !in r
  {
    match f
    case ToTsQuery => "to_tsquery"
    case PlainToTsQuery => "plainto_tsquery"
    case PhraseToTsQuery => "phraseto_tsquery"
    case WebsearchToTsQuery => "websearch_to_tsquery"
  }

  /** Punctuation and the words of a condition; like every fixed word they hold no percent sign. */
  function ConditionText(t: Tok): (r: string)
    ensures '%' !in r
  {
    match t
    case Open => "("
    case Close => ")"
    case Comma => ", "
    case Space => " "
    case NotKw => "NOT "
    case AndKw => " AND "
    case OrKw => " OR "
    case InKw => " IN "
    case AtAt => " @@ "
    case TsVector => "to_tsvector"
    case IsKw(w) => " IS " + IsText(w)
    case Cmp(s) => " " + SymText(s) + " "
    case TsQuery(f) => TsFnText(f)
    case _ => ""
  }

  function SelectText(t: Tok): (r: string)
    ensures '%' !in r
  {
    match t
    case SelectKw => "SELECT "
    case AsKw => " AS "
    case FromKw => " FROM "
    case WhereKw => "WHERE "
    case Ctid => "ctid"
    case OrderBy => "ORDER BY "
    case Asc => " ASC"
    case Desc => " DESC"
    case NullsFirst => " NULLS FIRST"
    case NullsLast => " NULLS LAST"
    case LimitKw => "LIMIT "
    case OffsetKw => "OFFSET "
    case _ => ""
  }

  function InsertText(t: Tok): (r: string)
    ensures '%' !in r
  {
    match t
    case InsertInto => "INSERT INTO "
    case ValuesKw => " VALUES "
    case DefaultKw => "DEFAULT"
    case DefaultValues => " DEFAULT VALUES"
    case OnConflict => " ON CONFLICT "
    case DoNothing => " DO NOTHING"
    case DoUpdateSet => " DO UPDATE SET "
    case AssignExcluded => " = EXCLUDED."
    case _ => ""
  }

  function UpdateText(t: Tok): (r: string)
    ensures '%' !in r
  {
    match t
    case UpdateKw => "UPDATE "
    case SetKw => " SET "
    case Assign => " = "
    case DeleteFrom => "DELETE FROM "
    case ReturningKw => " RETURNING "
    case _ => ""
  }

  /** The words the code writes itself. */
  function FixedText(t: Tok): (r: string)
    ensures '%' !in r
  {
    ConditionText(t) + SelectText(t) + InsertText(t) + UpdateText(t)
  }

  /** A double-quoted SQL identifier as the server reads it. */
  function SqlIdent(name: string): string {
    "\"" + ReplaceChar(name, '"', "\"\"") + "\""
  }

  /** `quote_ident`: the same, with `%` doubled for psycopg's client-side scan. */
  function QuoteIdent(name: string): string {
    ReplaceChar(SqlIdent(name), '%', "%%")
  }

  function TokText(t: Tok): string {
    match t
    case Param => "%s"
    case Expr(text) => text
    case Ident(name) => QuoteIdent(name)
    case Bare(name) => name
    case _ => FixedText(t)
  }

  function SqlOf(toks: seq<Tok>): string {
    if toks == [] then "" else TokText(toks[0]) + SqlOf(toks[1..])
  }

  function CountParams(toks: seq<Tok>): nat {
    if toks == [] then 0 else (if toks[0].Param? then 1 else 0) + CountParams(toks[1..])
  }

  lemma {:induction false} CountParamsConcat(a: seq<Tok>, b: seq<Tok>)
    ensures CountParams(a + b) == CountParams(a) + CountParams(b)
  {
    if a == [] {
      assert a + b == b;
    } else {
      assert (a + b)[1..] == a[1..] + b;
      CountParamsConcat(a[1..], b);
    }
  }

  // ---------------------------------------------------------------------------
  // psycopg's placeholder scan
  // ---------------------------------------------------------------------------

  /** Puts a literal character in front of the first segment. */
  function Push(c: char, r: Option<seq<string>>): (q: Option<seq<string>>)
    requires r.Some? ==> |r.value| >= 1
    ensures q.Some? ==> |q.value| >= 1
  {
    if r.None? then None else Some([[c] + r.value[0]] + r.value[1..])
  }

  /** The literal segments around the `%s` placeholders, `%%` read as `%`; any other use of `%` fails. */
  function Scan(s: string): (r: Option<seq<string>>)
    ensures r.Some? ==> |r.value| >= 1
  {
    if s == "" then Some([""])
    else if s[0] != '%' then Push(s[0], Scan(s[1..]))
    else if |s| >= 2 && s[1] == 's' then
      Cut(Scan(s[2..]))
    else if |s| >= 2 && s[1] == '%' then Push('%', Scan(s[2..]))
    else None
  }

  /** Runs the last segment of `a` into the first segment of `b`. */
  function Glue(a: seq<string>, b: seq<string>): seq<string>
    requires |a| >= 1 && |b| >= 1
  {
    a[..|a| - 1] + [a[|a| - 1] + b[0]] + b[1..]
  }

  lemma GluePush(c: char, a: seq<string>, b: seq<string>)
    requires |a| >= 1 && |b| >= 1
    ensures Glue([[c] + a[0]] + a[1..], b) == [[c] + Glue(a, b)[0]] + Glue(a, b)[1..]
  {
    if |a| == 1 {
      assert [c] + a[0] + b[0] == [c] + (a[0] + b[0]);
    }
  }

  lemma {:induction false} ScanConcat(a: string, b: string)
    requires Scan(a).Some? && Scan(b).Some?
    ensures Scan(a + b) == Some(Glue(Scan(a).value, Scan(b).value))
    decreases |a|
  {
    hide Glue, Unit, Push, Cut;
    var sb := Scan(b).value;
    if a == "" {
      assert a + b == b;
      ScanPlain(a);
      GlueEmpty(sb);
    } else {
      var k := if a[0] == '%' then 2 else 1;
      ScanStep(a, k);
      ScanStep(a + b, k);
      assert (a + b)[k..] == a[k..] + b && (a + b)[..k] == a[..k];
      ScanConcat(a[k..], b);
      GlueUnit(a[..k], a[k - 1], Scan(a[k..]).value, sb);
    }
  }

  lemma GlueEmpty(b: seq<string>)
    requires |b| >= 1
    ensures Glue([""], b) == b
  {
    assert "" + b[0] == b[0];
  }

  lemma GlueTok(text: string, r: seq<string>)
    requires |r| >= 1
    ensures Glue(["", ""], r) == [""] + r
    ensures Glue([text], r) == [text + r[0]] + r[1..]
  {
    assert "" + r[0] == r[0];
  }

  function Unit(u: string, c: char, r: seq<string>): seq<string>
    requires |r| >= 1
  {
    if u == "%s" then Cut(Some(r)).value else Push(c, Some(r)).value
  }

  lemma GlueUnit(u: string, c: char, a: seq<string>, b: seq<string>)
    requires |a| >= 1 && |b| >= 1
    ensures Glue(Unit(u, c, a), b) == Unit(u, c, Glue(a, b))
  {
    if u == "%s" {
      GlueCut(a, b);
    } else {
      GluePush(c, a, b);
    }
  }

  /** Scanning one unit, a placeholder or a literal character, and then the rest. */
  lemma ScanStep(s: string, k: nat)
    requires s != "" && k <= |s| && k == (if s[0] == '%' then 2 else 1)
    ensures Scan(s).Some? ==> Scan(s[k..]).Some? && Scan(s).value == Unit(s[..k], s[k - 1], Scan(s[k..]).value)
    ensures Scan(s[k..]).Some? && (k == 2 ==> s[1] == 's' || s[1] == '%') ==> Scan(s).Some?
  {
    assert s[..k] == if k == 1 then [s[0]] else [s[0], s[1]];
  }

  /** A placeholder closes an empty segment. */
  function Cut(r: Option<seq<string>>): (q: Option<seq<string>>)
    ensures q.Some? ==> |q.value| >= 1
  {
    if r.None? then None else Some([""] + r.value)
  }

  lemma GlueCut(a: seq<string>, b: seq<string>)
    requires |a| >= 1 && |b| >= 1
    ensures Glue([""] + a, b) == [""] + Glue(a, b)
  {}

  lemma PushOne(c: char, x: string)
    ensures Push(c, Some([x])) == Some([[c] + x])
  {
    assert [x][1..] == [];
    assert [[c] + x] + [] == [[c] + x];
  }

  /** A text psycopg reads as pure literal. */
  predicate Clean(s: string) {
    Scan(s).Some? && |Scan(s).value| == 1
  }

  lemma {:induction false} ScanDoubled(x: string)
    ensures Scan(ReplaceChar(x, '%', "%%")) == Some([x])
  {
    if x == "" {
      assert x == "";
    } else {
      ScanDoubled(x[1..]);
      var rest := ReplaceChar(x[1..], '%', "%%");
      var s := ReplaceChar(x, '%', "%%");
      if x[0] == '%' {
        assert s[2..] == rest;
      } else {
        assert s[1..] == rest;
      }
      PushOne(x[0], x[1..]);
      assert [x[0]] + x[1..] == x;
    }
  }

  lemma {:induction false} ScanPlain(x: string)
    requires '%' !in x
    ensures Scan(x) == Some([x])
  {
    if x != "" {
      assert forall c :: c in x[1..] ==> c in x;
      ScanPlain(x[1..]);
      PushOne(x[0], x[1..]);
      assert [x[0]] + x[1..] == x;
    }
  }

  /** A quoted identifier is literal text for psycopg whatever the name holds, and reaches the server as written. */
  lemma QuotedIdentScansClean(name: string)
    ensures Scan(QuoteIdent(name)) == Some([SqlIdent(name)])
  {
    ScanDoubled(SqlIdent(name));
  }

  /** What the server's lexer reads of a quoted identifier opened by the caller: the name and what follows. */
  function ReadIdentBody(s: string): (r: Option<(string, string)>)
    ensures r.Some? ==> |r.value.1| < |s|
  {
    if s == "" then None
    else if s[0] != '"' then
      var r := ReadIdentBody(s[1..]);
      if r.None? then None else Some(([s[0]] + r.value.0, r.value.1))
    else if |s| >= 2 && s[1] == '"' then
      var r := ReadIdentBody(s[2..]);
      if r.None? then None else Some((['"'] + r.value.0, r.value.1))
    else Some(("", s[1..]))
  }

  lemma {:induction false} IdentBodyReadsBack(name: string, rest: string)
    requires rest == "" || rest[0] != '"'
    ensures ReadIdentBody(ReplaceChar(name, '"', "\"\"") + "\"" + rest) == Some((name, rest))
  {
    var s := ReplaceChar(name, '"', "\"\"") + "\"" + rest;
    if name == "" {
      assert s[1..] == rest;
    } else {
      IdentBodyReadsBack(name[1..], rest);
      var tail := ReplaceChar(name[1..], '"', "\"\"") + "\"" + rest;
      if name[0] == '"' {
        assert s == ['"', '"'] + tail;
        assert s[2..] == tail;
      } else {
        assert s == [name[0]] + tail;
        assert s[1..] == tail;
      }
      assert [name[0]] + name[1..] == name;
    }
  }

  function ReadIdent(s: string): Option<(string, string)> {
    if s != "" && s[0] == '"' then ReadIdentBody(s[1..]) else None
  }

  /** However a name is spelled, the server reads exactly that name and stops at the closing quote. */
  lemma QuotedIdentReadsBack(name: string, rest: string)
    requires rest == "" || rest[0] != '"'
    ensures ReadIdent(SqlIdent(name) + rest) == Some((name, rest))
  {
    IdentBodyReadsBack(name, rest);
    var body := ReplaceChar(name, '"', "\"\"") + "\"" + rest;
    assert SqlIdent(name) + rest == "\"" + body;
    assert ("\"" + body)[1..] == body;
  }

  /** Every spliced expression of the statement is literal text for psycopg. */
  predicate CleanToks(toks: seq<Tok>) {
    forall i :: 0 <= i < |toks| ==>
      (toks[i].Expr? ==> Clean(toks[i].text)) && (toks[i].Bare? ==> Clean(toks[i].name))
  }

  /** What the server receives for one token that is not a parameter. */
  function ServerText(t: Tok): string
    requires !t.Param? && (t.Expr? ==> Clean(t.text)) && (t.Bare? ==> Clean(t.name))
  {
    match t
    case Expr(text) => Scan(text).value[0]
    case Ident(name) => SqlIdent(name)
    case Bare(name) => Scan(name).value[0]
    case _ => FixedText(t)
  }

  /** The server texts between consecutive `Param` tokens, the segments the placeholders must cut out. */
  function Segments(toks: seq<Tok>): (r: seq<string>)
    requires CleanToks(toks)
    ensures |r| >= 1
  {
    if toks == [] then [""]
    else
      var r := Segments(toks[1..]);
      if toks[0].Param? then [""] + r else [ServerText(toks[0]) + r[0]] + r[1..]
  }

  lemma TokScan(t: Tok)
    requires (t.Expr? ==> Clean(t.text)) && (t.Bare? ==> Clean(t.name))
    ensures Scan(TokText(t)) == Some(if t.Param? then ["", ""] else [ServerText(t)])
  {
    hide FixedText;
    match t
    case Param =>
      assert "%s"[2..] == "" && [""] + [""] == ["", ""];
    case Ident(name) =>
      QuotedIdentScansClean(name);
    case Expr(text) =>
      assert Scan(text).value == [Scan(text).value[0]];
    case Bare(name) =>
      assert Scan(name).value == [Scan(name).value[0]];
    case _ =>
      TokScanFixed(t);
  }

  lemma TokScanFixed(t: Tok)
    requires !t.Param? && !t.Expr? && !t.Ident? && !t.Bare?
    ensures Scan(TokText(t)) == Some([ServerText(t)])
  {
    hide FixedText, Scan;
    ScanPlain(FixedText(t));
  }

  /** psycopg never fails on the text, finds one placeholder per `Param` token, and the i-th placeholder
      stands exactly where the i-th `Param` token does. */
  lemma {:induction false} PlaceholdersAligned(toks: seq<Tok>)
    requires CleanToks(toks)
    ensures Scan(SqlOf(toks)) == Some(Segments(toks))
    ensures |Segments(toks)| == CountParams(toks) + 1
  {
    hide TokText, ServerText, Scan, Glue;
    if toks == [] {
      ScanPlain("");
    } else {
      TokScan(toks[0]);
      PlaceholdersAligned(toks[1..]);
      ScanConcat(TokText(toks[0]), SqlOf(toks[1..]));
      GlueTok(if toks[0].Param? then "" else ServerText(toks[0]), Segments(toks[1..]));
    }
  }
}
