/** What a condition asks of a column, told from its operator and the value its text spells. */
module Wishes {
  import opened Results
  import opened Text
  import opened SqlText
  import opened Values
  import opened Filters
  import opened Literals

  /** The value a text spells for a column of the type, or a refusal when it spells none. */
  ghost function ValueOf(ty: ColType, text: string): Result<Value> {
    if exists v :: Spells(ty, text, v) then var v :| Spells(ty, text, v); Ok(v) else Err(BadRequest)
  }

  ghost function ValuesOf(ty: ColType, texts: seq<string>): Result<seq<Value>> {
    if forall i :: 0 <= i < |texts| ==> ValueOf(ty, texts[i]).Ok?
    then Ok(seq(|texts|, i requires 0 <= i < |texts| && ValueOf(ty, texts[i]).Ok? => ValueOf(ty, texts[i]).value))
    else Err(BadRequest)
  }

  /** Operators that apply to text columns only. */
  predicate OnText(op: Op) {
    match op
    case Like | ILike | Match | IMatch | Fts | Plfts | Phfts | Wfts => true
    case _ => false
  }

  /** A star stands for any characters. */
  function Starred(value: string): string {
    seq(|value|, i requires 0 <= i < |value| => if value[i] == '*' then '%' else value[i])
  }

  function WordName(word: IsWord): string {
    match word
    case IsNull => "null"
    case IsTrue => "true"
    case IsFalse => "false"
    case IsUnknown => "unknown"
  }

  /** The keyword of an `is` test, in any mixture of cases. */
  ghost function WordWished(value: string): Option<IsWord> {
    if exists word :: AnyCase(value, WordName(word))
    then var word :| AnyCase(value, WordName(word)); Some(word)
    else None
  }

  /** The test a scalar operator asks for; a list is none. */
  ghost function Wished(col: Col, op: Op, lang: Option<string>, value: string): Result<Test> {
    if OnText(op) && !col.ty.StrCol? then Err(BadRequest)
    else
      match op
      case Like | ILike => Ok(Compare(op, VStr(Starred(value))))
      case Eq | Neq | Gt | Gte | Lt | Lte | Match | IMatch => (var v :- ValueOf(col.ty, value); Ok(Compare(op, v)))
      case Is => (var word := WordWished(value); if word.Some? then Ok(IsTest(word.value)) else Err(BadRequest))
      case Fts | Plfts | Phfts | Wfts => Ok(Search(op, lang, value))
      case In => Err(BadRequest)
  }

  /** The test of a list: one of the values its items spell. */
  ghost function WishedList(col: Col, items: seq<string>): Result<Test> {
    if items == [] then Err(BadRequest)
    else
      var vs :- ValuesOf(col.ty, items);
      Ok(OneOf(vs))
  }

  // ---------------------------------------------------------------------------
  // The parser agrees
  // ---------------------------------------------------------------------------

  lemma CoerceIsValue(ty: ColType, text: string)
    ensures Coerce(ty, text) == ValueOf(ty, text)
  {
    hide Coerce, Spells;
    if Coerce(ty, text).Ok? {
      CoerceIsSpelled(ty, text, Coerce(ty, text).value);
    } else {
      CoerceIsSpelled(ty, text, VInt(0));
    }
    forall v ensures Coerce(ty, text) == Ok(v) <==> Spells(ty, text, v) {
      CoerceIsSpelled(ty, text, v);
    }
  }

  lemma {:induction false} CoerceAllIsValues(ty: ColType, texts: seq<string>)
    ensures CoerceAll(ty, texts) == ValuesOf(ty, texts)
  {
    hide Coerce, ValueOf;
    if texts != [] {
      CoerceIsValue(ty, texts[0]);
      CoerceAllIsValues(ty, texts[1..]);
      assert forall i :: 0 <= i < |texts[1..]| ==> texts[1..][i] == texts[i + 1];
      ValueErrors(ty, texts[0]);
      if ValuesOf(ty, texts).Ok? {
        assert ValuesOf(ty, texts).value == [ValueOf(ty, texts[0]).value] + ValuesOf(ty, texts[1..]).value;
      } else if ValueOf(ty, texts[0]).Ok? {
        var i :| 0 <= i < |texts| && ValueOf(ty, texts[i]).Err?;
        assert texts[1..][i - 1] == texts[i];
      }
    }
  }

  lemma ValueErrors(ty: ColType, text: string)
    ensures ValueOf(ty, text).Err? ==> ValueOf(ty, text) == Err(BadRequest)
  {}

  lemma {:induction false} ReplacedIsStarred(value: string)
    ensures ReplaceChar(value, '*', "%") == Starred(value)
  {
    if value != "" {
      ReplacedIsStarred(value[1..]);
      assert Starred(value) == [if value[0] == '*' then '%' else value[0]] + Starred(value[1..]);
    }
  }

  lemma WordLetters(word: IsWord)
    ensures forall l :: l in WordName(word) ==> 'a' <= l <= 'z'
  {}

  lemma WordIsSpelled(value: string, word: IsWord)
    ensures IsWordOf(value) == Some(word) <==> AnyCase(value, WordName(word))
  {
    WordLetters(word);
    LowerIsAnyCase(value, WordName(word));
    assert |"null"| == 4 && |"true"| == 4 && |"false"| == 5 && |"unknown"| == 7 && "null"[0] != "true"[0];
    hide Lower, AnyCase;
  }

  /** What the parser makes of a scalar condition is the test it asks for, or the same refusal. */
  lemma ScalarTestIsWished(col: Col, op: Op, lang: Option<string>, value: string)
    requires !op.In?
    ensures ScalarTest(col, op, lang, value) == Wished(col, op, lang, value)
  {
    hide Coerce, ValueOf, IsWordOf, WordWished, ReplaceChar, Starred;
    CoerceIsValue(col.ty, value);
    ReplacedIsStarred(value);
    WordIsWished(value);
  }

  lemma WordIsWished(value: string)
    ensures IsWordOf(value) == WordWished(value)
  {
    hide IsWordOf, AnyCase, WordName;
    forall word ensures IsWordOf(value) == Some(word) <==> AnyCase(value, WordName(word)) {
      WordIsSpelled(value, word);
    }
    if IsWordOf(value).Some? {
      assert AnyCase(value, WordName(IsWordOf(value).value));
    }
  }

  lemma ListTestIsWished(col: Col, items: seq<string>)
    ensures ListTest(col, items) == WishedList(col, items)
  {
    CoerceAllIsValues(col.ty, items);
    hide CoerceAll, ValuesOf;
  }
}
