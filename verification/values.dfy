/** Values bound as SQL parameters, and the coercion of a filter value to its column's Python type. */
module Values {
  import opened Results
  import opened Text

  datatype Json = JNull | JBool(b: bool) | JNumber(n: real) | JString(s: string)
                | JList(elems: seq<Json>) | JObject(entries: map<string, Json>)

  datatype Value =
    | VInt(i: int)
    | VFloat(text: string)  // the float this text denotes, rounding not modelled
    | VBool(b: bool)
    | VStr(s: string)
    | VPlain(j: Json)       // a JSON body value bound as it is
    | VJsonb(j: Json)       // a JSON body value wrapped for json/jsonb

  datatype ColType = IntCol | FloatCol | BoolCol | StrCol

  predicate IsDigit(c: char) { '0' <= c <= '9' }

  /** Decimal digits, single underscores allowed between them; `ok` is whether the text may end here. */
  function DigitsFrom(s: string, acc: nat, ok: bool): Option<nat> {
    if s == "" then if ok then Some(acc) else None
    else if IsDigit(s[0]) then DigitsFrom(s[1..], acc * 10 + (s[0] as int - '0' as int), true)
    else if s[0] == '_' && ok then DigitsFrom(s[1..], acc, false)
    else None
  }

  predicate Digits(s: string) {
    DigitsFrom(s, 0, false).Some?
  }

  function Unsigned(s: string): string {
    if s != "" && (s[0] == '-' || s[0] == '+') then s[1..] else s
  }

  /** Python's `int(text)`, ASCII digits. */
  function ParseInt(text: string): Option<int> {
    var t := Strip(text);
    var n := DigitsFrom(Unsigned(t), 0, false);
    if n.None? then None else Some(if t[0] == '-' then 0 - n.value else n.value)
  }

  /** A mantissa: digits on at least one side of an optional point. */
  predicate Mantissa(s: string) {
    var p := Partition(s, '.');
    (Digits(p.head) && (p.tail == "" || Digits(p.tail))) || (p.head == "" && p.found && Digits(p.tail))
  }

  /** The texts Python's `float(text)` accepts, ASCII digits. */
  predicate FloatSyntax(text: string) {
    var t := Lower(Unsigned(Strip(text)));
    var p := Partition(t, 'e');
    t == "inf" || t == "infinity" || t == "nan"
    || (Mantissa(p.head) && (p.found ==> Digits(Unsigned(p.tail))))
  }

  function ParseBool(text: string): Option<bool> {
    var t := Lower(text);
    if t == "true" || t == "t" || t == "1" then Some(true)
    else if t == "false" || t == "f" || t == "0" then Some(false)
    else None
  }

  /** A value its column's type cannot read is a 400. */
  function Coerce(ty: ColType, value: string): Result<Value> {
    match ty
    case IntCol => (var n := ParseInt(value); if n.Some? then Ok(VInt(n.value)) else Err(BadRequest))
    case FloatCol => if FloatSyntax(value) then Ok(VFloat(Strip(value))) else Err(BadRequest)
    case BoolCol => (var b := ParseBool(value); if b.Some? then Ok(VBool(b.value)) else Err(BadRequest))
    case StrCol => Ok(VStr(value))
  }

  function CoerceAll(ty: ColType, values: seq<string>): (r: Result<seq<Value>>)
    ensures r.Ok? ==> |r.value| == |values|
  {
    if values == [] then Ok([])
    else
      var v :- Coerce(ty, values[0]);
      var vs :- CoerceAll(ty, values[1..]);
      Ok([v] + vs)
  }
}
