/** The Python values a parsed JSON document is made of, with the few Python
    operations the pipeline applies to them: `dict.get`, truthiness, `str()` and
    the `safe_str` helper that the row builders wrap around database values. */
module PyJson {
  import opened Wrappers

  /** A decoded JSON value. `JNull` is Python's `None`; a number keeps the text it
      was written with; an object keeps its members in document order. */
  datatype Json =
    | JNull
    | JBool(b: bool)
    | JNum(lexeme: string)
    | JStr(s: string)
    | JArr(items: seq<Json>)
    | JObj(members: seq<Member>)

  datatype Member = Member(key: string, value: Json)

  predicate IsContainer(v: Json) {
    v.JArr? || v.JObj?
  }

  /** The value of the last member named `key` (as `json.loads` keeps the last of
      repeated keys), or `None` when there is none. */
  function Lookup(members: seq<Member>, key: string): (r: Option<Json>)
    ensures r.None? <==> forall i :: 0 <= i < |members| ==> members[i].key != key
    ensures r.Some? ==> exists i :: 0 <= i < |members| && members[i] == Member(key, r.value)
  {
    if members == [] then None
    else if members[|members| - 1].key == key then Some(members[|members| - 1].value)
    else
      var r := Lookup(members[..|members| - 1], key);
      assert forall i :: 0 <= i < |members| - 1 ==> members[..|members| - 1][i] == members[i];
      r
  }

  /** `d.get(key, default)` on a dict. */
  function GetOr(members: seq<Member>, key: string, default: Json): Json {
    match Lookup(members, key)
    case Some(v) => v
    case None => default
  }

  /** `d.get(key)`: `None` when the key is absent. */
  function Get(members: seq<Member>, key: string): Json {
    GetOr(members, key, JNull)
  }

  /** True when a number's text denotes zero: no non-zero digit before the exponent. */
  predicate MantissaIsZero(lexeme: string) {
    if lexeme == [] || lexeme[0] == 'e' || lexeme[0] == 'E' then true
    else lexeme[0] !in "123456789" && MantissaIsZero(lexeme[1..])
  }

  /** Python truthiness: `None`, `False`, zero, and empty strings, lists and dicts are false. */
  predicate Truthy(v: Json) {
    match v
    case JNull => false
    case JBool(b) => b
    case JNum(lexeme) => !MantissaIsZero(lexeme)
    case JStr(s) => s != ""
    case JArr(items) => items != []
    case JObj(members) => members != []
  }

  /** Python's `a or b`. */
  function Or(a: Json, b: Json): (r: Json)
    ensures Truthy(a) ==> r == a
    ensures !Truthy(a) ==> r == b
  {
    if Truthy(a) then a else b
  }

  /** `repr()` of a string: single quotes unless the text holds a single quote and
      no double quote; backslash, the chosen quote, line breaks, tabs and the other
      ASCII control characters escaped. */
  function QuoteString(s: string): string {
    var q := if '\'' in s && '"' !in s then '"' else '\'';
    [q] + Escape(s, q) + [q]
  }

  /** An ASCII control character, which `repr()` writes as `\\xNN`. */
  predicate IsControl(c: char) {
    c < ' ' || c as int == 0x7f
  }

  function HexDigit(n: int): (c: char)
    requires 0 <= n < 16
    ensures !IsControl(c)
  {
    "0123456789abcdef"[n]
  }

  function Escape(s: string, q: char): string {
    if s == [] then ""
    else
      var c := s[0];
      var e := if c == '\\' then "\\\\"
               else if c == q then ['\\', q]
               else if c == '\n' then "\\n"
               else if c == '\r' then "\\r"
               else if c == '\t' then "\\t"
               else if IsControl(c) then "\\x" + [HexDigit(c as int / 16), HexDigit(c as int % 16)]
               else [c];
      e + Escape(s[1..], q)
  }

  /** The escaped text holds no control character: every one was written out. */
  lemma {:induction false} EscapeHasNoControl(s: string, q: char)
    requires !IsControl(q)
    ensures forall i :: 0 <= i < |Escape(s, q)| ==> !IsControl(Escape(s, q)[i])
  {
    if s != [] {
      EscapeHasNoControl(s[1..], q);
    }
  }

  /** `str(v)`: a top-level string is its own text; inside lists and dicts, strings
      are written with `repr()`. */
  function Str(v: Json): string {
    match v
    case JStr(s) => s
    case _ => Repr(v)
  }

  function Repr(v: Json): string
    decreases v, 1
  {
    match v
    case JNull => "None"
    case JBool(b) => if b then "True" else "False"
    case JNum(lexeme) => lexeme
    case JStr(s) => QuoteString(s)
    case JArr(items) => "[" + ReprItems(items) + "]"
    case JObj(members) => "{" + ReprMembers(members) + "}"
  }

  function ReprItems(items: seq<Json>): string
    decreases items, 0
  {
    if items == [] then ""
    else if |items| == 1 then Repr(items[0])
    else Repr(items[0]) + ", " + ReprItems(items[1..])
  }

  function ReprMembers(members: seq<Member>): string
    decreases members, 0
  {
    if members == [] then ""
    else
      var m := members[0];
      var one := QuoteString(m.key) + ": " + Repr(m.value);
      if |members| == 1 then one else one + ", " + ReprMembers(members[1..])
  }

  /** `safe_str`: a dict or a list becomes its `str()` text; anything else is
      passed through unchanged. */
  function SafeStr(v: Json): (r: Json)
    ensures !IsContainer(r)
    ensures !IsContainer(v) ==> r == v
    ensures IsContainer(v) ==> r.JStr?
  {
    if IsContainer(v) then JStr(Str(v)) else v
  }

  /** Applying `safe_str` twice is applying it once. */
  lemma SafeStrIdempotent(v: Json)
    ensures SafeStr(SafeStr(v)) == SafeStr(v)
  {
  }
}
