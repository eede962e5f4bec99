/**
 * A small JSON syntax tree and the compact text serde_json writes for it
 * (`serde_json::to_string`: no whitespace, members in declaration order).
 */
module Json {
  import opened Wrappers

  datatype Json =
    | JBool(b: bool)
    | JNumber(n: nat)
    | JString(s: string)
    | JObject(members: seq<Member>)

  datatype Member = Member(key: string, value: Json)

  /** How many members of `ms` carry `key`. */
  function KeyCount(ms: seq<Member>, key: string): nat {
    |set i | 0 <= i < |ms| && ms[i].key == key|
  }

  function Keys(ms: seq<Member>): (ks: seq<string>)
    ensures |ks| == |ms|
    ensures forall i :: 0 <= i < |ms| ==> ks[i] == ms[i].key
  {
    seq(|ms|, i requires 0 <= i < |ms| => ms[i].key)
  }

  /**
   * The value serde's derived `Deserialize` reads for a struct field: the
   * member named `key`, which must occur exactly once.
   */
  function Field(ms: seq<Member>, key: string): (r: Option<Json>)
    ensures r.Some? ==> exists i :: 0 <= i < |ms| && ms[i] == Member(key, r.value)
    ensures r.Some? <==> KeyCount(ms, key) == 1
  {
    if KeyCount(ms, key) == 1 then First(ms, key) else None
  }

  /** The value of the first member named `key`. */
  function First(ms: seq<Member>, key: string): (r: Option<Json>)
    ensures r.Some? ==> exists i :: 0 <= i < |ms| && ms[i] == Member(key, r.value)
    ensures r.None? <==> forall i :: 0 <= i < |ms| ==> ms[i].key != key
  {
    if |ms| == 0 then None
    else if ms[0].key == key then Some(ms[0].value)
    else
      var r := First(ms[1..], key);
      assert forall i :: 1 <= i < |ms| ==> ms[i] == ms[1..][i - 1];
      r
  }

  /** The object member of `j` named `key`, if `j` is an object that has exactly one. */
  function Get(j: Json, key: string): Option<Json> {
    if j.JObject? then Field(j.members, key) else None
  }

  lemma FieldOfDistinctKeys(ms: seq<Member>, k: nat)
    requires k < |ms|
    requires forall i, j :: 0 <= i < j < |ms| ==> ms[i].key != ms[j].key
    ensures Field(ms, ms[k].key) == Some(ms[k].value)
  {
    assert (set i | 0 <= i < |ms| && ms[i].key == ms[k].key) == {k};
    var v := Field(ms, ms[k].key).value;
    var i :| 0 <= i < |ms| && ms[i] == Member(ms[k].key, v);
    assert i == k;
  }

  /** Both members of a two-member object with distinct keys are readable. */
  lemma ReadPair(k0: string, v0: Json, k1: string, v1: Json)
    requires k0 != k1
    ensures var j := JObject([Member(k0, v0), Member(k1, v1)]);
      Keys(j.members) == [k0, k1] && Get(j, k0) == Some(v0) && Get(j, k1) == Some(v1)
  {
    var ms := [Member(k0, v0), Member(k1, v1)];
    FieldOfDistinctKeys(ms, 0);
    FieldOfDistinctKeys(ms, 1);
  }

  function DigitChar(d: nat): char
    requires d < 10
  {
    ('0' as int + d) as char
  }

  function NatToString(n: nat): (s: string)
    ensures |s| >= 1
    ensures forall i :: 0 <= i < |s| ==> '0' <= s[i] <= '9'
  {
    if n < 10 then [DigitChar(n)] else NatToString(n / 10) + [DigitChar(n % 10)]
  }

  function HexDigit(d: nat): (c: char)
    requires d < 16
    ensures '0' <= c <= '9' || 'a' <= c <= 'f'
  {
    if d < 10 then DigitChar(d) else ('a' as int + (d - 10)) as char
  }

  /** serde_json's escaping of one character inside a string literal. */
  function EscapeChar(c: char): (e: string)
    ensures |e| >= 1
    ensures forall i :: 0 <= i < |e| ==> (e[i] as int) >= 0x20
    ensures Plain(c) <==> e == [c]
  {
    if c == '"' then "\\\""
    else if c == '\\' then "\\\\"
    else if c == '\n' then "\\n"
    else if c == '\r' then "\\r"
    else if c == '\t' then "\\t"
    else if c == '\U{8}' then "\\b"
    else if c == '\U{C}' then "\\f"
    else if (c as int) < 0x20 then "\\u00" + [HexDigit(c as int / 16), HexDigit(c as int % 16)]
    else [c]
  }

  /**
   * The body of a string literal: never shorter than the text, and free of
   * raw control characters, which JSON forbids inside a string.
   */
  function Escape(s: string): (e: string)
    ensures |e| >= |s|
    ensures forall i :: 0 <= i < |e| ==> (e[i] as int) >= 0x20
  {
    if |s| == 0 then "" else EscapeChar(s[0]) + Escape(s[1..])
  }

  /** A character serde_json writes as itself inside a string literal. */
  predicate Plain(c: char) {
    c != '"' && c != '\\' && (c as int) >= 0x20
  }

  lemma {:induction false} EscapePlain(s: string)
    requires forall i :: 0 <= i < |s| ==> Plain(s[i])
    ensures Escape(s) == s
  {
    if |s| > 0 {
      EscapePlain(s[1..]);
      assert [s[0]] + s[1..] == s;
    }
  }

  function Quote(s: string): string {
    "\"" + Escape(s) + "\""
  }

  /** The first character tells the kind of value; an object ends with its closing brace. */
  function Render(j: Json): (s: string)
    decreases j, 1
    ensures |s| >= 1
    ensures s[0] == '{' <==> j.JObject?
    ensures s[0] == '"' <==> j.JString?
    ensures '0' <= s[0] <= '9' <==> j.JNumber?
    ensures s[0] == 't' || s[0] == 'f' <==> j.JBool?
    ensures j.JObject? ==> s[|s| - 1] == '}'
  {
    match j
    case JBool(b) => if b then "true" else "false"
    case JNumber(n) => NatToString(n)
    case JString(s) => Quote(s)
    case JObject(ms) => "{" + RenderMembers(j, ms) + "}"
  }

  function RenderMembers(ghost parent: Json, ms: seq<Member>): string
    requires forall i :: 0 <= i < |ms| ==> ms[i] < parent
    decreases parent, 0, |ms|
  {
    if |ms| == 0 then ""
    else
      var first := Quote(ms[0].key) + ":" + Render(ms[0].value);
      if |ms| == 1 then first else first + "," + RenderMembers(parent, ms[1..])
  }
}
