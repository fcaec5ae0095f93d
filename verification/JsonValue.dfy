/** JSON values and the text that the serializer writes for them. */
module JsonValue {
  import opened Common

  /**
   * Numbers are mathematical integers; a number token that is not a plain integer is kept as its text, standing for the
   * double that strtod reads from it.
   */
  datatype Json =
    | Null
    | Bool(b: bool)
    | Int(n: int)
    | Double(lexeme: string)
    | Str(s: string)
    | Arr(elems: seq<Json>)
    | Obj(members: seq<Member>)

  datatype Member = Member(key: string, value: Json)

  const NUL: char := '\0'
  const BACKSPACE: char := '\U{8}'
  const FORM_FEED: char := '\U{C}'

  function DigitChar(d: nat): (c: char)
    requires d < 10
    ensures '0' <= c <= '9'
  {
    ('0' as int + d) as char
  }

  function HexChar(d: nat): char
    requires d < 16
  {
    if d < 10 then DigitChar(d) else ('a' as int + d - 10) as char
  }

  function NatText(n: nat): string {
    if n < 10 then [DigitChar(n)] else NatText(n / 10) + [DigitChar(n % 10)]
  }

  function IntText(n: int): string {
    if n < 0 then "-" + NatText(-n) else NatText(n)
  }

  /** The characters that are written as \u00XX. */
  predicate OddControl(c: char) {
    c as int < 0x20 && c != '\n' && c != '\r' && c != '\t' && c != BACKSPACE && c != FORM_FEED
  }

  function EscapeChar(c: char): string {
    if c == '"' then "\\\""
    else if c == '\\' then "\\\\"
    else if c == '\n' then "\\n"
    else if c == '\r' then "\\r"
    else if c == '\t' then "\\t"
    else if c == BACKSPACE then "\\b"
    else if c == FORM_FEED then "\\f"
    else if OddControl(c) then "\\u00" + [HexChar(c as int / 16), HexChar(c as int % 16)]
    else [c]
  }

  function Escape(s: string): string {
    if s == "" then "" else EscapeChar(s[0]) + Escape(s[1..])
  }

  function Quote(s: string): string {
    "\"" + Escape(s) + "\""
  }

  lemma Associative(a: string, b: string, c: string)
    ensures a + b + c == a + (b + c)
  {
  }

  function Spaces(n: nat): (r: string)
    ensures |r| == n && forall i :: 0 <= i < n ==> r[i] == ' '
  {
    seq(n, _ => ' ')
  }

  /** Two spaces a level. */
  function Indent(level: nat): string {
    Spaces(2 * level)
  }

  /** Every number in the value is an integer. */
  ghost predicate Integral(v: Json) {
    match v
    case Double(_) => false
    case Arr(es) => forall i :: 0 <= i < |es| ==> Integral(es[i])
    case Obj(ms) => forall i :: 0 <= i < |ms| ==> Integral(ms[i].value)
    case _ => true
  }

  /** C strings hold no NUL. */
  ghost predicate NulFree(v: Json) {
    match v
    case Str(s) => NUL !in s
    case Arr(es) => forall i :: 0 <= i < |es| ==> NulFree(es[i])
    case Obj(ms) => forall i :: 0 <= i < |ms| ==> NUL !in ms[i].key && NulFree(ms[i].value)
    case _ => true
  }

  /** The text written for a value at an indentation level. */
  ghost function Text(v: Json, level: nat): string
    requires Integral(v)
    decreases v, 0
  {
    match v
    case Null => "null"
    case Bool(b) => if b then "true" else "false"
    case Int(n) => IntText(n)
    case Str(s) => Quote(s)
    case Arr(es) =>
      if es == [] then "[]"
      else "[\n" + ElementsText(es, level + 1) + "\n" + Indent(level) + "]"
    case Obj(ms) =>
      if ms == [] then "{}"
      else "{\n" + MembersText(ms, level + 1) + "\n" + Indent(level) + "}"
  }

  ghost function ElementsText(es: seq<Json>, level: nat): string
    requires es != [] && forall i :: 0 <= i < |es| ==> Integral(es[i])
    decreases es, 1
  {
    Indent(level) + Text(es[0], level) + if |es| == 1 then "" else ",\n" + ElementsText(es[1..], level)
  }

  ghost function MembersText(ms: seq<Member>, level: nat): string
    requires ms != [] && forall i :: 0 <= i < |ms| ==> Integral(ms[i].value)
    decreases ms, 1
  {
    Indent(level) + Quote(ms[0].key) + ": " + Text(ms[0].value, level)
    + if |ms| == 1 then "" else ",\n" + MembersText(ms[1..], level)
  }

  /** How deep containers nest. */
  ghost function Nesting(v: Json): nat
    decreases v, 0
  {
    match v
    case Arr(es) => 1 + NestingElements(es)
    case Obj(ms) => 1 + NestingMembers(ms)
    case _ => 0
  }

  ghost function NestingElements(es: seq<Json>): nat
    decreases es, 1
  {
    if es == [] then 0 else Max(Nesting(es[0]), NestingElements(es[1..]))
  }

  ghost function NestingMembers(ms: seq<Member>): nat
    decreases ms, 1
  {
    if ms == [] then 0 else Max(Nesting(ms[0].value), NestingMembers(ms[1..]))
  }

  ghost function Max(a: nat, b: nat): nat {
    if a < b then b else a
  }

  /** Replace the value of an existing key, or append a new member. */
  function SetMember(ms: seq<Member>, key: string, value: Json): seq<Member> {
    if ms == [] then [Member(key, value)]
    else if ms[0].key == key then [Member(key, value)] + ms[1..]
    else [ms[0]] + SetMember(ms[1..], key, value)
  }

  ghost predicate KeysDiffer(ms: seq<Member>) {
    forall i, j :: 0 <= i < j < |ms| ==> ms[i].key != ms[j].key
  }

  /** No object anywhere in the value repeats a key. */
  ghost predicate DistinctKeys(v: Json) {
    match v
    case Arr(es) => forall i :: 0 <= i < |es| ==> DistinctKeys(es[i])
    case Obj(ms) => KeysDiffer(ms) && forall i :: 0 <= i < |ms| ==> DistinctKeys(ms[i].value)
    case _ => true
  }

  ghost predicate HasKey(ms: seq<Member>, key: string) {
    exists i :: 0 <= i < |ms| && ms[i].key == key
  }

  lemma HasKeyStep(ms: seq<Member>, key: string)
    requires ms != []
    ensures HasKey(ms, key) <==> ms[0].key == key || HasKey(ms[1..], key)
  {
    if i :| 0 <= i < |ms| && ms[i].key == key {
      assert i > 0 ==> ms[1..][i - 1].key == key;
    }
    if i :| 0 <= i < |ms[1..]| && ms[1..][i].key == key {
      assert ms[i + 1].key == key;
    }
  }

  lemma {:induction false} SetMemberLength(ms: seq<Member>, key: string, value: Json)
    ensures |SetMember(ms, key, value)| == |ms| + (if HasKey(ms, key) then 0 else 1)
    ensures !HasKey(ms, key) ==> SetMember(ms, key, value) == ms + [Member(key, value)]
  {
    if ms != [] {
      hide HasKey;
      HasKeyStep(ms, key);
      if ms[0].key != key {
        SetMemberLength(ms[1..], key, value);
      }
    }
  }

  lemma {:induction false} SetMemberIs(ms: seq<Member>, key: string, value: Json, i: nat)
    requires KeysDiffer(ms) && i < |ms| <= |SetMember(ms, key, value)|
    ensures SetMember(ms, key, value)[i] == if ms[i].key == key then Member(key, value) else ms[i]
  {
    if i > 0 && ms[0].key != key {
      SetMemberLength(ms[1..], key, value);
      SetMemberIs(ms[1..], key, value, i - 1);
    }
  }

  /** What setting a key does to a list of members, position by position. */
  lemma {:induction false} SetMemberAt(ms: seq<Member>, key: string, value: Json)
    requires KeysDiffer(ms)
    ensures KeysDiffer(SetMember(ms, key, value))
    ensures |SetMember(ms, key, value)| == |ms| + (if HasKey(ms, key) then 0 else 1)
    ensures forall i :: 0 <= i < |ms| ==>
              SetMember(ms, key, value)[i] == if ms[i].key == key then Member(key, value) else ms[i]
    ensures !HasKey(ms, key) ==> SetMember(ms, key, value) == ms + [Member(key, value)]
  {
    hide SetMember;
    SetMemberLength(ms, key, value);
    forall i | 0 <= i < |ms|
      ensures SetMember(ms, key, value)[i] == if ms[i].key == key then Member(key, value) else ms[i]
    {
      SetMemberIs(ms, key, value, i);
    }
  }
}
