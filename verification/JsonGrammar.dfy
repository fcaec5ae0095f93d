/** What the JSON parser accepts, as functions from the unread text to a result and the text left over. */
module JsonGrammar {
  import opened Common
  import opened JsonValue

  const MAX_DEPTH: nat := 200

  datatype Token =
    | Eof
    | ObjectStart
    | ObjectEnd
    | ArrayStart
    | ArrayEnd
    | Colon
    | Comma
    | StringToken(s: string)
    | Number(v: Json)
    | Boolean(b: bool)
    | NullWord

  /** A token and the text after it, or no token at all. */
  datatype Scan = Bad | Good(token: Token, rest: string)

  predicate Blank(c: char) {
    c == ' ' || c == '\t' || c == '\r' || c == '\n'
  }

  function SkipBlanks(s: string): (r: string)
    ensures |r| <= |s| && (r == "" || !Blank(r[0]))
  {
    if s != "" && Blank(s[0]) then SkipBlanks(s[1..]) else s
  }

  // ----- strings -----

  predicate HexDigit(c: char) {
    '0' <= c <= '9' || 'a' <= c <= 'f' || 'A' <= c <= 'F'
  }

  function HexValue(c: char): nat
    requires HexDigit(c)
  {
    if c <= '9' then c as int - '0' as int
    else if c <= 'F' then c as int - 'A' as int + 10
    else c as int - 'a' as int + 10
  }

  /** strtoul in base 16 on a short text: the number its leading hexadecimal digits spell, 0 without any. */
  function LeadingHex(s: string): nat {
    LeadingHexFrom(s, 0)
  }

  function LeadingHexFrom(s: string, acc: nat): nat {
    if s == "" || !HexDigit(s[0]) then acc else LeadingHexFrom(s[1..], 16 * acc + HexValue(s[0]))
  }

  /** A byte, written as the character of that code. */
  function Byte(b: nat): char {
    (b % 256) as char
  }

  function Utf8(codepoint: nat): string {
    if codepoint <= 0x7F then [Byte(codepoint)]
    else if codepoint <= 0x7FF then [Byte(0xC0 + codepoint / 64), Byte(0x80 + codepoint % 64)]
    else [Byte(0xE0 + codepoint / 4096), Byte(0x80 + codepoint / 64 % 64), Byte(0x80 + codepoint % 64)]
  }

  /** What a two-character escape stands for. */
  function Unescape(c: char): char {
    if c == 'b' then BACKSPACE
    else if c == 'f' then FORM_FEED
    else if c == 'n' then '\n'
    else if c == 'r' then '\r'
    else if c == 't' then '\t'
    else c
  }

  function Prefixed(a: string, r: Option<(string, string)>): Option<(string, string)> {
    match r case None => None case Some(p) => Some((a + p.0, p.1))
  }

  /**
   * The text after an opening quote: the characters collected up to the closing quote, and what follows it.
   * The \u branch takes its four hexadecimal characters starting at the u itself, and only when more than four
   * characters are left from there.
   */
  function StringBody(s: string): (r: Option<(string, string)>)
    ensures r.Some? ==> |r.value.1| < |s|
  {
    if s == "" then None
    else if s[0] == '"' then Some(("", s[1..]))
    else if s[0] != '\\' then Prefixed([s[0]], StringBody(s[1..]))
    else if |s| == 1 then None
    else if s[1] != 'u' then Prefixed([Unescape(s[1])], StringBody(s[2..]))
    else if |s| - 1 > 4 then Prefixed(Utf8(LeadingHex(s[1..5])), StringBody(s[6..]))
    else StringBody(s[2..])
  }

  /** The part of a buffer that a C string copy keeps. */
  function CString(s: string): (r: string)
    ensures NUL !in r && |r| <= |s|
    ensures NUL !in s ==> r == s
  {
    if s == "" || s[0] == NUL then "" else [s[0]] + CString(s[1..])
  }

  // ----- numbers -----

  predicate Digit(c: char) {
    '0' <= c <= '9'
  }

  function DigitRun(s: string): (n: nat)
    ensures n <= |s|
    ensures forall i :: 0 <= i < n ==> Digit(s[i])
    ensures n < |s| ==> !Digit(s[n])
  {
    if s == "" || !Digit(s[0]) then 0 else 1 + DigitRun(s[1..])
  }

  function IntegerPart(s: string): (n: nat)
    ensures n <= |s|
  {
    var sign := if s != "" && s[0] == '-' then 1 else 0;
    sign + DigitRun(s[sign..])
  }

  function FractionEnd(s: string, from: nat): (n: nat)
    requires from <= |s|
    ensures from <= n <= |s|
  {
    if from < |s| && s[from] == '.' then from + 1 + DigitRun(s[from + 1..]) else from
  }

  function ExponentEnd(s: string, from: nat): (n: nat)
    requires from <= |s|
    ensures from <= n <= |s|
  {
    if from < |s| && (s[from] == 'e' || s[from] == 'E') then
      var sign := if from + 1 < |s| && (s[from + 1] == '+' || s[from + 1] == '-') then 1 else 0;
      from + 1 + sign + DigitRun(s[from + 1 + sign..])
    else from
  }

  function NumberEnd(s: string): (n: nat)
    ensures n <= |s|
  {
    ExponentEnd(s, FractionEnd(s, IntegerPart(s)))
  }

  function NatValue(s: string): nat
    requires forall i :: 0 <= i < |s| ==> Digit(s[i])
  {
    if s == "" then 0
    else assert Digit(s[|s| - 1]); 10 * NatValue(s[..|s| - 1]) + (s[|s| - 1] as int - '0' as int)
  }

  predicate AllDigits(s: string) {
    s != "" && forall i :: 0 <= i < |s| ==> Digit(s[i])
  }

  function NumberValue(lexeme: string): Json {
    if AllDigits(lexeme) then Int(NatValue(lexeme))
    else if lexeme != "" && lexeme[0] == '-' && AllDigits(lexeme[1..]) then Int(0 - NatValue(lexeme[1..]))
    else Double(lexeme)
  }

  // ----- tokens -----

  function Keyword(s: string, word: string, token: Token): Scan {
    if word <= s then Good(token, s[|word|..]) else Bad
  }

  /** The token at the start of a text that does not start with a blank. */
  function TokenHere(s: string): (r: Scan)
    requires s != ""
    ensures r.Good? ==> r.token != Eof
  {
    var c := s[0];
    if c == '{' then Good(ObjectStart, s[1..])
    else if c == '}' then Good(ObjectEnd, s[1..])
    else if c == '[' then Good(ArrayStart, s[1..])
    else if c == ']' then Good(ArrayEnd, s[1..])
    else if c == ':' then Good(Colon, s[1..])
    else if c == ',' then Good(Comma, s[1..])
    else if c == '"' then
      match StringBody(s[1..]) case None => Bad case Some(p) => Good(StringToken(CString(p.0)), p.1)
    else if c == 't' then Keyword(s, "true", Boolean(true))
    else if c == 'f' then Keyword(s, "false", Boolean(false))
    else if c == 'n' then Keyword(s, "null", NullWord)
    else if Digit(c) || c == '-' then Good(Number(NumberValue(s[..NumberEnd(s)])), s[NumberEnd(s)..])
    else Bad
  }

  function NextToken(s: string): (r: Scan)
    ensures r.Good? && r.token != Eof ==> |r.rest| < |s|
    ensures r.Good? && r.token == Eof ==> r.rest == ""
  {
    var t := SkipBlanks(s);
    if t == "" then Good(Eof, "") else TokenHere(t)
  }

  // ----- values -----

  type Parsed = Option<(Json, string)>

  function Value(s: string, depth: nat): (r: Parsed)
    ensures r.Some? ==> |r.value.1| < |s|
    decreases |s|, 1
  {
    match NextToken(s)
    case Bad => None
    case Good(token, rest) =>
      if token.ObjectStart? || token.ArrayStart? then
        if depth >= MAX_DEPTH then None
        else if token.ObjectStart? then ObjectBody(rest, depth + 1)
        else ArrayBody(rest, depth + 1)
      else if token.StringToken? then Some((Str(token.s), rest))
      else if token.Number? then Some((token.v, rest))
      else if token.Boolean? then Some((Bool(token.b), rest))
      else if token.NullWord? then Some((Null, rest))
      else None
  }

  function ArrayBody(s: string, depth: nat): (r: Parsed)
    ensures r.Some? ==> |r.value.1| <= |s|
    decreases |s|, 3
  {
    match NextToken(s)
    case Good(ArrayEnd, rest) => Some((Arr([]), rest))
    case _ => ArrayElements(s, depth, [])
  }

  /** One or more elements up to the closing bracket; `acc` are those read already. */
  function ArrayElements(s: string, depth: nat, acc: seq<Json>): (r: Parsed)
    ensures r.Some? ==> |r.value.1| <= |s|
    decreases |s|, 2
  {
    match Value(s, depth)
    case None => None
    case Some(p) =>
      match NextToken(p.1)
      case Good(ArrayEnd, rest) => Some((Arr(acc + [p.0]), rest))
      case Good(Comma, rest) => ArrayElements(rest, depth, acc + [p.0])
      case _ => None
  }

  function ObjectBody(s: string, depth: nat): (r: Parsed)
    ensures r.Some? ==> |r.value.1| <= |s|
    decreases |s|, 3
  {
    match NextToken(s)
    case Good(ObjectEnd, rest) => Some((Obj([]), rest))
    case _ => ObjectMembers(s, depth, [])
  }

  /** One or more members up to the closing brace; `acc` are those set already. */
  function ObjectMembers(s: string, depth: nat, acc: seq<Member>): (r: Parsed)
    ensures r.Some? ==> |r.value.1| <= |s|
    decreases |s|, 2
  {
    match NextToken(s)
    case Good(StringToken(key), afterKey) => (
      match NextToken(afterKey)
      case Good(Colon, afterColon) => (
        match Value(afterColon, depth)
        case None => None
        case Some(p) =>
          match NextToken(p.1)
          case Good(ObjectEnd, rest) => Some((Obj(SetMember(acc, key, p.0)), rest))
          case Good(Comma, rest) => ObjectMembers(rest, depth, SetMember(acc, key, p.0))
          case _ => None
      )
      case _ => None
    )
    case _ => None
  }

  /** The whole parse; text after the first value is ignored. */
  function Parse(s: string): Option<Json> {
    match Value(s, 0) case None => None case Some(p) => Some(p.0)
  }
}
