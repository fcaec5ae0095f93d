/** The cursor-based JSON parser, proved against the grammar functions. */
module JsonParser {
  import opened Common
  import opened JsonValue
  import opened JsonGrammar

  class Parser {
    const input: string
    var pos: nat
    var depth: nat
    var token: Token
    var failed: bool

    ghost predicate Valid()
      reads this
    {
      pos <= |input| && depth <= MAX_DEPTH
    }

    ghost function Unread(): string
      requires Valid()
      reads this
    {
      input[pos..]
    }

    constructor (text: string)
      ensures Valid() && input == text && pos == 0 && depth == 0 && !failed
      ensures Unread() == text
    {
      input := text;
      pos, depth, token, failed := 0, 0, Eof, false;
    }

    method SkipWhitespace()
      requires Valid()
      modifies this`pos
      ensures Valid() && old(pos) <= pos
      ensures Unread() == SkipBlanks(old(Unread()))
    {
      while pos < |input| && Blank(input[pos])
        invariant Valid() && old(pos) <= pos
        invariant SkipBlanks(Unread()) == SkipBlanks(old(Unread()))
        decreases |input| - pos
      {
        assert Unread()[1..] == input[pos + 1..];
        pos := pos + 1;
      }
    }

    /** One escape sequence, the cursor standing on the character after the backslash. */
    method ReadEscape(buf: string) returns (grown: string)
      requires Valid() && pos < |input|
      modifies this`pos
      ensures Valid() && old(pos) < pos
      ensures Prefixed(buf, StringBody("\\" + old(Unread()))) == Prefixed(grown, StringBody(Unread()))
    {
      var escaped := input[pos];
      ghost var text := "\\" + Unread();
      grown := buf;
      if escaped != 'u' {
        grown := grown + [Unescape(escaped)];
        assert text[2..] == input[pos + 1..];
      } else if pos + 4 < |input| {
        var hex := input[pos..pos + 4];
        assert text[1..5] == hex && text[6..] == input[pos + 5..];
        grown := grown + Utf8(LeadingHex(hex));
        pos := pos + 4;
      } else {
        assert text[2..] == input[pos + 1..];
      }
      pos := pos + 1;
      PrefixedTwice(buf, grown[|buf|..], StringBody(Unread()));
      assert grown == buf + grown[|buf|..];
    }

    method ReadString() returns (ok: bool)
      requires Valid() && pos < |input| && input[pos] == '"'
      modifies this
      ensures Valid() && old(pos) < pos && depth == old(depth)
      ensures ok <==> StringBody(old(Unread())[1..]).Some?
      ensures ok ==> StringBody(old(Unread())[1..]).value.1 == Unread() && failed == old(failed)
      ensures ok ==> token == StringToken(CString(StringBody(old(Unread())[1..]).value.0))
      ensures !ok ==> failed
    {
      hide StringBody, CString, Utf8;
      ghost var goal := StringBody(Unread()[1..]);
      assert Unread()[1..] == input[pos + 1..];
      pos := pos + 1;
      var buf := "";
      PrefixedNothing(goal);
      while pos < |input|
        invariant Valid() && old(pos) < pos && depth == old(depth) && failed == old(failed)
        invariant Prefixed(buf, StringBody(Unread())) == goal
        decreases |input| - pos
      {
        var c := input[pos];
        assert Unread() == [c] + input[pos + 1..];
        StringBodyCases(c, input[pos + 1..]);
        if c == '"' {
          pos := pos + 1;
          token := StringToken(CString(buf));
          assert buf + "" == buf;
          return true;
        } else if c == '\\' {
          pos := pos + 1;
          if pos >= |input| {
            failed := true;
            return false;
          }
          assert [c] + Unread() == "\\" + Unread();
          buf := ReadEscape(buf);
        } else {
          PrefixedTwice(buf, [c], StringBody(input[pos + 1..]));
          buf := buf + [c];
          pos := pos + 1;
        }
      }
      assert Unread() == "";
      StringBodyOfNothing();
      failed := true;
      return false;
    }

    method SkipDigits()
      requires Valid()
      modifies this`pos
      ensures Valid() && pos == old(pos) + DigitRun(old(Unread()))
    {
      ghost var n := DigitRun(Unread());
      while pos < |input| && Digit(input[pos])
        invariant Valid() && pos + DigitRun(Unread()) == old(pos) + n
        decreases |input| - pos
      {
        assert Unread()[1..] == input[pos + 1..];
        pos := pos + 1;
      }
    }

    /** An optional part of a number; `text` is the whole number's text, read from `start` on. */
    method SkipFraction(ghost text: string, ghost start: nat)
      requires Valid() && start <= pos && text == input[start..]
      modifies this`pos
      ensures Valid() && pos == start + FractionEnd(text, old(pos) - start)
    {
      if pos < |input| && input[pos] == '.' {
        pos := pos + 1;
        assert text[pos - start..] == Unread();
        SkipDigits();
      }
    }

    method SkipExponent(ghost text: string, ghost start: nat)
      requires Valid() && start <= pos && text == input[start..]
      modifies this`pos
      ensures Valid() && pos == start + ExponentEnd(text, old(pos) - start)
    {
      if pos < |input| && (input[pos] == 'e' || input[pos] == 'E') {
        pos := pos + 1;
        if pos < |input| && (input[pos] == '+' || input[pos] == '-') {
          pos := pos + 1;
        }
        assert text[pos - start..] == Unread();
        SkipDigits();
      }
    }

    method SkipInteger()
      requires Valid() && pos < |input|
      modifies this`pos
      ensures Valid() && pos == old(pos) + IntegerPart(old(Unread()))
    {
      ghost var text, start := Unread(), pos;
      if input[pos] == '-' {
        pos := pos + 1;
      }
      assert text[pos - start..] == Unread();
      SkipDigits();
    }

    method ReadNumber()
      requires Valid() && pos < |input|
      modifies this
      ensures Valid() && depth == old(depth) && failed == old(failed)
      ensures pos == old(pos) + NumberEnd(old(Unread()))
      ensures token == Number(NumberValue(old(Unread())[..NumberEnd(old(Unread()))]))
    {
      hide IntegerPart, FractionEnd, ExponentEnd, NumberValue;
      var start := pos;
      ghost var text := Unread();
      SkipInteger();
      SkipFraction(text, start);
      SkipExponent(text, start);
      token := Number(NumberValue(input[start..pos]));
      assert input[start..pos] == text[..pos - start];
    }

    /** A keyword token, or nothing read at all. */
    method ReadKeyword(word: string, t: Token) returns (ok: bool)
      requires Valid()
      modifies this`pos, this`token
      ensures Valid() && old(pos) <= pos
      ensures Keyword(old(Unread()), word, t) == if ok then Good(token, Unread()) else Bad
    {
      ok := pos + |word| <= |input| && input[pos..pos + |word|] == word;
      assert ok ==> Unread()[..|word|] == word;
      assert word <= Unread() ==> input[pos..pos + |word|] == Unread()[..|word|];
      if ok {
        assert Unread()[|word|..] == input[pos + |word|..];
        pos := pos + |word|;
        token := t;
      }
    }

    /** Reads the token that starts at the cursor. */
    method ReadTokenHere() returns (ok: bool)
      requires Valid() && pos < |input|
      modifies this
      ensures Valid() && old(pos) <= pos && depth == old(depth)
      ensures ok ==> TokenHere(old(Unread())) == Good(token, Unread()) && failed == old(failed)
      ensures !ok ==> TokenHere(old(Unread())) == Bad && failed
    {
      hide StringBody, NumberEnd, NumberValue, CString, Keyword;
      var c := input[pos];
      ghost var t := Unread();
      assert t[0] == c && t[1..] == input[pos + 1..];
      if c == '{' || c == '}' || c == '[' || c == ']' || c == ':' || c == ',' {
        token := Punctuation(c);
        pos := pos + 1;
        return true;
      }
      if c == '"' {
        ok := ReadString();
        return;
      }
      if c == 't' {
        ok := ReadKeyword("true", Boolean(true));
      } else if c == 'f' {
        ok := ReadKeyword("false", Boolean(false));
      } else if c == 'n' {
        ok := ReadKeyword("null", NullWord);
      } else if Digit(c) || c == '-' {
        ReadNumber();
        assert t[NumberEnd(t)..] == Unread();
        return true;
      } else {
        ok := false;
      }
      if !ok {
        failed := true;
      }
    }

    /** Reads one token; on success the token and the cursor are those of the grammar. */
    method ReadToken() returns (ok: bool)
      requires Valid()
      modifies this
      ensures Valid() && old(pos) <= pos && depth == old(depth)
      ensures ok ==> NextToken(old(Unread())) == Good(token, Unread()) && failed == old(failed)
      ensures !ok ==> NextToken(old(Unread())) == Bad && failed
    {
      hide TokenHere;
      SkipWhitespace();
      if pos >= |input| {
        token := Eof;
        assert Unread() == "";
        return true;
      }
      ok := ReadTokenHere();
    }

    /** Parses the value that the current token starts; `before` is the text that token was read from. */
    method FromToken(ghost before: string) returns (r: Option<Json>)
      requires Valid() && NextToken(before) == Good(token, Unread())
      modifies this
      ensures Valid() && old(pos) <= pos && depth == old(depth)
      ensures r.Some? ==> Value(before, depth) == Some((r.value, Unread())) && failed == old(failed)
      ensures r.None? ==> Value(before, depth) == None && failed
      decreases |input| - pos, 2
    {
      hide NextToken, Value, ObjectBody, ArrayBody;
      ValueFromToken(before, depth);
      if token == ObjectStart {
        r := ParseObject();
      } else if token == ArrayStart {
        r := ParseArray();
      } else {
        r := Scalar(token);
        if r.None? {
          failed := true;
        }
      }
    }

    method ParseValue() returns (r: Option<Json>)
      requires Valid()
      modifies this
      ensures Valid() && old(pos) <= pos && depth == old(depth)
      ensures r.Some? ==> Value(old(Unread()), depth) == Some((r.value, Unread())) && failed == old(failed)
      ensures r.None? ==> Value(old(Unread()), depth) == None && failed
      decreases |input| - pos, 3
    {
      ghost var before := Unread();
      var ok := ReadToken();
      if !ok {
        return None;
      }
      r := FromToken(before);
    }

    /** Object after its opening brace, one level deeper; the level is given back on every path. */
    method ParseObject() returns (r: Option<Json>)
      requires Valid()
      modifies this
      ensures Valid() && old(pos) <= pos && depth == old(depth)
      ensures r.Some? ==> depth < MAX_DEPTH && ObjectBody(old(Unread()), depth + 1) == Some((r.value, Unread())) && failed == old(failed)
      ensures r.None? ==> (depth >= MAX_DEPTH || ObjectBody(old(Unread()), depth + 1) == None) && failed
      decreases |input| - pos, 1
    {
      hide ObjectBody;
      if depth >= MAX_DEPTH {
        failed := true;
        return None;
      }
      depth := depth + 1;
      r := ParseObjectBody();
      depth := depth - 1;
    }

    method ParseArray() returns (r: Option<Json>)
      requires Valid()
      modifies this
      ensures Valid() && old(pos) <= pos && depth == old(depth)
      ensures r.Some? ==> depth < MAX_DEPTH && ArrayBody(old(Unread()), depth + 1) == Some((r.value, Unread())) && failed == old(failed)
      ensures r.None? ==> (depth >= MAX_DEPTH || ArrayBody(old(Unread()), depth + 1) == None) && failed
      decreases |input| - pos, 1
    {
      hide ArrayBody;
      if depth >= MAX_DEPTH {
        failed := true;
        return None;
      }
      depth := depth + 1;
      r := ParseArrayBody();
      depth := depth - 1;
    }

    method ParseArrayBody() returns (r: Option<Json>)
      requires Valid()
      modifies this
      ensures Valid() && old(pos) <= pos && depth == old(depth)
      ensures r.Some? ==> ArrayBody(old(Unread()), depth) == Some((r.value, Unread())) && failed == old(failed)
      ensures r.None? ==> ArrayBody(old(Unread()), depth) == None && failed
      decreases |input| - pos, 0
    {
      hide NextToken, Value;
      ghost var before := Unread();
      ghost var goal := ArrayBody(before, depth);
      var ok := ReadToken();
      if !ok {
        NoValue(before, depth);
        return None;
      }
      if token == ArrayEnd {
        return Some(Arr([]));
      }
      var arr: seq<Json> := [];
      while true
        invariant Valid() && old(pos) <= pos && depth == old(depth) && failed == old(failed)
        invariant token != Eof ==> old(pos) < pos
        invariant NextToken(before) == Good(token, Unread())
        invariant ArrayElements(before, depth, arr) == goal
        decreases |input| - pos
      {
        if token == Eof {
          NoValue(before, depth);
          failed := true;
          return None;
        }
        ghost var at := pos;
        var element := FromToken(before);
        if element.None? {
          return None;
        }
        arr := arr + [element.value];
        ok := ReadToken();
        if !ok {
          return None;
        }
        if token == ArrayEnd {
          return Some(Arr(arr));
        } else if token == Comma {
          before := Unread();
          ok := ReadToken();
          if !ok {
            NoValue(before, depth);
            return None;
          }
        } else {
          failed := true;
          return None;
        }
      }
    }

    method ParseObjectBody() returns (r: Option<Json>)
      requires Valid()
      modifies this
      ensures Valid() && old(pos) <= pos && depth == old(depth)
      ensures r.Some? ==> ObjectBody(old(Unread()), depth) == Some((r.value, Unread())) && failed == old(failed)
      ensures r.None? ==> ObjectBody(old(Unread()), depth) == None && failed
      decreases |input| - pos, 0
    {
      hide NextToken, Value, SetMember;
      ghost var before := Unread();
      ghost var goal := ObjectBody(before, depth);
      var ok := ReadToken();
      if !ok {
        return None;
      }
      if token == ObjectEnd {
        return Some(Obj([]));
      }
      var members: seq<Member> := [];
      while true
        invariant Valid() && old(pos) <= pos && depth == old(depth) && failed == old(failed)
        invariant token != Eof ==> old(pos) < pos
        invariant NextToken(before) == Good(token, Unread())
        invariant ObjectMembers(before, depth, members) == goal
        decreases |input| - pos
      {
        if !token.StringToken? {
          failed := true;
          return None;
        }
        var key := token.s;
        ok := ReadToken();
        if !ok || token != Colon {
          failed := true;
          return None;
        }
        var value := ParseValue();
        if value.None? {
          return None;
        }
        members := SetMember(members, key, value.value);
        ok := ReadToken();
        if !ok {
          return None;
        }
        if token == ObjectEnd {
          return Some(Obj(members));
        } else if token == Comma {
          before := Unread();
          ok := ReadToken();
          if !ok {
            return None;
          }
        } else {
          failed := true;
          return None;
        }
      }
    }
  }

  function Punctuation(c: char): Token
    requires c == '{' || c == '}' || c == '[' || c == ']' || c == ':' || c == ','
  {
    if c == '{' then ObjectStart
    else if c == '}' then ObjectEnd
    else if c == '[' then ArrayStart
    else if c == ']' then ArrayEnd
    else if c == ':' then Colon
    else Comma
  }

  /** The value that one token is on its own. */
  function Scalar(t: Token): Option<Json> {
    match t
    case NullWord => Some(Null)
    case Boolean(b) => Some(Bool(b))
    case Number(v) => Some(v)
    case StringToken(s) => Some(Str(s))
    case _ => None
  }

  lemma ValueFromToken(s: string, depth: nat)
    requires NextToken(s).Good?
    ensures var t, rest := NextToken(s).token, NextToken(s).rest;
            Value(s, depth) ==
            if t == ObjectStart || t == ArrayStart then
              if depth >= MAX_DEPTH then None
              else if t == ObjectStart then ObjectBody(rest, depth + 1)
              else ArrayBody(rest, depth + 1)
            else if Scalar(t).None? then None else Some((Scalar(t).value, rest))
  {
    hide NextToken, ObjectBody, ArrayBody;
  }

  lemma StringBodyCases(c: char, rest: string)
    ensures c == '"' ==> StringBody([c] + rest) == Some(("", rest))
    ensures c == '\\' && rest == "" ==> StringBody([c] + rest) == None
    ensures c != '"' && c != '\\' ==> StringBody([c] + rest) == Prefixed([c], StringBody(rest))
  {
    assert ([c] + rest)[1..] == rest;
  }

  lemma NoValue(s: string, depth: nat)
    requires NextToken(s).Good? ==> NextToken(s).token == Eof
    ensures Value(s, depth) == None
  {
    hide NextToken;
  }

  lemma StringBodyOfNothing()
    ensures StringBody("") == None
  {
  }

  lemma PrefixedTwice(a: string, b: string, r: Option<(string, string)>)
    ensures Prefixed(a, Prefixed(b, r)) == Prefixed(a + b, r)
  {
    if r.Some? {
      assert a + (b + r.value.0) == a + b + r.value.0;
    }
  }

  lemma PrefixedNothing(r: Option<(string, string)>)
    ensures Prefixed("", r) == r
  {
    if r.Some? {
      assert "" + r.value.0 == r.value.0;
    }
  }

  /** Parsing a whole text is total: a value exactly when the grammar has one, an error exactly when it has none. */
  method ParseText(text: string) returns (r: Option<Json>, failed: bool)
    ensures r == Parse(text)
    ensures failed <==> r.None?
  {
    var parser := new Parser(text);
    r := parser.ParseValue();
    failed := parser.failed;
  }
}
