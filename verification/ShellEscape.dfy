/** Quoting arguments for the shell, against the reading rules of the POSIX Shell Command Language. */
module ShellEscape {
  import opened Common

  const NUL: char := 0 as char

  // ----- quoting -----

  function QuotedChar(c: char): string {
    if c == '\'' then "'\\''" else [c]
  }

  function QuotedBody(s: string): string {
    if s == "" then "" else QuotedBody(s[..|s| - 1]) + QuotedChar(s[|s| - 1])
  }

  function Quoted(s: Option<string>): string {
    "'" + (if s.Some? then QuotedBody(s.value) else "") + "'"
  }

  lemma {:induction false} BodyOfPrefix(s: string, i: nat)
    requires i <= |s|
    ensures |QuotedBody(s[..i])| <= |QuotedBody(s)|
    ensures i < |s| ==> QuotedBody(s[..i + 1]) == QuotedBody(s[..i]) + QuotedChar(s[i])
    decreases |s|
  {
    if i < |s| {
      assert s[..i + 1][..i] == s[..i];
      assert s[..|s| - 1][..i] == s[..i];
      if i < |s| - 1 {
        BodyOfPrefix(s[..|s| - 1], i);
      }
    } else {
      assert s[..i] == s;
    }
  }

  method QuotedLength(s: string) returns (len: nat)
    ensures len == |QuotedBody(s)|
  {
    hide QuotedBody;
    len := 0;
    EmptyBody(s);
    for i := 0 to |s|
      invariant len == |QuotedBody(s[..i])|
    {
      BodyOfPrefix(s, i);
      len := len + if s[i] == '\'' then 4 else 1;
    }
    assert s[..|s|] == s;
  }

  /** Count first, then fill a buffer of that size; the buffer ends in NUL. */
  method Escape(str: Option<string>) returns (escaped: array<char>)
    ensures fresh(escaped) && escaped[..] == Quoted(str) + [NUL]
  {
    if str.None? {
      escaped := new char[] ['\'', '\'', NUL];
      return;
    }
    hide QuotedBody, QuotedChar;
    var s := str.value;
    var len := QuotedLength(s);
    escaped := new char[len + 3];
    Fill(escaped, s);
  }

  method Fill(buffer: array<char>, s: string)
    requires buffer.Length == |QuotedBody(s)| + 3
    modifies buffer
    ensures buffer[..] == "'" + QuotedBody(s) + "'" + [NUL]
  {
    hide QuotedBody, QuotedChar;
    buffer[0] := '\'';
    var out := 1;
    EmptyBody(s);
    for i := 0 to |s|
      invariant out <= buffer.Length - 2 && out == 1 + |QuotedBody(s[..i])|
      invariant buffer[..out] == "'" + QuotedBody(s[..i])
    {
      BodyOfPrefix(s, i);
      BodyOfPrefix(s, i + 1);
      ghost var before := buffer[..out];
      out := WriteQuoted(buffer, out, s[i]);
      assert buffer[..out] == before + QuotedChar(s[i]);
    }
    assert s[..|s|] == s;
    ghost var before := buffer[..out];
    buffer[out] := '\'';
    buffer[out + 1] := NUL;
    assert buffer[..out] == before;
    assert buffer[..] == before + ['\'', NUL];
  }

  lemma EmptyBody(s: string)
    ensures QuotedBody(s[..0]) == ""
  {
  }

  method WriteQuoted(buffer: array<char>, at: nat, c: char) returns (out: nat)
    requires at + |QuotedChar(c)| <= buffer.Length
    modifies buffer
    ensures out == at + |QuotedChar(c)|
    ensures buffer[..out] == old(buffer[..at]) + QuotedChar(c)
  {
    if c == '\'' {
      buffer[at], buffer[at + 1], buffer[at + 2], buffer[at + 3] := '\'', '\\', '\'', '\'';
      out := at + 4;
    } else {
      buffer[at] := c;
      out := at + 1;
    }
    assert buffer[..at] == old(buffer[..at]);
  }

  // ----- reading -----

  /** Characters that are more than themselves outside of quotes, besides blanks, quotes and the backslash. */
  predicate Special(c: char) {
    c in "|&;<>()$`\"\n*?[#~=%"
  }

  /**
   * The words of a command line by sections 2.2.1 and 2.2.2: `word` is the word being read, if one has begun. A line
   * with anything special outside of quotes, or with an open quote at its end, is no plain list of words.
   */
  function Read(s: string, word: Option<string>): Option<seq<string>>
    decreases |s|
  {
    var begun := if word.Some? then word.value else "";
    if s == "" then Some(if word.Some? then [begun] else [])
    else if s[0] == ' ' || s[0] == '\t' then
      var rest := Read(s[1..], None);
      if rest.None? then None else Some((if word.Some? then [begun] else []) + rest.value)
    else if s[0] == '\'' then ReadQuoted(s[1..], begun)
    else if s[0] == '\\' then
      if |s| == 1 then None
      else if s[1] == '\n' then Read(s[2..], word)
      else Read(s[2..], Some(begun + [s[1]]))
    else if Special(s[0]) then None
    else Read(s[1..], Some(begun + [s[0]]))
  }

  /** Between single quotes every character stands for itself. */
  function ReadQuoted(s: string, word: string): Option<seq<string>>
    decreases |s|
  {
    if s == "" then None
    else if s[0] == '\'' then Read(s[1..], Some(word))
    else ReadQuoted(s[1..], word + [s[0]])
  }

  // ----- the words come back -----

  lemma ReadsChar(c: char, rest: string, word: string)
    ensures ReadQuoted(QuotedChar(c) + rest, word) == ReadQuoted(rest, word + [c])
  {
    if c == '\'' {
      var s := QuotedChar(c) + rest;
      assert s[0] == '\'' && s[1] == '\\' && s[2] == '\'' && s[3] == '\'';
      assert s[1..][2..] == s[3..] && s[3..][1..] == rest;
      calc {
        ReadQuoted(s, word);
        Read(s[1..], Some(word));
        Read(s[3..], Some(word + [c]));
        ReadQuoted(rest, word + [c]);
      }
    } else {
      assert (QuotedChar(c) + rest)[1..] == rest;
    }
  }

  lemma {:induction false} ReadsBody(s: string, rest: string, word: string)
    ensures ReadQuoted(QuotedBody(s) + rest, word) == ReadQuoted(rest, word + s)
    decreases |s|
  {
    hide ReadQuoted, QuotedChar;
    if s == "" {
      assert QuotedBody(s) + rest == rest && word + s == word;
    } else {
      var init, last := s[..|s| - 1], s[|s| - 1];
      assert QuotedBody(s) + rest == QuotedBody(init) + (QuotedChar(last) + rest);
      ReadsBody(init, QuotedChar(last) + rest, word);
      ReadsChar(last, rest, word + init);
      assert word + init + [last] == word + s;
    }
  }

  function ValueOf(s: Option<string>): string {
    if s.Some? then s.value else ""
  }

  lemma ReadsQuoted(s: Option<string>, rest: string)
    ensures Read(Quoted(s) + rest, None) == Read(rest, Some(ValueOf(s)))
  {
    hide QuotedBody;
    var body := if s.Some? then QuotedBody(s.value) else "";
    var text := Quoted(s) + rest;
    assert text[0] == '\'' && text[1..] == body + ("'" + rest);
    assert Read(text, None) == ReadQuoted(text[1..], "");
    if s.Some? {
      ReadsBody(s.value, "'" + rest, "");
    }
    assert "" + ValueOf(s) == ValueOf(s);
    assert ("'" + rest)[1..] == rest;
    if s.None? {
      assert body + ("'" + rest) == "'" + rest;
    }
  }

  /** The quoted arguments with a blank between. */
  function Joined(args: seq<Option<string>>): string {
    if args == [] then ""
    else if |args| == 1 then Quoted(args[0])
    else Quoted(args[0]) + (" " + Joined(args[1..]))
  }

  ghost function Values(args: seq<Option<string>>): seq<string> {
    seq(|args|, i requires 0 <= i < |args| => ValueOf(args[i]))
  }

  /** The shell reads back exactly the arguments, whatever characters they hold. */
  lemma {:induction false} SplitsBack(args: seq<Option<string>>)
    ensures Read(Joined(args), None) == Some(Values(args))
  {
    hide Quoted;
    if args == [] {
      assert Values(args) == [];
    } else if |args| == 1 {
      ReadsQuoted(args[0], "");
      assert Quoted(args[0]) + "" == Quoted(args[0]);
      assert Values(args) == [ValueOf(args[0])];
    } else {
      var rest := " " + Joined(args[1..]);
      ReadsQuoted(args[0], rest);
      SplitsBack(args[1..]);
      assert rest[1..] == Joined(args[1..]);
      assert Values(args) == [ValueOf(args[0])] + Values(args[1..]);
    }
  }

  /** So different arguments are never confused. */
  lemma QuotingIsInjective(a: seq<Option<string>>, b: seq<Option<string>>)
    requires Joined(a) == Joined(b)
    ensures Values(a) == Values(b)
  {
    SplitsBack(a);
    SplitsBack(b);
  }
}
