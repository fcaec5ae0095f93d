/** The hosts provider: finding, building, replacing and removing the line of a host name in a hosts text. */
module HostEdit {
  import opened Common
  import opened TextLines

  datatype Host = Host(name: string, ip: string, aliases: string)

  datatype Outcome = Success | Changed | Skipped | Failed

  // ----- words of a line -----

  predicate IsBlank(c: char) {
    c == ' ' || c == '\t'
  }

  /** The number of blanks the text starts with. */
  function Blanks(s: string): (n: nat)
    ensures n <= |s|
    ensures n < |s| ==> !IsBlank(s[n])
  {
    if s == "" || !IsBlank(s[0]) then 0 else 1 + Blanks(s[1..])
  }

  /** The length of the word the text starts with. */
  function WordLength(s: string): (n: nat)
    ensures n <= |s|
    ensures n < |s| ==> IsBlank(s[n])
    ensures s != "" && !IsBlank(s[0]) ==> n > 0
  {
    if s == "" || IsBlank(s[0]) then 0 else 1 + WordLength(s[1..])
  }

  /** The words of a line. */
  function Words(s: string): seq<string>
    decreases |s|
  {
    if s == "" then []
    else if IsBlank(s[0]) then Words(s[1..])
    else [s[..WordLength(s)]] + Words(s[WordLength(s)..])
  }

  /** After its leading blanks the line is no comment, and one of its words after the address is the name. */
  predicate NamesHost(line: string, name: string) {
    var body := line[Blanks(line)..];
    body != "" && body[0] != '#' && name in Words(body[WordLength(body)..])
  }

  // ----- finding -----

  /** The line that starts at p. */
  function LineAt(text: string, p: nat): string
    requires p <= |text|
  {
    text[p..LineEnd(text, p)]
  }

  /** The first line from p on that names the host: where it starts. */
  function FindFrom(text: string, name: string, p: nat): (r: Option<nat>)
    requires p <= |text|
    ensures r.Some? ==> p <= r.value < |text|
    decreases |text| - p
  {
    if p == |text| then None
    else if NamesHost(LineAt(text, p), name) then Some(p)
    else FindFrom(text, name, NextLine(text, p))
  }

  function Find(text: string, name: string): (r: Option<nat>)
    ensures r.Some? ==> r.value < |text|
  {
    FindFrom(text, name, 0)
  }

  /** Where the entry on a line starts: past its leading blanks. */
  function EntryStart(text: string, p: nat): (q: nat)
    requires p <= |text|
    ensures p <= q <= LineEnd(text, p) <= NextLine(text, p)
  {
    LineEndFacts(text, p);
    p + Blanks(LineAt(text, p))
  }

  lemma NoBlanks(line: string)
    requires line != "" && !IsBlank(line[0])
    ensures Blanks(line) == 0 && line[Blanks(line)..] == line
  {
  }

  /** A blank more at the front of a stretch changes the count of blanks and not the words. */
  lemma OneMoreBlank(text: string, p: nat, eol: nat)
    requires p < eol <= |text| && IsBlank(text[p])
    ensures Blanks(text[p..eol]) == 1 + Blanks(text[p + 1..eol])
    ensures Words(text[p..eol]) == Words(text[p + 1..eol])
  {
    assert text[p..eol][1..] == text[p + 1..eol];
  }

  /** What one word takes off the front of a stretch. */
  lemma WordTaken(text: string, p: nat, eol: nat, name: string)
    requires p < eol <= |text| && !IsBlank(text[p])
    ensures var end := p + WordLength(text[p..eol]);
            end <= eol && (name in Words(text[p..eol]) <==> name == text[p..end] || name in Words(text[end..eol]))
  {
    var rest := text[p..eol];
    var end := p + WordLength(rest);
    assert rest[..WordLength(rest)] == text[p..end] && rest[WordLength(rest)..] == text[end..eol];
    assert Words(rest) == [text[p..end]] + Words(text[end..eol]);
  }

  lemma NothingLeft(text: string, p: nat)
    requires p <= |text|
    ensures Blanks(text[p..p]) == 0 && Words(text[p..p]) == []
  {
  }

  method SkipBlanks(text: string, from: nat, eol: nat) returns (p: nat)
    requires from <= eol <= |text|
    ensures p == from + Blanks(text[from..eol]) && p <= eol
    ensures Words(text[from..eol]) == Words(text[p..eol])
  {
    hide Words, Blanks;
    p := from;
    while p < eol && IsBlank(text[p])
      invariant from <= p <= eol && p + Blanks(text[p..eol]) == from + Blanks(text[from..eol])
      invariant Words(text[from..eol]) == Words(text[p..eol])
    {
      OneMoreBlank(text, p, eol);
      p := p + 1;
    }
    if p < eol {
      NoBlanks(text[p..eol]);
    } else {
      NothingLeft(text, p);
    }
  }

  method SkipWord(text: string, from: nat, eol: nat) returns (p: nat)
    requires from <= eol <= |text|
    ensures p == from + WordLength(text[from..eol]) && p <= eol
  {
    p := from;
    while p < eol && !IsBlank(text[p])
      invariant from <= p <= eol && p + WordLength(text[p..eol]) == from + WordLength(text[from..eol])
    {
      assert text[p..eol][1..] == text[p + 1..eol];
      p := p + 1;
    }
  }

  /** Is the name among the words of this stretch of a line? */
  method HasWord(text: string, from: nat, eol: nat, name: string) returns (found: bool)
    requires from <= eol <= |text|
    ensures found <==> name in Words(text[from..eol])
  {
    hide Words, WordLength, Blanks;
    var p := SkipBlanks(text, from, eol);
    while p < eol
      invariant from <= p <= eol && (p < eol ==> !IsBlank(text[p]))
      invariant name in Words(text[from..eol]) <==> name in Words(text[p..eol])
      decreases eol - p
    {
      var end := SkipWord(text, p, eol);
      WordTaken(text, p, eol, name);
      if text[p..end] == name {
        return true;
      }
      p := SkipBlanks(text, end, eol);
    }
    NothingLeft(text, p);
    return false;
  }

  /** Does the line name the host, and where does its entry start? */
  method LineNames(text: string, pos: nat, name: string) returns (named: bool, start: nat)
    requires pos <= |text|
    ensures named <==> NamesHost(LineAt(text, pos), name)
    ensures start == EntryStart(text, pos)
  {
    hide Words, Blanks, WordLength;
    var eol := LineEnd(text, pos);
    ghost var line := LineAt(text, pos);
    start := SkipBlanks(text, pos, eol);
    assert line[Blanks(line)..] == text[start..eol];
    if start == eol || text[start] == '#' {
      return false, start;
    }
    var p := SkipWord(text, start, eol);
    ghost var body := text[start..eol];
    assert body[WordLength(body)..] == text[p..eol];
    named := HasWord(text, p, eol, name);
  }

  method FindHostEntry(text: string, name: string) returns (found: bool, start: nat, end: nat)
    ensures found <==> Find(text, name).Some?
    ensures found ==> var p := Find(text, name).value; start == EntryStart(text, p) && end == NextLine(text, p)
    ensures found ==> start <= end <= |text|
  {
    hide NextLine, NamesHost, LineAt, EntryStart;
    var pos := 0;
    while pos < |text|
      invariant 0 <= pos <= |text| && Find(text, name) == FindFrom(text, name, pos)
      decreases |text| - pos
    {
      found, start := LineNames(text, pos, name);
      if found {
        return true, start, NextLine(text, pos);
      }
      pos := NextLine(text, pos);
    }
    return false, 0, 0;
  }

  // ----- building and applying -----

  /** An array of aliases arrives in brackets. */
  function StripBrackets(raw: string): string {
    if |raw| >= 2 && raw[0] == '[' && raw[|raw| - 1] == ']' then raw[1..|raw| - 1] else raw
  }

  function Line(h: Host): string {
    h.ip + "\t" + h.name + if h.aliases != "" then " " + h.aliases else ""
  }

  /** The outcome of an application and the hosts text after it. */
  function Applied(h: Host, present: bool, noop: bool, text: string): (Outcome, string) {
    var found := Find(text, h.name);
    if present && h.ip == "" then (Failed, text)
    else if found.None? then
      if !present then (Success, text)
      else if noop then (Skipped, text)
      else (Changed, WithFinalNewline(text) + (Line(h) + "\n"))
    else
      var start, end := EntryStart(text, found.value), NextLine(text, found.value);
      if present && text[start..end] == Line(h) + "\n" then (Success, text)
      else if noop then (Skipped, text)
      else (Changed, text[..start] + (if present then Line(h) + "\n" else "") + text[end..])
  }

  method HostApply(name: string, ip: string, rawAliases: string, present: bool, noop: bool, text: string)
    returns (outcome: Outcome, after: string)
    ensures (outcome, after) == Applied(Host(name, ip, StripBrackets(rawAliases)), present, noop, text)
  {
    var h := Host(name, ip, StripBrackets(rawAliases));
    if present && ip == "" {
      return Failed, text;
    }
    var found, start, end := FindHostEntry(text, name);
    if !present {
      if !found {
        return Success, text;
      }
      if noop {
        return Skipped, text;
      }
      assert text[..start] + "" == text[..start];
      return Changed, text[..start] + text[end..];
    }
    var entry := Line(h) + "\n";
    if found {
      if end - start == |entry| && text[start..end] == entry {
        return Success, text;
      }
      if noop {
        return Skipped, text;
      }
      return Changed, text[..start] + entry + text[end..];
    }
    if noop {
      return Skipped, text;
    }
    if |text| > 0 && text[|text| - 1] != '\n' {
      return Changed, text + "\n" + entry;
    }
    return Changed, text + entry;
  }

  // ----- finding in texts put together -----

  function Shifted(r: Option<nat>, n: nat): Option<nat> {
    if r.Some? then Some(r.value + n) else None
  }

  /** The lines at p and q in two texts are the same and end alike. */
  ghost predicate SameLine(a: string, p: nat, b: string, q: nat)
    requires p <= |a| && q <= |b|
  {
    LineAt(a, p) == LineAt(b, q) && NextLine(a, p) - p == NextLine(b, q) - q && LineEnd(a, p) - p == LineEnd(b, q) - q
  }

  lemma LineShifts(before: string, rest: string, p: nat)
    requires p <= |rest|
    ensures SameLine(before + rest, |before| + p, rest, p)
  {
    var text, e := before + rest, LineEnd(rest, p);
    LineEndFacts(rest, p);
    assert text[|before| + p..|before| + e] == rest[p..e];
    NextLineIs(text, |before| + p, |before| + e);
  }

  lemma {:induction false} FindShifts(before: string, rest: string, name: string, p: nat)
    requires p <= |rest|
    ensures FindFrom(before + rest, name, |before| + p) == Shifted(FindFrom(rest, name, p), |before|)
    decreases |rest| - p
  {
    hide NextLine, NamesHost, LineAt;
    if p < |rest| {
      LineShifts(before, rest, p);
      FindShifts(before, rest, name, NextLine(rest, p));
    }
  }

  lemma LineOfWhole(before: string, rest: string, p: nat)
    requires p < |before| && before[|before| - 1] == '\n'
    ensures SameLine(before + rest, p, before, p)
  {
    var text, e := before + rest, LineEnd(before, p);
    LineEndFacts(before, p);
    OneLineAt(before, p, e);
    assert e < |before|;
    assert text[p..e] == before[p..e];
    NextLineIs(text, p, e);
  }

  /** Whole lines are searched first, then what follows them. */
  lemma {:induction false} FindSplits(before: string, rest: string, name: string, p: nat)
    requires p <= |before| && LineStart(before, |before|)
    ensures FindFrom(before + rest, name, p) ==
            if FindFrom(before, name, p).Some? then FindFrom(before, name, p) else Shifted(Find(rest, name), |before|)
    decreases |before| - p
  {
    hide NextLine, NamesHost, LineAt;
    if p == |before| {
      FindShifts(before, rest, name, 0);
    } else {
      LineOfWhole(before, rest, p);
      FindSplits(before, rest, name, NextLine(before, p));
    }
  }

  lemma NextIsLineStart(text: string, p: nat)
    requires p < |text| && NextLine(text, p) < |text|
    ensures LineStart(text, NextLine(text, p))
  {
    LineEndFacts(text, p);
  }

  lemma {:induction false} NothingBefore(text: string, name: string, p: nat)
    requires p <= |text| && LineStart(text, p) && FindFrom(text, name, p).Some?
    ensures var f := FindFrom(text, name, p).value;
            LineStart(text, f) && NamesHost(LineAt(text, f), name) && FindFrom(text[..f], name, p) == None
    decreases |text| - p
  {
    hide NextLine, NamesHost, LineAt;
    var f := FindFrom(text, name, p).value;
    if f > p {
      var next := NextLine(text, p);
      NextIsLineStart(text, p);
      NothingBefore(text, name, next);
      assert text[..f][f - 1] == text[f - 1];
      assert text == text[..f] + text[f..];
      LineOfWhole(text[..f], text[f..], p);
    }
  }

  lemma LineWithFinalNewline(text: string, p: nat)
    requires p <= |text|
    ensures LineAt(WithFinalNewline(text), p) == LineAt(text, p)
    ensures NextLine(text, p) == |text| ==>
              NextLine(WithFinalNewline(text), p) == |text| || NextLine(WithFinalNewline(text), p) == |text| + 1
    ensures NextLine(text, p) < |text| ==> NextLine(WithFinalNewline(text), p) == NextLine(text, p)
  {
    var r, e := WithFinalNewline(text), LineEnd(text, p);
    LineEndFacts(text, p);
    assert r[p..e] == text[p..e];
    NextLineIs(r, p, e);
  }

  /** A final newline names no host. */
  lemma {:induction false} FindWithFinalNewline(text: string, name: string, p: nat)
    requires p <= |text|
    ensures FindFrom(WithFinalNewline(text), name, p).None? <==> FindFrom(text, name, p).None?
    decreases |text| - p
  {
    hide NextLine, NamesHost, LineAt;
    var r := WithFinalNewline(text);
    LineWithFinalNewline(text, p);
    if p < |text| {
      var next := NextLine(text, p);
      if next < |text| {
        FindWithFinalNewline(text, name, next);
      } else {
        NothingAtEnd(text, name);
      }
    } else {
      NothingAtEnd(text, name);
    }
  }

  lemma NothingAtEnd(text: string, name: string)
    ensures var r := WithFinalNewline(text); FindFrom(r, name, |text|) == None && FindFrom(r, name, |r|) == None
    ensures FindFrom(text, name, |text|) == None
  {
    var r := WithFinalNewline(text);
    LineWithFinalNewline(text, |text|);
    assert LineAt(text, |text|) == "";
    assert FindFrom(r, name, |r|) == None;
  }

  // ----- laws -----

  /** No field holds a newline, and there is an address. */
  predicate WellFormed(h: Host) {
    OneLine(Line(h)) && h.ip != ""
  }

  /** The finder recognises the line that the provider writes, from its first character on. */
  predicate Findable(h: Host) {
    NamesHost(Line(h), h.name) && h.ip != "" && !IsBlank(h.ip[0])
  }

  lemma LineStartsWithAddress(h: Host)
    requires h.ip != ""
    ensures Line(h) != "" && Line(h)[0] == h.ip[0]
  {
  }

  lemma {:induction false} WordThenRest(word: string, rest: string)
    requires word != "" && (forall c :: c in word ==> !IsBlank(c)) && (rest == "" || IsBlank(rest[0]))
    ensures WordLength(word + rest) == |word| && Words(word + rest) == [word] + Words(rest)
  {
    assert (word + rest)[0] == word[0] && word[0] in word;
    assert (word + rest)[1..] == word[1..] + rest;
    if |word| > 1 {
      WordThenRest(word[1..], rest);
    } else {
      assert word[1..] + rest == rest;
    }
    assert (word + rest)[..|word|] == word && (word + rest)[|word|..] == rest;
  }

  lemma WordAfterBlank(rest: string, name: string, others: seq<string>)
    requires rest != "" && IsBlank(rest[0]) && Words(rest[1..]) == [name] + others
    ensures name in Words(rest)
  {
    assert ([name] + others)[0] == name;
  }

  lemma SecondWord(name: string, more: string)
    requires name != "" && (forall c :: c in name ==> !IsBlank(c)) && (more == "" || IsBlank(more[0]))
    ensures name in Words("\t" + name + more)
  {
    hide Words, WordLength;
    assert ("\t" + name + more)[1..] == name + more;
    WordThenRest(name, more);
    WordAfterBlank("\t" + name + more, name, Words(more));
  }

  /** A line that starts with a word names every host among the words after it. */
  lemma NamedAfter(address: string, rest: string, name: string)
    requires address != "" && (forall c :: c in address ==> !IsBlank(c)) && address[0] != '#'
    requires rest != "" && IsBlank(rest[0]) && name in Words(rest)
    ensures NamesHost(address + rest, name)
  {
    hide Words, WordLength, Blanks;
    assert (address + rest)[0] == address[0] && address[0] in address;
    NoBlanks(address + rest);
    WordThenRest(address, rest);
    assert (address + rest)[|address|..] == rest;
  }

  /** A host of plain words is recognised. */
  lemma PlainHostIsFindable(h: Host)
    requires h.ip != "" && h.ip[0] != '#' && ' ' !in h.ip && '\t' !in h.ip
    requires h.name != "" && ' ' !in h.name && '\t' !in h.name
    ensures Findable(h)
  {
    hide Words, NamesHost;
    var more := if h.aliases != "" then " " + h.aliases else "";
    assert Line(h) == h.ip + ("\t" + h.name + more);
    assert h.ip[0] in h.ip;
    SecondWord(h.name, more);
    NamedAfter(h.ip, "\t" + h.name + more, h.name);
  }

  lemma BlanksOnly(blanks: string, line: string)
    requires (forall c :: c in blanks ==> IsBlank(c)) && (line == "" || !IsBlank(line[0]))
    ensures Blanks(blanks + line) == |blanks|
  {
    if blanks == "" {
      assert blanks + line == line;
    } else {
      assert (blanks + line)[1..] == blanks[1..] + line && (blanks + line)[0] in blanks;
      BlanksOnly(blanks[1..], line);
    }
  }

  lemma BlanksDoNotMatter(blanks: string, line: string, name: string)
    requires (forall c :: c in blanks ==> IsBlank(c)) && line != "" && !IsBlank(line[0])
    ensures Blanks(blanks + line) == |blanks| && (NamesHost(blanks + line, name) <==> NamesHost(line, name))
  {
    BlanksOnly(blanks, line);
    assert (blanks + line)[|blanks|..] == line && line[0..] == line;
    assert Blanks(line) == 0;
  }

  lemma {:induction false} LeadingBlanks(s: string)
    ensures forall c :: c in s[..Blanks(s)] ==> IsBlank(c)
  {
    if Blanks(s) > 0 {
      LeadingBlanks(s[1..]);
      assert s[..Blanks(s)] == [s[0]] + s[1..][..Blanks(s[1..])];
    }
  }

  /** A written line after blanks is a line of its own that names the host. */
  lemma WrittenLine(h: Host, blanks: string, rest: string)
    requires WellFormed(h) && Findable(h) && forall c :: c in blanks ==> IsBlank(c)
    ensures var tail := blanks + (Line(h) + "\n") + rest;
            && Find(tail, h.name) == Some(0) && EntryStart(tail, 0) == |blanks|
            && NextLine(tail, 0) == |blanks| + |Line(h)| + 1
  {
    var line := Line(h);
    var tail := blanks + (line + "\n") + rest;
    var e := |blanks| + |line|;
    assert line[0] == h.ip[0];
    assert tail[0..e] == blanks + line && tail[e] == '\n';
    BlanksDoNotMatter(blanks, line, h.name);
    BlanksAndLine(blanks, line);
    hide NamesHost, Line, Blanks, OneLine;
    NextLineIs(tail, 0, e);
  }

  lemma BlanksAndLine(blanks: string, line: string)
    requires OneLine(line) && forall c :: c in blanks ==> IsBlank(c)
    ensures OneLine(blanks + line)
  {
  }

  lemma FourParts(a: string, b: string, c: string, d: string)
    ensures var text, i, j := a + b + c + d, |a| + |b|, |a| + |b| + |c|;
            text == a + (b + c + d) && text[i..j] == c && text[j..] == d && text[..i] == a + b
  {
  }

  /** A written line, after whole lines that do not name the host and after blanks, is the one found. */
  lemma WrittenIsFound(h: Host, before: string, blanks: string, rest: string)
    requires WellFormed(h) && Findable(h) && LineStart(before, |before|) && Find(before, h.name).None?
    requires forall c :: c in blanks ==> IsBlank(c)
    ensures var text := before + blanks + (Line(h) + "\n") + rest;
            var end := |before| + |blanks| + |Line(h)| + 1;
            && Find(text, h.name) == Some(|before|)
            && EntryStart(text, |before|) == |before| + |blanks|
            && NextLine(text, |before|) == end
            && text[|before| + |blanks|..end] == Line(h) + "\n" && text[end..] == rest
            && text[..|before| + |blanks|] == before + blanks
  {
    hide WellFormed, Findable, NamesHost, Line, NextLine, Blanks, LineAt, FindFrom, OneLine;
    var tail := blanks + (Line(h) + "\n") + rest;
    FourParts(before, blanks, Line(h) + "\n", rest);
    WrittenLine(h, blanks, rest);
    FindSplits(before, tail, h.name, 0);
    LineShifts(before, tail, 0);
  }

  lemma OfOneLine(text: string, p: nat)
    requires p <= |text|
    ensures var line := LineAt(text, p); var start := EntryStart(text, p);
            && |line| == LineEnd(text, p) - p && line[Blanks(line)..] == text[start..LineEnd(text, p)]
            && (forall c :: c in text[p..start] ==> IsBlank(c))
            && LineEnd(text, start) == LineEnd(text, p) && NextLine(text, start) == NextLine(text, p)
  {
    hide Blanks;
    var e := LineEnd(text, p);
    LineEndFacts(text, p);
    var line := LineAt(text, p);
    var start := EntryStart(text, p);
    LeadingBlanks(line);
    assert line[..Blanks(line)] == text[p..start] && line[Blanks(line)..] == text[start..e];
    assert OneLine(text[start..e]);
    NextLineIs(text, start, e);
  }

  /** The text around a found entry. */
  lemma FoundEntry(text: string, name: string)
    requires Find(text, name).Some?
    ensures var p := Find(text, name).value;
            var start, end := EntryStart(text, p), NextLine(text, p);
            && p <= start < end <= |text|
            && LineStart(text[..p], p) && Find(text[..p], name) == None
            && (forall c :: c in text[p..start] ==> IsBlank(c))
            && !IsBlank(text[start]) && NextLine(text, start) == end
            && NamesHost(LineAt(text, start), name)
  {
    hide FindFrom, Words, WordLength, NextLine, NamesHost, LineAt, EntryStart, Blanks, Find, OneLine, LineEnd;
    var p := Find(text, name).value;
    FoundIsFirst(text, name);
    OfOneLine(text, p);
    NamedBody(LineAt(text, p), name);
    LineEndFacts(text, p);
    assert p > 0 ==> text[..p][p - 1] == text[p - 1];
    StartIsBody(text, p);
  }

  lemma PrefixSplits(text: string, p: nat, start: nat)
    requires p <= start <= |text|
    ensures text[..start] == text[..p] + text[p..start]
  {
  }

  lemma FoundIsFirst(text: string, name: string)
    requires Find(text, name).Some?
    ensures var p := Find(text, name).value;
            LineStart(text, p) && NamesHost(LineAt(text, p), name) && Find(text[..p], name) == None
  {
    NothingBefore(text, name, 0);
  }

  lemma NamedBody(line: string, name: string)
    requires NamesHost(line, name)
    ensures var body := line[Blanks(line)..]; body != "" && !IsBlank(body[0]) && NamesHost(body, name)
  {
    var body := line[Blanks(line)..];
    assert Blanks(body) == 0 && body[0..] == body;
  }

  lemma StartIsBody(text: string, p: nat)
    requires p <= |text|
    ensures LineAt(text, EntryStart(text, p)) == LineAt(text, p)[Blanks(LineAt(text, p))..]
    ensures EntryStart(text, p) < LineEnd(text, p) ==>
              LineAt(text, p)[Blanks(LineAt(text, p))] == text[EntryStart(text, p)]
  {
    hide Blanks;
    OfOneLine(text, p);
  }

  /** Applying "present" a second time changes nothing, exactly when the finder recognises the written line. */
  lemma PresentTwice(h: Host, text: string)
    requires WellFormed(h)
    ensures var once := Applied(h, true, false, text).1;
            Applied(h, true, false, once) == (Success, once) <==> Findable(h) || Applied(h, true, false, text).0 == Success
  {
    hide NamesHost, Line, LineEnd, NextLine, Blanks, EntryStart;
    var once := Applied(h, true, false, text).1;
    var found := Find(text, h.name);
    if Applied(h, true, false, text).0 == Success {
    } else if !Findable(h) {
      if Applied(h, true, false, once) == (Success, once) {
        UnfindableDiffers(h, once);
      }
    } else if found.Some? {
      FoundEntry(text, h.name);
      var start, end := EntryStart(text, found.value), NextLine(text, found.value);
      PrefixSplits(text, found.value, start);
      WrittenIsFound(h, text[..found.value], text[found.value..start], text[end..]);
    } else {
      var before := WithFinalNewline(text);
      FindWithFinalNewline(text, h.name, 0);
      WrittenIsFound(h, before, "", "");
      assert before + "" + (Line(h) + "\n") + "" == before + (Line(h) + "\n");
    }
  }

  lemma UnfindableDiffers(h: Host, text: string)
    requires WellFormed(h) && Find(text, h.name).Some?
    requires var p := Find(text, h.name).value; text[EntryStart(text, p)..NextLine(text, p)] == Line(h) + "\n"
    ensures Findable(h)
  {
    hide NamesHost, Line, NextLine, Blanks;
    FoundEntry(text, h.name);
    LineStartsWithAddress(h);
    var p := Find(text, h.name).value;
    var start, end, line := EntryStart(text, p), NextLine(text, p), Line(h);
    assert text[start..end - 1] == text[start..end][..|line|] == line;
    assert text[end - 1] == text[start..end][|line|];
    assert text[start] == text[start..end][0];
    NextLineIs(text, start, end - 1);
  }

  /** On a text that does not name the host, "present" then "absent" restores it up to a final newline, exactly when
      the finder recognises the written line. */
  lemma PresentThenAbsent(h: Host, text: string)
    requires WellFormed(h) && Find(text, h.name).None?
    ensures Applied(h, true, false, text) == (Changed, WithFinalNewline(text) + (Line(h) + "\n"))
    ensures Applied(h, false, false, Applied(h, true, false, text).1).1 == WithFinalNewline(text) <==> Findable(h)
  {
    hide NamesHost, Line, LineEnd, NextLine, Blanks, EntryStart, WithFinalNewline;
    var before := WithFinalNewline(text);
    var once := before + (Line(h) + "\n");
    FindWithFinalNewline(text, h.name, 0);
    FinalNewlineEnds(text);
    if Findable(h) {
      WrittenIsFound(h, before, "", "");
      assert before + "" + (Line(h) + "\n") + "" == once;
      assert once[..|before|] == before;
      assert before + "" == before;
    } else if !NamesHost(Line(h), h.name) {
      NotFoundAppended(h, before);
    } else {
      LeadingBlanksStay(h, before);
    }
  }

  /** An address that starts with a blank leaves that blank behind when its line is removed. */
  lemma LeadingBlanksStay(h: Host, before: string)
    requires WellFormed(h) && NamesHost(Line(h), h.name) && IsBlank(h.ip[0])
    requires LineStart(before, |before|) && Find(before, h.name).None?
    ensures Applied(h, false, false, before + (Line(h) + "\n")).1 != before
  {
    hide NamesHost, Line, NextLine, FindFrom;
    var line, tail := Line(h), Line(h) + "\n";
    LineStartsWithAddress(h);
    assert tail[0..|line|] == line && tail[|line|] == '\n';
    NextLineIs(tail, 0, |line|);
    FindSplits(before, tail, h.name, 0);
    LineShifts(before, tail, 0);
    FoundFirst(tail, h.name);
    assert EntryStart(before + tail, |before|) > |before|;
  }

  lemma FoundFirst(text: string, name: string)
    requires text != "" && NamesHost(LineAt(text, 0), name)
    ensures Find(text, name) == Some(0)
  {
  }

  lemma FinalNewlineEnds(text: string)
    ensures LineStart(WithFinalNewline(text), |WithFinalNewline(text)|)
  {
  }

  lemma NotFoundAppended(h: Host, before: string)
    requires WellFormed(h) && !NamesHost(Line(h), h.name) && LineStart(before, |before|) && Find(before, h.name).None?
    ensures Find(before + (Line(h) + "\n"), h.name).None?
  {
    hide NamesHost, Line, Blanks, NextLine;
    var line, tail := Line(h), Line(h) + "\n";
    FindSplits(before, tail, h.name, 0);
    assert tail[0..|line|] == line && tail[|line|] == '\n';
    NextLineIs(tail, 0, |line|);
    assert FindFrom(tail, h.name, |tail|) == None;
  }

  /** Whatever is applied, only one line that names the host goes, or one comes; every byte around it stays. */
  lemma RestIsKept(h: Host, present: bool, noop: bool, text: string)
    returns (before: string, removed: string, added: string, rest: string)
    ensures text == before + removed + rest || (rest == "" && WithFinalNewline(text) == before + removed)
    ensures removed == "" || (NextLine(removed, 0) == |removed| && NamesHost(LineAt(removed, 0), h.name))
    ensures added == if present then Line(h) + "\n" else ""
    ensures var (outcome, after) := Applied(h, present, noop, text);
            after == if outcome == Changed then before + added + rest else text
  {
    hide NamesHost, Line, Blanks, EntryStart, WithFinalNewline, NextLine, LineAt;
    var (outcome, after) := Applied(h, present, noop, text);
    var found := Find(text, h.name);
    added := if present then Line(h) + "\n" else "";
    if outcome != Changed {
      before, removed, rest := text, "", "";
    } else if found.Some? {
      FoundEntry(text, h.name);
      var start, end := EntryStart(text, found.value), NextLine(text, found.value);
      before, removed, rest := text[..start], text[start..end], text[end..];
      LineAlone(text, start, end);
    } else {
      before, removed, rest := WithFinalNewline(text), "", "";
    }
  }

  lemma LineAlone(text: string, start: nat, end: nat)
    requires start < end <= |text| && end == NextLine(text, start)
    ensures NextLine(text[start..end], 0) == end - start && LineAt(text[start..end], 0) == LineAt(text, start)
  {
    var e := LineEnd(text, start);
    LineEndFacts(text, start);
    assert text[start..end][0..e - start] == text[start..e];
    NextLineIs(text[start..end], 0, e - start);
  }

  // ----- what words are, and what the written line says -----

  ghost predicate OnlyBlanks(s: string) {
    forall i :: 0 <= i < |s| ==> s[i] == ' ' || s[i] == '\t'
  }

  ghost predicate IsWord(s: string) {
    s != "" && forall i :: 0 <= i < |s| ==> s[i] != ' ' && s[i] != '\t'
  }

  /** A word and the blanks after it. */
  datatype Piece = Piece(word: string, gap: string)

  function Spelled(pieces: seq<Piece>): string {
    if pieces == [] then "" else pieces[0].word + (pieces[0].gap + Spelled(pieces[1..]))
  }

  function WordsOf(pieces: seq<Piece>): seq<string> {
    if pieces == [] then [] else [pieces[0].word] + WordsOf(pieces[1..])
  }

  /** Words with spaces or tabs between any two of them. */
  ghost predicate Apart(pieces: seq<Piece>) {
    && (forall i :: 0 <= i < |pieces| ==> IsWord(pieces[i].word) && OnlyBlanks(pieces[i].gap))
    && (forall i :: 0 <= i < |pieces| - 1 ==> pieces[i].gap != "")
  }

  lemma {:induction false} WordsAfterBlanks(blanks: string, s: string)
    requires OnlyBlanks(blanks)
    ensures Words(blanks + s) == Words(s)
  {
    if blanks == "" {
      assert blanks + s == s;
    } else {
      assert (blanks + s)[0] == blanks[0] && (blanks + s)[1..] == blanks[1..] + s;
      WordsAfterBlanks(blanks[1..], s);
    }
  }

  lemma WordFirst(word: string, rest: string)
    requires IsWord(word) && (rest == "" || rest[0] == ' ' || rest[0] == '\t')
    ensures Words(word + rest) == [word] + Words(rest)
  {
    hide Words, WordLength;
    WordThenRest(word, rest);
  }

  /** Spaces and tabs, and nothing else, keep words apart. */
  lemma {:induction false} WordsAre(lead: string, pieces: seq<Piece>)
    requires OnlyBlanks(lead) && Apart(pieces)
    ensures Words(lead + Spelled(pieces)) == WordsOf(pieces)
    decreases |pieces|
  {
    hide Words;
    WordsAfterBlanks(lead, Spelled(pieces));
    if pieces == [] {
      NoWords();
    } else {
      var p, rest := pieces[0], pieces[1..];
      WordsAre(p.gap, rest);
      if p.gap == "" {
        assert rest == [] && p.gap + Spelled(rest) == "";
      }
      WordFirst(p.word, p.gap + Spelled(rest));
    }
  }

  lemma NoWords()
    ensures Words("") == []
  {
  }

  lemma FirstWordSplits(s: string)
    requires s != "" && s[0] != ' ' && s[0] != '\t'
    ensures Words(s) == [s[..WordLength(s)]] + Words(s[WordLength(s)..]) && s[..WordLength(s)][0] == s[0]
  {
  }

  lemma BlanksDropped(s: string)
    ensures Words(s) == Words(s[Blanks(s)..])
  {
    LeadingBlanks(s);
    assert s == s[..Blanks(s)] + s[Blanks(s)..];
    forall i | 0 <= i < Blanks(s)
      ensures s[..Blanks(s)][i] == ' ' || s[..Blanks(s)][i] == '\t'
    {
      assert s[..Blanks(s)][i] in s[..Blanks(s)];
    }
    WordsAfterBlanks(s[..Blanks(s)], s[Blanks(s)..]);
  }

  /** A line names a host when its first word, the address, starts no comment and a later word is the name. */
  lemma NamesHostExactly(line: string, name: string)
    ensures NamesHost(line, name) <==>
            var words := Words(line); words != [] && words[0] != "" && words[0][0] != '#' && name in words[1..]
  {
    hide Words, WordLength, Blanks;
    var body := line[Blanks(line)..];
    BlanksDropped(line);
    if body == "" {
      NoWords();
    } else {
      FirstWordSplits(body);
      assert Words(line)[1..] == Words(body[WordLength(body)..]);
    }
  }

  /** The written line reads as the address, the name and the aliases, in this order. */
  lemma LineReads(h: Host)
    requires IsWord(h.ip) && IsWord(h.name)
    ensures Words(Line(h)) == [h.ip, h.name] + Words(h.aliases)
  {
    hide Words;
    var more := if h.aliases != "" then " " + h.aliases else "";
    NoWords();
    WordsAfterBlanks(" ", h.aliases);
    assert Words(more) == Words(h.aliases);
    assert Line(h) == h.ip + ("\t" + (h.name + more));
    WordFirst(h.ip, "\t" + (h.name + more));
    WordsAfterBlanks("\t", h.name + more);
    WordFirst(h.name, more);
    assert [h.ip] + ([h.name] + Words(more)) == [h.ip, h.name] + Words(more);
  }

  /** After "present" the written line stands in the text, at the start of a line but for blanks. */
  lemma WhatIsLeft(h: Host, text: string) returns (before: string, blanks: string, rest: string)
    requires h.ip != ""
    ensures Applied(h, true, false, text).1 == before + blanks + (Line(h) + "\n") + rest
    ensures LineStart(before, |before|) && OnlyBlanks(blanks) && Find(before, h.name).None?
  {
    hide NamesHost, Line, LineEnd, NextLine, Blanks, EntryStart, WithFinalNewline;
    var found := Find(text, h.name);
    if found.Some? {
      FoundEntry(text, h.name);
      var p, start, end := found.value, EntryStart(text, found.value), NextLine(text, found.value);
      before, blanks, rest := text[..p], text[p..start], text[end..];
      PrefixSplits(text, p, start);
      assert forall i :: 0 <= i < |blanks| ==> blanks[i] in text[p..start];
      assert text == text[..start] + text[start..end] + text[end..];
    } else {
      before, blanks, rest := WithFinalNewline(text), "", "";
      FindWithFinalNewline(text, h.name, 0);
      FinalNewlineEnds(text);
      assert before + "" + (Line(h) + "\n") + "" == before + (Line(h) + "\n");
    }
  }

  /** A dry run reports what a real one would change and changes nothing; without an address there is nothing to write. */
  lemma DryRun(h: Host, present: bool, text: string)
    ensures var wet := Applied(h, present, false, text);
            && Applied(h, present, true, text) == (if wet.0 == Changed then Skipped else wet.0, text)
            && (wet.0 == Failed <==> present && h.ip == "") && (wet.0 != Changed ==> wet.1 == text)
            && (!present ==> (wet.0 == Success <==> Find(text, h.name).None?))
            && wet.0 != Skipped
  {
    hide Find, EntryStart, NextLine, Line;
  }

  /** Only a pair of enclosing brackets is taken off. */
  lemma StripBracketsExactly(raw: string, s: string)
    ensures StripBrackets("[" + s + "]") == s
    ensures StripBrackets(raw) == raw || raw == "[" + StripBrackets(raw) + "]"
  {
    assert ("[" + s + "]")[1..|s| + 1] == s;
    if |raw| >= 2 && raw[0] == '[' && raw[|raw| - 1] == ']' {
      assert raw == "[" + raw[1..|raw| - 1] + "]";
    }
  }
}
