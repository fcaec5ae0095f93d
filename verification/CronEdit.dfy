/** The crontab provider: finding, building, replacing and removing a named entry in a crontab text. */
module CronEdit {
  import opened Common
  import opened TextLines

  const CRON_MARKER: string := "# Puppet Name: "

  /** A cron resource; an absent field is None, an absent environment is empty. */
  datatype Job = Job(name: string, command: string, minute: Option<string>, hour: Option<string>,
                     monthday: Option<string>, month: Option<string>, weekday: Option<string>,
                     special: string, environment: string)

  datatype Outcome = Success | Changed | Skipped | Failed

  // ----- building -----

  function OrStar(field: Option<string>): string {
    if field.Some? then field.value else "*"
  }

  function TimeSpec(job: Job): string {
    if job.special != "" then (if job.special[0] == '@' then job.special else "@" + job.special)
    else
      OrStar(job.minute) + " " + OrStar(job.hour) + " " + OrStar(job.monthday) + " " + OrStar(job.month) + " "
      + OrStar(job.weekday)
  }

  function Marker(name: string): string {
    CRON_MARKER + name
  }

  function CronLine(job: Job): string {
    TimeSpec(job) + " " + job.command
  }

  /** What is to stand below the marker line: the environment, if any, and the cron line. */
  function Body(job: Job): string {
    if job.environment != "" then job.environment + "\n" + CronLine(job) else CronLine(job)
  }

  function Entry(job: Job): string {
    Marker(job.name) + "\n" + Body(job) + "\n"
  }

  // ----- finding -----

  /** The marker stands at p, at the start of a line and filling it. */
  predicate MarkerAt(text: string, name: string, p: nat) {
    && OccursAt(text, Marker(name), p)
    && LineStart(text, p)
    && (p + |Marker(name)| == |text| || text[p + |Marker(name)|] == '\n')
  }

  /** An entry is taken to be its marker line and the one line after it. */
  function EntryEnd(text: string, p: nat): (end: nat)
    requires p <= |text|
    ensures p <= end <= |text|
  {
    NextLine(text, NextLine(text, p))
  }

  /** The first marker of the name from p on. */
  function FindFrom(text: string, name: string, p: nat): (r: Option<nat>)
    ensures r.Some? ==> p <= r.value && MarkerAt(text, name, r.value)
    ensures forall k :: p <= k && (r.Some? ==> k < r.value) ==> !MarkerAt(text, name, k)
    decreases |text| + 1 - p
  {
    if p > |text| then None
    else if MarkerAt(text, name, p) then Some(p)
    else FindFrom(text, name, p + 1)
  }

  function Find(text: string, name: string): (r: Option<nat>)
    ensures r.Some? ==> r.value <= |text|
  {
    FindFrom(text, name, 0)
  }

  lemma FindIs(text: string, name: string, p: nat)
    requires MarkerAt(text, name, p)
    requires forall k :: 0 <= k < p ==> !MarkerAt(text, name, k)
    ensures Find(text, name) == Some(p)
  {
  }

  method FindCronEntry(text: string, name: string) returns (found: bool, start: nat, end: nat)
    ensures found <==> Find(text, name).Some?
    ensures found ==> Some(start) == Find(text, name) && end == EntryEnd(text, start) && start <= end <= |text|
  {
    var marker := Marker(name);
    var pos := 0;
    while pos <= |text|
      invariant 0 <= pos <= |text| + 1
      invariant forall k :: 0 <= k < pos ==> !MarkerAt(text, name, k)
      decreases |text| + 1 - pos
    {
      var at := StrStr(text, pos, marker);
      if at.None? {
        return false, 0, 0;
      }
      start := at.value;
      if LineStart(text, start) && (start + |marker| == |text| || text[start + |marker|] == '\n') {
        FindIs(text, name, start);
        return true, start, NextLine(text, NextLine(text, start));
      }
      pos := start + 1;
    }
    return false, 0, 0;
  }

  /** The entry without its marker line and last newline; none when there is nothing after the marker line. */
  function ExtractLine(text: string, start: nat, end: nat): Option<string>
    requires start <= end <= |text|
  {
    var line := NextLine(text, start);
    if OneLine(text[start..line]) || line > end then None
    else if end > line && text[end - 1] == '\n' then Some(text[line..end - 1])
    else Some(text[line..end])
  }

  // ----- applying -----

  /** The outcome of an application and the crontab after it. */
  function Applied(job: Job, present: bool, noop: bool, text: string): (Outcome, string) {
    var found := Find(text, job.name);
    if present && job.command == "" then (Failed, text)
    else if !present then
      if found.None? then (Success, text)
      else if noop then (Skipped, text)
      else (Changed, text[..found.value] + text[EntryEnd(text, found.value)..])
    else if found.Some? then
      var end := EntryEnd(text, found.value);
      if ExtractLine(text, found.value, end) == Some(Body(job)) then (Success, text)
      else if noop then (Skipped, text)
      else (Changed, text[..found.value] + Entry(job) + text[end..])
    else if noop then (Skipped, text)
    else (Changed, WithFinalNewline(text) + Entry(job))
  }

  method CronApply(job: Job, present: bool, noop: bool, crontab: Option<string>) returns (outcome: Outcome, after: string)
    ensures (outcome, after) == Applied(job, present, noop, if crontab.Some? then crontab.value else "")
  {
    var text := if crontab.Some? then crontab.value else "";
    if present && job.command == "" {
      return Failed, text;
    }
    var found, start, end := FindCronEntry(text, job.name);
    if !present {
      if !found {
        return Success, text;
      }
      if noop {
        return Skipped, text;
      }
      return Changed, text[..start] + text[end..];
    }
    var entry := Entry(job);
    if found {
      var existing := ExtractLine(text, start, end);
      if existing.Some? && existing.value == Body(job) {
        return Success, text;
      }
      if noop {
        return Skipped, text;
      }
      return Changed, text[..start] + entry + text[end..];
    }
    if noop {
      return Skipped, text;
    }
    if |text| > 0 && text[|text| - 1] != '\n' {
      return Changed, text + "\n" + entry;
    }
    return Changed, text + entry;
  }

  // ----- laws -----

  /** No field holds a newline, and there is a command. */
  predicate WellFormed(job: Job) {
    && OneLine(job.name) && OneLine(CronLine(job)) && OneLine(job.environment) && job.command != ""
  }

  lemma EntryParts(job: Job)
    requires WellFormed(job)
    ensures OneLine(Marker(job.name))
    ensures Entry(job) == Marker(job.name) + ("\n" + (Body(job) + "\n"))
  {
    assert forall c :: c in Marker(job.name) ==> c in CRON_MARKER || c in job.name;
  }

  /** Markers before a line start depend only on the text up to it. */
  lemma MarkersBefore(a: string, b: string, name: string, start: nat, k: nat)
    requires OneLine(name) && k < start <= |a| && start <= |b| && a[..start] == b[..start] && LineStart(a, start)
    ensures MarkerAt(a, name, k) <==> MarkerAt(b, name, k)
  {
    var m := Marker(name);
    assert OneLine(m);
    if OccursAt(a, m, k) {
      MarkerBelowLineStart(a, m, start, k);
      SliceOfSlice(a, 0, start, k, k + |m|);
      SliceOfSlice(b, 0, start, k, k + |m|);
    }
    if OccursAt(b, m, k) {
      assert b[start - 1] == b[..start][start - 1] == a[start - 1];
      MarkerBelowLineStart(b, m, start, k);
      SliceOfSlice(a, 0, start, k, k + |m|);
      SliceOfSlice(b, 0, start, k, k + |m|);
    }
    assert forall i :: 0 <= i < start ==> a[i] == a[..start][i] == b[..start][i] == b[i];
  }

  lemma NoNewlineInside(text: string, m: string, k: nat)
    requires OneLine(m) && OccursAt(text, m, k)
    ensures forall i :: k <= i < k + |m| ==> text[i] != '\n'
  {
    forall i | k <= i < k + |m|
      ensures text[i] != '\n'
    {
      assert text[i] == text[k..k + |m|][i - k] == m[i - k];
    }
  }

  lemma MarkerBelowLineStart(text: string, m: string, start: nat, k: nat)
    requires OneLine(m) && OccursAt(text, m, k) && k < start <= |text| && text[start - 1] == '\n'
    ensures k + |m| < start
  {
    NoNewlineInside(text, m, k);
  }

  /** A new entry put at a line start is the one found, when none stands before it. */
  lemma EntryIsFound(job: Job, before: string, after: string)
    requires WellFormed(job) && LineStart(before, |before|)
    requires forall k :: 0 <= k < |before| ==> !MarkerAt(before + Entry(job) + after, job.name, k)
    ensures Find(before + Entry(job) + after, job.name) == Some(|before|)
  {
    var text, m := before + Entry(job) + after, Marker(job.name);
    EntryParts(job);
    assert text == before + m + ("\n" + (Body(job) + "\n") + after);
    assert text[|before|..|before| + |m|] == m;
    assert text[|before| + |m|] == '\n';
    FindIs(text, job.name, |before|);
  }

  /** Two lines in a text, as the finder and the extractor see them. */
  lemma TwoLines(text: string, start: nat, line: nat, end: nat)
    requires start < line < end <= |text|
    requires OneLine(text[start..line - 1]) && text[line - 1] == '\n'
    requires OneLine(text[line..end - 1]) && text[end - 1] == '\n'
    ensures EntryEnd(text, start) == end && ExtractLine(text, start, end) == Some(text[line..end - 1])
  {
    NextLineIs(text, start, line - 1);
    NextLineIs(text, line, end - 1);
    assert text[start..line][line - 1 - start] == '\n';
  }

  lemma TwoLinesBetween(before: string, first: string, second: string, rest: string)
    requires OneLine(first) && OneLine(second)
    ensures var text, start := before + (first + "\n" + second + "\n") + rest, |before|;
            var end := start + |first| + 1 + |second| + 1;
            && EntryEnd(text, start) == end && ExtractLine(text, start, end) == Some(second)
            && text[..start] == before && text[end..] == rest
  {
    hide EntryEnd, ExtractLine, OneLine;
    var entry := first + "\n" + second + "\n";
    var text := before + entry + rest;
    var start, line, end := |before|, |before| + |first| + 1, |before| + |entry|;
    assert text[start..end] == entry;
    assert forall i :: start <= i < end ==> text[i] == text[start..end][i - start];
    assert text[start..line - 1] == entry[..|first|] == first;
    assert text[line - 1] == entry[|first|];
    assert text[line..end - 1] == entry[|first| + 1..|entry| - 1] == second;
    assert text[end - 1] == entry[|entry| - 1];
    TwoLines(text, start, line, end);
  }

  function SecondLine(job: Job): string {
    if job.environment != "" then job.environment else CronLine(job)
  }

  /** What the finder leaves out of an entry. */
  function Leftover(job: Job): string {
    if job.environment != "" then CronLine(job) + "\n" else ""
  }

  lemma SecondIsOneLine(job: Job)
    requires WellFormed(job)
    ensures OneLine(SecondLine(job))
  {
  }

  lemma EntryInTwo(job: Job, before: string, after: string)
    ensures before + Entry(job) + after ==
            before + (Marker(job.name) + "\n" + SecondLine(job) + "\n") + (Leftover(job) + after)
  {
    hide Marker, CronLine;
    assert Entry(job) == Marker(job.name) + "\n" + SecondLine(job) + "\n" + Leftover(job);
  }

  /** The two lines the finder spans: the whole entry exactly when there is no environment. */
  lemma EntrySpan(job: Job, before: string, after: string)
    requires WellFormed(job)
    ensures var text, start := before + Entry(job) + after, |before|;
            var end := EntryEnd(text, start);
            && ExtractLine(text, start, end) == Some(SecondLine(job))
            && text[..start] == before && text[end..] == Leftover(job) + after
  {
    hide WellFormed, CronLine, ExtractLine, SecondLine, Leftover, Entry, EntryEnd, Marker, OneLine, Body;
    EntryParts(job);
    EntryInTwo(job, before, after);
    SecondIsOneLine(job);
    TwoLinesBetween(before, Marker(job.name), SecondLine(job), Leftover(job) + after);
  }

  /** Where a replaced entry stands. */
  lemma ReplacedIsFound(job: Job, text: string)
    requires WellFormed(job) && Find(text, job.name).Some?
    ensures var start := Find(text, job.name).value;
            Find(text[..start] + Entry(job) + text[EntryEnd(text, start)..], job.name) == Some(start)
  {
    var start := Find(text, job.name).value;
    var before, after := text[..start], text[EntryEnd(text, start)..];
    var r := before + Entry(job) + after;
    forall k | 0 <= k < start
      ensures !MarkerAt(r, job.name, k)
    {
      assert r[..start] == before;
      MarkersBefore(text, r, job.name, start, k);
    }
    assert start > 0 ==> before[start - 1] == text[start - 1];
    EntryIsFound(job, before, after);
  }

  lemma AppendedIsFound(job: Job, text: string)
    requires WellFormed(job) && Find(text, job.name).None?
    ensures Find(WithFinalNewline(text) + Entry(job), job.name) == Some(|WithFinalNewline(text)|)
    ensures Find(WithFinalNewline(text), job.name) == None
  {
    var before := WithFinalNewline(text);
    var r := before + Entry(job);
    assert r == before + Entry(job) + "";
    forall k | 0 <= k < |before|
      ensures !MarkerAt(r, job.name, k) && !MarkerAt(before, job.name, k)
    {
      assert r[..|before|] == before[..|before|];
      MarkersBefore(before, r, job.name, |before|, k);
      MarkerWithNewline(text, job.name, k);
    }
    EntryIsFound(job, before, "");
    EmptyMarkerAtEnd(before, job.name);
  }

  lemma EmptyMarkerAtEnd(text: string, name: string)
    requires forall k :: 0 <= k < |text| ==> !MarkerAt(text, name, k)
    ensures Find(text, name) == None
  {
  }

  /** A final newline makes no marker. */
  lemma MarkerWithNewline(text: string, name: string, k: nat)
    requires OneLine(name) && !MarkerAt(text, name, k)
    ensures !MarkerAt(WithFinalNewline(text), name, k)
  {
    var r, m := WithFinalNewline(text), Marker(name);
    assert OneLine(m);
    if r != text && OccursAt(r, m, k) {
      NoNewlineInside(r, m, k);
      assert r[|text|] == '\n';
      assert r[k..k + |m|] == text[k..k + |m|];
    }
  }

  /** Applying "present" a second time changes nothing, exactly when the job has no environment. */
  lemma PresentTwice(job: Job, text: string)
    requires WellFormed(job)
    ensures var once := Applied(job, true, false, text).1;
            Applied(job, true, false, once) == (Success, once)
            <==> job.environment == "" || Applied(job, true, false, text).0 == Success
  {
    hide Find, Entry, Body, ExtractLine, EntryEnd, WithFinalNewline, SecondLine;
    var found := Find(text, job.name);
    if Applied(job, true, false, text).0 == Success {
    } else if found.Some? {
      var before, after := text[..found.value], text[EntryEnd(text, found.value)..];
      ReplacedIsFound(job, text);
      EntrySpan(job, before, after);
      BodyIsSecondLine(job);
    } else {
      var before := WithFinalNewline(text);
      AppendedIsFound(job, text);
      EntrySpan(job, before, "");
      assert before + Entry(job) + "" == before + Entry(job);
      BodyIsSecondLine(job);
    }
  }

  lemma BodyIsSecondLine(job: Job)
    requires WellFormed(job)
    ensures Body(job) == SecondLine(job) <==> job.environment == ""
  {
  }

  /** A piece of text that the finder takes for an entry of the name: its marker line and at most one line more. */
  ghost predicate IsEntry(piece: string, name: string) {
    MarkerAt(piece, name, 0) && EntryEnd(piece, 0) == |piece|
  }

  /** Whatever is applied, only one entry of the name goes or comes; every byte around it stays. */
  lemma RestIsKept(job: Job, present: bool, noop: bool, text: string)
    returns (before: string, removed: string, added: string, rest: string)
    requires OneLine(job.name)
    ensures text == before + removed + rest || (rest == "" && WithFinalNewline(text) == before + removed)
    ensures removed == "" || IsEntry(removed, job.name)
    ensures added == if present then Entry(job) else ""
    ensures var (outcome, after) := Applied(job, present, noop, text);
            after == if outcome == Changed then before + added + rest else text
  {
    hide Entry, Body, ExtractLine, EntryEnd, IsEntry, WithFinalNewline, MarkerAt;
    var (outcome, after) := Applied(job, present, noop, text);
    var found := Find(text, job.name);
    added := if present then Entry(job) else "";
    if outcome != Changed {
      before, removed, rest := text, "", "";
    } else if found.Some? {
      var start, end := found.value, EntryEnd(text, found.value);
      before, removed, rest := text[..start], text[start..end], text[end..];
      EntryAlone(text, job.name, start);
    } else {
      before, removed, rest := WithFinalNewline(text), "", "";
    }
  }

  lemma EntryAlone(text: string, name: string, start: nat)
    requires MarkerAt(text, name, start) && OneLine(name)
    ensures start <= EntryEnd(text, start) && IsEntry(text[start..EntryEnd(text, start)], name)
  {
    var m := Marker(name);
    var line, end := NextLine(text, start), EntryEnd(text, start);
    var piece := text[start..end];
    assert OneLine(m);
    assert text[start..start + |m|] == m;
    NextLineIs(text, start, start + |m|);
    assert piece[..|m|] == m;
    LineEndFacts(text, line);
    LineOfPiece(text, start, end, start, line);
    LineOfPiece(text, start, end, line, end);
  }

  /** A whole line of a text is a whole line of any piece of the text that ends no earlier. */
  lemma LineOfPiece(text: string, from: nat, to: nat, p: nat, q: nat)
    requires from <= p <= q <= to <= |text| && q == NextLine(text, p)
    requires q == to || LineEnd(text, p) < q
    ensures NextLine(text[from..to], p - from) == q - from
  {
    LineEndFacts(text, p);
    var e, piece := LineEnd(text, p), text[from..to];
    assert e <= q <= to;
    SliceOfSlice(text, from, to, p, e);
    NextLineIs(piece, p - from, e - from);
  }

  /** On a text without the entry, "present" then "absent" restores it up to a final newline, except that the line
      after an environment stays behind. */
  lemma PresentThenAbsent(job: Job, text: string)
    requires WellFormed(job) && Find(text, job.name).None?
    ensures Applied(job, true, false, text).0 == Changed
    ensures Applied(job, false, false, Applied(job, true, false, text).1) ==
            (Changed, WithFinalNewline(text) + Leftover(job))
  {
    hide Find, Entry, Body, ExtractLine, EntryEnd, WithFinalNewline, SecondLine;
    var before := WithFinalNewline(text);
    AppendedIsFound(job, text);
    EntrySpan(job, before, "");
    assert before + Entry(job) + "" == before + Entry(job);
    assert before + (Leftover(job) + "") == before + Leftover(job);
  }

  // ----- what the written line says -----

  /** The text before the first blank and the text after it. */
  function CutAtBlank(s: string): (string, string) {
    if s == "" then ("", "")
    else if s[0] == ' ' then ("", s[1..])
    else var r := CutAtBlank(s[1..]); ([s[0]] + r.0, r.1)
  }

  predicate IsWord(s: string) {
    s != "" && ' ' !in s
  }

  lemma {:induction false} CutWord(word: string, rest: string)
    requires ' ' !in word
    ensures CutAtBlank(word + " " + rest) == (word, rest)
  {
    var s := word + " " + rest;
    if word == "" {
      assert s[1..] == rest;
    } else {
      assert s[0] == word[0] && word[0] in word;
      assert s[1..] == word[1..] + " " + rest;
      CutWord(word[1..], rest);
      assert [word[0]] + word[1..] == word;
    }
  }

  datatype Schedule =
    | Times(minute: string, hour: string, monthday: string, month: string, weekday: string)
    | Named(word: string)

  /** A crontab line as five fields and a command. */
  function ReadTimes(line: string): (Schedule, string) {
    var a := CutAtBlank(line);
    var b := CutAtBlank(a.1);
    var c := CutAtBlank(b.1);
    var d := CutAtBlank(c.1);
    var e := CutAtBlank(d.1);
    (Times(a.0, b.0, c.0, d.0, e.0), e.1)
  }

  /** A crontab line as one word and a command. */
  function ReadNamed(line: string): (Schedule, string) {
    var a := CutAtBlank(line);
    (Named(a.0), a.1)
  }

  /** The field as given, or a star for a field that is not. */
  ghost predicate Says(word: string, field: Option<string>) {
    match field case None => word == ['*'] case Some(x) => word == x
  }

  predicate PlainField(field: Option<string>) {
    field.Some? ==> IsWord(field.value)
  }

  predicate PlainTimes(job: Job) {
    && PlainField(job.minute) && PlainField(job.hour) && PlainField(job.monthday) && PlainField(job.month)
    && PlainField(job.weekday)
  }

  /** The line says when the job runs, and what: minute, hour, day of the month, month, day of the week, command. */
  ghost predicate LineSays(line: string, job: Job) {
    if job.special == "" then
      var (times, command) := ReadTimes(line);
      && Says(times.minute, job.minute) && Says(times.hour, job.hour) && Says(times.monthday, job.monthday)
      && Says(times.month, job.month) && Says(times.weekday, job.weekday) && command == job.command
    else
      var (name, command) := ReadNamed(line);
      && command == job.command && name.word != "" && name.word[0] == '@'
      && name.word == if job.special[0] == '@' then job.special else ['@'] + job.special
  }

  lemma FiveFields(a: string, b: string, c: string, d: string, e: string, command: string)
    requires ' ' !in a && ' ' !in b && ' ' !in c && ' ' !in d && ' ' !in e
    ensures ReadTimes(a + " " + b + " " + c + " " + d + " " + e + " " + command) == (Times(a, b, c, d, e), command)
  {
    hide CutAtBlank;
    var r5 := command;
    var r4 := e + " " + r5;
    var r3 := d + " " + r4;
    var r2 := c + " " + r3;
    var r1 := b + " " + r2;
    Regrouped(a, b, c, d, e, command);
    CutWord(a, r1);
    CutWord(b, r2);
    CutWord(c, r3);
    CutWord(d, r4);
    CutWord(e, r5);
  }

  lemma Regrouped(a: string, b: string, c: string, d: string, e: string, command: string)
    ensures a + " " + b + " " + c + " " + d + " " + e + " " + command
         == a + " " + (b + " " + (c + " " + (d + " " + (e + " " + command))))
  {
    var four := a + " " + b + " " + c + " " + d + " ";
    assert four + e + " " + command == four + (e + " " + command);
    var three, last := a + " " + b + " " + c + " ", e + " " + command;
    assert three + d + " " + last == three + (d + " " + last);
    var two, late := a + " " + b + " ", d + " " + last;
    assert two + c + " " + late == two + (c + " " + late);
    assert a + " " + b + " " + (c + " " + late) == a + " " + (b + " " + (c + " " + late));
  }

  lemma NamedSpec(job: Job)
    requires job.special != "" && ' ' !in job.special
    ensures var spec := TimeSpec(job);
            && ' ' !in spec && spec != "" && spec[0] == '@'
            && spec == if job.special[0] == '@' then job.special else ['@'] + job.special
  {
  }

  /** Reading the written line gives the fields of the job back, each in its place. */
  lemma LineReadsBack(job: Job)
    requires if job.special == "" then PlainTimes(job) else ' ' !in job.special
    ensures LineSays(CronLine(job), job)
  {
    hide CutAtBlank;
    if job.special == "" {
      FiveFields(OrStar(job.minute), OrStar(job.hour), OrStar(job.monthday), OrStar(job.month), OrStar(job.weekday), job.command);
    } else {
      NamedSpec(job);
      CutWord(TimeSpec(job), job.command);
      assert ReadNamed(CronLine(job)) == (Named(TimeSpec(job)), job.command);
    }
  }

  /** After "present" the marker line stands where the finder finds it, and below it the job as it is meant. */
  lemma WhatIsLeft(job: Job, text: string) returns (before: string, line: string, rest: string)
    requires WellFormed(job) && if job.special == "" then PlainTimes(job) else ' ' !in job.special
    ensures var after := Applied(job, true, false, text).1;
            && after == before + "# Puppet Name: " + job.name + "\n" + (if job.environment == "" then "" else job.environment + "\n")
                        + line + rest
            && Find(after, job.name) == Some(|before|)
    ensures rest == "" || rest[0] == '\n'
    ensures LineSays(line, job)
  {
    hide Find, ExtractLine, EntryEnd, WithFinalNewline, LineSays, CronLine;
    var after := Applied(job, true, false, text).1;
    var found := Find(text, job.name);
    line := CronLine(job);
    LineReadsBack(job);
    if found.Some? && Applied(job, true, false, text).0 == Success {
      before, rest := StandingEntry(job, text);
    } else if found.Some? {
      before, rest := text[..found.value], "\n" + text[EntryEnd(text, found.value)..];
      ReplacedIsFound(job, text);
      EntrySpelled(job, before, text[EntryEnd(text, found.value)..]);
    } else {
      before, rest := WithFinalNewline(text), "\n";
      AppendedIsFound(job, text);
      EntrySpelled(job, before, "");
      assert before + Entry(job) + "" == before + Entry(job);
    }
  }

  /** What stands between the marker and the cron line. */
  function EnvironmentLine(job: Job): string {
    if job.environment == "" then "" else job.environment + "\n"
  }

  lemma EntrySpelled(job: Job, before: string, after: string)
    ensures before + Entry(job) + after
         == before + "# Puppet Name: " + job.name + "\n" + EnvironmentLine(job) + CronLine(job) + ("\n" + after)
  {
    hide CronLine;
    var m, e, l := "# Puppet Name: " + job.name, EnvironmentLine(job), CronLine(job);
    assert Body(job) == e + l;
    assert Entry(job) == m + "\n" + (e + l) + "\n";
    assert before + (m + "\n" + (e + l) + "\n") + after == before + m + "\n" + e + l + ("\n" + after);
    assert before + m == before + "# Puppet Name: " + job.name;
  }

  lemma MarkerLine(text: string, name: string, start: nat)
    requires OneLine(name) && MarkerAt(text, name, start) && NextLine(text, start) < |text|
    ensures text[start..NextLine(text, start)] == Marker(name) + "\n"
  {
    var m := Marker(name);
    assert OneLine(m);
    assert text[start..start + |m|] == m;
    NextLineIs(text, start, start + |m|);
  }

  lemma StandingParts(before: string, m: string, body: string, rest: string)
    ensures before + (m + "\n") + body + rest == before + m + "\n" + body + rest
  {
  }

  lemma FourSlices(text: string, a: nat, b: nat, c: nat)
    requires a <= b <= c <= |text|
    ensures text == text[..a] + text[a..b] + text[b..c] + text[c..]
  {
  }

  /** The entry that is there already reads the same. */
  lemma StandingEntry(job: Job, text: string) returns (before: string, rest: string)
    requires WellFormed(job) && Find(text, job.name).Some? && Applied(job, true, false, text).0 == Success
    ensures text == before + "# Puppet Name: " + job.name + "\n" + EnvironmentLine(job) + CronLine(job) + rest
    ensures |before| == Find(text, job.name).value && (rest == "" || rest[0] == '\n')
  {
    hide CronLine, EntryEnd;
    var start := Find(text, job.name).value;
    var line, end := NextLine(text, start), EntryEnd(text, start);
    var m := Marker(job.name);
    BodyNotEmpty(job);
    EndsAtLine(text, start);
    var stop := if end > line && text[end - 1] == '\n' then end - 1 else end;
    assert line < end && text[line..stop] == Body(job);
    MarkerLine(text, job.name, start);
    before, rest := text[..start], text[stop..];
    FourSlices(text, start, line, stop);
    StandingParts(before, m, Body(job), rest);
    SpelledBody(before, job, rest);
  }

  lemma BodyNotEmpty(job: Job)
    ensures Body(job) != ""
  {
  }

  lemma SpelledBody(before: string, job: Job, rest: string)
    ensures before + Marker(job.name) + "\n" + Body(job) + rest
         == before + "# Puppet Name: " + job.name + "\n" + EnvironmentLine(job) + CronLine(job) + rest
  {
    hide CronLine;
    assert Body(job) == EnvironmentLine(job) + CronLine(job);
    assert before + Marker(job.name) == before + "# Puppet Name: " + job.name;
    var head := before + "# Puppet Name: " + job.name + "\n";
    assert head + (EnvironmentLine(job) + CronLine(job)) == head + EnvironmentLine(job) + CronLine(job);
  }

  /**
   * The job already stands in the text: its first marker line, and below it nothing but the cron line, which is the last
   * line of the text or ends there.
   */
  ghost predicate Stands(job: Job, text: string, before: string, rest: string) {
    && text == before + "# Puppet Name: " + job.name + "\n" + CronLine(job) + rest
    && Find(text, job.name) == Some(|before|) && job.environment == "" && (rest == "" || rest[0] == '\n')
  }

  /** "Present" has nothing to do exactly when the job stands in the text already. */
  lemma PresentIsSuccessExactly(job: Job, text: string)
    requires WellFormed(job)
    ensures Applied(job, true, false, text) == (Success, text) <==> exists before, rest :: Stands(job, text, before, rest)
  {
    hide Find, CronLine;
    if Applied(job, true, false, text) == (Success, text) && Find(text, job.name).Some? {
      var before, rest := StandingEntry(job, text);
      SuccessIsOneLine(job, text);
      Stood(job, text, before, rest);
    }
    if before, rest :| Stands(job, text, before, rest) {
      EntryParts(job);
      BodyNotEmpty(job);
      assert Body(job) == CronLine(job);
      StandingSpelled(before, job, rest);
      StandingSpan(before, Marker(job.name), CronLine(job), rest);
    }
  }

  lemma Stood(job: Job, text: string, before: string, rest: string)
    requires text == before + "# Puppet Name: " + job.name + "\n" + EnvironmentLine(job) + CronLine(job) + rest
    requires Find(text, job.name) == Some(|before|) && job.environment == "" && (rest == "" || rest[0] == '\n')
    ensures Stands(job, text, before, rest)
  {
    var head := before + "# Puppet Name: " + job.name + "\n";
    assert head + "" == head;
  }

  lemma StandingSpelled(before: string, job: Job, rest: string)
    ensures before + Marker(job.name) + "\n" + CronLine(job) + rest
         == before + "# Puppet Name: " + job.name + "\n" + CronLine(job) + rest
  {
    hide CronLine;
    assert before + Marker(job.name) == before + "# Puppet Name: " + job.name;
  }

  /** The finder spans two lines, so that an entry with an environment never reads as it should. */
  lemma SuccessIsOneLine(job: Job, text: string)
    requires WellFormed(job) && Find(text, job.name).Some? && Applied(job, true, false, text).0 == Success
    ensures job.environment == ""
  {
    hide CronLine, Find;
    var start := Find(text, job.name).value;
    var line, end := NextLine(text, start), EntryEnd(text, start);
    LineEndFacts(text, line);
    var e := LineEnd(text, line);
    BodyNotEmpty(job);
    var stop := if end > line && text[end - 1] == '\n' then end - 1 else end;
    assert text[line..stop] == Body(job);
    assert stop == e;
    if job.environment != "" {
      EnvironmentBreaksLine(job);
    }
  }

  lemma EnvironmentBreaksLine(job: Job)
    requires job.environment != ""
    ensures !OneLine(Body(job))
  {
    hide CronLine;
    assert Body(job)[|job.environment|] == '\n';
  }

  lemma StandingSpan(before: string, marker: string, line: string, rest: string)
    requires OneLine(marker) && OneLine(line) && line != "" && (rest == "" || rest[0] == '\n')
    ensures var text, start := before + marker + "\n" + line + rest, |before|;
            && start <= EntryEnd(text, start) <= |text| && ExtractLine(text, start, EntryEnd(text, start)) == Some(line)
  {
    var text, start := before + marker + "\n" + line + rest, |before|;
    var second := start + |marker| + 1;
    var last := second + |line|;
    StandingSlices(before, marker, line, rest);
    NextLineIs(text, start, start + |marker|);
    NextLineIs(text, second, last);
    assert text[start..second][|marker|] == '\n';
    if last == |text| {
      assert text[last - 1] == text[second..last][|line| - 1];
    }
  }

  lemma StandingSlices(before: string, marker: string, line: string, rest: string)
    ensures var text, start := before + marker + "\n" + line + rest, |before|;
            var second := start + |marker| + 1;
            && text[start..start + |marker|] == marker && text[start + |marker|] == '\n'
            && second + |line| <= |text| && text[second..second + |line|] == line
            && (rest == "" ==> second + |line| == |text|)
            && (rest != "" ==> second + |line| < |text| && text[second + |line|] == rest[0])
  {
  }

  lemma EndsAtLine(text: string, start: nat)
    requires start <= |text|
    ensures var end := EntryEnd(text, start);
            end == |text| || (end > 0 && text[end - 1] == '\n')
  {
    LineEndFacts(text, NextLine(text, start));
    LineEndFacts(text, start);
  }

  /** A dry run reports what a real one would change and changes nothing; without a command there is nothing to write. */
  lemma DryRun(job: Job, present: bool, text: string)
    ensures var wet := Applied(job, present, false, text);
            && Applied(job, present, true, text) == (if wet.0 == Changed then Skipped else wet.0, text)
            && (wet.0 == Failed <==> present && job.command == "") && (wet.0 != Changed ==> wet.1 == text)
            && (!present ==> (wet.0 == Success <==> Find(text, job.name).None?))
            && wet.0 != Skipped
  {
    hide Find, ExtractLine, EntryEnd, Entry, Body;
  }

  /** The text with the marker line of the name between these two pieces. */
  ghost predicate MarkerBetween(text: string, name: string, before: string, after: string) {
    && text == before + "# Puppet Name: " + name + after
    && (before == "" || before[|before| - 1] == '\n') && (after == "" || after[0] == '\n')
  }

  /** A marker is a line of its own. */
  lemma MarkerExactly(text: string, name: string, p: nat)
    ensures MarkerAt(text, name, p) <==> exists before, after :: MarkerBetween(text, name, before, after) && |before| == p
  {
    var m := Marker(name);
    if MarkerAt(text, name, p) {
      var before, after := text[..p], text[p + |m|..];
      assert text == before + m + after;
      MarkerSpelled(before, name, after);
      assert MarkerBetween(text, name, before, after);
    }
    if before, after :| MarkerBetween(text, name, before, after) && |before| == p {
      MarkerSpelled(before, name, after);
      MarkerInside(before, m, after);
    }
  }

  lemma MarkerSpelled(before: string, name: string, after: string)
    ensures before + Marker(name) + after == before + "# Puppet Name: " + name + after
  {
    assert before + Marker(name) == before + "# Puppet Name: " + name;
  }

  lemma MarkerInside(before: string, m: string, after: string)
    ensures var text := before + m + after;
            && OccursAt(text, m, |before|) && (|before| > 0 ==> text[|before| - 1] == before[|before| - 1])
            && (after != "" ==> |before| + |m| < |text| && text[|before| + |m|] == after[0])
            && (after == "" ==> |before| + |m| == |text|)
  {
  }
}
