/** The texts of RFC 8259 as syntax trees, and what the parser makes of every one of them. */
module JsonSyntax {
  import opened Common
  import opened JsonValue
  import opened JsonGrammar

  // ----- the texts -----

  /** A character of a string: as itself, by a two-character escape, or by four hexadecimal digits (section 7). */
  datatype Piece = Plain(c: char) | Short(c: char) | Unicode(hex: string)

  /** Section 6 also forbids leading zeros, which the parser does not mind. */
  datatype Numeral = Numeral(minus: bool, whole: string, fraction: Option<string>, exponent: Option<Exponent>)
  datatype Exponent = Exponent(mark: char, sign: string, digits: string)

  /** Blanks may stand before and after each value, key and bracket (section 2). */
  datatype Syntax =
    | NullText
    | BoolText(b: bool)
    | NumberText(n: Numeral)
    | StringText(pieces: seq<Piece>)
    | ArrayText(items: seq<Item>, space: string)
    | ObjectText(pairs: seq<Pair>, space: string)

  datatype Item = Item(before: string, value: Syntax, after: string)
  datatype Pair = Pair(before: string, key: seq<Piece>, after: string, item: Item)

  /** Space, horizontal tab, line feed and carriage return. */
  ghost predicate AllBlank(s: string) {
    forall i :: 0 <= i < |s| ==> s[i] == ' ' || s[i] == '\t' || s[i] == '\n' || s[i] == '\r'
  }

  /** What the eight short escapes stand for. */
  function Stands(c: char): Option<char> {
    match c
    case '"' => Some('"')
    case '\\' => Some('\\')
    case '/' => Some('/')
    case 'b' => Some('\U{8}')
    case 'f' => Some('\U{C}')
    case 'n' => Some('\n')
    case 'r' => Some('\r')
    case 't' => Some('\t')
    case _ => None
  }

  predicate LegalPiece(p: Piece) {
    match p
    case Plain(c) => c as int >= 0x20 && c != '"' && c != '\\'
    case Short(c) => Stands(c).Some?
    case Unicode(hex) => |hex| == 4 && forall i :: 0 <= i < 4 ==> '0' <= hex[i] <= '9' || 'a' <= hex[i] <= 'f' || 'A' <= hex[i] <= 'F'
  }

  /** The character of a piece; a \u escape reads as NUL. */
  function PieceChar(p: Piece): char {
    match p
    case Plain(c) => c
    case Short(c) => (match Stands(c) case None => c case Some(x) => x)
    case Unicode(_) => NUL
  }

  predicate LegalString(ps: seq<Piece>) {
    forall i :: 0 <= i < |ps| ==> LegalPiece(ps[i])
  }

  predicate LegalNumeral(n: Numeral) {
    && AllDigits(n.whole)
    && (n.fraction.Some? ==> AllDigits(n.fraction.value))
    && (n.exponent.Some? ==> LegalExponent(n.exponent.value))
  }

  predicate LegalExponent(e: Exponent) {
    (e.mark == 'e' || e.mark == 'E') && (e.sign == "" || e.sign == "+" || e.sign == "-") && AllDigits(e.digits)
  }

  ghost predicate Legal(x: Syntax)
    decreases x, 0
  {
    match x
    case NumberText(n) => LegalNumeral(n)
    case StringText(ps) => LegalString(ps)
    case ArrayText(items, space) => AllBlank(space) && forall i :: 0 <= i < |items| ==> LegalItem(items[i])
    case ObjectText(pairs, space) => AllBlank(space) && forall i :: 0 <= i < |pairs| ==> LegalPair(pairs[i])
    case _ => true
  }

  ghost predicate LegalItem(i: Item)
    decreases i, 1
  {
    AllBlank(i.before) && Legal(i.value) && AllBlank(i.after)
  }

  ghost predicate LegalPair(p: Pair)
    decreases p, 2
  {
    AllBlank(p.before) && LegalString(p.key) && AllBlank(p.after) && LegalItem(p.item)
  }

  function PieceText(p: Piece): string {
    match p case Plain(c) => [c] case Short(c) => ['\\', c] case Unicode(hex) => ['\\', 'u'] + hex
  }

  /** The characters of a string and what follows them. */
  function SpellPieces(ps: seq<Piece>, tail: string): string {
    if ps == [] then tail else PieceText(ps[0]) + SpellPieces(ps[1..], tail)
  }

  function SpellString(ps: seq<Piece>, tail: string): string {
    ['"'] + SpellPieces(ps, ['"'] + tail)
  }

  function FractionText(f: Option<string>): string {
    match f case None => "" case Some(digits) => ['.'] + digits
  }

  function ExponentText(e: Option<Exponent>): string {
    match e case None => "" case Some(x) => [x.mark] + (x.sign + x.digits)
  }

  function Lexeme(n: Numeral): string {
    (if n.minus then "-" else "") + n.whole + FractionText(n.fraction) + ExponentText(n.exponent)
  }

  /** The text of a value, with what follows it. */
  function Spell(x: Syntax, tail: string): string
    decreases x, 0
  {
    match x
    case NullText => "null" + tail
    case BoolText(b) => (if b then "true" else "false") + tail
    case NumberText(n) => Lexeme(n) + tail
    case StringText(ps) => SpellString(ps, tail)
    case ArrayText(items, space) => ['['] + SpellItems(items, space + ([']'] + tail))
    case ObjectText(pairs, space) => ['{'] + SpellPairs(pairs, space + (['}'] + tail))
  }

  function SpellItems(items: seq<Item>, close: string): string
    decreases items, 1
  {
    if items == [] then close else SpellItem(items[0], MoreItems(items[1..], close))
  }

  function MoreItems(items: seq<Item>, close: string): string
    decreases items, 2
  {
    if items == [] then close else [','] + SpellItems(items, close)
  }

  function SpellItem(i: Item, tail: string): string
    decreases i, 1
  {
    i.before + Spell(i.value, i.after + tail)
  }

  function SpellPairs(pairs: seq<Pair>, close: string): string
    decreases pairs, 1
  {
    if pairs == [] then close
    else pairs[0].before + SpellString(pairs[0].key, AfterKey(pairs[0], MorePairs(pairs[1..], close)))
  }

  function AfterKey(p: Pair, tail: string): string
    decreases p, 2
  {
    p.after + ([':'] + SpellItem(p.item, tail))
  }

  function MorePairs(pairs: seq<Pair>, close: string): string
    decreases pairs, 2
  {
    if pairs == [] then close else [','] + SpellPairs(pairs, close)
  }

  // ----- what the parser makes of them -----

  /** The characters of a string before its first \u escape. */
  function Reads(ps: seq<Piece>): string {
    if ps == [] || ps[0].Unicode? then "" else [PieceChar(ps[0])] + Reads(ps[1..])
  }

  function NumeralMeaning(n: Numeral): Json
    requires LegalNumeral(n)
  {
    if n.fraction.Some? || n.exponent.Some? then Double(Lexeme(n))
    else Int(if n.minus then 0 - NatValue(n.whole) else NatValue(n.whole))
  }

  /** The value of a text: strings and keys end before a \u escape, and of equal keys the last value counts. */
  ghost function Meaning(x: Syntax): Json
    requires Legal(x)
    decreases x, 0
  {
    match x
    case NullText => Null
    case BoolText(b) => Bool(b)
    case NumberText(n) => NumeralMeaning(n)
    case StringText(ps) => Str(Reads(ps))
    case ArrayText(items, _) => Arr(ItemsMeaning(items))
    case ObjectText(pairs, _) => Obj(PairsMeaning(pairs, []))
  }

  ghost function ItemsMeaning(items: seq<Item>): (r: seq<Json>)
    requires forall i :: 0 <= i < |items| ==> LegalItem(items[i])
    decreases items, 1
  {
    if items == [] then []
    else
      assert LegalItem(items[0]);
      [Meaning(items[0].value)] + ItemsMeaning(items[1..])
  }

  ghost function PairsMeaning(pairs: seq<Pair>, acc: seq<Member>): seq<Member>
    requires forall i :: 0 <= i < |pairs| ==> LegalPair(pairs[i])
    decreases pairs, 1
  {
    if pairs == [] then acc
    else
      assert LegalPair(pairs[0]) && LegalItem(pairs[0].item);
      PairsMeaning(pairs[1..], SetMember(acc, Reads(pairs[0].key), Meaning(pairs[0].item.value)))
  }

  /** How deep brackets nest in a text. */
  ghost function Levels(x: Syntax): nat
    decreases x, 0
  {
    match x
    case ArrayText(items, _) => 1 + ItemsLevels(items)
    case ObjectText(pairs, _) => 1 + PairsLevels(pairs)
    case _ => 0
  }

  ghost function ItemsLevels(items: seq<Item>): nat
    decreases items, 1
  {
    if items == [] then 0 else Max(Levels(items[0].value), ItemsLevels(items[1..]))
  }

  ghost function PairsLevels(pairs: seq<Pair>): nat
    decreases pairs, 1
  {
    if pairs == [] then 0 else Max(Levels(pairs[0].item.value), PairsLevels(pairs[1..]))
  }

  /** A string is read whole exactly when none of its characters is a \u escape. */
  lemma {:induction false} ReadWhole(ps: seq<Piece>)
    ensures |Reads(ps)| <= |ps|
    ensures |Reads(ps)| == |ps| <==> forall i :: 0 <= i < |ps| ==> !ps[i].Unicode?
  {
    if ps != [] {
      ReadWhole(ps[1..]);
      assert forall i :: 0 < i < |ps| ==> ps[i] == ps[1..][i - 1];
    }
  }

  // ----- strings -----

  /** Every \u escape reads as NUL, because its hexadecimal characters are taken from the u on. */
  lemma UnicodeEscapeIsNul(hex: string)
    requires hex != "" && hex[0] == 'u'
    ensures Utf8(LeadingHex(hex)) == [NUL]
  {
  }

  /** What the string reader collects. */
  function Collected(ps: seq<Piece>): string {
    if ps == [] then "" else [PieceChar(ps[0])] + Collected(ps[1..])
  }

  lemma PieceReads(p: Piece, more: string)
    requires LegalPiece(p)
    ensures StringBody(PieceText(p) + more) == Prefixed(Collected([p]), StringBody(more))
  {
    var text := PieceText(p) + more;
    assert Collected([p]) == [PieceChar(p)];
    match p
    case Plain(c) =>
      assert text[1..] == more;
    case Short(c) =>
      assert text[1] == c && text[2..] == more;
    case Unicode(hex) =>
      assert text[1] == 'u' && text[6..] == more && |text| - 1 > 4;
      UnicodeEscapeIsNul(text[1..5]);
  }

  lemma ClosingQuote(tail: string)
    ensures StringBody(['"'] + tail) == Some(("", tail))
  {
    assert (['"'] + tail)[1..] == tail;
  }

  lemma CollectedStep(ps: seq<Piece>)
    requires ps != []
    ensures Collected(ps) == Collected([ps[0]]) + Collected(ps[1..])
  {
    assert [ps[0]][1..] == [];
  }

  lemma {:induction false} PiecesRead(ps: seq<Piece>, tail: string)
    requires LegalString(ps)
    ensures StringBody(SpellPieces(ps, ['"'] + tail)) == Some((Collected(ps), tail))
  {
    if ps == [] {
      ClosingQuote(tail);
    } else {
      hide StringBody, LegalPiece, PieceText, Collected;
      PiecesRead(ps[1..], tail);
      PieceReads(ps[0], SpellPieces(ps[1..], ['"'] + tail));
      CollectedStep(ps);
    }
  }

  lemma CharIsNotNul(p: Piece)
    requires LegalPiece(p) && !p.Unicode?
    ensures Collected([p]) == Reads([p]) && |Reads([p])| == 1 && Reads([p])[0] != NUL
  {
  }

  lemma {:induction false} CollectedIsRead(ps: seq<Piece>)
    requires LegalString(ps)
    ensures CString(Collected(ps)) == Reads(ps)
  {
    if ps != [] && !ps[0].Unicode? {
      hide LegalPiece, PieceChar;
      CollectedIsRead(ps[1..]);
      CharIsNotNul(ps[0]);
      assert Collected(ps)[0] == Reads(ps)[0] == Reads([ps[0]])[0];
      assert Collected(ps)[1..] == Collected(ps[1..]);
    }
  }

  lemma StringTokenReads(ps: seq<Piece>, tail: string)
    requires LegalString(ps)
    ensures NextToken(SpellString(ps, tail)) == Good(StringToken(Reads(ps)), tail)
  {
    hide StringBody, CString, SpellPieces, Collected, Reads, NumberEnd;
    var text := SpellString(ps, tail);
    PiecesRead(ps, tail);
    CollectedIsRead(ps);
    assert text[1..] == SpellPieces(ps, ['"'] + tail);
    assert SkipBlanks(text) == text;
  }

  // ----- numbers -----

  /** What may follow a number: nothing that would continue its token. */
  predicate EndsNumber(tail: string) {
    tail == "" || (!Digit(tail[0]) && tail[0] != '.' && tail[0] != 'e' && tail[0] != 'E')
  }

  lemma {:induction false} DigitRunOf(digits: string, tail: string)
    requires forall i :: 0 <= i < |digits| ==> Digit(digits[i])
    requires tail == "" || !Digit(tail[0])
    ensures DigitRun(digits + tail) == |digits|
  {
    if digits == "" {
      assert digits + tail == tail;
    } else {
      DigitRunOf(digits[1..], tail);
      assert (digits + tail)[1..] == digits[1..] + tail;
    }
  }

  lemma IntegerPartOf(minus: bool, whole: string, rest: string)
    requires AllDigits(whole) && (rest == "" || !Digit(rest[0]))
    ensures var sign := if minus then "-" else "";
            IntegerPart(sign + (whole + rest)) == |sign| + |whole|
  {
    hide DigitRun;
    var sign := if minus then "-" else "";
    var s := sign + (whole + rest);
    DigitRunOf(whole, rest);
    assert Digit(whole[0]);
    assert s[|sign|..] == whole + rest;
  }

  lemma PointThen(s: string, from: nat, digits: string, rest: string)
    requires from <= |s| && s[from..] == ['.'] + digits + rest
    ensures from < |s| && s[from] == '.' && s[from + 1..] == digits + rest
  {
    assert s[from] == s[from..][0];
    assert s[from + 1..] == s[from..][1..] == digits + rest;
  }

  lemma FractionEndOf(s: string, from: nat, f: Option<string>, rest: string)
    requires from <= |s| && s[from..] == FractionText(f) + rest
    requires (f.Some? ==> AllDigits(f.value)) && (rest == "" || (!Digit(rest[0]) && rest[0] != '.'))
    ensures FractionEnd(s, from) == from + |FractionText(f)|
  {
    hide DigitRun;
    match f
    case None =>
      assert s[from..] == rest;
      assert from < |s| ==> s[from] == rest[0];
    case Some(digits) =>
      PointThen(s, from, digits, rest);
      DigitRunOf(digits, rest);
  }

  lemma ExponentEndOf(s: string, from: nat, e: Option<Exponent>, tail: string)
    requires from <= |s| && s[from..] == ExponentText(e) + tail
    requires (e.Some? ==> LegalExponent(e.value)) && EndsNumber(tail)
    ensures ExponentEnd(s, from) == from + |ExponentText(e)|
  {
    hide DigitRun, AllDigits;
    match e
    case None =>
      assert s[from..] == tail;
      assert from < |s| ==> s[from] == tail[0];
    case Some(x) =>
      ExponentParts(s, from, x, tail);
      DigitsRun(x.digits, tail);
  }

  lemma DigitsRun(digits: string, tail: string)
    requires AllDigits(digits) && EndsNumber(tail)
    ensures DigitRun(digits + tail) == |digits|
  {
    DigitRunOf(digits, tail);
  }

  lemma ExponentParts(s: string, from: nat, x: Exponent, tail: string)
    requires from <= |s| && s[from..] == [x.mark] + (x.sign + x.digits) + tail && LegalExponent(x)
    ensures from + 1 + |x.sign| < |s| && s[from] == x.mark && s[from + 1 + |x.sign|..] == x.digits + tail
    ensures x.sign == "" ==> s[from + 1] != '+' && s[from + 1] != '-'
    ensures x.sign != "" ==> s[from + 1] == x.sign[0]
  {
    var rest := s[from..];
    assert rest[1 + |x.sign|..] == x.digits + tail;
    assert s[from + 1 + |x.sign|..] == rest[1 + |x.sign|..];
    assert Digit(x.digits[0]);
    assert s[from] == rest[0] && s[from + 1] == rest[1];
    assert rest[1] == (x.sign + x.digits)[0];
  }

  /** The number reader takes the whole lexeme and nothing more. */
  lemma NumberEndOf(n: Numeral, tail: string)
    requires LegalNumeral(n) && EndsNumber(tail)
    ensures NumberEnd(Lexeme(n) + tail) == |Lexeme(n)|
  {
    hide IntegerPart, FractionEnd, ExponentEnd, FractionText, ExponentText;
    var sign := if n.minus then "-" else "";
    var f, e, s := FractionText(n.fraction), ExponentText(n.exponent), Lexeme(n) + tail;
    NumeralParts(n, tail);
    PartsEnd(n.fraction, n.exponent, tail);
    IntegerPartOf(n.minus, n.whole, f + (e + tail));
    FractionEndOf(s, |sign| + |n.whole|, n.fraction, e + tail);
    ExponentEndOf(s, |sign| + |n.whole| + |f|, n.exponent, tail);
  }

  lemma NumeralParts(n: Numeral, tail: string)
    ensures var sign := if n.minus then "-" else "";
            var f, e, s := FractionText(n.fraction), ExponentText(n.exponent), Lexeme(n) + tail;
            && s == sign + (n.whole + (f + (e + tail))) && |Lexeme(n)| == |sign| + |n.whole| + |f| + |e|
            && s[|sign| + |n.whole|..] == f + (e + tail) && s[|sign| + |n.whole| + |f|..] == e + tail
  {
    hide FractionText, ExponentText;
    FourParts(if n.minus then "-" else "", n.whole, FractionText(n.fraction), ExponentText(n.exponent), tail);
  }

  lemma FourParts(a: string, b: string, c: string, d: string, tail: string)
    ensures var s := a + b + c + d + tail;
            && s == a + (b + (c + (d + tail)))
            && s[|a| + |b|..] == c + (d + tail) && s[|a| + |b| + |c|..] == d + tail
  {
  }

  /** No part of a number continues the one before. */
  lemma PartsEnd(f: Option<string>, e: Option<Exponent>, tail: string)
    requires (e.Some? ==> LegalExponent(e.value)) && EndsNumber(tail)
    ensures var rest := ExponentText(e) + tail;
            && (rest == "" || (!Digit(rest[0]) && rest[0] != '.'))
            && (FractionText(f) + rest == "" || !Digit((FractionText(f) + rest)[0]))
  {
    hide AllDigits;
    var rest := ExponentText(e) + tail;
    assert e.None? ==> rest == tail;
    assert e.Some? ==> rest[0] == e.value.mark;
    assert f.None? ==> FractionText(f) + rest == rest;
    assert f.Some? ==> (FractionText(f) + rest)[0] == '.';
  }

  lemma NumeralValue(n: Numeral)
    requires LegalNumeral(n)
    ensures NumberValue(Lexeme(n)) == NumeralMeaning(n)
    ensures Lexeme(n) != "" && (Digit(Lexeme(n)[0]) || Lexeme(n)[0] == '-')
  {
    hide NatValue;
    var sign := if n.minus then "-" else "";
    var lexeme, at := Lexeme(n), |sign| + |n.whole|;
    assert Digit(n.whole[0]) && lexeme[|sign|] == n.whole[0];
    if n.fraction.Some? || n.exponent.Some? {
      assert |lexeme| > at && !Digit(lexeme[at]);
      assert lexeme[1..][at - 1] == lexeme[at];
    } else {
      assert lexeme == sign + n.whole;
      if n.minus {
        assert lexeme[1..] == n.whole && !Digit(lexeme[0]);
      } else {
        assert lexeme == n.whole;
      }
    }
  }

  lemma NumberTokenReads(n: Numeral, tail: string)
    requires LegalNumeral(n) && EndsNumber(tail)
    ensures NextToken(Lexeme(n) + tail) == Good(Number(NumeralMeaning(n)), tail)
  {
    hide Lexeme, NumberEnd, NumberValue, NumeralMeaning, StringBody, CString;
    var lexeme, text := Lexeme(n), Lexeme(n) + tail;
    NumberEndOf(n, tail);
    NumeralValue(n);
    assert SkipBlanks(text) == text && text[0] == lexeme[0];
    assert text[..|lexeme|] == lexeme && text[|lexeme|..] == tail;
  }

  // ----- blanks, constants and brackets -----

  lemma {:induction false} BlanksAreSkipped(blanks: string, s: string)
    requires AllBlank(blanks)
    ensures SkipBlanks(blanks + s) == SkipBlanks(s) && NextToken(blanks + s) == NextToken(s)
  {
    if blanks == "" {
      assert blanks + s == s;
    } else {
      BlanksAreSkipped(blanks[1..], s);
      assert (blanks + s)[1..] == blanks[1..] + s;
    }
  }

  lemma ValueAfterBlanks(blanks: string, s: string, depth: nat)
    requires AllBlank(blanks)
    ensures Value(blanks + s, depth) == Value(s, depth)
  {
    hide NextToken, ArrayBody, ObjectBody;
    BlanksAreSkipped(blanks, s);
  }

  lemma BlanksEndNumber(blanks: string, s: string)
    requires AllBlank(blanks) && EndsNumber(s)
    ensures EndsNumber(blanks + s)
  {
    assert blanks == "" ==> blanks + s == s;
  }

  lemma ConstantToken(x: Syntax, tail: string)
    requires x.NullText? || x.BoolText?
    ensures NextToken(Spell(x, tail)) == Good(if x.NullText? then NullWord else Boolean(x.b), tail)
  {
    hide StringBody, NumberEnd;
    var text := Spell(x, tail);
    assert SkipBlanks(text) == text;
    if x.NullText? {
      assert text[4..] == tail && "null" <= text;
    } else if x.b {
      assert text[4..] == tail && "true" <= text;
    } else {
      assert text[5..] == tail && "false" <= text;
    }
  }

  lemma PunctuationToken(c: char, token: Token, s: string)
    requires c == '{' || c == '}' || c == '[' || c == ']' || c == ':' || c == ','
    requires TokenHere([c]) == Good(token, "")
    ensures NextToken([c] + s) == Good(token, s)
  {
    hide StringBody, NumberEnd;
    assert ([c] + s)[1..] == s;
    assert SkipBlanks([c] + s) == [c] + s;
  }

  /** A text starts with a token that can start a value; a scalar is that token. */
  lemma StartsValue(x: Syntax, tail: string)
    requires Legal(x) && (x.NumberText? ==> EndsNumber(tail))
    ensures var r := NextToken(Spell(x, tail));
            r.Good? && r.token != ArrayEnd && r.token != ObjectEnd && r.token != Eof
    ensures !x.ArrayText? && !x.ObjectText? ==> forall depth :: Value(Spell(x, tail), depth) == Some((Meaning(x), tail))
  {
    hide NextToken, Reads, Lexeme, NumeralMeaning, SpellString, SpellItems, SpellPairs, LegalNumeral, LegalString;
    match x
    case NumberText(n) => NumberTokenReads(n, tail);
    case StringText(ps) => StringTokenReads(ps, tail);
    case ArrayText(items, space) => PunctuationToken('[', ArrayStart, SpellItems(items, space + ([']'] + tail)));
    case ObjectText(pairs, space) => PunctuationToken('{', ObjectStart, SpellPairs(pairs, space + (['}'] + tail)));
    case _ => ConstantToken(x, tail);
  }

  lemma ItemStarts(i: Item, tail: string)
    requires LegalItem(i) && EndsNumber(tail)
    ensures var r := NextToken(SpellItem(i, tail));
            r.Good? && r.token != ArrayEnd && r.token != ObjectEnd && r.token != Eof
    ensures EndsNumber(i.after + tail) && forall depth :: Value(SpellItem(i, tail), depth) == Value(Spell(i.value, i.after + tail), depth)
  {
    hide NextToken, Spell, EndsNumber;
    BlanksEndNumber(i.after, tail);
    BlanksAreSkipped(i.before, Spell(i.value, i.after + tail));
    StartsValue(i.value, i.after + tail);
    forall depth
      ensures Value(SpellItem(i, tail), depth) == Value(Spell(i.value, i.after + tail), depth)
    {
      ValueAfterBlanks(i.before, Spell(i.value, i.after + tail), depth);
    }
  }

  /** What closes a container. */
  lemma CloseToken(space: string, bracket: char, tail: string)
    requires AllBlank(space) && (bracket == ']' || bracket == '}')
    ensures var close := space + ([bracket] + tail);
            EndsNumber(close) && NextToken(close) == Good(if bracket == ']' then ArrayEnd else ObjectEnd, tail)
  {
    hide NextToken;
    PunctuationToken(bracket, if bracket == ']' then ArrayEnd else ObjectEnd, tail);
    BlanksEndNumber(space, [bracket] + tail);
    BlanksAreSkipped(space, [bracket] + tail);
  }

  // ----- the theorem -----

  ghost function Expected(v: Json, fits: bool, tail: string): Parsed {
    if fits then Some((v, tail)) else None
  }

  /** The parser reads every text with its meaning, and leaves what follows, exactly when the depth left suffices. */
  lemma {:induction false} TextIsRead(x: Syntax, depth: nat, tail: string)
    requires Legal(x) && depth <= MAX_DEPTH && (x.NumberText? ==> EndsNumber(tail))
    ensures Value(Spell(x, tail), depth) == Expected(Meaning(x), depth + Levels(x) <= MAX_DEPTH, tail)
    decreases x, 0
  {
    if x.ArrayText? {
      ArrayIsRead(x.items, x.space, depth, tail);
      assert x == ArrayText(x.items, x.space);
    } else if x.ObjectText? {
      ObjectIsRead(x.pairs, x.space, depth, tail);
      assert x == ObjectText(x.pairs, x.space);
    } else {
      StartsValue(x, tail);
    }
  }

  lemma ArrayOpens(body: string, depth: nat)
    ensures Value(['['] + body, depth) == if depth >= MAX_DEPTH then None else ArrayBody(body, depth + 1)
  {
    hide ArrayBody, NextToken;
    PunctuationToken('[', ArrayStart, body);
  }

  lemma {:induction false} ArrayIsRead(items: seq<Item>, space: string, depth: nat, tail: string)
    requires Legal(ArrayText(items, space)) && depth <= MAX_DEPTH
    ensures Value(Spell(ArrayText(items, space), tail), depth)
         == Expected(Arr(ItemsMeaning(items)), depth + 1 + ItemsLevels(items) <= MAX_DEPTH, tail)
    decreases items, 2
  {
    hide NextToken, Value, ArrayElements, LegalItem, Meaning;
    var close := space + ([']'] + tail);
    var body := SpellItems(items, close);
    ArrayOpens(body, depth);
    CloseToken(space, ']', tail);
    if items != [] && depth < MAX_DEPTH {
      MoreItemsToken(items[1..], close);
      ItemStarts(items[0], MoreItems(items[1..], close));
      ItemsAreRead(items, depth + 1, [], close, tail);
      assert [] + ItemsMeaning(items) == ItemsMeaning(items);
    }
  }

  lemma MoreItemsToken(items: seq<Item>, close: string)
    requires EndsNumber(close)
    ensures EndsNumber(MoreItems(items, close))
    ensures items != [] ==> NextToken(MoreItems(items, close)) == Good(Comma, SpellItems(items, close))
  {
    hide NextToken, SpellItems;
    if items != [] {
      PunctuationToken(',', Comma, SpellItems(items, close));
    }
  }

  /** How the elements go on once the first of them is read. */
  ghost function AfterItem(value: Parsed, depth: nat, acc: seq<Json>): Parsed {
    match value
    case None => None
    case Some(p) =>
      match NextToken(p.1)
      case Good(ArrayEnd, rest) => Some((Arr(acc + [p.0]), rest))
      case Good(Comma, rest) => ArrayElements(rest, depth, acc + [p.0])
      case _ => None
  }

  lemma FirstItem(items: seq<Item>, depth: nat, acc: seq<Json>, close: string)
    requires items != [] && LegalItem(items[0]) && EndsNumber(close)
    ensures var first, more := items[0], MoreItems(items[1..], close);
            && ArrayElements(SpellItems(items, close), depth, acc)
               == AfterItem(Value(Spell(first.value, first.after + more), depth), depth, acc)
            && EndsNumber(first.after + more) && NextToken(first.after + more) == NextToken(more)
  {
    hide NextToken, Value, SpellItem, MoreItems;
    var first, more := items[0], MoreItems(items[1..], close);
    MoreItemsToken(items[1..], close);
    ItemStarts(first, more);
    BlanksAreSkipped(first.after, more);
  }

  lemma {:induction false} ItemsAreRead(items: seq<Item>, depth: nat, acc: seq<Json>, close: string, tail: string)
    requires items != [] && (forall i :: 0 <= i < |items| ==> LegalItem(items[i])) && depth <= MAX_DEPTH
    requires EndsNumber(close) && NextToken(close) == Good(ArrayEnd, tail)
    ensures ArrayElements(SpellItems(items, close), depth, acc)
         == Expected(Arr(acc + ItemsMeaning(items)), depth + ItemsLevels(items) <= MAX_DEPTH, tail)
    decreases items, 1
  {
    hide NextToken, Value, ArrayElements, Spell, SpellItem, SpellItems, EndsNumber, Meaning, Levels;
    var first, more := items[0], MoreItems(items[1..], close);
    FirstItem(items, depth, acc, close);
    TextIsRead(first.value, depth, first.after + more);
    if |items| > 1 {
      MoreItemsToken(items[1..], close);
      ItemsAreRead(items[1..], depth, acc + [Meaning(first.value)], close, tail);
      assert acc + [Meaning(first.value)] + ItemsMeaning(items[1..]) == acc + ItemsMeaning(items);
    } else {
      assert ItemsMeaning(items) == [Meaning(first.value)];
    }
  }

  lemma ObjectOpens(body: string, depth: nat)
    ensures Value(['{'] + body, depth) == if depth >= MAX_DEPTH then None else ObjectBody(body, depth + 1)
  {
    hide ObjectBody, NextToken;
    PunctuationToken('{', ObjectStart, body);
  }

  lemma {:induction false} ObjectIsRead(pairs: seq<Pair>, space: string, depth: nat, tail: string)
    requires Legal(ObjectText(pairs, space)) && depth <= MAX_DEPTH
    ensures Value(Spell(ObjectText(pairs, space), tail), depth)
         == Expected(Obj(PairsMeaning(pairs, [])), depth + 1 + PairsLevels(pairs) <= MAX_DEPTH, tail)
    decreases pairs, 2
  {
    hide NextToken, Value, ObjectMembers, LegalPair, Meaning, SpellPairs;
    var close := space + (['}'] + tail);
    var body := SpellPairs(pairs, close);
    ObjectOpens(body, depth);
    CloseToken(space, '}', tail);
    if pairs == [] {
      assert body == close by { NoPairs(close); }
    } else if depth < MAX_DEPTH {
      PairStarts(pairs, close);
      PairsAreRead(pairs, depth + 1, [], close, tail);
    }
  }

  lemma NoPairs(close: string)
    ensures SpellPairs([], close) == close
  {
  }

  lemma MorePairsToken(pairs: seq<Pair>, close: string)
    requires EndsNumber(close)
    ensures EndsNumber(MorePairs(pairs, close))
    ensures pairs != [] ==> NextToken(MorePairs(pairs, close)) == Good(Comma, SpellPairs(pairs, close))
  {
    hide NextToken, SpellPairs;
    if pairs != [] {
      PunctuationToken(',', Comma, SpellPairs(pairs, close));
    }
  }

  /** A member starts with its key and a colon. */
  lemma PairStarts(pairs: seq<Pair>, close: string)
    requires pairs != [] && LegalPair(pairs[0])
    ensures var p, more := pairs[0], MorePairs(pairs[1..], close);
            && NextToken(SpellPairs(pairs, close)) == Good(StringToken(Reads(p.key)), AfterKey(p, more))
            && NextToken(AfterKey(p, more)) == Good(Colon, SpellItem(p.item, more))
  {
    hide NextToken, SpellString, SpellItem, Reads, LegalItem, LegalString;
    var p, more := pairs[0], MorePairs(pairs[1..], close);
    BlanksAreSkipped(p.before, SpellString(p.key, AfterKey(p, more)));
    StringTokenReads(p.key, AfterKey(p, more));
    BlanksAreSkipped(p.after, [':'] + SpellItem(p.item, more));
    PunctuationToken(':', Colon, SpellItem(p.item, more));
  }

  /** How the members go on once the value of the first is read. */
  ghost function AfterPair(value: Parsed, key: string, depth: nat, acc: seq<Member>): Parsed {
    match value
    case None => None
    case Some(p) =>
      match NextToken(p.1)
      case Good(ObjectEnd, rest) => Some((Obj(SetMember(acc, key, p.0)), rest))
      case Good(Comma, rest) => ObjectMembers(rest, depth, SetMember(acc, key, p.0))
      case _ => None
  }

  lemma FirstPair(pairs: seq<Pair>, depth: nat, acc: seq<Member>, close: string)
    requires pairs != [] && LegalPair(pairs[0]) && EndsNumber(close)
    ensures var p, more := pairs[0], MorePairs(pairs[1..], close);
            && ObjectMembers(SpellPairs(pairs, close), depth, acc)
               == AfterPair(Value(Spell(p.item.value, p.item.after + more), depth), Reads(p.key), depth, acc)
            && EndsNumber(p.item.after + more) && NextToken(p.item.after + more) == NextToken(more)
  {
    hide NextToken, Value, SpellItem, SpellPairs, MorePairs, AfterKey, SetMember, Reads;
    var p, more := pairs[0], MorePairs(pairs[1..], close);
    MorePairsToken(pairs[1..], close);
    PairStarts(pairs, close);
    ItemStarts(p.item, more);
    BlanksAreSkipped(p.item.after, more);
  }

  lemma {:induction false} PairsAreRead(pairs: seq<Pair>, depth: nat, acc: seq<Member>, close: string, tail: string)
    requires pairs != [] && (forall i :: 0 <= i < |pairs| ==> LegalPair(pairs[i])) && depth <= MAX_DEPTH
    requires EndsNumber(close) && NextToken(close) == Good(ObjectEnd, tail)
    ensures ObjectMembers(SpellPairs(pairs, close), depth, acc)
         == Expected(Obj(PairsMeaning(pairs, acc)), depth + PairsLevels(pairs) <= MAX_DEPTH, tail)
    decreases pairs, 1
  {
    hide NextToken, Value, ObjectMembers, Spell, SpellItem, SpellPairs, EndsNumber, SetMember, Reads, Meaning, Levels;
    var p, more := pairs[0], MorePairs(pairs[1..], close);
    FirstPair(pairs, depth, acc, close);
    assert LegalItem(p.item);
    TextIsRead(p.item.value, depth, p.item.after + more);
    if |pairs| > 1 {
      MorePairsToken(pairs[1..], close);
      PairsAreRead(pairs[1..], depth, SetMember(acc, Reads(p.key), Meaning(p.item.value)), close, tail);
    }
  }

  lemma NothingEndsNumber(blanks: string)
    requires AllBlank(blanks)
    ensures EndsNumber(blanks)
  {
  }

  /** The whole parse of a text with blanks around it. */
  lemma ParseReads(before: string, x: Syntax, after: string)
    requires AllBlank(before) && Legal(x) && AllBlank(after)
    ensures Parse(before + Spell(x, after)) == if Levels(x) <= 200 then Some(Meaning(x)) else None
  {
    hide NextToken, Spell, Meaning, Levels, Legal, EndsNumber, Value;
    NothingEndsNumber(after);
    TextIsRead(x, 0, after);
    ValueAfterBlanks(before, Spell(x, after), 0);
  }
}
