/** Reading back what the serializer wrote: its texts are among those of the grammar. */
module JsonRoundTrip {
  import opened Common
  import opened JsonValue
  import opened JsonGrammar
  import opened JsonSyntax

  // ----- strings -----

  /** The characters before the first odd control character. */
  function Cut(s: string): (r: string)
    ensures r <= s
    ensures r == s <==> forall i :: 0 <= i < |s| ==> !OddControl(s[i])
  {
    if s == "" || OddControl(s[0]) then "" else [s[0]] + Cut(s[1..])
  }

  function LowerHex(d: nat): char
    requires d < 16
  {
    match d
    case 0 => '0' case 1 => '1' case 2 => '2' case 3 => '3' case 4 => '4' case 5 => '5' case 6 => '6' case 7 => '7'
    case 8 => '8' case 9 => '9' case 10 => 'a' case 11 => 'b' case 12 => 'c' case 13 => 'd' case 14 => 'e' case _ => 'f'
  }

  lemma LowerHexIs(d: nat)
    requires d < 16
    ensures LowerHex(d) == HexChar(d) && HexDigit(LowerHex(d)) && HexValue(LowerHex(d)) == d
    ensures '0' <= LowerHex(d) <= '9' || 'a' <= LowerHex(d) <= 'f'
  {
  }

  /** The escape of each character; the other control characters get the four digits of their code. */
  function PieceOf(c: char): Piece {
    if c == '"' || c == '\\' then Short(c)
    else if c == '\n' then Short('n')
    else if c == '\r' then Short('r')
    else if c == '\t' then Short('t')
    else if c == '\U{8}' then Short('b')
    else if c == '\U{C}' then Short('f')
    else if c as int < 0x20 then Unicode(['0', '0', LowerHex(c as int / 16), LowerHex(c as int % 16)])
    else Plain(c)
  }

  function PiecesOf(s: string): seq<Piece> {
    if s == "" then [] else [PieceOf(s[0])] + PiecesOf(s[1..])
  }

  lemma PieceOfChar(c: char)
    ensures LegalPiece(PieceOf(c)) && PieceText(PieceOf(c)) == EscapeChar(c)
    ensures Reads([PieceOf(c)]) == if OddControl(c) then "" else [c]
  {
    hide LowerHex, HexChar;
    if OddControl(c) {
      LowerHexIs(c as int / 16);
      LowerHexIs(c as int % 16);
    }
  }

  lemma {:induction false} PiecesOfString(s: string, tail: string)
    ensures LegalString(PiecesOf(s)) && SpellPieces(PiecesOf(s), tail) == Escape(s) + tail
    ensures Reads(PiecesOf(s)) == Cut(s)
  {
    if s != "" {
      hide LegalPiece, PieceText, EscapeChar, PieceOf, OddControl;
      PieceOfChar(s[0]);
      PiecesOfString(s[1..], tail);
      assert PiecesOf(s)[0] == PieceOf(s[0]) && PiecesOf(s)[1..] == PiecesOf(s[1..]);
      Associative(EscapeChar(s[0]), Escape(s[1..]), tail);
      FirstIsRead(PieceOf(s[0]), PiecesOf(s[1..]));
    }
  }

  lemma FirstIsRead(p: Piece, rest: seq<Piece>)
    ensures Reads([p] + rest) == if p.Unicode? then "" else Reads([p]) + Reads(rest)
    ensures Reads([p]) == "" <==> p.Unicode?
  {
    assert ([p] + rest)[1..] == rest;
  }

  lemma QuoteSpelled(s: string, tail: string)
    ensures SpellString(PiecesOf(s), tail) == Quote(s) + tail
  {
    hide Escape, PiecesOf, SpellPieces;
    PiecesOfString(s, ['"'] + tail);
    assert Quote(s) + tail == ['"'] + (Escape(s) + (['"'] + tail));
  }

  // ----- numbers -----

  lemma {:induction false} NatTextReads(n: nat)
    ensures AllDigits(NatText(n)) && NatValue(NatText(n)) == n
  {
    if n >= 10 {
      NatTextReads(n / 10);
      var s := NatText(n);
      assert s[..|s| - 1] == NatText(n / 10) && s[|s| - 1] == DigitChar(n % 10);
    } else {
      var s := NatText(n);
      assert s[..0] == "";
    }
  }

  function NumeralOf(n: int): Numeral {
    Numeral(n < 0, NatText(if n < 0 then -n else n), None, None)
  }

  lemma {:induction false} NoLeadingZero(n: nat)
    ensures NatText(n) != "" && (n > 0 ==> NatText(n)[0] != '0')
  {
    if n >= 10 {
      NoLeadingZero(n / 10);
    }
  }

  /** An integer is written as the one numeral of RFC 8259 for it without fraction, exponent or leading zeros. */
  lemma NumeralOfInt(n: int)
    ensures LegalNumeral(NumeralOf(n)) && Lexeme(NumeralOf(n)) == IntText(n) && NumeralMeaning(NumeralOf(n)) == Int(n)
    ensures n != 0 ==> NumeralOf(n).whole[0] != '0'
  {
    hide NatText, NatValue;
    NatTextReads(if n < 0 then -n else n);
    NoLeadingZero(if n < 0 then -n else n);
  }

  /** The digits of a \u escape spell the code of the character. */
  lemma EscapeHex(c: char)
    requires PieceOf(c).Unicode?
    ensures var hex := PieceOf(c).hex;
            && |hex| == 4 && (forall i :: 0 <= i < 4 ==> HexDigit(hex[i]))
            && ((HexValue(hex[0]) * 16 + HexValue(hex[1])) * 16 + HexValue(hex[2])) * 16 + HexValue(hex[3]) == c as int
            && EscapeChar(c) == ['\\', 'u'] + hex
  {
    hide LowerHex, HexValue, HexDigit, HexChar, EscapeChar;
    PieceOfChar(c);
    LowerHexIs(c as int / 16);
    LowerHexIs(c as int % 16);
    ZeroDigit();
  }

  lemma ZeroDigit()
    ensures HexDigit('0') && HexValue('0') == 0
  {
  }

  // ----- values -----

  /** What comes back: strings and keys cut at their first odd control character, later members replacing earlier ones. */
  ghost function Norm(v: Json): Json
    decreases v, 0
  {
    match v
    case Str(s) => Str(Cut(s))
    case Arr(es) => Arr(NormElements(es))
    case Obj(ms) => Obj(NormMembers(ms, []))
    case _ => v
  }

  ghost function NormElements(es: seq<Json>): (r: seq<Json>)
    ensures |r| == |es|
    decreases es, 1
  {
    if es == [] then [] else [Norm(es[0])] + NormElements(es[1..])
  }

  ghost function NormMembers(ms: seq<Member>, acc: seq<Member>): seq<Member>
    decreases ms, 1
  {
    if ms == [] then acc
    else NormMembers(ms[1..], SetMember(acc, Cut(ms[0].key), Norm(ms[0].value)))
  }

  ghost predicate Writable(v: Json) {
    Integral(v) && NulFree(v)
  }

  /** The written text of a value, as a syntax tree. */
  ghost function SyntaxOf(v: Json, level: nat): Syntax
    requires Integral(v)
    decreases v, 0
  {
    match v
    case Null => NullText
    case Bool(b) => BoolText(b)
    case Int(n) => NumberText(NumeralOf(n))
    case Str(s) => StringText(PiecesOf(s))
    case Arr(es) => if es == [] then ArrayText([], "") else ArrayText(ItemsOf(es, level + 1), Line(level))
    case Obj(ms) => if ms == [] then ObjectText([], "") else ObjectText(PairsOf(ms, level + 1), Line(level))
  }

  /** A new line, indented by two spaces a level. */
  function Line(level: nat): string {
    ['\n'] + seq(2 * level, _ => ' ')
  }

  ghost function ItemsOf(es: seq<Json>, level: nat): (r: seq<Item>)
    requires forall i :: 0 <= i < |es| ==> Integral(es[i])
    ensures |r| == |es|
    decreases es, 1
  {
    if es == [] then [] else [Item(Line(level), SyntaxOf(es[0], level), "")] + ItemsOf(es[1..], level)
  }

  ghost function PairOf(m: Member, level: nat): Pair
    requires Integral(m.value)
    decreases m, 1
  {
    Pair(Line(level), PiecesOf(m.key), "", Item(" ", SyntaxOf(m.value, level), ""))
  }

  ghost function PairsOf(ms: seq<Member>, level: nat): (r: seq<Pair>)
    requires forall i :: 0 <= i < |ms| ==> Integral(ms[i].value)
    ensures |r| == |ms|
    decreases ms, 2
  {
    if ms == [] then [] else [PairOf(ms[0], level)] + PairsOf(ms[1..], level)
  }

  /** The tree nests and means what the value does. */
  lemma {:induction false} SyntaxMeans(v: Json, level: nat)
    requires Integral(v)
    ensures var x := SyntaxOf(v, level); Legal(x) && Levels(x) == Nesting(v) && Meaning(x) == Norm(v)
    decreases v, 0
  {
    match v
    case Arr(es) => ArrayMeans(es, level);
    case Obj(ms) => ObjectMeans(ms, level);
    case Int(n) => NumeralOfInt(n);
    case Str(s) => PiecesOfString(s, "");
    case _ =>
  }

  lemma {:induction false} ArrayMeans(es: seq<Json>, level: nat)
    requires Integral(Arr(es))
    ensures var x := SyntaxOf(Arr(es), level); Legal(x) && Levels(x) == Nesting(Arr(es)) && Meaning(x) == Norm(Arr(es))
    decreases es, 2
  {
    hide ItemsOf, ItemsLevels, ItemsMeaning, NestingElements, NormElements, LegalItem;
    ItemsMean(es, level + 1);
    EmptyIs();
  }

  lemma {:induction false} ObjectMeans(ms: seq<Member>, level: nat)
    requires Integral(Obj(ms))
    ensures var x := SyntaxOf(Obj(ms), level); Legal(x) && Levels(x) == Nesting(Obj(ms)) && Meaning(x) == Norm(Obj(ms))
    decreases ms, 2
  {
    hide PairsOf, PairsLevels, PairsMeaning, NestingMembers, NormMembers, LegalPair;
    PairsMean(ms, level + 1, []);
    EmptyIs();
  }

  lemma EmptyIs()
    ensures ItemsLevels([]) == NestingElements([]) == 0 && ItemsMeaning([]) == NormElements([]) == []
    ensures PairsLevels([]) == NestingMembers([]) == 0 && PairsMeaning([], []) == NormMembers([], []) == []
  {
  }

  lemma {:induction false} ItemsMean(es: seq<Json>, level: nat)
    requires forall i :: 0 <= i < |es| ==> Integral(es[i])
    ensures forall i :: 0 <= i < |es| ==> LegalItem(ItemsOf(es, level)[i])
    ensures ItemsLevels(ItemsOf(es, level)) == NestingElements(es) && ItemsMeaning(ItemsOf(es, level)) == NormElements(es)
    decreases es, 1
  {
    if es != [] {
      hide Meaning, Levels, Norm, Nesting, Legal, Integral;
      SyntaxMeans(es[0], level);
      ItemsMean(es[1..], level);
      var items := ItemsOf(es, level);
      assert items[1..] == ItemsOf(es[1..], level);
      assert LegalItem(items[0]);
      assert forall i :: 0 < i < |es| ==> items[i] == items[1..][i - 1];
    }
  }

  lemma LegalPairOf(m: Member, level: nat)
    requires Integral(m.value) && Legal(SyntaxOf(m.value, level))
    ensures LegalPair(PairOf(m, level))
  {
    hide PiecesOf, LegalPiece;
    PiecesOfString(m.key, "");
    assert LegalItem(PairOf(m, level).item);
  }

  lemma PairMeans(m: Member, level: nat)
    requires Integral(m.value)
    ensures var p := PairOf(m, level); Reads(p.key) == Cut(m.key) && p.item.value == SyntaxOf(m.value, level)
  {
    PiecesOfString(m.key, "");
  }

  lemma {:induction false} PairsMean(ms: seq<Member>, level: nat, acc: seq<Member>)
    requires forall i :: 0 <= i < |ms| ==> Integral(ms[i].value)
    ensures forall i :: 0 <= i < |ms| ==> LegalPair(PairsOf(ms, level)[i])
    ensures PairsLevels(PairsOf(ms, level)) == NestingMembers(ms)
    ensures PairsMeaning(PairsOf(ms, level), acc) == NormMembers(ms, acc)
    decreases ms, 1
  {
    if ms != [] {
      hide Meaning, Levels, Norm, Nesting, Legal, Integral, SetMember, PiecesOf, Reads, Cut;
      hide LegalPair, PairOf;
      var pairs := PairsOf(ms, level);
      SyntaxMeans(ms[0].value, level);
      PairMeans(ms[0], level);
      LegalPairOf(ms[0], level);
      PairsMean(ms[1..], level, SetMember(acc, Cut(ms[0].key), Norm(ms[0].value)));
      assert pairs[1..] == PairsOf(ms[1..], level);
      assert forall i :: 0 < i < |ms| ==> pairs[i] == pairs[1..][i - 1];
    }
  }

  /** The tree spells what is written. */
  lemma {:induction false} SyntaxSpells(v: Json, level: nat, tail: string)
    requires Integral(v)
    ensures Spell(SyntaxOf(v, level), tail) == Text(v, level) + tail
    decreases v, 0
  {
    match v
    case Int(n) => NumeralOfInt(n);
    case Str(s) => QuoteSpelled(s, tail);
    case Arr(es) => ArraySpells(es, level, tail);
    case Obj(ms) => ObjectSpells(ms, level, tail);
    case _ =>
  }

  lemma {:induction false} ArraySpells(es: seq<Json>, level: nat, tail: string)
    requires Integral(Arr(es))
    ensures Spell(SyntaxOf(Arr(es), level), tail) == Text(Arr(es), level) + tail
    decreases es, 2
  {
    hide SpellItems, ElementsText, ItemsOf, Line, Indent;
    if es == [] {
      NothingSpelled(']', tail);
    } else {
      ItemsSpell(es, level + 1, Line(level) + ([']'] + tail));
      Bracketed('[', ElementsText(es, level + 1), level, ']', tail);
    }
  }

  lemma {:induction false} ObjectSpells(ms: seq<Member>, level: nat, tail: string)
    requires Integral(Obj(ms))
    ensures Spell(SyntaxOf(Obj(ms), level), tail) == Text(Obj(ms), level) + tail
    decreases ms, 2
  {
    hide SpellPairs, MembersText, PairsOf, Line, Indent;
    if ms == [] {
      NothingSpelled('}', tail);
    } else {
      PairsSpell(ms, level + 1, Line(level) + (['}'] + tail));
      Bracketed('{', MembersText(ms, level + 1), level, '}', tail);
    }
  }

  lemma NothingSpelled(close: char, tail: string)
    ensures SpellItems([], "" + ([close] + tail)) == [close] + tail && SpellPairs([], "" + ([close] + tail)) == [close] + tail
  {
    assert "" + ([close] + tail) == [close] + tail;
  }

  lemma Bracketed(open: char, body: string, level: nat, close: char, tail: string)
    ensures [open] + ("\n" + (body + (Line(level) + ([close] + tail)))) == [open] + "\n" + body + "\n" + Indent(level) + [close] + tail
  {
    assert Line(level) + ([close] + tail) == "\n" + (Indent(level) + ([close] + tail));
  }

  lemma {:induction false} ItemsSpell(es: seq<Json>, level: nat, close: string)
    requires es != [] && forall i :: 0 <= i < |es| ==> Integral(es[i])
    ensures SpellItems(ItemsOf(es, level), close) == "\n" + (ElementsText(es, level) + close)
    decreases es, 1
  {
    hide Spell, SyntaxOf, Text, Integral, Indent;
    var items, text := ItemsOf(es, level), Text(es[0], level);
    var more := MoreItems(items[1..], close);
    assert items[1..] == ItemsOf(es[1..], level);
    SyntaxSpells(es[0], level, "" + more);
    if |es| > 1 {
      ItemsSpell(es[1..], level, close);
      Separated(Indent(level) + text, ElementsText(es[1..], level), close);
    } else {
      Separated(Indent(level) + text, "", close);
    }
    Lined(level, text, more);
  }

  lemma Separated(first: string, more: string, close: string)
    ensures first + (",\n" + more) + close == first + ([','] + ("\n" + (more + close)))
    ensures first + "" + close == first + close
  {
    assert ",\n" == [','] + "\n";
    assert first + "" == first;
  }

  lemma Lined(level: nat, text: string, more: string)
    ensures Line(level) + (text + ("" + more)) == "\n" + (Indent(level) + text + more)
  {
    assert "" + more == more;
  }

  /** What stands before the value of a member, after its indentation. */
  lemma Keyed(key: string, text: string, more: string)
    ensures key + ("" + ([':'] + (" " + (text + ("" + more))))) == key + ": " + text + ("" + more)
  {
    var rest := text + ("" + more);
    assert "" + ([':'] + (" " + rest)) == [':'] + (" " + rest);
    assert [':'] + (" " + rest) == ": " + rest;
    Associative(key, ": ", rest);
    Associative(key + ": ", text, "" + more);
  }

  lemma PairSpelled(m: Member, level: nat, more: string)
    requires Integral(m.value)
    requires Spell(SyntaxOf(m.value, level), "" + more) == Text(m.value, level) + ("" + more)
    ensures var p, head := PairOf(m, level), Indent(level) + Quote(m.key) + ": " + Text(m.value, level);
            p.before + SpellString(p.key, AfterKey(p, more)) == "\n" + (head + more)
  {
    hide Spell, SpellString, SyntaxOf, Text, Indent, PiecesOf, Quote, Line;
    var p, key, text := PairOf(m, level), Quote(m.key), Text(m.value, level);
    QuoteSpelled(m.key, AfterKey(p, more));
    Keyed(key, text, more);
    Lined(level, key + ": " + text, more);
    Associative(Indent(level), key + ": ", text);
    Associative(Indent(level), key, ": ");
  }

  lemma {:induction false} PairsSpell(ms: seq<Member>, level: nat, close: string)
    requires ms != [] && forall i :: 0 <= i < |ms| ==> Integral(ms[i].value)
    ensures SpellPairs(PairsOf(ms, level), close) == "\n" + (MembersText(ms, level) + close)
    decreases ms, 1
  {
    hide Spell, SpellString, AfterKey, PairOf, SyntaxOf, Text, Integral, Indent, Quote;
    var pairs := PairsOf(ms, level);
    var more := MorePairs(pairs[1..], close);
    var head := Indent(level) + Quote(ms[0].key) + ": " + Text(ms[0].value, level);
    assert pairs[1..] == PairsOf(ms[1..], level);
    SyntaxSpells(ms[0].value, level, "" + more);
    PairSpelled(ms[0], level, more);
    if |ms| > 1 {
      PairsSpell(ms[1..], level, close);
      Separated(head, MembersText(ms[1..], level), close);
    } else {
      Separated(head, "", close);
    }
  }

  /** A written value reads back as its normal form exactly when its nesting fits the depth left. */
  lemma ValueRoundTrip(v: Json, level: nat, depth: nat, tail: string)
    requires Writable(v) && EndsNumber(tail) && depth <= MAX_DEPTH
    ensures Value(Text(v, level) + tail, depth) == Expected(Norm(v), depth + Nesting(v) <= MAX_DEPTH, tail)
  {
    hide Value, Text, SyntaxOf, Norm, Nesting, Spell, Meaning, Levels, Integral;
    SyntaxMeans(v, level);
    SyntaxSpells(v, level, tail);
    TextIsRead(SyntaxOf(v, level), depth, tail);
  }

  /** Reading back a written value succeeds exactly up to 200 levels, and then yields its normal form. */
  lemma ParseOfText(v: Json)
    requires Writable(v)
    ensures Parse(Text(v, 0)) == if Nesting(v) <= MAX_DEPTH then Some(Norm(v)) else None
  {
    ValueRoundTrip(v, 0, 0, "");
    assert Text(v, 0) + "" == Text(v, 0);
  }
}
