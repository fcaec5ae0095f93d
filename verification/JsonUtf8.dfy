/** Hexadecimal digits and UTF-8, RFC 3629 section 3: what a unicode escape is decoded with. */
module JsonUtf8 {
  import opened Common
  import opened JsonGrammar

  const LOWER_DIGITS: string := "0123456789abcdef"
  const UPPER_DIGITS: string := "0123456789ABCDEF"

  lemma HexDigitExactly(c: char, d: nat)
    requires d < 16
    ensures HexDigit(c) && HexValue(c) == d <==> c == LOWER_DIGITS[d] || c == UPPER_DIGITS[d]
  {
    assert LOWER_DIGITS[d] == (if d < 10 then '0' as int + d else 'a' as int + d - 10) as char;
    assert UPPER_DIGITS[d] == (if d < 10 then '0' as int + d else 'A' as int + d - 10) as char;
  }

  /** The low bits of a byte that has the form of a later one. */
  predicate Later(c: char) {
    0x80 <= c as int < 0xC0
  }

  /** The code point that one sequence of UTF-8 bytes stands for, up to three bytes. */
  function Decoded(s: string): Option<nat> {
    if |s| == 1 && s[0] as int < 0x80 then Some(s[0] as int)
    else if |s| == 2 && 0xC0 <= s[0] as int < 0xE0 && Later(s[1]) then
      Some((s[0] as int - 0xC0) * 0x40 + (s[1] as int - 0x80))
    else if |s| == 3 && 0xE0 <= s[0] as int < 0xF0 && Later(s[1]) && Later(s[2]) then
      Some(((s[0] as int - 0xE0) * 0x40 + (s[1] as int - 0x80)) * 0x40 + (s[2] as int - 0x80))
    else None
  }

  /** The bytes written stand for the code point, and are as few as they can be. */
  lemma Utf8Decodes(codepoint: nat)
    requires codepoint <= 0xFFFF
    ensures Decoded(Utf8(codepoint)) == Some(codepoint)
    ensures |Utf8(codepoint)| == if codepoint < 0x80 then 1 else if codepoint < 0x800 then 2 else 3
  {
    hide Byte, Decoded;
    if codepoint <= 0x7F {
      OneByte(codepoint);
    } else if codepoint <= 0x7FF {
      TwoBytes(codepoint / 64, codepoint % 64);
    } else {
      assert codepoint / 4096 == codepoint / 64 / 64;
      ThreeBytes(codepoint / 4096, codepoint / 64 % 64, codepoint % 64);
    }
  }

  lemma OneByte(a: nat)
    requires a < 0x80
    ensures Decoded([Byte(a)]) == Some(a)
  {
  }

  lemma TwoBytes(a: nat, b: nat)
    requires a < 0x20 && b < 0x40
    ensures Decoded([Byte(0xC0 + a), Byte(0x80 + b)]) == Some(a * 0x40 + b)
  {
    ByteIs(0xC0 + a);
    ByteIs(0x80 + b);
  }

  lemma ThreeBytes(a: nat, b: nat, c: nat)
    requires a < 0x10 && b < 0x40 && c < 0x40
    ensures Decoded([Byte(0xE0 + a), Byte(0x80 + b), Byte(0x80 + c)]) == Some((a * 0x40 + b) * 0x40 + c)
  {
    ByteIs(0xE0 + a);
    ByteIs(0x80 + b);
    ByteIs(0x80 + c);
  }

  lemma ByteIs(b: nat)
    requires b < 256
    ensures Byte(b) as int == b
  {
  }

  /** Four hexadecimal digits are read as the number they spell, so that an escape is decoded rightly once it is cut rightly. */
  lemma FourDigitsDecode(hex: string)
    requires |hex| == 4 && forall i :: 0 <= i < 4 ==> HexDigit(hex[i])
    ensures var code := 0x1000 * HexValue(hex[0]) + 0x100 * HexValue(hex[1]) + 0x10 * HexValue(hex[2]) + HexValue(hex[3]);
            code <= 0xFFFF && LeadingHex(hex) == code && Decoded(Utf8(LeadingHex(hex))) == Some(code)
  {
    hide HexDigit, HexValue, Utf8, Decoded;
    HexValueBelow(hex[0]);
    HexValueBelow(hex[1]);
    HexValueBelow(hex[2]);
    HexValueBelow(hex[3]);
    var a, b, c := hex[1..], hex[2..], hex[3..];
    assert a[1..] == b && b[1..] == c && c[1..] == "" && a[0] == hex[1] && b[0] == hex[2] && c[0] == hex[3];
    var v := HexValue(hex[0]);
    var w := 16 * v + HexValue(hex[1]);
    var x := 16 * w + HexValue(hex[2]);
    assert LeadingHexFrom(c, x) == LeadingHexFrom("", 16 * x + HexValue(hex[3])) == 16 * x + HexValue(hex[3]);
    assert LeadingHexFrom(b, w) == LeadingHexFrom(c, x);
    assert LeadingHexFrom(a, v) == LeadingHexFrom(b, w);
    Utf8Decodes(LeadingHex(hex));
  }

  lemma HexValueBelow(c: char)
    requires HexDigit(c)
    ensures HexValue(c) < 16
  {
  }

  /** Reading stops before the first character that is no digit; without any digit the result is 0. */
  lemma {:induction false} DigitsEndReading(digits: string, rest: string, acc: nat)
    requires (forall i :: 0 <= i < |digits| ==> HexDigit(digits[i])) && (rest == "" || !HexDigit(rest[0]))
    ensures LeadingHexFrom(digits + rest, acc) == LeadingHexFrom(digits, acc)
  {
    hide HexDigit, HexValue;
    if digits == "" {
      assert digits + rest == rest;
    } else {
      assert (digits + rest)[1..] == digits[1..] + rest;
      DigitsEndReading(digits[1..], rest, 16 * acc + HexValue(digits[0]));
    }
  }
}
