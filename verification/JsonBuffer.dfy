/** The growing text buffer and the serializer that writes into it. */
module JsonBuffer {
  import opened Common
  import opened JsonValue

  const INITIAL_CAPACITY: nat := 1024

  class Buffer {
    var data: array<char>
    var size: nat

    /** There is always room for the closing NUL, and it is there. */
    ghost predicate Valid()
      reads this, data
    {
      size < data.Length && data[size] == NUL
    }

    ghost function Contents(): string
      requires Valid()
      reads this, data
    {
      data[..size]
    }

    constructor ()
      ensures Valid() && Contents() == "" && fresh(data)
    {
      data := new char[INITIAL_CAPACITY](_ => NUL);
      size := 0;
    }

    /** Double the capacity until `additional` more characters and the NUL fit. */
    method EnsureCapacity(additional: nat)
      requires Valid()
      modifies this`data
      ensures Valid() && Contents() == old(Contents()) && size + additional < data.Length
      ensures data == old(data) || fresh(data)
    {
      var needed := size + additional + 1;
      if needed > data.Length {
        var capacity := data.Length;
        while capacity < needed
          invariant data.Length <= capacity && 0 < capacity
          decreases needed - capacity
        {
          capacity := capacity * 2;
        }
        var bigger := new char[capacity](i => NUL);
        var i := 0;
        while i < data.Length
          invariant i <= data.Length
          invariant bigger[..i] == data[..i]
          modifies bigger
        {
          bigger[i] := data[i];
          i := i + 1;
        }
        assert bigger[..size] == data[..size] by {
          assert bigger[..data.Length][..size] == data[..data.Length][..size];
        }
        assert bigger[size] == bigger[..data.Length][size];
        data := bigger;
      }
    }

    method Append(str: string)
      requires Valid()
      modifies this, data
      ensures Valid() && Contents() == old(Contents()) + str
      ensures data == old(data) || fresh(data)
    {
      EnsureCapacity(|str|);
      ghost var before := data[..size];
      var i := 0;
      while i < |str|
        invariant i <= |str|
        invariant data[..size] == before
        invariant forall k :: 0 <= k < i ==> data[size + k] == str[k]
        modifies data
      {
        data[size + i] := str[i];
        i := i + 1;
      }
      var end := size + |str|;
      SliceSplit(data[..end], size);
      assert data[..end][..size] == before;
      assert data[..end][size..] == str;
      label filled:
      data[end] := NUL;
      assert data[..end] == old@filled(data[..end]);
      size := end;
    }

    method AppendChar(c: char)
      requires Valid()
      modifies this, data
      ensures Valid() && Contents() == old(Contents()) + [c]
      ensures data == old(data) || fresh(data)
    {
      EnsureCapacity(1);
      data[size] := c;
      size := size + 1;
      data[size] := NUL;
    }

    method AppendEscapedChar(c: char)
      requires Valid()
      modifies this, data
      ensures Valid() && Contents() == old(Contents()) + EscapeChar(c)
      ensures data == old(data) || fresh(data)
    {
      if c == '"' || c == '\\' || c == '\n' || c == '\r' || c == '\t' || c == BACKSPACE || c == FORM_FEED || OddControl(c) {
        Append(EscapeChar(c));
      } else {
        AppendChar(c);
      }
    }

    method AppendEscaped(str: string)
      requires Valid()
      modifies this, data
      ensures Valid() && Contents() == old(Contents()) + Escape(str)
      ensures data == old(data) || fresh(data)
    {
      var i := 0;
      ghost var start := Contents();
      while i < |str|
        invariant i <= |str|
        invariant Valid() && Contents() + Escape(str[i..]) == start + Escape(str)
        invariant data == old(data) || fresh(data)
      {
        hide EscapeChar;
        ghost var before := Contents();
        assert str[i..][1..] == str[i + 1..];
        AppendEscapedChar(str[i]);
        Associative(before, EscapeChar(str[i]), Escape(str[i + 1..]));
        i := i + 1;
      }
    }

    method AppendString(str: string)
      requires Valid()
      modifies this, data
      ensures Valid() && Contents() == old(Contents()) + Quote(str)
      ensures data == old(data) || fresh(data)
    {
      ghost var start := Contents();
      ghost var body := Escape(str);
      hide Escape;
      AppendChar('"');
      AppendEscaped(str);
      AppendChar('"');
      Associative(start, "\"", body);
      Associative(start, "\"" + body, "\"");
    }

    method AppendIndent(level: nat)
      requires Valid()
      modifies this, data
      ensures Valid() && Contents() == old(Contents()) + Indent(level)
      ensures data == old(data) || fresh(data)
    {
      var i := 0;
      while i < level * 2
        invariant i <= level * 2
        invariant Valid() && Contents() == old(Contents()) + Spaces(i)
        invariant data == old(data) || fresh(data)
      {
        AppendChar(' ');
        i := i + 1;
      }
    }

    /** Writes a whole value at an indentation level. */
    method AppendValue(v: Json, level: nat)
      requires Valid() && Integral(v)
      modifies this, data
      ensures Valid() && Contents() == old(Contents()) + Text(v, level)
      ensures data == old(data) || fresh(data)
      decreases v, 0
    {
      match v
      case Null => Append("null");
      case Bool(b) => Append(if b then "true" else "false");
      case Int(n) => Append(IntText(n));
      case Str(s) => AppendString(s);
      case Arr(es) => AppendArray(es, level);
      case Obj(ms) => AppendObject(ms, level);
    }

    /** The line break, indentation and bracket that close a container. */
    method AppendClosing(ghost written: string, level: nat, bracket: string)
      requires Valid() && Contents() == written
      modifies this, data
      ensures Valid() && Contents() == written + "\n" + Indent(level) + bracket
      ensures data == old(data) || fresh(data)
    {
      hide Indent;
      Append("\n");
      AppendIndent(level);
      Append(bracket);
    }

    method AppendArray(es: seq<Json>, level: nat)
      requires Valid() && AllIntegral(es)
      modifies this, data
      ensures Valid() && Contents() == old(Contents()) + Text(Arr(es), level)
      ensures data == old(data) || fresh(data)
      decreases es, 2
    {
      if es == [] {
        Append("[]");
        return;
      }
      ghost var body := ElementsText(es, level + 1);
      assert Text(Arr(es), level) == "[\n" + body + "\n" + Indent(level) + "]";
      hide Text, ElementsText, Indent;
      ghost var start := Contents();
      Append("[\n");
      AppendElements(es, level + 1);
      AppendClosing(start + "[\n" + body, level, "]");
      Wrapped(start, "[\n", body, "\n", Indent(level), "]");
    }

    method AppendObject(ms: seq<Member>, level: nat)
      requires Valid() && MembersIntegral(ms)
      modifies this, data
      ensures Valid() && Contents() == old(Contents()) + Text(Obj(ms), level)
      ensures data == old(data) || fresh(data)
      decreases ms, 2
    {
      if ms == [] {
        Append("{}");
        return;
      }
      ghost var body := MembersText(ms, level + 1);
      assert Text(Obj(ms), level) == "{\n" + body + "\n" + Indent(level) + "}";
      hide Text, MembersText, Indent;
      ghost var start := Contents();
      Append("{\n");
      AppendMembers(ms, level + 1);
      AppendClosing(start + "{\n" + body, level, "}");
      Wrapped(start, "{\n", body, "\n", Indent(level), "}");
    }

    method AppendElement(es: seq<Json>, i: nat, level: nat)
      requires i < |es| && AllIntegral(es)
      requires Valid()
      modifies this, data
      ensures Valid() && Contents() == old(Contents()) + ElementPiece(es, i, level)
      ensures data == old(data) || fresh(data)
      decreases es, 0
    {
      hide Text, Indent;
      ghost var start := Contents();
      if i > 0 {
        Append(",\n");
      }
      AppendIndent(level);
      AppendValue(es[i], level);
      assert Contents() == start + ElementPiece(es, i, level);
    }

    method AppendElements(es: seq<Json>, level: nat)
      requires es != [] && AllIntegral(es)
      requires Valid()
      modifies this, data
      ensures Valid() && Contents() == old(Contents()) + ElementsText(es, level)
      ensures data == old(data) || fresh(data)
      decreases es, 1
    {
      hide Text, ElementPiece, ElementsText, RestOfElements;
      ghost var start := Contents();
      var i := 0;
      RestOfElementsEnds(es, level);
      while i < |es|
        invariant i <= |es|
        invariant Valid() && Contents() + RestOfElements(es, i, level) == start + ElementsText(es, level)
        invariant data == old(data) || fresh(data)
      {
        ghost var before := Contents();
        RestOfElementsStep(es, i, level);
        AppendElement(es, i, level);
        Associative(before, ElementPiece(es, i, level), RestOfElements(es, i + 1, level));
        i := i + 1;
      }
    }

    method AppendKey(ghost written: string, key: string)
      requires Valid() && Contents() == written
      modifies this, data
      ensures Valid() && Contents() == written + Quote(key) + ": "
      ensures data == old(data) || fresh(data)
    {
      hide Quote;
      AppendString(key);
      Append(": ");
    }

    method AppendMember(ms: seq<Member>, i: nat, level: nat)
      requires i < |ms| && MembersIntegral(ms)
      requires Valid()
      modifies this, data
      ensures Valid() && Contents() == old(Contents()) + MemberPiece(ms, i, level)
      ensures data == old(data) || fresh(data)
      decreases ms, 0
    {
      hide Text, Indent, Quote;
      ghost var start := Contents();
      ghost var separator := if i > 0 then ",\n" else "";
      if i > 0 {
        Append(",\n");
      }
      assert Contents() == start + separator;
      AppendIndent(level);
      AppendKey(start + separator + Indent(level), ms[i].key);
      AppendValue(ms[i].value, level);
      Wrapped(start, separator, Indent(level), Quote(ms[i].key), ": ", Text(ms[i].value, level));
    }

    method AppendMembers(ms: seq<Member>, level: nat)
      requires ms != [] && MembersIntegral(ms)
      requires Valid()
      modifies this, data
      ensures Valid() && Contents() == old(Contents()) + MembersText(ms, level)
      ensures data == old(data) || fresh(data)
      decreases ms, 1
    {
      hide Text, MemberPiece, MembersText, RestOfMembers;
      ghost var start := Contents();
      var i := 0;
      RestOfMembersEnds(ms, level);
      while i < |ms|
        invariant i <= |ms|
        invariant Valid() && Contents() + RestOfMembers(ms, i, level) == start + MembersText(ms, level)
        invariant data == old(data) || fresh(data)
      {
        ghost var before := Contents();
        RestOfMembersStep(ms, i, level);
        AppendMember(ms, i, level);
        Associative(before, MemberPiece(ms, i, level), RestOfMembers(ms, i + 1, level));
        i := i + 1;
      }
    }
  }

  lemma SliceSplit(d: string, a: nat)
    requires a <= |d|
    ensures d == d[..a] + d[a..]
  {
  }

  ghost predicate AllIntegral(es: seq<Json>) {
    forall i :: 0 <= i < |es| ==> Integral(es[i])
  }

  ghost predicate MembersIntegral(ms: seq<Member>) {
    forall i :: 0 <= i < |ms| ==> Integral(ms[i].value)
  }

  lemma Wrapped(start: string, open: string, body: string, line: string, indent: string, close: string)
    ensures start + open + body + line + indent + close == start + (open + body + line + indent + close)
  {
    Associative(start, open, body);
    Associative(start, open + body, line);
    Associative(start, open + body + line, indent);
    Associative(start, open + body + line + indent, close);
  }

  /** One element with the separator before it. */
  ghost function ElementPiece(es: seq<Json>, i: nat, level: nat): string
    requires i < |es| && AllIntegral(es)
  {
    (if i > 0 then ",\n" else "") + (Indent(level) + Text(es[i], level))
  }

  /** One member with the separator before it. */
  ghost function MemberPiece(ms: seq<Member>, i: nat, level: nat): string
    requires i < |ms| && MembersIntegral(ms)
  {
    (if i > 0 then ",\n" else "") + Indent(level) + Quote(ms[i].key) + ": " + Text(ms[i].value, level)
  }

  /** What is still to be written when the first i elements are there. */
  ghost function RestOfElements(es: seq<Json>, i: nat, level: nat): string
    requires i <= |es| && AllIntegral(es)
  {
    if i == |es| then "" else (if i > 0 then ",\n" else "") + ElementsText(es[i..], level)
  }

  lemma RestOfElementsEnds(es: seq<Json>, level: nat)
    requires es != [] && AllIntegral(es)
    ensures RestOfElements(es, 0, level) == ElementsText(es, level)
    ensures RestOfElements(es, |es|, level) == ""
  {
    assert es[0..] == es;
    assert "" + ElementsText(es, level) == ElementsText(es, level);
  }

  lemma RestOfElementsStep(es: seq<Json>, i: nat, level: nat)
    requires i < |es| && AllIntegral(es)
    ensures RestOfElements(es, i, level) == ElementPiece(es, i, level) + RestOfElements(es, i + 1, level)
  {
    hide Text, Indent;
    assert es[i..][1..] == es[i + 1..];
  }

  ghost function RestOfMembers(ms: seq<Member>, i: nat, level: nat): string
    requires i <= |ms| && MembersIntegral(ms)
  {
    if i == |ms| then "" else (if i > 0 then ",\n" else "") + MembersText(ms[i..], level)
  }

  lemma RestOfMembersEnds(ms: seq<Member>, level: nat)
    requires ms != [] && MembersIntegral(ms)
    ensures RestOfMembers(ms, 0, level) == MembersText(ms, level)
    ensures RestOfMembers(ms, |ms|, level) == ""
  {
    assert ms[0..] == ms;
    assert "" + MembersText(ms, level) == MembersText(ms, level);
  }

  lemma RestOfMembersStep(ms: seq<Member>, i: nat, level: nat)
    requires i < |ms| && MembersIntegral(ms)
    ensures RestOfMembers(ms, i, level) == MemberPiece(ms, i, level) + RestOfMembers(ms, i + 1, level)
  {
    hide Text, Indent, Quote, MembersText;
    var rest := ms[i..];
    assert rest[0] == ms[i] && rest[1..] == ms[i + 1..];
    MembersTextStep(rest, level);
    var separator, member := if i > 0 then ",\n" else "", MemberText(ms[i], level);
    SeparatedMember(ms, i, level);
    Associative(separator, member, if |rest| == 1 then "" else ",\n" + MembersText(rest[1..], level));
  }

  /** One member without a separator. */
  ghost function MemberText(m: Member, level: nat): string
    requires Integral(m.value)
  {
    Indent(level) + Quote(m.key) + ": " + Text(m.value, level)
  }

  lemma MembersTextStep(ms: seq<Member>, level: nat)
    requires ms != [] && MembersIntegral(ms)
    ensures MembersText(ms, level) ==
            MemberText(ms[0], level) + if |ms| == 1 then "" else ",\n" + MembersText(ms[1..], level)
  {
  }

  lemma SeparatedMember(ms: seq<Member>, i: nat, level: nat)
    requires i < |ms| && MembersIntegral(ms)
    ensures MemberPiece(ms, i, level) == (if i > 0 then ",\n" else "") + MemberText(ms[i], level)
  {
    hide Text, Indent, Quote;
    var separator := if i > 0 then ",\n" else "";
    Associative(separator, Indent(level), Quote(ms[i].key));
    Associative(separator, Indent(level) + Quote(ms[i].key), ": ");
    Associative(separator, Indent(level) + Quote(ms[i].key) + ": ", Text(ms[i].value, level));
  }

  /** The text of a value as one string. */
  method ValueToString(v: Json) returns (s: string)
    requires Integral(v)
    ensures s == Text(v, 0)
  {
    var buf := new Buffer();
    buf.AppendValue(v, 0);
    s := buf.data[..buf.size];
  }
}
