/** When a written value reads back unchanged, and what every parsed value satisfies. */
module JsonLaws {
  import opened Common
  import opened JsonValue
  import opened JsonGrammar
  import opened JsonRoundTrip

  /** No control characters but backspace, tab, line feed, form feed and carriage return. */
  ghost predicate Printable(s: string) {
    forall i :: 0 <= i < |s| ==>
      s[i] as int >= 0x20 || s[i] == '\U{8}' || s[i] == '\t' || s[i] == '\n' || s[i] == '\U{C}' || s[i] == '\r'
  }

  /** No string or key holds an odd control character and no object repeats a key. */
  ghost predicate Clean(v: Json) {
    match v
    case Str(s) => Printable(s)
    case Arr(es) => forall i :: 0 <= i < |es| ==> Clean(es[i])
    case Obj(ms) => KeysDiffer(ms) && forall i :: 0 <= i < |ms| ==> Printable(ms[i].key) && Clean(ms[i].value)
    case _ => true
  }

  lemma {:induction false} NormElementsAt(es: seq<Json>, i: nat)
    requires i < |es|
    ensures NormElements(es)[i] == Norm(es[i])
  {
    if i > 0 {
      NormElementsAt(es[1..], i - 1);
    }
  }

  /** The members as read, before later ones replace earlier ones. */
  ghost function ReadMembers(ms: seq<Member>): (r: seq<Member>)
    ensures |r| == |ms|
    ensures forall i :: 0 <= i < |ms| ==> r[i] == Member(Cut(ms[i].key), Norm(ms[i].value))
  {
    seq(|ms|, i requires 0 <= i < |ms| => Member(Cut(ms[i].key), Norm(ms[i].value)))
  }

  lemma ReadMembersStep(ms: seq<Member>)
    requires ms != []
    ensures ReadMembers(ms) == [Member(Cut(ms[0].key), Norm(ms[0].value))] + ReadMembers(ms[1..])
  {
    hide Cut, Norm;
  }

  lemma MiddleKeyIsNew(acc: seq<Member>, m: Member, rest: seq<Member>)
    requires KeysDiffer(acc + [m] + rest)
    ensures !HasKey(acc, m.key)
  {
    var all := acc + [m] + rest;
    forall i | 0 <= i < |acc|
      ensures acc[i].key != m.key
    {
      assert all[i] == acc[i] && all[|acc|] == m;
    }
  }

  lemma {:induction false} NormMembersKeepKeys(ms: seq<Member>, acc: seq<Member>)
    requires KeysDiffer(acc)
    ensures KeysDiffer(NormMembers(ms, acc)) && |NormMembers(ms, acc)| <= |acc| + |ms|
  {
    hide SetMember, Norm, Cut, KeysDiffer, HasKey;
    if ms != [] {
      SetMemberAt(acc, Cut(ms[0].key), Norm(ms[0].value));
      NormMembersKeepKeys(ms[1..], SetMember(acc, Cut(ms[0].key), Norm(ms[0].value)));
    }
  }

  lemma Concatenated<T>(s: seq<T>, x: T, rest: seq<T>)
    ensures s + ([x] + rest) == s + [x] + rest && s + [] == s && [] + s == s
  {
  }

  /** Reading members one by one loses none exactly when their cut keys differ from each other and from those before. */
  lemma {:induction false} NormMembersMerge(ms: seq<Member>, acc: seq<Member>, all: seq<Member>)
    requires KeysDiffer(acc) && all == acc + ReadMembers(ms)
    requires |NormMembers(ms, acc)| == |acc| + |ms| || KeysDiffer(all)
    ensures NormMembers(ms, acc) == all
  {
    hide SetMember, Norm, Cut, ReadMembers, KeysDiffer, HasKey;
    if ms == [] {
      assert ReadMembers(ms) == [];
    } else {
      var m := Member(Cut(ms[0].key), Norm(ms[0].value));
      var next, rest := SetMember(acc, m.key, m.value), ReadMembers(ms[1..]);
      ReadMembersStep(ms);
      Concatenated(acc, m, rest);
      SetMemberAt(acc, m.key, m.value);
      NormMembersKeepKeys(ms[1..], next);
      if KeysDiffer(all) {
        MiddleKeyIsNew(acc, m, rest);
      }
      NormMembersMerge(ms[1..], next, all);
    }
  }

  lemma {:induction false} NormIsIdentityOnClean(v: Json)
    requires Clean(v)
    ensures Norm(v) == v
  {
    match v
    case Arr(es) =>
      forall i | 0 <= i < |es|
        ensures NormElements(es)[i] == es[i]
      {
        NormElementsAt(es, i);
        NormIsIdentityOnClean(es[i]);
      }
      assert NormElements(es) == es;
    case Obj(ms) =>
      forall i | 0 <= i < |ms|
        ensures ReadMembers(ms)[i] == ms[i]
      {
        NormIsIdentityOnClean(ms[i].value);
      }
      assert [] + ReadMembers(ms) == ms;
      NormMembersMerge(ms, [], ms);
    case _ =>
  }

  lemma NoKeys()
    ensures KeysDiffer([])
  {
  }

  lemma AllRead(ms: seq<Member>)
    requires NormMembers(ms, []) == ms
    ensures KeysDiffer(ms) && ReadMembers(ms) == ms
  {
    hide Cut, Norm, NormMembers, KeysDiffer, ReadMembers;
    NoKeys();
    NormMembersKeepKeys(ms, []);
    assert [] + ReadMembers(ms) == ReadMembers(ms);
    NormMembersMerge(ms, [], ReadMembers(ms));
  }

  lemma ReadMemberIs(ms: seq<Member>, i: nat)
    requires i < |ms|
    ensures ReadMembers(ms)[i].key == Cut(ms[i].key) && ReadMembers(ms)[i].value == Norm(ms[i].value)
  {
    hide Cut, Norm, ReadMembers;
  }

  lemma {:induction false} NormFixesOnlyClean(v: Json)
    requires Norm(v) == v
    ensures Clean(v)
  {
    hide NormElements, NormMembers, Cut;
    match v
    case Arr(es) =>
      forall i | 0 <= i < |es|
        ensures Clean(es[i])
      {
        NormElementsAt(es, i);
        NormFixesOnlyClean(es[i]);
      }
    case Obj(ms) =>
      AllRead(ms);
      forall i | 0 <= i < |ms|
        ensures Printable(ms[i].key) && Clean(ms[i].value)
      {
        ReadMemberIs(ms, i);
        NormFixesOnlyClean(ms[i].value);
      }
    case _ =>
  }

  /** The round trip law, with its exact condition. */
  lemma RoundTrip(v: Json)
    requires Writable(v)
    ensures Parse(Text(v, 0)) == Some(v) <==> Clean(v) && Nesting(v) <= 200
    ensures Parse(Text(v, 0)) == None <==> Nesting(v) > 200
  {
    ParseOfText(v);
    if Clean(v) {
      NormIsIdentityOnClean(v);
    }
    if Norm(v) == v {
      NormFixesOnlyClean(v);
    }
  }

  // ----- every parsed value -----

  /** What is true of each value the parser returns at a depth. */
  ghost predicate WellParsed(v: Json, depth: nat) {
    DistinctKeys(v) && NulFree(v) && depth + Nesting(v) <= MAX_DEPTH
  }

  ghost predicate ElementsParsed(es: seq<Json>, depth: nat) {
    forall i :: 0 <= i < |es| ==> WellParsed(es[i], depth)
  }

  ghost predicate MembersParsed(ms: seq<Member>, depth: nat) {
    KeysDiffer(ms) && forall i :: 0 <= i < |ms| ==> NUL !in ms[i].key && WellParsed(ms[i].value, depth)
  }

  lemma {:induction false} ElementsNest(es: seq<Json>, depth: nat)
    requires ElementsParsed(es, depth) && depth <= MAX_DEPTH
    ensures depth + NestingElements(es) <= MAX_DEPTH
  {
    if es != [] {
      ElementsNest(es[1..], depth);
    }
  }

  lemma {:induction false} MembersNest(ms: seq<Member>, depth: nat)
    requires (forall i :: 0 <= i < |ms| ==> WellParsed(ms[i].value, depth)) && depth <= MAX_DEPTH
    ensures depth + NestingMembers(ms) <= MAX_DEPTH
  {
    if ms != [] {
      MembersNest(ms[1..], depth);
    }
  }

  lemma SetMemberParsed(ms: seq<Member>, key: string, value: Json, depth: nat)
    requires MembersParsed(ms, depth) && NUL !in key && WellParsed(value, depth)
    ensures MembersParsed(SetMember(ms, key, value), depth)
  {
    hide WellParsed;
    SetMemberAt(ms, key, value);
    if HasKey(ms, key) {
      assert |SetMember(ms, key, value)| == |ms|;
    }
  }

  lemma {:induction false} ParsedValueIsSound(s: string, depth: nat)
    requires depth <= MAX_DEPTH && Value(s, depth).Some?
    ensures WellParsed(Value(s, depth).value.0, depth)
    decreases |s|, 1
  {
    hide NextToken, ArrayElements, ObjectMembers;
    TokensAreSound(s);
    var r := NextToken(s);
    if r.token.ArrayStart? {
      if !(NextToken(r.rest).Good? && NextToken(r.rest).token.ArrayEnd?) {
        ParsedElementsAreSound(r.rest, depth + 1, []);
      }
    } else if r.token.ObjectStart? {
      if !(NextToken(r.rest).Good? && NextToken(r.rest).token.ObjectEnd?) {
        ParsedMembersAreSound(r.rest, depth + 1, []);
      }
    }
  }

  lemma TokensAreSound(s: string)
    ensures NextToken(s).Good? && NextToken(s).token.StringToken? ==> NUL !in NextToken(s).token.s
    ensures NextToken(s).Good? && NextToken(s).token.Number? ==> NextToken(s).token.v.Int? || NextToken(s).token.v.Double?
  {
    hide StringBody, NumberEnd;
  }

  lemma {:induction false} ParsedElementsAreSound(s: string, depth: nat, acc: seq<Json>)
    requires 0 < depth <= MAX_DEPTH && ElementsParsed(acc, depth) && ArrayElements(s, depth, acc).Some?
    ensures WellParsed(ArrayElements(s, depth, acc).value.0, depth - 1)
    decreases |s|, 2
  {
    hide NextToken, Value, WellParsed;
    ParsedValueIsSound(s, depth);
    var p := Value(s, depth).value;
    var all := acc + [p.0];
    assert ElementsParsed(all, depth);
    if NextToken(p.1).token.ArrayEnd? {
      ArrayIsSound(all, depth);
    } else {
      ParsedElementsAreSound(NextToken(p.1).rest, depth, all);
    }
  }

  lemma ArrayIsSound(es: seq<Json>, depth: nat)
    requires 0 < depth <= MAX_DEPTH && ElementsParsed(es, depth)
    ensures WellParsed(Arr(es), depth - 1)
  {
    ElementsNest(es, depth);
  }

  lemma ObjectIsSound(ms: seq<Member>, depth: nat)
    requires 0 < depth <= MAX_DEPTH && MembersParsed(ms, depth)
    ensures WellParsed(Obj(ms), depth - 1)
  {
    MembersNest(ms, depth);
  }

  lemma {:induction false} ParsedMembersAreSound(s: string, depth: nat, acc: seq<Member>)
    requires 0 < depth <= MAX_DEPTH && MembersParsed(acc, depth) && ObjectMembers(s, depth, acc).Some?
    ensures WellParsed(ObjectMembers(s, depth, acc).value.0, depth - 1)
    decreases |s|, 2
  {
    hide NextToken, Value, WellParsed, MembersParsed;
    var key := NextToken(s);
    TokensAreSound(s);
    var colon := NextToken(key.rest);
    ParsedValueIsSound(colon.rest, depth);
    var p := Value(colon.rest, depth).value;
    var all := SetMember(acc, key.token.s, p.0);
    SetMemberParsed(acc, key.token.s, p.0, depth);
    if NextToken(p.1).token.ObjectEnd? {
      ObjectIsSound(all, depth);
    } else {
      ParsedMembersAreSound(NextToken(p.1).rest, depth, all);
    }
  }

  /** Every parsed value has distinct keys in every object, NUL-free strings and at most 200 levels. */
  lemma ParseIsSound(s: string)
    requires Parse(s).Some?
    ensures var v := Parse(s).value; DistinctKeys(v) && NulFree(v) && Nesting(v) <= 200
  {
    ParsedValueIsSound(s, 0);
  }
}
