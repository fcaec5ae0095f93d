/** Searching a text line by line, as the editing providers do. */
module TextLines {
  import opened Common

  predicate OneLine(s: string) {
    '\n' !in s
  }

  predicate OccursAt(text: string, pattern: string, p: nat) {
    p + |pattern| <= |text| && text[p..p + |pattern|] == pattern
  }

  /** The first occurrence of the pattern at or after a position. */
  method StrStr(text: string, from: nat, pattern: string) returns (at: Option<nat>)
    requires from <= |text|
    ensures at.None? ==> forall p :: from <= p ==> !OccursAt(text, pattern, p)
    ensures at.Some? ==> from <= at.value && OccursAt(text, pattern, at.value)
    ensures at.Some? ==> forall p :: from <= p < at.value ==> !OccursAt(text, pattern, p)
  {
    var p := from;
    while p <= |text|
      invariant from <= p <= |text| + 1
      invariant forall k :: from <= k < p ==> !OccursAt(text, pattern, k)
    {
      if OccursAt(text, pattern, p) {
        return Some(p);
      }
      p := p + 1;
    }
    return None;
  }

  /** The position after the line that holds p: past its newline, or the end of the text. */
  function NextLine(text: string, p: nat): (q: nat)
    requires p <= |text|
    ensures p <= q <= |text| && (p < |text| ==> p < q)
    decreases |text| - p
  {
    if p == |text| then p else if text[p] == '\n' then p + 1 else NextLine(text, p + 1)
  }

  /** The end of the line that holds p, before its newline. */
  function LineEnd(text: string, p: nat): (e: nat)
    requires p <= |text|
    ensures p <= e <= |text|
    decreases |text| - p
  {
    if p == |text| || text[p] == '\n' then p else LineEnd(text, p + 1)
  }

  lemma {:induction false} LineEndFacts(text: string, p: nat)
    requires p <= |text|
    ensures var e := LineEnd(text, p);
            && OneLine(text[p..e]) && (e < |text| ==> text[e] == '\n')
            && NextLine(text, p) == if e < |text| then e + 1 else e
    decreases |text| - p
  {
    if p < |text| && text[p] != '\n' {
      LineEndFacts(text, p + 1);
      assert text[p..LineEnd(text, p)] == [text[p]] + text[p + 1..LineEnd(text, p)];
    }
  }

  /** The line ends at the newline that follows it. */
  lemma {:induction false} NextLineIs(text: string, p: nat, q: nat)
    requires p <= q <= |text| && OneLine(text[p..q]) && (q == |text| || text[q] == '\n')
    ensures LineEnd(text, p) == q
    ensures NextLine(text, p) == if q == |text| then q else q + 1
    decreases q - p
  {
    if p < q {
      assert text[p] == text[p..q][0];
      assert text[p + 1..q] == text[p..q][1..];
      NextLineIs(text, p + 1, q);
    }
  }

  lemma OneLineAt(text: string, p: nat, q: nat)
    requires p <= q <= |text| && OneLine(text[p..q])
    ensures forall i :: p <= i < q ==> text[i] != '\n'
  {
    forall i | p <= i < q
      ensures text[i] != '\n'
    {
      assert text[i] == text[p..q][i - p];
    }
  }

  lemma SliceOfSlice(text: string, from: nat, to: nat, p: nat, q: nat)
    requires from <= p <= q <= to <= |text|
    ensures text[from..to][p - from..q - from] == text[p..q]
  {
    var l, r := text[from..to][p - from..q - from], text[p..q];
    assert |l| == |r|;
    assert forall i :: 0 <= i < |l| ==> l[i] == text[p + i] == r[i];
  }

  predicate LineStart(text: string, p: nat)
    requires p <= |text|
  {
    p == 0 || text[p - 1] == '\n'
  }

  /** The text with a newline at its end, unless it is empty. */
  function WithFinalNewline(text: string): string {
    if text != "" && text[|text| - 1] != '\n' then text + "\n" else text
  }
}
