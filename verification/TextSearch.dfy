/** Searching in a string, as std::string::find does. */
module TextSearch {
  import opened Pdef

  ghost predicate OccursAt(text: string, pattern: string, i: nat) {
    i + |pattern| <= |text| && text[i..i + |pattern|] == pattern
  }

  /** The first occurrence of `pattern` at or after `from`. */
  function Find(text: string, pattern: string, from: nat): (r: Option<nat>)
    ensures r.Some? ==> from <= r.value && OccursAt(text, pattern, r.value)
    ensures forall i: nat :: from <= i && OccursAt(text, pattern, i) ==> r.Some? && r.value <= i
    decreases |text| - from
  {
    if from + |pattern| > |text| then None
    else if text[from..from + |pattern|] == pattern then Some(from)
    else Find(text, pattern, from + 1)
  }

  /** The position Find gives is determined by being the first occurrence. */
  lemma FindIs(text: string, pattern: string, from: nat, k: nat)
    requires from <= k && OccursAt(text, pattern, k)
    requires forall i: nat :: from <= i < k ==> !OccursAt(text, pattern, i)
    ensures Find(text, pattern, from) == Some(k)
  {
  }

  /** Position k is the first occurrence at or after `from`. */
  ghost predicate IsFirst(text: string, pattern: string, from: nat, k: int) {
    from <= k && OccursAt(text, pattern, k) && forall i: nat :: from <= i < k ==> !OccursAt(text, pattern, i)
  }

  lemma FindExactly(text: string, pattern: string, from: nat, k: nat)
    ensures Find(text, pattern, from) == Some(k) <==> IsFirst(text, pattern, from, k)
  {
    if IsFirst(text, pattern, from, k) {
      FindIs(text, pattern, from, k);
    }
  }

  /** What is found inside a common prefix of two texts is found in both. */
  lemma FindInPrefix(text: string, other: string, pattern: string, from: nat, len: nat)
    requires len <= |text| && len <= |other| && text[..len] == other[..len]
    requires Find(text, pattern, from).Some? && Find(text, pattern, from).value + |pattern| <= len
    ensures Find(other, pattern, from) == Find(text, pattern, from)
  {
    var k := Find(text, pattern, from).value;
    forall i: nat | i + |pattern| <= len
      ensures OccursAt(text, pattern, i) <==> OccursAt(other, pattern, i)
    {
      assert text[i..i + |pattern|] == text[..len][i..i + |pattern|];
      assert other[i..i + |pattern|] == other[..len][i..i + |pattern|];
    }
    assert OccursAt(other, pattern, k);
    assert forall i: nat :: from <= i < k ==> i + |pattern| <= len && !OccursAt(text, pattern, i);
    FindIs(other, pattern, from, k);
  }

  lemma OccursChar(text: string, c: char, i: nat)
    ensures OccursAt(text, [c], i) <==> i < |text| && text[i] == c
  {
    if i < |text| {
      assert text[i..i + 1] == [text[i]];
      assert [text[i]][0] == text[i] && [c][0] == c;
    }
  }

  /** A single character is found at its first place. */
  lemma FindCharIs(text: string, c: char, from: nat, k: nat)
    requires from <= k < |text| && text[k] == c
    requires forall i :: from <= i < k ==> text[i] != c
    ensures Find(text, [c], from) == Some(k)
  {
    OccursChar(text, c, k);
    forall i: nat | from <= i < k
      ensures !OccursAt(text, [c], i)
    {
      OccursChar(text, c, i);
    }
    FindIs(text, [c], from, k);
  }

  lemma FoundChar(text: string, c: char, from: nat)
    ensures var r := Find(text, [c], from);
      r.Some? ==> from <= r.value < |text| && text[r.value] == c
  {
    var r := Find(text, [c], from);
    if r.Some? {
      OccursChar(text, c, r.value);
    }
  }
}
