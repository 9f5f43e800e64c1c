/** Occurrences of one sequence in another. */
module Search {
  import opened Wrappers

  ghost predicate OccursAt<T>(s: seq<T>, b: seq<T>, i: int)
  {
    0 <= i <= |s| - |b| && s[i..i + |b|] == b
  }

  ghost predicate Contains<T>(s: seq<T>, b: seq<T>)
  {
    exists i :: OccursAt(s, b, i)
  }

  /** Occurrences past a cut are occurrences in what was cut off. */
  lemma OccursInDrop<T>(s: seq<T>, d: nat, b: seq<T>, i: nat)
    requires d <= |s|
    ensures OccursAt(s[d..], b, i) <==> OccursAt(s, b, d + i)
  {
    if d + i + |b| <= |s| {
      assert s[d..][i..i + |b|] == s[d + i..d + i + |b|];
    }
  }

  function FirstFrom<T(==)>(s: seq<T>, b: seq<T>, i: nat): (r: Option<nat>)
    ensures r.Some? ==> i <= r.value && OccursAt(s, b, r.value) && forall k :: i <= k < r.value ==> !OccursAt(s, b, k)
    ensures r.None? ==> forall k :: i <= k ==> !OccursAt(s, b, k)
    decreases |s| - i
  {
    if i + |b| > |s| then None
    else if s[i..i + |b|] == b then Some(i)
    else FirstFrom(s, b, i + 1)
  }

  /** The first place a character stands. */
  function IndexOf(s: string, c: char): (r: Option<nat>)
    ensures r.Some? ==> r.value < |s| && s[r.value] == c && c !in s[..r.value]
  {
    if s == "" then None
    else if s[0] == c then Some(0)
    else
      var rest := IndexOf(s[1..], c);
      if rest.None? then None
      else
        assert s[..rest.value + 1] == [s[0]] + s[1..][..rest.value];
        Some(rest.value + 1)
  }

  lemma {:induction false} IndexOfFirst(a: string, c: char, rest: string)
    requires c !in a
    ensures IndexOf(a + [c] + rest, c) == Some(|a|)
  {
    var s := a + [c] + rest;
    if a != "" {
      IndexOfFirst(a[1..], c, rest);
      assert s[1..] == a[1..] + [c] + rest;
    }
  }
}
