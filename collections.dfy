/** Order-keeping sequence operations shared by the list endpoints:
    de-duplication in first-appearance order (`[...new Set(xs)]`, or a
    `reduce` into an object keyed by the element) and the index of an
    element's first appearance. */
module Collections {

  /** The index of the first `x` in `xs`. */
  function FirstIndex<T(==)>(xs: seq<T>, x: T): (r: nat)
    requires x in xs
    ensures r < |xs| && xs[r] == x && x !in xs[..r]
  {
    var last := |xs| - 1;
    if x in xs[..last] then FirstIndex(xs[..last], x) else last
  }

  /** `[...new Set(xs)]`: the distinct elements of `xs` in the order of
      their first appearance. */
  function Dedupe<T(==, !new)>(xs: seq<T>): (r: seq<T>)
    ensures forall x :: x in r <==> x in xs
  {
    if |xs| == 0 then []
    else
      var d := Dedupe(xs[..|xs| - 1]);
      if xs[|xs| - 1] in d then d else d + [xs[|xs| - 1]]
  }

  predicate NoDuplicates<T(==)>(xs: seq<T>) {
    forall i, j :: 0 <= i < j < |xs| ==> xs[i] != xs[j]
  }

  /** No element occurs twice in a de-duplicated sequence. */
  lemma {:induction false} DedupeNoDuplicates<T(!new)>(xs: seq<T>)
    ensures NoDuplicates(Dedupe(xs))
  {
    if |xs| > 0 {
      DedupeNoDuplicates(xs[..|xs| - 1]);
    }
  }

  /** The elements come in the order of their first appearance in `xs`. */
  lemma {:induction false} DedupeFirstAppearanceOrder<T(!new)>(xs: seq<T>)
    ensures forall i, j :: 0 <= i < j < |Dedupe(xs)| ==> FirstIndex(xs, Dedupe(xs)[i]) < FirstIndex(xs, Dedupe(xs)[j])
  {
    if |xs| > 0 {
      var p := xs[..|xs| - 1];
      DedupeFirstAppearanceOrder(p);
      var d := Dedupe(p);
      forall x | x in d
        ensures x in xs && FirstIndex(xs, x) == FirstIndex(p, x) < |xs| - 1
      {
        assert xs[..|xs| - 1] == p;
        FirstIndexPrefix(xs, |xs| - 1, x);
      }
    }
  }

  /** De-duplicating a prefix one element longer appends that element when
      it is new and changes nothing otherwise. */
  lemma DedupeSnoc<T(!new)>(xs: seq<T>, n: nat)
    requires n < |xs|
    ensures Dedupe(xs[..n + 1]) == if xs[n] in Dedupe(xs[..n]) then Dedupe(xs[..n]) else Dedupe(xs[..n]) + [xs[n]]
  {
    assert xs[..n + 1][..n] == xs[..n];
  }

  /** Within a prefix that contains `x`, its first index is the same as in
      the whole sequence. */
  lemma {:induction false} FirstIndexPrefix<T>(xs: seq<T>, n: nat, x: T)
    requires n <= |xs| && x in xs[..n]
    ensures x in xs && FirstIndex(xs[..n], x) == FirstIndex(xs, x)
    decreases |xs|
  {
    if n < |xs| {
      var last := |xs| - 1;
      assert xs[..last][..n] == xs[..n];
      FirstIndexPrefix(xs[..last], n, x);
    } else {
      assert xs[..n] == xs;
    }
  }

  /** An element that does not occur before index `i` first appears at `i`. */
  lemma FirstIndexAt<T>(xs: seq<T>, i: nat)
    requires i < |xs| && xs[i] !in xs[..i]
    ensures FirstIndex(xs, xs[i]) == i
  {
    var r := FirstIndex(xs, xs[i]);
    assert forall k :: 0 <= k < i ==> xs[..i][k] == xs[k];
    assert forall k :: 0 <= k < r ==> xs[..r][k] == xs[k];
  }

  /** A sequence with no members is empty. */
  lemma NoMembersEmpty<T>(xs: seq<T>)
    ensures (forall x :: x !in xs) ==> xs == []
  {
    if xs != [] {
      assert xs[0] in xs;
    }
  }

  /** `xs.filter(p)`: the elements that satisfy `p`, in their order. */
  function Keep<T>(xs: seq<T>, p: T -> bool): (r: seq<T>)
    ensures |r| <= |xs|
  {
    if |xs| == 0 then []
    else Keep(xs[..|xs| - 1], p) + if p(xs[|xs| - 1]) then [xs[|xs| - 1]] else []
  }

  /** An element is kept iff it is in `xs` and satisfies `p`. */
  lemma {:induction false} KeepMembers<T>(xs: seq<T>, p: T -> bool)
    ensures forall x :: x in Keep(xs, p) <==> x in xs && p(x)
  {
    if |xs| > 0 {
      KeepMembers(xs[..|xs| - 1], p);
      assert xs == xs[..|xs| - 1] + [xs[|xs| - 1]];
    }
  }

  /** Every kept element comes from `xs`. */
  lemma KeepElement<T>(xs: seq<T>, p: T -> bool, i: nat)
    requires i < |Keep(xs, p)|
    ensures exists m :: 0 <= m < |xs| && xs[m] == Keep(xs, p)[i]
  {
    KeepMembers(xs, p);
    var k := Keep(xs, p);
    assert k[i] in k;
  }

  /** Filtering keeps the relative order of what it keeps: two kept
      elements come from two positions of `xs` in the same order. */
  lemma {:induction false} KeepKeepsOrder<T>(xs: seq<T>, p: T -> bool, i: nat, j: nat)
    requires i < j < |Keep(xs, p)|
    ensures exists m, n :: 0 <= m < n < |xs| && xs[m] == Keep(xs, p)[i] && xs[n] == Keep(xs, p)[j]
  {
    var init := xs[..|xs| - 1];
    var k := Keep(init, p);
    var r := Keep(xs, p);
    if j < |k| {
      KeepKeepsOrder(init, p, i, j);
      var m, n :| 0 <= m < n < |init| && init[m] == k[i] && init[n] == k[j];
      assert xs[m] == r[i] && xs[n] == r[j];
    } else {
      assert p(xs[|xs| - 1]) && r == k + [xs[|xs| - 1]];
      KeepElement(init, p, i);
      var m :| 0 <= m < |init| && init[m] == k[i];
      assert xs[m] == r[i] && xs[|xs| - 1] == r[j];
    }
  }

  /** Elements that occur once in `xs` occur once after filtering. */
  lemma {:induction false} KeepNoDuplicates<T>(xs: seq<T>, p: T -> bool)
    requires NoDuplicates(xs)
    ensures NoDuplicates(Keep(xs, p))
  {
    if |xs| > 0 {
      var init := xs[..|xs| - 1];
      KeepNoDuplicates(init, p);
      KeepMembers(init, p);
      if p(xs[|xs| - 1]) {
        assert xs[|xs| - 1] !in init;
      }
    }
  }
}
