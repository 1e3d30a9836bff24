/**
 * The category store's data: one record per pie slice, the running total of
 * the slice values, clamping of negative inputs, and the descending sort
 * applied after a batch insertion.
 */
module PieValues {

  /** One slice: a label, an opaque colour token, its weight and its end angle in degrees. */
  datatype PieValue = PieValue(name: string, color: string, value: real, angle: real)

  /** The larger of zero and `v`: the weight actually stored for an input weight `v`. */
  function Max0(v: real): (r: real)
    ensures r >= 0.0 && r >= v
    ensures r == v || r == 0.0
  {
    if v < 0.0 then 0.0 else v
  }

  /** The record as it is stored: the weight clamped to zero, everything else kept. */
  function Clamp(p: PieValue): PieValue {
    p.(value := Max0(p.value))
  }

  /** Every record of a batch clamped, in order. */
  function ClampAll(ps: seq<PieValue>): (r: seq<PieValue>)
    ensures |r| == |ps|
    ensures forall i :: 0 <= i < |ps| ==> r[i] == Clamp(ps[i])
    ensures NonNegative(r)
  {
    seq(|ps|, i requires 0 <= i < |ps| => Clamp(ps[i]))
  }

  /** Clamping one more record of a batch appends its clamped copy. */
  lemma ClampAllStep(ps: seq<PieValue>, i: nat)
    requires i < |ps|
    ensures ClampAll(ps[..i + 1]) == ClampAll(ps[..i]) + [Clamp(ps[i])]
  {
    assert ClampAll(ps[..i + 1])[..i] == ClampAll(ps[..i]);
  }

  /** A permutation of non-negative weights has non-negative weights. */
  lemma NonNegativePermutation(a: seq<PieValue>, b: seq<PieValue>)
    requires multiset(a) == multiset(b) && NonNegative(a)
    ensures NonNegative(b)
  {
    forall i | 0 <= i < |b|
      ensures b[i].value >= 0.0
    {
      assert b[i] in multiset(a);
      var j :| 0 <= j < |a| && a[j] == b[i];
    }
  }

  /** The total weight of a sequence of slices. */
  function Sum(s: seq<PieValue>): real {
    if s == [] then 0.0 else Sum(s[..|s| - 1]) + s[|s| - 1].value
  }

  predicate NonNegative(s: seq<PieValue>) {
    forall i :: 0 <= i < |s| ==> s[i].value >= 0.0
  }

  /** Weights never increase along the sequence (ties in any order). */
  predicate SortedDescending(s: seq<PieValue>) {
    forall i, j :: 0 <= i < j < |s| ==> s[i].value >= s[j].value
  }

  /** Appending one slice adds exactly its weight to the total. */
  lemma SumAppend(s: seq<PieValue>, p: PieValue)
    ensures Sum(s + [p]) == Sum(s) + p.value
  {
    assert (s + [p])[..|s|] == s;
  }

  /** Appending a non-negative weight keeps every weight non-negative. */
  lemma NonNegativeAppend(s: seq<PieValue>, p: PieValue)
    requires NonNegative(s) && p.value >= 0.0
    ensures NonNegative(s + [p])
  {
  }

  /** Extending a prefix by one element adds that element's weight. */
  lemma SumPrefixStep(s: seq<PieValue>, i: nat)
    requires i < |s|
    ensures Sum(s[..i + 1]) == Sum(s[..i]) + s[i].value
  {
    assert s[..i + 1][..i] == s[..i];
  }

  /** The total of a concatenation is the sum of the totals. */
  lemma {:induction false} SumConcat(a: seq<PieValue>, b: seq<PieValue>)
    ensures Sum(a + b) == Sum(a) + Sum(b)
    decreases |b|
  {
    if b == [] {
      assert a + b == a;
    } else {
      var b' := b[..|b| - 1];
      assert (a + b)[..|a + b| - 1] == a + b';
      SumConcat(a, b');
    }
  }

  /** With non-negative weights, a longer prefix never has a smaller total. */
  lemma {:induction false} PrefixSumMonotone(s: seq<PieValue>, i: nat, j: nat)
    requires NonNegative(s)
    requires i <= j <= |s|
    ensures Sum(s[..i]) <= Sum(s[..j])
    decreases j - i
  {
    if i < j {
      PrefixSumMonotone(s, i, j - 1);
      SumPrefixStep(s, j - 1);
    }
  }

  /** The total only depends on the weights, not on names, colours or angles. */
  lemma {:induction false} SumSameWeights(a: seq<PieValue>, b: seq<PieValue>)
    requires |a| == |b|
    requires forall i :: 0 <= i < |a| ==> a[i].value == b[i].value
    ensures Sum(a) == Sum(b)
    decreases |a|
  {
    if a != [] {
      SumSameWeights(a[..|a| - 1], b[..|b| - 1]);
    }
  }

  /** A sequence is its part before `j`, its element at `j` and its part after `j`. */
  lemma SplitAt(b: seq<PieValue>, j: nat)
    requires j < |b|
    ensures b == (b[..j] + [b[j]]) + b[j + 1..]
  {
  }

  /** Taking one slice out of a sequence takes exactly its weight off the total. */
  lemma SumRemoveAt(b: seq<PieValue>, j: nat)
    requires j < |b|
    ensures Sum(b) == Sum(b[..j] + b[j + 1..]) + b[j].value
  {
    var left, right := b[..j], b[j + 1..];
    var withIt := left + [b[j]];
    SplitAt(b, j);
    SumConcat(withIt, right);
    SumAppend(left, b[j]);
    SumConcat(left, right);
  }

  /**
   * The last slice of `a` sits at some index `j` of its permutation `b`, and
   * what remains of the two on removing them is again a permutation.
   */
  lemma RemoveMatching(a: seq<PieValue>, b: seq<PieValue>) returns (j: nat)
    requires multiset(a) == multiset(b) && |a| > 0
    ensures j < |b| && b[j] == a[|a| - 1]
    ensures multiset(a[..|a| - 1]) == multiset(b[..j] + b[j + 1..])
  {
    var x := a[|a| - 1];
    assert a == a[..|a| - 1] + [x];
    assert x in multiset(b);
    j :| 0 <= j < |b| && b[j] == x;
    SplitAt(b, j);
    assert multiset(b[..j] + b[j + 1..]) == multiset(b) - multiset{x};
  }

  /** The total depends only on the multiset of slices, not on their order. */
  lemma {:induction false} SumPermutation(a: seq<PieValue>, b: seq<PieValue>)
    requires multiset(a) == multiset(b)
    ensures Sum(a) == Sum(b)
    decreases |a|
  {
    if a == [] {
      assert |multiset(b)| == 0;
    } else {
      var j := RemoveMatching(a, b);
      SumPermutation(a[..|a| - 1], b[..j] + b[j + 1..]);
      SumRemoveAt(b, j);
    }
  }

  /** `s` with the elements at `i` and `j` exchanged. */
  function Swap(s: seq<PieValue>, i: nat, j: nat): (r: seq<PieValue>)
    requires i < |s| && j < |s|
    ensures |r| == |s| && r[i] == s[j] && r[j] == s[i]
    ensures forall k :: 0 <= k < |s| && k != i && k != j ==> r[k] == s[k]
    ensures multiset(r) == multiset(s)
  {
    s[i := s[j]][j := s[i]]
  }

  /** The index of a heaviest slice among s[from..]. */
  method IndexOfHeaviest(s: seq<PieValue>, from: nat) returns (m: nat)
    requires from < |s|
    ensures from <= m < |s|
    ensures forall q :: from <= q < |s| ==> s[m].value >= s[q].value
  {
    m := from;
    var j := from + 1;
    while j < |s|
      invariant from <= m < j <= |s|
      invariant forall q :: from <= q < j ==> s[m].value >= s[q].value
    {
      if s[j].value > s[m].value {
        m := j;
      }
      j := j + 1;
    }
  }

  /**
   * Sorts the slices so that weights never increase. This stands for the
   * library sort the store uses, which is not stable: only the order of
   * the weights and the permutation are promised, not the order of ties.
   */
  method SortByValueDescending(s: seq<PieValue>) returns (r: seq<PieValue>)
    ensures SortedDescending(r)
    ensures multiset(r) == multiset(s)
  {
    r := s;
    var i := 0;
    while i < |r|
      invariant 0 <= i <= |r|
      invariant multiset(r) == multiset(s)
      invariant forall p, q :: 0 <= p < q < i ==> r[p].value >= r[q].value
      invariant forall p, q :: 0 <= p < i <= q < |r| ==> r[p].value >= r[q].value
    {
      var m := IndexOfHeaviest(r, i);
      r := Swap(r, i, m);
      i := i + 1;
    }
  }
}
