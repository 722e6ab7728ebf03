/**
 * Sequence facts shared by the validator, the statistics and the segmenter:
 * sums, extrema, ordering predicates and NumPy-style boolean-mask selection.
 */
module Sequences {

  /** Sum of a sequence, accumulated left to right. */
  function Sum(s: seq<real>): real
  {
    if |s| == 0 then 0.0 else Sum(s[..|s| - 1]) + s[|s| - 1]
  }

  /** Smallest element; the result is an element and bounds every element from below. */
  function Min(s: seq<real>): (r: real)
    requires |s| > 0
    ensures r in s
    ensures forall i :: 0 <= i < |s| ==> r <= s[i]
  {
    if |s| == 1 then s[0]
    else
      var m := Min(s[..|s| - 1]);
      if s[|s| - 1] < m then s[|s| - 1] else m
  }

  /** Largest element; the result is an element and bounds every element from above. */
  function Max(s: seq<real>): (r: real)
    requires |s| > 0
    ensures r in s
    ensures forall i :: 0 <= i < |s| ==> s[i] <= r
  {
    if |s| == 1 then s[0]
    else
      var m := Max(s[..|s| - 1]);
      if s[|s| - 1] > m then s[|s| - 1] else m
  }

  /** Magnitude of a number. */
  function AbsValue(x: real): real
  {
    if x < 0.0 then -x else x
  }

  predicate AllPositive(s: seq<real>)
  {
    forall i :: 0 <= i < |s| ==> s[i] > 0.0
  }

  predicate AllNonZero(s: seq<real>)
  {
    forall i :: 0 <= i < |s| ==> s[i] != 0.0
  }

  /** Every earlier element is smaller than every later one. */
  predicate StrictlyIncreasing(s: seq<real>)
  {
    forall i, j :: 0 <= i < j < |s| ==> s[i] < s[j]
  }

  /** Every successive difference is positive: NumPy's `all(diff(s) > 0)`. */
  predicate DiffsPositive(s: seq<real>)
  {
    forall i :: 0 <= i < |s| - 1 ==> s[i] < s[i + 1]
  }

  /** Checking neighbours is the same as checking every pair. */
  lemma {:induction false} DiffsPositiveIffIncreasing(s: seq<real>)
    ensures DiffsPositive(s) <==> StrictlyIncreasing(s)
  {
    if DiffsPositive(s) && |s| > 1 {
      var t := s[..|s| - 1];
      assert DiffsPositive(t);
      DiffsPositiveIffIncreasing(t);
      forall i, j | 0 <= i < j < |s| ensures s[i] < s[j] {
        if j < |s| - 1 {
          assert t[i] < t[j];
        } else if i < j - 1 {
          assert t[i] < t[j - 1];
        }
      }
    }
  }

  /** Number of `true` entries of a mask. */
  function Count(mask: seq<bool>): nat
  {
    if |mask| == 0 then 0 else (if mask[0] then 1 else 0) + Count(mask[1..])
  }

  lemma {:induction false} CountPositive(mask: seq<bool>)
    ensures Count(mask) > 0 <==> exists i :: 0 <= i < |mask| && mask[i]
  {
    if |mask| > 0 {
      CountPositive(mask[1..]);
      if exists i :: 0 <= i < |mask| && mask[i] {
        var i :| 0 <= i < |mask| && mask[i];
        if i > 0 { assert mask[1..][i - 1]; }
      }
      if exists i :: 0 <= i < |mask[1..]| && mask[1..][i] {
        var i :| 0 <= i < |mask[1..]| && mask[1..][i];
        assert mask[i + 1];
      }
    }
  }

  /** Counting the bits of a prefix one position further. */
  lemma CountPrefixStep(mask: seq<bool>, i: nat)
    requires i < |mask|
    ensures Count(mask[..i + 1]) == Count(mask[..i]) + (if mask[i] then 1 else 0)
    decreases i
  {
    if i > 0 {
      assert mask[..i + 1][1..] == mask[1..][..i];
      assert mask[..i][1..] == mask[1..][..i - 1];
      CountPrefixStep(mask[1..], i - 1);
    }
  }

  /**
   * The position of the `j`-th set bit of a mask: a set bit with exactly `j`
   * set bits before it.
   */
  function Nth(mask: seq<bool>, j: nat): (i: nat)
    requires j < Count(mask)
    ensures i < |mask| && mask[i]
  {
    if mask[0] && j == 0 then 0
    else 1 + Nth(mask[1..], if mask[0] then j - 1 else j)
  }

  /** Exactly `j` set bits come before the `j`-th one. */
  lemma {:induction false} NthCount(mask: seq<bool>, j: nat)
    requires j < Count(mask)
    ensures Count(mask[..Nth(mask, j)]) == j
  {
    assert mask[1..][..0] == [] && mask[..1] == [mask[0]];
    if !(mask[0] && j == 0) {
      var j' := if mask[0] then j - 1 else j;
      NthCount(mask[1..], j');
      var i' := Nth(mask[1..], j');
      assert mask[..i' + 1][1..] == mask[1..][..i'];
    }
  }

  /** Later set bits sit at later positions. */
  lemma {:induction false} NthIncreasing(mask: seq<bool>, j: nat, k: nat)
    requires j < k < Count(mask)
    ensures Nth(mask, j) < Nth(mask, k)
  {
    NthCount(mask, j);
    NthCount(mask, k);
    if Nth(mask, k) <= Nth(mask, j) {
      CountPrefixMonotone(mask, Nth(mask, k), Nth(mask, j));
    }
  }

  /** A longer prefix has at least as many set bits. */
  lemma {:induction false} CountPrefixMonotone(mask: seq<bool>, a: nat, b: nat)
    requires a <= b <= |mask|
    ensures Count(mask[..a]) <= Count(mask[..b])
    decreases b - a
  {
    if a < b {
      CountPrefixStep(mask, a);
      CountPrefixMonotone(mask, a + 1, b);
    }
  }

  /** Every set bit is the `j`-th one for the number `j` of set bits before it. */
  lemma NthOfSetBit(mask: seq<bool>, i: nat)
    requires i < |mask| && mask[i]
    ensures Count(mask[..i]) < Count(mask)
    ensures Nth(mask, Count(mask[..i])) == i
  {
    CountPrefixStep(mask, i);
    CountPrefixMonotone(mask, i + 1, |mask|);
    assert mask[..|mask|] == mask;
    NthCount(mask, Count(mask[..i]));
    var n := Nth(mask, Count(mask[..i]));
    if n < i {
      CountPrefixStep(mask, n);
      CountPrefixMonotone(mask, n + 1, i);
    } else if i < n {
      CountPrefixStep(mask, i);
      CountPrefixMonotone(mask, i + 1, n);
    }
  }

  /** NumPy boolean-mask indexing `xs[mask]`: the entries whose mask bit is set, in order. */
  function Select(xs: seq<real>, mask: seq<bool>): (r: seq<real>)
    requires |mask| == |xs|
    ensures |r| == Count(mask)
    ensures forall x :: x in r <==> exists i :: 0 <= i < |xs| && mask[i] && xs[i] == x
  {
    if |xs| == 0 then []
    else
      var rest := Select(xs[1..], mask[1..]);
      (if mask[0] then [xs[0]] else []) + rest
  }

  /**
   * Entry `j` of a selection is the entry at the `j`-th set bit. With
   * `NthIncreasing` and `NthOfSetBit` this fixes the selection completely:
   * every selected entry, once each, in the order of the input.
   */
  lemma {:induction false} SelectAt(xs: seq<real>, mask: seq<bool>)
    requires |mask| == |xs|
    ensures forall j :: 0 <= j < |Select(xs, mask)| ==> Select(xs, mask)[j] == xs[Nth(mask, j)]
  {
    if |xs| > 0 {
      var rest := Select(xs[1..], mask[1..]);
      SelectAt(xs[1..], mask[1..]);
      var r := Select(xs, mask);
      assert r == (if mask[0] then [xs[0]] else []) + rest;
      forall j | 0 <= j < |r| ensures r[j] == xs[Nth(mask, j)] {
        if !mask[0] {
          assert r[j] == rest[j] == xs[1..][Nth(mask[1..], j)];
        } else if j > 0 {
          assert r[j] == rest[j - 1] == xs[1..][Nth(mask[1..], j - 1)];
        }
      }
    }
  }

  /** Each selected entry `i` sits in the selection at the number of set bits before it. */
  lemma SelectPositions(xs: seq<real>, mask: seq<bool>)
    requires |mask| == |xs|
    ensures forall i :: 0 <= i < |xs| && mask[i] ==>
              Count(mask[..i]) < |Select(xs, mask)| && Select(xs, mask)[Count(mask[..i])] == xs[i]
  {
    SelectAt(xs, mask);
    forall i | 0 <= i < |xs| && mask[i]
      ensures Count(mask[..i]) < |Select(xs, mask)| && Select(xs, mask)[Count(mask[..i])] == xs[i]
    {
      NthOfSetBit(mask, i);
    }
  }

  /** Masking a strictly increasing sequence leaves it strictly increasing. */
  lemma {:induction false} SelectIncreasing(xs: seq<real>, mask: seq<bool>)
    requires |mask| == |xs| && StrictlyIncreasing(xs)
    ensures StrictlyIncreasing(Select(xs, mask))
  {
    if |xs| > 0 {
      var rest := Select(xs[1..], mask[1..]);
      SelectIncreasing(xs[1..], mask[1..]);
      if mask[0] {
        var r := [xs[0]] + rest;
        forall j | 0 < j < |r| ensures xs[0] < r[j] {
          assert r[j] in rest;
        }
        assert Select(xs, mask) == r;
      }
    }
  }

  /** An all-true mask selects everything. */
  lemma {:induction false} SelectAll(xs: seq<real>, mask: seq<bool>)
    requires |mask| == |xs| && forall i :: 0 <= i < |mask| ==> mask[i]
    ensures Select(xs, mask) == xs
  {
    if |xs| > 0 {
      SelectAll(xs[1..], mask[1..]);
    }
  }

  // ---------------------------------------------------------------- arithmetic facts

  /** Dividing a product by one factor gives back the other. */
  lemma MulDivCancel(x: real, y: real)
    requires y != 0.0
    ensures (x * y) / y == x
  {
  }

  /** Dividing `a + n * c` by `n` shifts the quotient by `c`. */
  lemma DivShift(a: real, n: real, c: real)
    requires n != 0.0
    ensures (a + n * c) / n == a / n + c
  {
  }

  /** The product of two positive numbers is positive. */
  lemma ProductPositive(a: real, b: real)
    requires a > 0.0 && b > 0.0
    ensures a * b > 0.0
  {
  }

  /** Multiplying by a positive factor keeps a strict inequality. */
  lemma ScaleStrict(k: real, a: real, b: real)
    requires k > 0.0 && a < b
    ensures k * a < k * b
  {
    ProductPositive(k, b - a);
    assert k * b - k * a == k * (b - a);
  }
}
