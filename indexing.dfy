/**
 * The pieces of Python and torch indexing that the modelled code relies on:
 * `torch.arange`, slicing with possibly negative bounds, list indexing with
 * negative indices, `int()` of a float, and boolean-mask selection.
 */
module Indexing {
  import opened Wrappers

  /** `torch.arange(n)`. */
  function Range(n: nat): (r: seq<int>)
    ensures |r| == n
    ensures forall i :: 0 <= i < n ==> r[i] == i
  {
    seq(n, i => i)
  }

  predicate StrictlyIncreasing(s: seq<int>)
  {
    forall i, j :: 0 <= i < j < |s| ==> s[i] < s[j]
  }

  /** `int(x)` of a Python float: truncation toward zero. */
  function Trunc(x: real): (r: int)
    ensures 0.0 <= x ==> 0 <= r && r as real <= x < r as real + 1.0
    ensures x < 0.0 ==> r <= 0 && r as real - 1.0 < x <= r as real
  {
    if 0.0 <= x then x.Floor else -((-x).Floor)
  }

  /** Where a slice bound `i` lands in a sequence of length `n`: negative bounds count from the end, and both ends are clamped. */
  function SliceBound(i: int, n: nat): (b: nat)
    ensures b <= n
    ensures 0 <= i <= n ==> b == i
    ensures i > n ==> b == n
    ensures i < 0 ==> b == if i + n < 0 then 0 else i + n
  {
    if i < 0 then (if i + n < 0 then 0 else i + n)
    else if i > n then n
    else i
  }

  /** `s[lo:hi]`, where a missing bound is `None`. */
  function Slice<T>(s: seq<T>, lo: Option<int>, hi: Option<int>): (r: seq<T>)
    ensures |r| <= |s|
    ensures lo.None? ==> r == s[..|r|]
    ensures hi.None? ==> r == s[|s| - |r|..]
    ensures lo.Some? && hi.Some? && 0 <= lo.value <= hi.value <= |s| ==> r == s[lo.value..hi.value]
  {
    var a := if lo.None? then 0 else SliceBound(lo.value, |s|);
    var b := if hi.None? then |s| else SliceBound(hi.value, |s|);
    if a <= b then s[a..b] else []
  }

  /** `s[i]` on a Python list: `None` stands for the `IndexError`. */
  function PyIndex<T>(s: seq<T>, i: int): (r: Option<T>)
    ensures r.Some? <==> -|s| <= i < |s|
    ensures 0 <= i < |s| ==> r == Some(s[i])
    ensures -|s| <= i < 0 ==> r == Some(s[|s| + i])
  {
    if 0 <= i < |s| then Some(s[i])
    else if -|s| <= i < 0 then Some(s[|s| + i])
    else None
  }

  /**
   * `xs[m]` for a boolean mask `m` of the same length: the elements whose mask
   * entry is true, in their original order.
   */
  function Masked(xs: seq<int>, m: seq<bool>): (r: seq<int>)
    requires |xs| == |m|
    ensures |r| == multiset(m)[true]
    decreases |xs|
  {
    if |xs| == 0 then []
    else
      var k := |xs| - 1;
      assert m == m[..k] + [m[k]];
      Masked(xs[..k], m[..k]) + (if m[k] then [xs[k]] else [])
  }

  /** Selection keeps exactly the elements whose mask entry is true. */
  lemma {:induction false} MaskedMembers(xs: seq<int>, m: seq<bool>)
    requires |xs| == |m|
    ensures forall i :: 0 <= i < |xs| && m[i] ==> xs[i] in Masked(xs, m)
    ensures forall x :: x in Masked(xs, m) ==> exists i :: 0 <= i < |xs| && m[i] && xs[i] == x
    decreases |xs|
  {
    if |xs| > 0 {
      var k := |xs| - 1;
      var front := Masked(xs[..k], m[..k]);
      MaskedMembers(xs[..k], m[..k]);
      var r := front + (if m[k] then [xs[k]] else []);
      assert Masked(xs, m) == r;
      forall i | 0 <= i < |xs| && m[i] ensures xs[i] in r {
        if i < k {
          assert xs[..k][i] == xs[i] && m[..k][i];
        }
      }
      forall x | x in r ensures exists i :: 0 <= i < |xs| && m[i] && xs[i] == x {
        if x in front {
          var i :| 0 <= i < k && m[..k][i] && xs[..k][i] == x;
          assert m[i] && xs[i] == x;
        } else {
          assert m[k] && xs[k] == x;
        }
      }
    }
  }

  /** Selection only returns elements of the input, so a bound on the input bounds the result. */
  lemma MaskedBelow(xs: seq<int>, m: seq<bool>, b: int)
    requires |xs| == |m|
    requires forall i :: 0 <= i < |xs| ==> xs[i] < b
    ensures forall x :: x in Masked(xs, m) ==> x < b
  {
    MaskedMembers(xs, m);
    forall x | x in Masked(xs, m) ensures x < b {
      var i :| 0 <= i < |xs| && m[i] && xs[i] == x;
    }
  }

  /** Appending a value above every element keeps a sequence ascending. */
  lemma AppendIncreasing(front: seq<int>, y: int)
    requires StrictlyIncreasing(front)
    requires forall x :: x in front ==> x < y
    ensures StrictlyIncreasing(front + [y])
  {
    var r := front + [y];
    forall i, j | 0 <= i < j < |r| ensures r[i] < r[j] {
      assert r[i] == front[i] && front[i] in front;
    }
  }

  /** Selection keeps the order of what it selects. */
  lemma {:induction false} MaskedIncreasing(xs: seq<int>, m: seq<bool>)
    requires |xs| == |m|
    requires StrictlyIncreasing(xs)
    ensures StrictlyIncreasing(Masked(xs, m))
    decreases |xs|
  {
    if |xs| > 0 {
      var k := |xs| - 1;
      var front := Masked(xs[..k], m[..k]);
      MaskedIncreasing(xs[..k], m[..k]);
      if m[k] {
        assert forall i :: 0 <= i < k ==> xs[..k][i] < xs[k];
        MaskedBelow(xs[..k], m[..k], xs[k]);
        AppendIncreasing(front, xs[k]);
        assert Masked(xs, m) == front + [xs[k]];
      } else {
        assert Masked(xs, m) == front + [];
      }
    }
  }

  /**
   * `torch.arange(|m|)[m]`: the positions at which the mask is true, in
   * ascending order.
   */
  function Positions(m: seq<bool>): (r: seq<int>)
    ensures |r| == multiset(m)[true]
    decreases |m|
  {
    if |m| == 0 then []
    else
      var k := |m| - 1;
      assert m == m[..k] + [m[k]];
      Positions(m[..k]) + (if m[k] then [k] else [])
  }

  /** `torch.arange(|m|)[m]` is mask selection applied to the range. */
  lemma {:induction false} PositionsAreMaskedRange(m: seq<bool>)
    ensures Positions(m) == Masked(Range(|m|), m)
    decreases |m|
  {
    if |m| > 0 {
      var k := |m| - 1;
      PositionsAreMaskedRange(m[..k]);
      assert Range(|m|)[..k] == Range(k);
    }
  }

  /** The positions are exactly the indices at which the mask is true. */
  lemma {:induction false} PositionsMembers(m: seq<bool>)
    ensures forall x :: x in Positions(m) <==> 0 <= x < |m| && m[x]
    decreases |m|
  {
    if |m| > 0 {
      var k := |m| - 1;
      PositionsMembers(m[..k]);
      var front := Positions(m[..k]);
      assert Positions(m) == front + (if m[k] then [k] else []);
      forall x ensures x in Positions(m) <==> 0 <= x < |m| && m[x] {
        if 0 <= x < k {
          assert m[..k][x] == m[x];
        }
      }
    }
  }

  /** The positions come out strictly ascending. */
  lemma {:induction false} PositionsIncreasing(m: seq<bool>)
    ensures StrictlyIncreasing(Positions(m))
    decreases |m|
  {
    if |m| > 0 {
      var k := |m| - 1;
      PositionsIncreasing(m[..k]);
      PositionsMembers(m[..k]);
      var front := Positions(m[..k]);
      if m[k] {
        AppendIncreasing(front, k);
        assert Positions(m) == front + [k];
      } else {
        assert Positions(m) == front + [];
      }
    }
  }
}
