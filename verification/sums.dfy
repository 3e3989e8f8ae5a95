/** Sums of counts: over a sequence, as `Iterator::sum` adds them, and over
    all 256 bytes, which does not depend on any order. */
module Sums {
  import opened Bytes
  import opened HashOrder

  function Sum(s: seq<nat>): nat
  {
    if s == [] then 0 else s[0] + Sum(s[1..])
  }

  /** Adding the next element to a prefix: the running total of a scan. */
  lemma {:induction false} SumPrefixStep(s: seq<nat>, i: nat)
    requires i < |s|
    ensures Sum(s[..i + 1]) == Sum(s[..i]) + s[i]
  {
    if i == 0 {
      assert s[..1] == [s[0]];
      assert s[..1][1..] == [];
    } else {
      assert s[..i + 1][1..] == s[1..][..i];
      assert s[..i][1..] == s[1..][..i - 1];
      SumPrefixStep(s[1..], i - 1);
    }
  }

  /** Counts are never negative, so a prefix never sums to more than the whole. */
  lemma {:induction false} SumPrefixAtMost(s: seq<nat>, n: nat)
    requires n <= |s|
    ensures Sum(s[..n]) <= Sum(s)
  {
    if n > 0 {
      assert s[..n][1..] == s[1..][..n - 1];
      SumPrefixAtMost(s[1..], n - 1);
    }
  }

  /** The sum of `f` over the bytes `lo`, `lo + 1`, ..., 255. */
  function ByteSum(f: Byte -> nat, lo: nat): nat
    requires lo <= 256
    decreases 256 - lo
  {
    if lo == 256 then 0 else f(lo) + ByteSum(f, lo + 1)
  }

  lemma {:induction false} ByteSumZero(f: Byte -> nat, lo: nat)
    requires lo <= 256
    requires forall b: Byte :: f(b) == 0
    ensures ByteSum(f, lo) == 0
    decreases 256 - lo
  {
    if lo < 256 {
      ByteSumZero(f, lo + 1);
    }
  }

  lemma {:induction false} ByteSumSame(f: Byte -> nat, g: Byte -> nat, lo: nat)
    requires lo <= 256
    requires forall b: Byte :: f(b) == g(b)
    ensures ByteSum(f, lo) == ByteSum(g, lo)
    decreases 256 - lo
  {
    if lo < 256 {
      ByteSumSame(f, g, lo + 1);
    }
  }

  lemma {:induction false} ByteSumAdd(f: Byte -> nat, g: Byte -> nat, h: Byte -> nat, lo: nat)
    requires lo <= 256
    requires forall b: Byte :: h(b) == f(b) + g(b)
    ensures ByteSum(h, lo) == ByteSum(f, lo) + ByteSum(g, lo)
    decreases 256 - lo
  {
    if lo < 256 {
      ByteSumAdd(f, g, h, lo + 1);
    }
  }

  /** Two functions that differ at `x` alone have sums that differ by the values at `x`. */
  lemma {:induction false} ByteSumPoint(f: Byte -> nat, g: Byte -> nat, x: Byte, lo: nat)
    requires lo <= 256
    requires forall b: Byte :: b != x ==> f(b) == g(b)
    ensures ByteSum(f, lo) + (if lo <= x then g(x) else 0) == ByteSum(g, lo) + (if lo <= x then f(x) else 0)
    decreases 256 - lo
  {
    if lo < 256 {
      ByteSumPoint(f, g, x, lo + 1);
    }
  }

  lemma {:induction false} ByteSumAtLeast(f: Byte -> nat, x: Byte, lo: nat)
    requires lo <= x
    ensures ByteSum(f, lo) >= f(x)
    decreases 256 - lo
  {
    if lo < x {
      ByteSumAtLeast(f, x, lo + 1);
    }
  }

  /** A function that is 1 at `x` and 0 elsewhere sums to 1. */
  lemma ByteSumSingle(f: Byte -> nat, x: Byte)
    requires forall b: Byte :: f(b) == if b == x then 1 else 0
    ensures ByteSum(f, 0) == 1
  {
    var zero := (b: Byte) => 0;
    ByteSumZero(zero, 0);
    ByteSumPoint(f, zero, x, 0);
  }

  /** Listing the values of `f` along a repetition-free `order` that contains
      every byte where `f` is non-zero gives the same total as summing over
      all bytes: a map's values sum to the same whatever its key order. */
  lemma {:induction false} EnumerationSum(f: Byte -> nat, order: seq<Byte>, counts: seq<nat>)
    requires Distinct(order)
    requires forall b: Byte :: f(b) > 0 ==> b in order
    requires |counts| == |order|
    requires forall i :: 0 <= i < |order| ==> counts[i] == f(order[i])
    ensures Sum(counts) == ByteSum(f, 0)
  {
    if order == [] {
      ByteSumZero(f, 0);
    } else {
      var x := order[0];
      var g := (b: Byte) => if b == x then 0 else f(b);
      assert order == [x] + order[1..];
      forall b: Byte | g(b) > 0
        ensures b in order[1..]
      {
        assert b in order && b != x;
      }
      forall i | 0 <= i < |order[1..]|
        ensures counts[1..][i] == g(order[1..][i])
      {
        assert order[i + 1] != order[0];
      }
      EnumerationSum(g, order[1..], counts[1..]);
      ByteSumPoint(f, g, x, 0);
    }
  }
}
