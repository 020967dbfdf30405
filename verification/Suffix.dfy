/** Common suffixes: the linear count of scripts/compact_parity.py and the binary search of
    scripts/info_commands_parity.py find the same length. */
module Suffix {

  /** Do the last k elements agree? */
  predicate Agree<T(==)>(a: seq<T>, b: seq<T>, k: nat) {
    k <= |a| && k <= |b| && a[|a| - k..] == b[|b| - k..]
  }

  /** The length of the longest common suffix. */
  function Longest<T(==)>(a: seq<T>, b: seq<T>): (n: nat)
    ensures n <= |a| && n <= |b|
  {
    if a == [] || b == [] || a[|a| - 1] != b[|b| - 1] then 0
    else 1 + Longest(a[..|a| - 1], b[..|b| - 1])
  }

  lemma AgreeStep<T>(a: seq<T>, b: seq<T>, k: nat)
    requires 0 < k <= |a| && k <= |b|
    ensures Agree(a, b, k)
            <==> a[|a| - 1] == b[|b| - 1] && Agree(a[..|a| - 1], b[..|b| - 1], k - 1)
  {
    var x, y := a[..|a| - 1], b[..|b| - 1];
    assert a[|a| - k..] == x[|x| - (k - 1)..] + [a[|a| - 1]];
    assert b[|b| - k..] == y[|y| - (k - 1)..] + [b[|b| - 1]];
    assert Agree(a, b, k) ==> a[|a| - k..][k - 1] == b[|b| - k..][k - 1];
    assert Agree(a, b, k) ==> a[|a| - k..][..k - 1] == b[|b| - k..][..k - 1];
  }

  /** "Suffixes of length k agree" holds exactly up to the longest common suffix. */
  lemma {:induction false} AgreeUpTo<T>(a: seq<T>, b: seq<T>, k: nat)
    requires k <= |a| && k <= |b|
    ensures Agree(a, b, k) <==> k <= Longest(a, b)
  {
    if k > 0 {
      AgreeStep(a, b, k);
      if a[|a| - 1] == b[|b| - 1] {
        AgreeUpTo(a[..|a| - 1], b[..|b| - 1], k - 1);
      }
    }
  }

  /** The upward count. */
  method CountUp<T(==)>(a: seq<T>, b: seq<T>) returns (suffix: nat)
    ensures suffix == Longest(a, b)
  {
    suffix := 0;
    while suffix < |a| && suffix < |b| && a[|a| - 1 - suffix] == b[|b| - 1 - suffix]
      invariant suffix <= |a| && suffix <= |b|
      invariant Agree(a, b, suffix)
    {
      assert a[|a| - 1 - suffix..] == [a[|a| - 1 - suffix]] + a[|a| - suffix..];
      assert b[|b| - 1 - suffix..] == [b[|b| - 1 - suffix]] + b[|b| - suffix..];
      suffix := suffix + 1;
    }
    AgreeUpTo(a, b, suffix);
    if suffix < |a| && suffix < |b| {
      assert a[|a| - 1 - suffix..][0] != b[|b| - 1 - suffix..][0];
      AgreeUpTo(a, b, suffix + 1);
    }
  }

  function Min(a: nat, b: nat): nat { if a < b then a else b }

  /** The binary search; `close` is the script's nine-tenths verdict. */
  method BinarySearch<T(==)>(a: seq<T>, b: seq<T>) returns (lo: nat, close: bool)
    ensures lo == Longest(a, b)
    ensures close <==> 10 * Longest(a, b) > 9 * Min(|a|, |b|)
  {
    lo := 0;
    var hi := Min(|a|, |b|);
    while lo < hi
      invariant lo <= Longest(a, b) <= hi <= Min(|a|, |b|)
      decreases hi - lo
    {
      var mid := (lo + hi + 1) / 2;
      AgreeUpTo(a, b, mid);
      if a[|a| - mid..] == b[|b| - mid..] {
        lo := mid;
      } else {
        hi := mid - 1;
      }
    }
    close := 10 * lo > 9 * Min(|a|, |b|);
  }
}
