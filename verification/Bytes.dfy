/** Bytes, and sequences of byte blocks flattened into one byte string. */
module Bytes {
  newtype byte = x: int | 0 <= x < 256

  // size_t and ssize_t of a 64-bit build
  const SIZE_MAX: nat := 0xffff_ffff_ffff_ffff
  const SSIZE_MAX: nat := 0x7fff_ffff_ffff_ffff
  const INT_MAX: nat := 0x7fff_ffff
  const TWO32: nat := 0x1_0000_0000
  const TWO64: nat := 0x1_0000_0000_0000_0000

  /** The value of a size_t after arithmetic that would give n */
  function Wrap(n: int): (r: nat)
    ensures r <= SIZE_MAX && (0 <= n <= SIZE_MAX ==> r == n)
  {
    n % TWO64
  }

  lemma WrapSum(a: int, b: int)
    ensures Wrap(Wrap(a) + b) == Wrap(a + b) && Wrap(a + Wrap(b)) == Wrap(a + b)
  {
    assert a == Wrap(a) + TWO64 * (a / TWO64) && b == Wrap(b) + TWO64 * (b / TWO64);
    WrapMultiple(Wrap(a) + b, a / TWO64);
    WrapMultiple(a + Wrap(b), b / TWO64);
  }

  lemma WrapMultiple(n: int, k: int)
    ensures Wrap(n + TWO64 * k) == Wrap(n)
  {
    assert (n + TWO64 * k) % TWO64 == n % TWO64;
  }

  /** The value of a whole number converted to int */
  function ToInt(n: int): (r: int)
    ensures -0x8000_0000 <= r <= INT_MAX && (-0x8000_0000 <= n <= INT_MAX ==> r == n)
  {
    var u := n % TWO32;
    if u > INT_MAX then u - TWO32 else u
  }

  const SSIZE_MIN: int := -0x8000_0000_0000_0000

  /** The value of a whole number converted to ssize_t */
  function ToSsize(n: int): (r: int)
    ensures SSIZE_MIN <= r <= SSIZE_MAX && (SSIZE_MIN <= n <= SSIZE_MAX ==> r == n)
    ensures SSIZE_MAX < n <= SIZE_MAX ==> r == n - TWO64 < 0
  {
    var u := n % TWO64;
    if u > SSIZE_MAX then u - TWO64 else u
  }

  datatype Option<+T> = None | Some(value: T)

  /** The byte string that a list of blocks denotes. */
  ghost function Flatten<T>(blocks: seq<seq<T>>): seq<T> {
    if blocks == [] then [] else blocks[0] + Flatten(blocks[1..])
  }

  lemma {:induction false} FlattenConcat<T>(a: seq<seq<T>>, b: seq<seq<T>>)
    ensures Flatten(a + b) == Flatten(a) + Flatten(b)
  {
    if a == [] {
      assert a + b == b;
    } else {
      assert (a + b)[1..] == a[1..] + b;
      FlattenConcat(a[1..], b);
    }
  }

  lemma FlattenSplit<T>(a: seq<seq<T>>, k: nat)
    requires k <= |a|
    ensures Flatten(a) == Flatten(a[..k]) + Flatten(a[k..])
  {
    assert a == a[..k] + a[k..];
    FlattenConcat(a[..k], a[k..]);
  }

  lemma FlattenAt<T>(a: seq<seq<T>>, k: nat)
    requires k < |a|
    ensures Flatten(a) == Flatten(a[..k]) + a[k] + Flatten(a[k + 1..])
  {
    FlattenSplit(a, k);
    assert a[k..][1..] == a[k + 1..];
  }

  lemma FlattenUpdate<T>(a: seq<seq<T>>, k: nat, v: seq<T>)
    requires k < |a|
    ensures Flatten(a[k := v]) == Flatten(a[..k]) + v + Flatten(a[k + 1..])
  {
    var b := a[k := v];
    FlattenAt(b, k);
    assert b[..k] == a[..k] && b[k + 1..] == a[k + 1..];
  }

  lemma DropConcat<T>(a: seq<T>, b: seq<T>, c: seq<T>, r: nat)
    requires r <= |b|
    ensures (a + b + c)[|a| + r..] == b[r..] + c
  {
  }

  lemma TakeConcat<T>(a: seq<T>, b: seq<T>, r: nat)
    requires r <= |b|
    ensures (a + b)[..|a| + r] == a + b[..r] && (a + b)[|a| + r..] == b[r..] && (a + b)[..|a|] == a
  {
  }

  lemma {:induction false} FlattenEmpties<T>(a: seq<seq<T>>)
    requires forall i :: 0 <= i < |a| ==> a[i] == []
    ensures Flatten(a) == []
  {
    if a != [] {
      FlattenEmpties(a[1..]);
    }
  }

  /** Blocks after the last non-empty one do not matter. */
  lemma FlattenTrim<T>(a: seq<seq<T>>, k: nat)
    requires k <= |a| && forall i :: k <= i < |a| ==> a[i] == []
    ensures Flatten(a) == Flatten(a[..k])
  {
    FlattenSplit(a, k);
    FlattenEmpties(a[k..]);
  }

  lemma SubSlice<T>(all: seq<T>, s: nat, n: nat, i: nat, m: nat)
    requires s + n <= |all| && i + m <= n
    ensures all[s..s + n][i..i + m] == all[s + i..s + i + m]
  {
    var whole, left, right := all[s..s + n], all[s..s + n][i..i + m], all[s + i..s + i + m];
    forall j | 0 <= j < m
      ensures left[j] == right[j]
    {
      assert left[j] == whole[i + j];
    }
  }
}
