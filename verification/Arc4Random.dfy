/** The arc4random generator: its state stays a permutation, and uniform numbers have no bias. */
module Arc4Random {
  import opened Bytes


  // ---- the stream ----

  ghost predicate Injective(s: seq<byte>) {
    forall a, b :: 0 <= a < b < |s| ==> s[a] != s[b]
  }

  function Upto(n: nat): (r: set<int>)
    ensures forall x :: x in r <==> 0 <= x < n
  {
    if n == 0 then {} else Upto(n - 1) + {n - 1}
  }

  function Values(s: seq<byte>): (r: set<int>)
    ensures forall x :: x in r <==> exists i :: 0 <= i < |s| && s[i] as int == x
  {
    if s == [] then {}
    else
      var rest := Values(s[1..]);
      assert forall i :: 0 < i < |s| ==> s[i] == s[1..][i - 1];
      {s[0] as int} + rest
  }

  lemma {:induction false} UptoCount(n: nat)
    ensures |Upto(n)| == n
  {
    if n > 0 {
      UptoCount(n - 1);
    }
  }

  lemma {:induction false} ValuesCount(s: seq<byte>)
    requires Injective(s)
    ensures |Values(s)| == |s|
  {
    if s != [] {
      var t := s[1..];
      assert forall i :: 0 <= i < |t| ==> t[i] == s[i + 1];
      ValuesCount(t);
      assert s[0] as int !in Values(t);
    }
  }

  /** 256 different bytes are all the bytes there are. */
  lemma AllBytes(s: seq<byte>, x: byte)
    requires |s| == 256 && Injective(s)
    ensures x in s
  {
    ValuesCount(s);
    UptoCount(256);
    assert Values(s) <= Upto(256);
    SubsetFull(Values(s), Upto(256));
    assert x as int in Values(s);
  }

  lemma SubsetFull<T>(a: set<T>, b: set<T>)
    requires a <= b && |a| == |b|
    ensures a == b
  {
    if a != b {
      var x :| x in b && x !in a;
      Smaller(a, b - {x});
    }
  }

  lemma {:induction false} Smaller<T>(a: set<T>, b: set<T>)
    requires a <= b
    ensures |a| <= |b|
  {
    if a != {} {
      var x :| x in a;
      Smaller(a - {x}, b - {x});
    }
  }

  /** struct arc4_stream */
  class Arc4Stream {
    var i: byte
    var j: byte
    const s: array<byte>

    /** arc4_init */
    constructor ()
      ensures Valid() && fresh(s) && i == 0 && j == 0
    {
      i, j := 0, 0;
      s := new byte[256](n => if 0 <= n < 256 then n as byte else 0);
    }

    /** The table holds every byte exactly once. */
    ghost predicate Valid()
      reads this, s
    {
      s.Length == 256 && Injective(s[..])
    }

    method Swap(a: byte, b: byte)
      requires Valid()
      modifies s
      ensures Valid() && s[..] == old(s[..])[a as int := old(s[b])][b as int := old(s[a])]
    {
      s[a], s[b] := s[b], s[a];
      SwapInjective(old(s[..]), a as int, b as int);
    }

    /** arc4_getbyte: two entries trade places, and their sum says which entry is put out. */
    method GetByte() returns (r: byte)
      requires Valid()
      modifies this, s
      ensures Valid() && (s[..], i, j) == NextState(old(s[..]), old(i), old(j)) && r == NextByte(s[..], i, j)
    {
      hide Plus, Injective;
      i := Plus(i, 1);
      var si := s[i];
      j := Plus(j, si);
      var sj := s[j];
      Swap(i, j);
      r := s[Plus(si, sj)];
      assert s[i] == sj && s[j] == si;
    }

    /** arc4_getword: the next four bytes of the stream, the first of them the most significant */
    method GetWord() returns (r: nat)
      requires Valid()
      modifies this, s
      ensures Valid() && r < TWO32 && (s[..], i, j) == After(old(s[..]), old(i), old(j), 4)
      ensures forall k :: 0 <= k < 4 ==> r / Pow256(3 - k) % 256 == StreamByte(old(s[..]), old(i), old(j), k) as nat
    {
      hide NextState, NextByte;
      var a := GetByte();
      var b := GetByte();
      var c := GetByte();
      var d := GetByte();
      r := a as nat * 0x100_0000 + b as nat * 0x1_0000 + c as nat * 0x100 + d as nat;
      FourBytes(a, b, c, d, r);
      FourSteps(old(s[..]), old(i), old(j));
    }

    /** arc4_addrandom: a full round of swaps ruled by the data, after which i is where it was before */
    method AddRandom(dat: seq<byte>)
      requires Valid() && dat != []
      modifies this, s
      ensures Valid() && i == Plus(old(i), 255) && j == i
      ensures s[..] == Stirred(old(s[..]), Plus(old(i), 255), old(j), dat, 256).0
    {
      hide Plus, Round, Stirred, StirOne;
      i := Plus(i, 255);
      var n := 0;
      ghost var start, j0, was := i, j, s[..];
      StirredNone(was, start, j0, dat);
      while n < 256
        invariant 0 <= n <= 256 && Valid() && i == Round(start, n)
        invariant (s[..], j) == Stirred(was, start, j0, dat, n)
      {
        StirredStep(was, start, j0, dat, n);
        StirStep(dat[n % |dat|]);
        n := n + 1;
      }
      j := i;
      RoundFull(start);
    }

    method StirStep(d: byte)
      requires Valid()
      modifies this, s
      ensures Valid() && i == Plus(old(i), 1) && (s[..], j) == StirOne(old(s[..]), i, old(j), d)
    {
      i := Plus(i, 1);
      var si := s[i];
      j := Plus(Plus(j, si), d);
      Swap(i, j);
    }
  }

  /** The generator once it has put out one more byte */
  function NextState(t: seq<byte>, i: byte, j: byte): (r: (seq<byte>, byte, byte))
    requires |t| == 256
    ensures |r.0| == 256
  {
    var i' := Plus(i, 1);
    var j' := Plus(j, t[i']);
    (t[i' as int := t[j']][j' as int := t[i']], i', j')
  }

  /** The byte put out, in terms of the generator after it: the entry at the sum of the two that traded places */
  function NextByte(t: seq<byte>, i: byte, j: byte): byte
    requires |t| == 256
  {
    t[Plus(t[j], t[i])]
  }

  /** The generator after n bytes */
  function After(t: seq<byte>, i: byte, j: byte, n: nat): (r: (seq<byte>, byte, byte))
    requires |t| == 256
    ensures |r.0| == 256
  {
    if n == 0 then (t, i, j)
    else
      var u := After(t, i, j, n - 1);
      NextState(u.0, u.1, u.2)
  }

  /** Byte number k of the stream */
  function StreamByte(t: seq<byte>, i: byte, j: byte, k: nat): byte
    requires |t| == 256
  {
    var u := After(t, i, j, k + 1);
    NextByte(u.0, u.1, u.2)
  }

  lemma FourSteps(t: seq<byte>, i: byte, j: byte)
    requires |t| == 256
    ensures var u1 := NextState(t, i, j); var u2 := NextState(u1.0, u1.1, u1.2);
            var u3 := NextState(u2.0, u2.1, u2.2); var u4 := NextState(u3.0, u3.1, u3.2);
            && After(t, i, j, 1) == u1 && After(t, i, j, 2) == u2 && After(t, i, j, 3) == u3 && After(t, i, j, 4) == u4
  {
    hide NextState;
    assert After(t, i, j, 0) == (t, i, j);
    assert After(t, i, j, 1) == NextState(t, i, j);
    var u1 := NextState(t, i, j);
    assert After(t, i, j, 2) == NextState(u1.0, u1.1, u1.2);
  }

  function Pow256(k: nat): (r: nat)
    ensures r > 0
  {
    if k == 0 then 1 else 256 * Pow256(k - 1)
  }

  lemma FourBytes(a: byte, b: byte, c: byte, d: byte, r: nat)
    requires r == a as nat * 0x100_0000 + b as nat * 0x1_0000 + c as nat * 0x100 + d as nat
    ensures r < TWO32 && Pow256(0) == 1 && Pow256(1) == 0x100 && Pow256(2) == 0x1_0000 && Pow256(3) == 0x100_0000
    ensures r / 0x100_0000 % 256 == a as nat && r / 0x1_0000 % 256 == b as nat && r / 0x100 % 256 == c as nat
    ensures r % 256 == d as nat
  {
    assert r / 0x100 == a as nat * 0x1_0000 + b as nat * 0x100 + c as nat;
    assert r / 0x1_0000 == a as nat * 0x100 + b as nat;
    assert r / 0x100_0000 == a as nat;
    assert Pow256(1) == 256 * Pow256(0);
    assert Pow256(2) == 256 * Pow256(1);
    assert Pow256(3) == 256 * Pow256(2);
  }

  /** n steps round the table from start */
  function Round(start: byte, n: nat): byte
    requires n <= 256
  {
    if start as int + n < 256 then (start as int + n) as byte else (start as int + n - 256) as byte
  }

  lemma RoundFull(start: byte)
    ensures Round(start, 256) == start
  {
  }

  /** One step of the key schedule: the table's byte at i and a byte of data are added to j, and two entries trade
      places. */
  function StirOne(t: seq<byte>, i: byte, j: byte, d: byte): (r: (seq<byte>, byte))
    requires |t| == 256
    ensures |r.0| == 256
  {
    var k := Plus(Plus(j, t[i]), d);
    (t[i as int := t[k]][k as int := t[i]], k)
  }

  /** The table and j after n steps of the key schedule */
  function Stirred(t: seq<byte>, start: byte, j: byte, dat: seq<byte>, n: nat): (r: (seq<byte>, byte))
    requires |t| == 256 && dat != [] && n <= 256
    ensures |r.0| == 256
  {
    if n == 0 then (t, j)
    else
      var u := Stirred(t, start, j, dat, n - 1);
      StirOne(u.0, Round(start, n), u.1, dat[(n - 1) % |dat|])
  }

  lemma StirredNone(t: seq<byte>, start: byte, j: byte, dat: seq<byte>)
    requires |t| == 256 && dat != []
    ensures Stirred(t, start, j, dat, 0) == (t, j) && Round(start, 0) == start
  {
  }

  lemma StirredStep(t: seq<byte>, start: byte, j: byte, dat: seq<byte>, n: nat)
    requires |t| == 256 && dat != [] && n < 256
    ensures Plus(Round(start, n), 1) == Round(start, n + 1)
    ensures var u := Stirred(t, start, j, dat, n);
            Stirred(t, start, j, dat, n + 1) == StirOne(u.0, Round(start, n + 1), u.1, dat[n % |dat|])
  {
    RoundStep(start, n);
    hide Plus, Round, StirOne;
  }

  lemma RoundStep(start: byte, n: nat)
    requires n < 256
    ensures Plus(Round(start, n), 1) == Round(start, n + 1)
  {
  }

  /** Addition of unsigned chars */
  function Plus(a: byte, b: byte): byte {
    ((a as int + b as int) % 256) as byte
  }

  lemma SwapInjective(t: seq<byte>, a: nat, b: nat)
    requires Injective(t) && a < |t| && b < |t|
    ensures Injective(t[a := t[b]][b := t[a]])
  {
    var u := t[a := t[b]][b := t[a]];
    assert forall k :: 0 <= k < |t| ==> u[k] == t[if k == a then b else if k == b then a else k];
  }

  // ---- uniform numbers ----

  /** The least draw that is not thrown away, as arc4random_uniform computes it in 32 bits */
  function Least(upperBound: nat): nat
    requires 2 <= upperBound < TWO32
  {
    if upperBound > 0x8000_0000 then (1 + (0xffff_ffff - upperBound)) % TWO32
    else ((0xffff_ffff - upperBound * 2 % TWO32) + 1) % TWO32 % upperBound
  }

  lemma ModUnique(a: int, n: nat, q: int, r: nat)
    requires r < n && a == n * q + r
    ensures a % n == r && a / n == q
  {
    var p := a / n;
    MulAtLeast(n, p - q);
    assert n * (p - q) == n * p - n * q;
  }

  lemma MulAtLeast(n: int, d: int)
    requires n >= 0
    ensures d >= 1 ==> n * d >= n
    ensures d <= -1 ==> n * d <= -n
  {
  }

  lemma ModShift(a: int, n: nat, k: int)
    requires n > 0
    ensures (a + n * k) % n == a % n
  {
    assert a == n * (a / n) + a % n;
    assert a + n * k == n * (a / n + k) + a % n;
    ModUnique(a + n * k, n, a / n + k, a % n);
  }

  lemma ModTwice(a: nat, n: nat)
    requires n > 0
    ensures (a - 2 * n) % n == a % n
  {
    ModShift(a, n, -2);
    assert n * -2 == -(2 * n);
  }

  /** It is 2^32 modulo the bound, and at most half of all draws are thrown away. */
  lemma LeastExact(upperBound: nat)
    requires 2 <= upperBound < TWO32
    ensures Least(upperBound) == TWO32 % upperBound && Least(upperBound) < 0x8000_0000
  {
    if upperBound > 0x8000_0000 {
      LeastLarge(upperBound);
    } else {
      ModTwice(TWO32, upperBound);
      LeastSmall(upperBound);
    }
  }

  lemma LeastLarge(upperBound: nat)
    requires 0x8000_0000 < upperBound < TWO32
    ensures Least(upperBound) == TWO32 % upperBound && Least(upperBound) < 0x8000_0000
  {
    ModUnique(TWO32, upperBound, 1, TWO32 - upperBound);
  }

  lemma LeastSmall(upperBound: nat)
    requires 2 <= upperBound <= 0x8000_0000 && (TWO32 - 2 * upperBound) % upperBound == TWO32 % upperBound
    ensures Least(upperBound) == TWO32 % upperBound && Least(upperBound) < 0x8000_0000
  {
    if upperBound == 0x8000_0000 {
      assert upperBound * 2 % TWO32 == 0;
    } else {
      assert upperBound * 2 % TWO32 == 2 * upperBound;
      assert ((0xffff_ffff - upperBound * 2 % TWO32) + 1) % TWO32 == TWO32 - 2 * upperBound;
    }
    assert TWO32 % upperBound < upperBound;
  }

  /** How many draws from lo up to hi are reduced to v */
  function Preimages(lo: nat, hi: nat, upperBound: nat, v: nat): nat
    requires upperBound > 0
    decreases hi - lo
  {
    if lo >= hi then 0 else (if lo % upperBound == v then 1 else 0) + Preimages(lo + 1, hi, upperBound, v)
  }

  /** Over the draws that are kept, every number below the bound comes up equally often. */
  lemma Unbiased(upperBound: nat, v: nat)
    requires 2 <= upperBound < TWO32 && v < upperBound
    ensures Preimages(Least(upperBound), TWO32, upperBound, v) * upperBound == TWO32 - Least(upperBound)
  {
    LeastExact(upperBound);
    var m, q := Least(upperBound), TWO32 / upperBound;
    assert TWO32 == upperBound * q + m;
    Windows(m, q, upperBound, v);
  }

  lemma {:induction false} Windows(lo: nat, q: nat, n: nat, v: nat)
    requires n > 0 && v < n
    ensures Preimages(lo, lo + n * q, n, v) == q
    decreases q
  {
    if q > 0 {
      assert n * q == n + n * (q - 1);
      Append(lo, lo + n, lo + n * q, n, v);
      Window(lo, n, v);
      Windows(lo + n, q - 1, n, v);
    } else {
      assert n * 0 == 0;
    }
  }

  lemma {:induction false} Append(lo: nat, mid: nat, hi: nat, n: nat, v: nat)
    requires lo <= mid <= hi && n > 0
    ensures Preimages(lo, hi, n, v) == Preimages(lo, mid, n, v) + Preimages(mid, hi, n, v)
    decreases mid - lo
  {
    if lo < mid {
      Append(lo + 1, mid, hi, n, v);
    }
  }

  /** Among any n draws in a row each residue comes up once. */
  lemma {:induction false} Window(lo: nat, n: nat, v: nat)
    requires n > 0 && v < n
    ensures Preimages(lo, lo + n, n, v) == 1
  {
    if lo == 0 {
      Start(0, n, v);
    } else {
      Window(lo - 1, n, v);
      Append(lo, lo - 1 + n, lo + n, n, v);
      assert Preimages(lo - 1 + n, lo + n, n, v) == if (lo - 1 + n) % n == v then 1 else 0;
      ModShift(lo - 1, n, 1);
    }
  }

  lemma {:induction false} Start(lo: nat, n: nat, v: nat)
    requires lo <= n && v < n
    ensures Preimages(lo, n, n, v) == if lo <= v then 1 else 0
    decreases n - lo
  {
    if lo < n {
      Start(lo + 1, n, v);
    }
  }

  /** arc4random_uniform, on the draws it gets from arc4random; None while all of them are thrown away */
  method Uniform(upperBound: nat, draws: seq<nat>) returns (r: Option<nat>)
    requires upperBound < TWO32 && forall k :: 0 <= k < |draws| ==> draws[k] < TWO32
    ensures upperBound < 2 ==> r == Some(0)
    ensures upperBound >= 2 && r.Some? ==>
              exists k :: 0 <= k < |draws| && draws[k] >= TWO32 % upperBound && r.value == draws[k] % upperBound
                          && forall i :: 0 <= i < k ==> draws[i] < TWO32 % upperBound
    ensures upperBound >= 2 && r.None? ==> forall k :: 0 <= k < |draws| ==> draws[k] < TWO32 % upperBound
  {
    if upperBound < 2 {
      return Some(0);
    }
    LeastExact(upperBound);
    var min;
    if upperBound > 0x8000_0000 {
      min := (1 + (0xffff_ffff - upperBound)) % TWO32;
    } else {
      min := ((0xffff_ffff - upperBound * 2 % TWO32) + 1) % TWO32 % upperBound;
    }
    var k := 0;
    while k < |draws|
      invariant k <= |draws| && forall i :: 0 <= i < k ==> draws[i] < min
    {
      if draws[k] >= min {
        return Some(draws[k] % upperBound);
      }
      k := k + 1;
    }
    r := None;
  }
}
