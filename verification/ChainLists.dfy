/** The chains of an evbuffer: singly linked nodes that each own or reference a byte array. */
module ChainLists {
  import opened Bytes
  import opened Blocks

  const CHAIN_HEADER: nat := 48

  const MIN_BUFFER_SIZE: nat := 1024

  const CHAIN_MAX: nat := SSIZE_MAX

  const CHAIN_MAX_AUTO_SIZE: nat := 4096
  const MAX_TO_COPY_IN_EXPAND: nat := 4096

  class Chain {
    var next: Chain?
    var misalign: nat
    var off: nat
    const buffer: array<byte>
    const immutable: bool

    ghost predicate Ok()
      reads `misalign, `off
    {
      && misalign + off <= buffer.Length
      && (immutable ==> misalign + off == buffer.Length && (off == 0 ==> misalign == 0))
    }

    ghost function View(): (v: seq<byte>)
      requires Ok()
      ensures |v| == off
      reads `misalign, `off, buffer
    {
      buffer[misalign..misalign + off]
    }

    /** n bytes of the chain's data, from position p on */
    function Read(p: nat, n: nat): (data: seq<byte>)
      requires Ok() && p + n <= off
      reads `misalign, `off, buffer
      ensures data == View()[p..p + n]
    {
      SubSlice(buffer[..], misalign, off, p, n);
      assert View() == buffer[..][misalign..misalign + off];
      buffer[misalign + p..misalign + p + n]
    }

    function Space(): nat
      requires Ok()
      reads `misalign, `off
    {
      if immutable then 0 else buffer.Length - (misalign + off)
    }

    constructor New(size: nat)
      ensures Ok() && !immutable && next == null && misalign == 0 && off == 0
      ensures fresh(buffer) && size <= buffer.Length
    {
      var n := MIN_BUFFER_SIZE;
      if size + CHAIN_HEADER < CHAIN_MAX / 2 {
        while n < size + CHAIN_HEADER
          invariant n >= MIN_BUFFER_SIZE
        {
          n := 2 * n;
        }
      } else {
        n := size + CHAIN_HEADER;
      }
      buffer := new byte[n - CHAIN_HEADER];
      next, misalign, off, immutable := null, 0, 0, false;
    }

    constructor Reference(data: array<byte>)
      ensures Ok() && immutable && next == null && buffer == data && misalign == 0 && off == data.Length
    {
      buffer, immutable := data, true;
      next, misalign, off := null, 0, data.Length;
    }

    method CopyIn(at: nat, data: seq<byte>)
      requires at + |data| <= buffer.Length
      modifies buffer
      ensures buffer[..] == old(buffer[..at]) + data + old(buffer[at + |data|..])
    {
      forall k | 0 <= k < |data| { buffer[at + k] := data[k]; }
    }
  }

  ghost predicate Linked(cs: seq<Chain>)
    reads cs`next
  {
    forall i {:trigger cs[i].next} :: 0 <= i < |cs| ==> cs[i].next == if i + 1 < |cs| then cs[i + 1] else null
  }

  ghost predicate Separate(cs: seq<Chain>)
  {
    && (forall i, j :: 0 <= i < j < |cs| ==> cs[i] != cs[j])
    && (forall i, j :: 0 <= i < |cs| && 0 <= j < |cs| && i != j && !cs[i].immutable ==> cs[i].buffer != cs[j].buffer)
  }

  ghost function BuffersOf(cs: seq<Chain>): set<object> { set c | c in cs :: c.buffer as object }

  lemma ChainsAreNotBuffers(cs: seq<Chain>, c: Chain)
    ensures c !in BuffersOf(cs)
  {
  }

  ghost function Own(cs: seq<Chain>): set<object> { (set c: Chain | c in cs :: c as object) +
      (set c: Chain | c in cs && !c.immutable :: c.buffer as object) }

  ghost predicate Shows(cs: seq<Chain>, views: seq<seq<byte>>)
    reads cs`misalign, cs`off, BuffersOf(cs)
  {
    && |views| == |cs|
    && forall i {:trigger cs[i]} {:trigger views[i]} :: 0 <= i < |cs| ==> cs[i].Ok() && views[i] == cs[i].View()
  }

  lemma Links(cs: seq<Chain>)
    requires Linked(cs)
    ensures forall i {:trigger cs[i].next} :: 0 <= i < |cs| ==> cs[i].next == if i + 1 < |cs| then cs[i + 1] else null
  {
  }

  lemma LinkUp(cs: seq<Chain>)
    requires forall i {:trigger cs[i].next} :: 0 <= i < |cs| ==> cs[i].next == if i + 1 < |cs| then cs[i + 1] else null
    ensures Linked(cs)
  {
  }

  lemma Apart(cs: seq<Chain>)
    requires Separate(cs)
    ensures forall i, j :: 0 <= i < j < |cs| ==> cs[i] != cs[j]
  {}

  lemma Prefix(cs: seq<Chain>, views: seq<seq<byte>>, k: nat)
    requires k <= |cs| && Separate(cs) && Shows(cs, views)
    requires forall i :: k <= i < |views| ==> views[i] == []
    ensures Separate(cs[..k]) && Shows(cs[..k], views[..k])
    ensures Flatten(views) == Flatten(views[..k])
  {
    FlattenTrim(views, k);
  }

  ghost predicate Joinable(cs: seq<Chain>, chain: Chain)
    reads chain`misalign, chain`off
  {
    && chain !in cs && chain.Ok()
    && forall c :: c in cs && !(c.immutable && chain.immutable) ==> c.buffer != chain.buffer
  }

  lemma JoinPrefix(cs: seq<Chain>, k: nat, chain: Chain)
    requires Joinable(cs, chain) && k <= |cs|
    ensures Joinable(cs[..k], chain)
  {
  }

  lemma Extended(cs: seq<Chain>, views: seq<seq<byte>>, chain: Chain)
    requires Separate(cs) && Shows(cs, views) && Joinable(cs, chain)
    ensures Separate(cs + [chain]) && Shows(cs + [chain], views + [chain.View()])
    ensures Flatten(views + [chain.View()]) == Flatten(views) + chain.View()
  {
    FlattenConcat(views, [chain.View()]);
    assert Flatten([chain.View()]) == chain.View();
  }

  lemma Allocated(cs: seq<Chain>)
    ensures forall o :: o in BuffersOf(cs) ==> allocated(o)
  {
  }

  lemma Owned(cs: seq<Chain>)
    ensures forall c :: c in cs ==> c in Own(cs) && (!c.immutable ==> c.buffer in Own(cs))
  {
  }

  /** A new chain of at least the given size that holds data at its start. */
  method NewChainWith(size: nat, data: seq<byte>) returns (tmp: Chain)
    requires |data| <= size
    ensures fresh(tmp) && fresh(tmp.buffer) && tmp.next == null && !tmp.immutable
    ensures tmp.Ok() && tmp.View() == data && tmp.Space() >= size - |data|
  {
    tmp := new Chain.New(size);
    tmp.CopyIn(0, data);
    tmp.off := |data|;
  }

  /** A new chain that holds data at the end of its buffer. */
  method NewChainAtEnd(data: seq<byte>, ghost cs: seq<Chain>) returns (tmp: Chain)
    ensures fresh(tmp) && fresh(tmp.buffer) && tmp.next == null && !tmp.immutable
    ensures tmp.Ok() && tmp.View() == data && tmp !in cs && Joinable(cs, tmp)
  {
    Allocated(cs);
    tmp := new Chain.New(|data|);
    tmp.CopyIn(tmp.buffer.Length - |data|, data);
    tmp.off := |data|;
    tmp.misalign := tmp.buffer.Length - |data|;
  }

  lemma Fronted(cs: seq<Chain>, views: seq<seq<byte>>, tmp: Chain)
    requires Linked(cs) && Separate(cs) && Shows(cs, views) && Joinable(cs, tmp)
    requires tmp.next == if cs == [] then null else cs[0]
    ensures Linked([tmp] + cs) && Separate([tmp] + cs) && Shows([tmp] + cs, [tmp.View()] + views)
    ensures Flatten([tmp.View()] + views) == tmp.View() + Flatten(views)
  {
  }

  /** memcpy to the free space behind the data of chain number i. */
  method AppendTo(c: Chain, ghost cs: seq<Chain>, ghost views: seq<seq<byte>>, ghost i: nat, data: seq<byte>)
    requires Separate(cs) && Shows(cs, views) && i < |cs| && cs[i] == c
    requires !c.immutable && c.misalign + c.off + |data| <= c.buffer.Length
    modifies c`off, c.buffer
    ensures Shows(cs, views[i := views[i] + data])
    ensures c.off == old(c.off) + |data|
  {
    c.CopyIn(c.misalign + c.off, data);
    c.off := c.off + |data|;
    assert c.View() == views[i] + data;
  }

  /** memcpy to the free space in front of the data of chain number i. */
  method PrependTo(c: Chain, ghost cs: seq<Chain>, ghost views: seq<seq<byte>>, ghost i: nat, data: seq<byte>)
    requires Separate(cs) && Shows(cs, views) && i < |cs| && cs[i] == c
    requires !c.immutable && |data| <= c.misalign
    modifies c`off, c`misalign, c.buffer
    ensures Shows(cs, views[i := data + views[i]])
    ensures c.off == old(c.off) + |data| && c.misalign == old(c.misalign) - |data|
  {
    c.CopyIn(c.misalign - |data|, data);
    c.off := c.off + |data|;
    c.misalign := c.misalign - |data|;
    assert c.View() == c.buffer[c.misalign..c.misalign + |data|] + c.buffer[c.misalign + |data|..c.misalign + c.off];
    assert c.View() == data + views[i];
  }

  /** Realign: memmove the data of chain number i to the start of its buffer. */
  method AlignAt(c: Chain, ghost cs: seq<Chain>, ghost views: seq<seq<byte>>, ghost i: nat)
    requires Separate(cs) && Shows(cs, views) && i < |cs| && cs[i] == c && !c.immutable
    modifies c`misalign, c.buffer
    ensures Shows(cs, views) && c.misalign == 0
  {
    c.CopyIn(0, c.buffer[c.misalign..c.misalign + c.off]);
    c.misalign := 0;
    assert c.View() == views[i];
  }

  /** Drop the first n bytes of chain number i. */
  method DropFrom(c: Chain, ghost cs: seq<Chain>, ghost views: seq<seq<byte>>, ghost i: nat, n: nat)
    requires Separate(cs) && Shows(cs, views) && i < |cs| && cs[i] == c && (n < c.off || n == 0)
    modifies c`misalign, c`off
    ensures Shows(cs, views[i := views[i][n..]]) && c.off == old(c.off) - n
  {
    c.misalign := c.misalign + n;
    c.off := c.off - n;
    assert c.View() == views[i][n..];
  }

  lemma LinkAt(cs: seq<Chain>, i: nat)
    requires Linked(cs) && i < |cs|
    ensures cs[i].next == if i + 1 < |cs| then cs[i + 1] else null
  {
  }

  lemma ShowAt(cs: seq<Chain>, views: seq<seq<byte>>, i: nat)
    requires Shows(cs, views) && i < |cs|
    ensures |views| == |cs| && cs[i].Ok() && cs[i].View() == views[i] && |views[i]| == cs[i].off
  {
  }

  lemma Suffix(cs: seq<Chain>, views: seq<seq<byte>>, k: nat)
    requires k <= |cs| && Linked(cs) && Separate(cs) && Shows(cs, views)
    ensures Linked(cs[k..]) && Separate(cs[k..]) && Shows(cs[k..], views[k..])
  {
  }

  const MAX_TO_REALIGN_IN_EXPAND: nat := 2048

  /** evbuffer_chain_should_realign */
  predicate ShouldRealign(chain: Chain, datlen: nat)
    requires chain.Ok()
    reads chain`misalign, chain`off
  {
    && chain.buffer.Length - chain.off >= datlen
    && chain.off < chain.buffer.Length / 2
    && chain.off <= MAX_TO_REALIGN_IN_EXPAND
  }

  /** memcpy of n bytes of the chain's data, from position p on, behind the first bytes of want in dst. */
  method CopyNext(c: Chain, p: nat, n: nat, dst: array<byte>, at: nat, ghost want: seq<byte>)
    requires c.Ok() && p + n <= c.off && at + n <= |want| <= dst.Length && dst != c.buffer
    requires dst[..at] == want[..at] && c.View()[p..p + n] == want[at..at + n]
    modifies dst
    ensures dst[..at + n] == want[..at + n] && dst[|want|..] == old(dst[|want|..])
  {
    ghost var before, view := dst[..at], c.View();
    forall j | at <= j < at + n { dst[j] := c.buffer[c.misalign + p + j - at]; }
    forall j | 0 <= j < at + n
      ensures dst[j] == want[j]
    {
      if j < at {
        assert before[j] == want[..at][j];
      } else {
        assert view[p..p + n][j - at] == want[at..at + n][j - at];
      }
    }
  }

  /** No chain in common, and no memory in common that one of the two sides may write. */
  ghost predicate Disjoint(xs: seq<Chain>, ys: seq<Chain>) {
    forall x, y :: x in xs && y in ys ==> x != y && (!(x.immutable && y.immutable) ==> x.buffer != y.buffer)
  }

  lemma DisjointSymmetric(xs: seq<Chain>, ys: seq<Chain>)
    requires Disjoint(xs, ys)
    ensures Disjoint(ys, xs)
  {
  }

  lemma DisjointParts(xs: seq<Chain>, ys: seq<Chain>, xs': seq<Chain>, ys': seq<Chain>)
    requires Disjoint(xs, ys)
    requires (forall x :: x in xs' ==> x in xs) && (forall y :: y in ys' ==> y in ys)
    ensures Disjoint(xs', ys')
  {
  }

  lemma ConcatLists(xs: seq<Chain>, ys: seq<Chain>, vx: seq<seq<byte>>, vy: seq<seq<byte>>)
    requires Separate(xs) && Separate(ys) && Disjoint(xs, ys)
    requires Shows(xs, vx) && Shows(ys, vy)
    ensures Separate(xs + ys) && Shows(xs + ys, vx + vy)
    ensures Flatten(vx + vy) == Flatten(vx) + Flatten(vy)
  {
    FlattenConcat(vx, vy);
    ConcatSeparate(xs, ys);
    ConcatShows(xs, ys, vx, vy);
  }

  lemma ConcatSeparate(xs: seq<Chain>, ys: seq<Chain>)
    requires Separate(xs) && Separate(ys) && Disjoint(xs, ys)
    ensures Separate(xs + ys)
  {
    var zs := xs + ys;
    forall i, j | 0 <= i < |zs| && 0 <= j < |zs| && i != j
      ensures zs[i] != zs[j] && (!zs[i].immutable ==> zs[i].buffer != zs[j].buffer)
    {
      assert if i < |xs| then zs[i] == xs[i] && zs[i] in xs else zs[i] == ys[i - |xs|] && zs[i] in ys;
      assert if j < |xs| then zs[j] == xs[j] && zs[j] in xs else zs[j] == ys[j - |xs|] && zs[j] in ys;
    }
  }

  lemma ConcatShows(xs: seq<Chain>, ys: seq<Chain>, vx: seq<seq<byte>>, vy: seq<seq<byte>>)
    requires Shows(xs, vx) && Shows(ys, vy)
    ensures Shows(xs + ys, vx + vy)
  {
  }

  lemma LinkConcat(xs: seq<Chain>, ys: seq<Chain>)
    requires Linked(ys) && ys != []
    requires forall i {:trigger xs[i].next} :: 0 <= i < |xs| ==> xs[i].next == if i + 1 < |xs| then xs[i + 1] else ys[0]
    ensures Linked(xs + ys)
  {
  }

  lemma LinkOne(c: Chain)
    requires c.next == null
    ensures Linked([c])
  {
  }

  lemma NoSharedChains(xs: seq<Chain>, ys: seq<Chain>)
    requires Disjoint(xs, ys)
    ensures forall i :: 0 <= i < |xs| ==> xs[i] !in ys && xs[i] !in BuffersOf(ys)
    ensures forall i :: 0 <= i < |ys| ==> ys[i] !in xs && ys[i] !in BuffersOf(xs)
  {
    DisjointSymmetric(xs, ys);
    assert forall i :: 0 <= i < |xs| ==> xs[i] in xs;
    assert forall i :: 0 <= i < |ys| ==> ys[i] in ys;
    forall i | 0 <= i < |xs|
      ensures xs[i] !in ys && xs[i] !in BuffersOf(ys)
    {
      ChainsAreNotBuffers(ys, xs[i]);
    }
    forall i | 0 <= i < |ys|
      ensures ys[i] !in xs && ys[i] !in BuffersOf(xs)
    {
      ChainsAreNotBuffers(xs, ys[i]);
    }
  }

  lemma NotOwned(cs: seq<Chain>, a: array<byte>)
    requires a !in BuffersOf(cs)
    ensures a !in Own(cs)
  {
  }

  lemma DisjointEmpty(xs: seq<Chain>)
    ensures Disjoint(xs, []) && Disjoint([], xs)
  {
  }

  lemma Parts(cs: seq<Chain>, views: seq<seq<byte>>, k: nat)
    requires k <= |cs| && Separate(cs) && Shows(cs, views)
    ensures |views| == |cs| && Separate(cs[..k]) && Shows(cs[..k], views[..k])
  {
  }

  lemma DisjointHalves(cs: seq<Chain>, k: nat)
    requires Separate(cs) && k <= |cs|
    ensures Disjoint(cs[..k], cs[k..])
  {
  }

  lemma DisjointUnion(xs: seq<Chain>, ys: seq<Chain>, zs: seq<Chain>)
    requires Disjoint(xs, zs) && Disjoint(ys, zs)
    ensures Disjoint(xs + ys, zs)
  {
  }

  /** What xs may write is no chain of ys and no memory of ys. */
  lemma OwnApart(xs: seq<Chain>, ys: seq<Chain>)
    requires Disjoint(xs, ys)
    ensures forall o :: o in Own(xs) ==> o !in BuffersOf(ys)
    ensures forall i :: 0 <= i < |ys| ==> ys[i] !in Own(xs)
  {
    NoSharedChains(xs, ys);
    forall o | o in Own(xs)
      ensures o !in BuffersOf(ys)
    {
      if o is Chain {
        ChainsAreNotBuffers(ys, o as Chain);
      }
    }
    forall i | 0 <= i < |ys|
      ensures ys[i] !in Own(xs)
    {
      ChainsAreNotBuffers(xs, ys[i]);
    }
  }

  lemma DisjointAfterMove(ds: seq<Chain>, j: nat, cs: seq<Chain>, k: nat)
    requires Disjoint(cs, ds) && Separate(cs) && j <= |ds| && k <= |cs|
    ensures Disjoint(cs[k..], ds[..j] + cs[..k])
  {
    DisjointHalves(cs, k);
    DisjointSymmetric(cs, ds);
    DisjointParts(ds, cs, ds[..j], cs[k..]);
    DisjointUnion(ds[..j], cs[..k], cs[k..]);
    DisjointSymmetric(ds[..j] + cs[..k], cs[k..]);
  }

  lemma StillApart(ds: seq<Chain>, ds': seq<Chain>, cs: seq<Chain>)
    requires Disjoint(cs, ds)
    requires forall d :: d in ds' && d !in ds ==> d !in cs && d.buffer !in BuffersOf(cs)
    ensures Disjoint(cs, ds')
  {
  }

  lemma OwnWithin(xs: seq<Chain>, a: seq<Chain>, b: seq<Chain>)
    requires forall x :: x in xs ==> x in a || x in b
    ensures Own(xs) <= Own(a) + Own(b) && BuffersOf(xs) <= BuffersOf(a) + BuffersOf(b)
  {
  }

  /** No chain of the list but tmp itself uses the memory of tmp. */
  ghost predicate Solo(cs: seq<Chain>, tmp: Chain) {
    !tmp.immutable && forall c :: c in cs && c.buffer == tmp.buffer ==> c == tmp
  }

  lemma SoloMember(cs: seq<Chain>, tmp: Chain)
    requires Separate(cs) && tmp in cs && !tmp.immutable
    ensures Solo(cs, tmp)
  {
    forall c | c in cs && c.buffer == tmp.buffer
      ensures c == tmp
    {
      var i :| 0 <= i < |cs| && cs[i] == c;
      var j :| 0 <= j < |cs| && cs[j] == tmp;
    }
  }

  /** The data area of tmp starts with the first n bytes of want. */
  ghost predicate Holds(tmp: Chain, n: nat, want: seq<byte>)
    reads tmp`misalign, tmp.buffer
  {
    && n <= |want| && tmp.misalign + n <= tmp.buffer.Length
    && tmp.buffer[tmp.misalign..tmp.misalign + n] == want[..n]
  }

  /** memcpy of n data bytes of c, from p on, to position at of the data area of tmp, which lies in its free space. */
  method Gather(tmp: Chain, at: nat, c: Chain, p: nat, n: nat, ghost cs: seq<Chain>, ghost views: seq<seq<byte>>,
      ghost want: seq<byte>)
    requires Shows(cs, views) && Solo(cs, tmp) && (tmp in cs ==> tmp.off <= at)
    requires c in cs && c.buffer != tmp.buffer && c.Ok() && p + n <= c.off
    requires tmp.misalign + at + n <= tmp.buffer.Length && at + n <= |want|
    requires Holds(tmp, at, want) && c.View()[p..p + n] == want[at..at + n]
    modifies tmp.buffer
    ensures Shows(cs, views) && Holds(tmp, at + n, want)
  {
    hide Holds;
    Place(tmp, at, c.Read(p, n), want);
  }

  method Place(tmp: Chain, at: nat, data: seq<byte>, ghost want: seq<byte>)
    requires tmp.misalign + at + |data| <= tmp.buffer.Length && at + |data| <= |want|
    requires Holds(tmp, at, want) && data == want[at..at + |data|]
    modifies tmp.buffer
    ensures Holds(tmp, at + |data|, want)
    ensures tmp.buffer[..tmp.misalign + at] == old(tmp.buffer[..tmp.misalign + at])
  {
    tmp.CopyIn(tmp.misalign + at, data);
    Placed(tmp.buffer[..], old(tmp.buffer[..]), tmp.misalign, at, data);
    assert want[..at + |data|] == want[..at] + want[at..at + |data|];
  }

  lemma Placed(a: seq<byte>, b: seq<byte>, m: nat, at: nat, data: seq<byte>)
    requires m + at + |data| <= |b|
    requires a == b[..m + at] + data + b[m + at + |data|..]
    ensures a[m..m + at + |data|] == b[m..m + at] + data
  {
  }

  lemma SoloOther(cs: seq<Chain>, tmp: Chain, c: Chain)
    requires Solo(cs, tmp) && c in cs && c != tmp
    ensures c.buffer != tmp.buffer
  {
  }

  method NewSolo(size: nat, ghost cs: seq<Chain>, ghost want: seq<byte>) returns (tmp: Chain)
    requires forall o :: o in BuffersOf(cs) ==> allocated(o)
    requires |want| == size
    ensures fresh(tmp) && fresh(tmp.buffer) && tmp.off == 0 && tmp.misalign == 0 && tmp.next == null && !tmp.immutable
    ensures size <= tmp.buffer.Length && tmp !in cs && Solo(cs, tmp) && Joinable(cs, tmp) && Holds(tmp, 0, want)
  {
    tmp := new Chain.New(size);
  }

  lemma JoinSuffix(cs: seq<Chain>, k: nat, chain: Chain)
    requires chain !in cs && Joinable(cs, chain) && k <= |cs|
    ensures chain !in cs[k..] && Joinable(cs[k..], chain)
  {
  }

  /** The first chain may be put in front of any later ones. */
  lemma JoinRest(cs: seq<Chain>, k: nat)
    requires Separate(cs) && 0 < k <= |cs| && !cs[0].immutable && cs[0].Ok()
    ensures cs[0] !in cs[k..] && Joinable(cs[k..], cs[0])
  {
  }

  lemma HoldsFirst(c: Chain, views: seq<seq<byte>>, n: nat)
    requires views != [] && c.Ok() && c.View() == views[0] && c.off <= n <= |Flatten(views)|
    ensures |Flatten(views[..1])| == c.off && Holds(c, c.off, Flatten(views)[0..n])
  {
    FlattenAt(views, 0);
    PrefixWhole(views);
    PrefixLength(views, 0);
  }

  ghost function Opt(c: Chain?): set<Chain> {
    if c == null then {} else {c}
  }

  lemma Replaced(cs: seq<Chain>, views: seq<seq<byte>>, i: nat, tmp: Chain)
    requires i < |cs| && Separate(cs) && Shows(cs, views) && tmp !in cs && Joinable(cs, tmp) && tmp.View() == views[i]
    ensures Separate(cs[i := tmp]) && Shows(cs[i := tmp], views)
  {
  }

  method NewCopy(size: nat, data: seq<byte>, ghost cs: seq<Chain>) returns (tmp: Chain)
    requires |data| <= size && forall o :: o in BuffersOf(cs) ==> allocated(o)
    ensures fresh(tmp) && fresh(tmp.buffer) && !tmp.immutable && tmp.next == null && tmp !in cs && Joinable(cs, tmp)
    ensures tmp.Ok() && tmp.View() == data && tmp.Space() >= size - |data|
  {
    tmp := NewChainWith(size, data);
  }

  /** The free space behind the data of a chain. */
  ghost function Free(c: Chain): nat
    reads c`misalign, c`off
  {
    if c.Ok() then c.Space() else 0
  }

  /** The free space of these chains, in all. */
  ghost function Room(cs: seq<Chain>): nat
    reads cs`misalign, cs`off
  {
    if cs == [] then 0
    else
      var c := cs[|cs| - 1];
      assert c in cs && forall x :: x in cs[..|cs| - 1] ==> x in cs;
      Room(cs[..|cs| - 1]) + Free(c)
  }

  ghost function RoomOf(cs: seq<Chain>, s: nat, e: nat): nat
    requires s <= e <= |cs|
    reads cs`misalign, cs`off
  {
    assert forall x :: x in cs[s..e] ==> x in cs;
    Room(cs[s..e])
  }

  lemma RoomPush(cs: seq<Chain>, s: nat, e: nat)
    requires s <= e < |cs|
    ensures RoomOf(cs, s, e + 1) == Room(cs[s..e]) + Free(cs[e]) && RoomOf(cs, s, s) == 0
  {
    assert cs[s..e + 1][..e - s] == cs[s..e];
  }

  lemma RoomAppend(cs: seq<Chain>, s: nat, c: Chain)
    requires s <= |cs|
    ensures RoomOf(cs + [c], s, |cs| + 1) == Room(cs[s..]) + Free(c)
  {
    RoomPush(cs + [c], s, |cs|);
    assert (cs + [c])[s..|cs|] == cs[s..];
  }
}
