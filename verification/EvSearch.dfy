/** Positions in an evbuffer, and the searches that walk its chains. */
module EvSearch {
  import opened Bytes
  import opened Blocks
  import opened ChainLists
  import opened EvBuffers

  const NOT_FOUND := Ptr(-1, null, 0)

  /** The byte string what occurs in c at position p. */
  ghost predicate Occurs(c: seq<byte>, what: seq<byte>, p: nat) {
    p + |what| <= |c| && c[p..p + |what|] == what
  }

  /** What memcmp reports: the sign of the first difference. */
  function Memcmp(a: seq<byte>, b: seq<byte>): (r: int)
    requires |a| == |b|
    ensures r == 0 <==> a == b
  {
    if a == [] then 0
    else if a[0] < b[0] then -1
    else if a[0] > b[0] then 1
    else
      assert a == [a[0]] + a[1..] && b == [b[0]] + b[1..];
      Memcmp(a[1..], b[1..])
  }

  /** The first difference decides, wherever the bytes are cut behind equal ones. */
  lemma {:induction false} MemcmpAt(a: seq<byte>, b: seq<byte>, done: nat, n: nat)
    requires |a| == |b| && done + n <= |a| && a[..done] == b[..done]
    requires Memcmp(a[done..done + n], b[done..done + n]) != 0
    ensures Memcmp(a, b) == Memcmp(a[done..done + n], b[done..done + n])
    decreases |a|
  {
    var x, y := a[done..done + n], b[done..done + n];
    if done > 0 {
      assert a[0] == a[..done][0] && b[0] == b[..done][0];
      assert a[1..][..done - 1] == a[..done][1..] && b[1..][..done - 1] == b[..done][1..];
      TailSlice(a, done, n);
      TailSlice(b, done, n);
      MemcmpAt(a[1..], b[1..], done - 1, n);
    } else if x[0] == y[0] {
      assert a[1..][0..n - 1] == x[1..] && b[1..][0..n - 1] == y[1..];
      MemcmpAt(a[1..], b[1..], 0, n - 1);
    }
  }

  lemma TailSlice(a: seq<byte>, k: nat, n: nat)
    requires 0 < k && k + n <= |a|
    ensures a[1..][k - 1..k - 1 + n] == a[k..k + n]
  {
  }

  /** memchr over n bytes of the chain's data from position i on; -1 stands for NULL */
  method Memchr(c: Chain, i: nat, n: nat, b: byte) returns (p: int)
    requires c.Ok() && i + n <= c.off
    ensures p == -1 || i <= p < i + n
    ensures p >= 0 ==> c.View()[p] == b
    ensures forall q :: i <= q < (if p < 0 then i + n else p) ==> c.View()[q] != b
  {
    p := i;
    while p < i + n
      invariant i <= p <= i + n
      invariant forall q :: i <= q < p ==> c.View()[q] != b
    {
      if c.buffer[c.misalign + p] == b {
        return;
      }
      p := p + 1;
    }
    p := -1;
  }

  datatype How = SET | ADD

  /** evbuffer_ptr_set: the position found is right, but its number is kept in an ssize_t, which a position beyond
      SSIZE_MAX does not fit. */
  method PtrSet(buf: EvBuffer, pos: Ptr, position: nat, how: How) returns (r: int, q: Ptr)
    requires buf.Core() && position <= SIZE_MAX && (how.ADD? && pos.pos >= 0 ==> buf.PtrOk(pos))
    ensures buf.Core()
    ensures how.ADD? && (pos.pos < 0 || pos.pos + position > SIZE_MAX) ==> r == -1 && q == pos
    ensures !(how.ADD? && (pos.pos < 0 || pos.pos + position > SIZE_MAX)) ==>
      var t := if how.SET? then position else pos.pos + position;
      if t <= |buf.Contents()| then
        && r == 0 && q.pos == ToSsize(t) && (exists k: nat :: Canonical(buf, Ptr(t, q.chain, q.posInChain), k))
        && (buf.PtrOk(q) <==> t <= SSIZE_MAX)
      else r == -1 && q == NOT_FOUND
  {
    hide Linked, Separate, Shows, Flatten, LastBlock, EvBuffer.Core;
    var chain, left, at, target := buf.first, position, 0, position;
    ghost var k: nat := 0;
    PrefixWhole(buf.views);
    if how.ADD? {
      if pos.pos < 0 || SIZE_MAX - position < pos.pos {
        return -1, pos;
      }
      k :| buf.PtrAt(pos, k);
      chain, target, at := pos.chain, pos.pos + position, pos.posInChain;
    }
    buf.CoreAt(k);
    while chain != null && at + left >= chain.off
      invariant buf.Core() && 0 <= k <= |buf.chains| == |buf.views| && 0 <= left && 0 <= at
      invariant chain == if k < |buf.chains| then buf.chains[k] else null
      invariant k < |buf.chains| ==> chain.off == |buf.views[k]|
      invariant |Flatten(buf.views[..k])| + at + left == target && (k < |buf.chains| ==> at <= |buf.views[k]|)
      invariant (k == |buf.chains| ==> at == 0)
      decreases |buf.chains| - k
    {
      buf.CoreAt(k);
      PrefixLength(buf.views, k);
      left := left - (chain.off - at);
      chain := chain.next;
      at := 0;
      k := k + 1;
      buf.CoreAt(k);
    }
    PrefixWhole(buf.views);
    if chain != null {
      PrefixFits(buf.views, k);
      r, q := 0, Ptr(ToSsize(target), chain, at + left);
      assert Canonical(buf, Ptr(target, q.chain, q.posInChain), k);
    } else if left == 0 {
      r, q := 0, Ptr(ToSsize(target), null, 0);
      assert Canonical(buf, Ptr(target, q.chain, q.posInChain), k);
    } else {
      r, q := -1, NOT_FOUND;
    }
  }

  /** So it is in a buffer of one byte more than SSIZE_MAX: its end is found, and reads as a position that is none. */
  method PtrSetWraps(buf: EvBuffer) returns (r: int, q: Ptr)
    requires buf.Core() && |buf.Contents()| == SSIZE_MAX + 1
    ensures r == 0 && q.pos == SSIZE_MIN && !buf.PtrOk(q)
  {
    r, q := PtrSet(buf, NOT_FOUND, SSIZE_MAX + 1, SET);
  }

  /** p denotes its position in chain number k, strictly inside it, or the end of the buffer. */
  ghost predicate Canonical(buf: EvBuffer, p: Ptr, k: nat)
    reads buf`chains, buf`views
  {
    buf.PtrAt(p, k) && (k < |buf.chains| ==> p.posInChain < |buf.views[k]|)
  }

  lemma PrefixFits(views: seq<seq<byte>>, k: nat)
    requires k < |views|
    ensures |Flatten(views[..k])| + |views[k]| <= |Flatten(views)|
  {
    FlattenAt(views, k);
  }

  ghost predicate Agree(a: seq<byte>, b: seq<byte>, n: nat) {
    n <= |a| == |b| && a[..n] == b[..n]
  }

  lemma AgreeMore(a: seq<byte>, b: seq<byte>, done: nat, n: nat)
    requires Agree(a, b, done) && done + n <= |a|
    ensures a[done..done + n] == b[done..done + n] <==> Agree(a, b, done + n)
  {
    assert a[..done + n] == a[..done] + a[done..done + n];
    assert b[..done + n] == b[..done] + b[done..done + n];
  }

  lemma AgreeAll(a: seq<byte>, b: seq<byte>, n: nat)
    requires n <= |a| == |b|
    ensures Agree(a, b, |a|) <==> a == b
    ensures a == b ==> Agree(a, b, n)
  {
    assert a[..|a|] == a && b[..|b|] == b;
  }

  /** evbuffer_ptr_memcmp; positions from which the bytes do not fit compare as less. */
  method PtrMemcmp(buf: EvBuffer, pos: Ptr, mem: seq<byte>, ghost k0: nat) returns (r: int)
    requires buf.Core() && buf.Countable() && buf.PtrAt(pos, k0)
    ensures var c := buf.Contents();
      && 0 <= pos.pos <= |c| && (r == 0 <==> Occurs(c, mem, pos.pos))
      && r == if pos.pos + |mem| > |c| then -1 else Memcmp(c[pos.pos..pos.pos + |mem|], mem)
  {
    hide Linked, Separate, Shows, Flatten, LastBlock, Occurs, EvBuffer.Core, Memcmp;
    buf.CoreLength();
    buf.PtrBound(pos, k0);
    OccursSlice(Flatten(buf.views), mem, pos.pos);
    if pos.pos < 0 || SIZE_MAX - |mem| < pos.pos || pos.pos + |mem| > buf.totalLen {
      return -1;
    }
    r := CompareWalk(buf, pos, mem, k0, Flatten(buf.views)[pos.pos..pos.pos + |mem|]);
  }

  lemma OccursSlice(c: seq<byte>, mem: seq<byte>, s: nat)
    ensures Occurs(c, mem, s) <==> s + |mem| <= |c| && c[s..s + |mem|] == mem
  {
  }

  method CompareWalk(buf: EvBuffer, pos: Ptr, mem: seq<byte>, ghost k0: nat, ghost want: seq<byte>) returns (r: int)
    requires buf.Core() && buf.PtrAt(pos, k0) && pos.pos + |mem| <= |Flatten(buf.views)|
    requires want == Flatten(buf.views)[pos.pos..pos.pos + |mem|]
    ensures r == Memcmp(want, mem)
  {
    hide Linked, Separate, Shows, Flatten, LastBlock, Agree, EvBuffer.Core, Memcmp;
    buf.CoreAt(k0);
    var chain, position, done := pos.chain, pos.posInChain, 0;
    ghost var k: nat := k0;
    AgreeAll(mem, want, 0);
    AgreeNone(mem, want);
    while done < |mem| && chain != null
      invariant 0 <= k <= |buf.chains| == |buf.views| && 0 <= done <= |mem| && 0 <= position
      invariant chain == if k < |buf.chains| then buf.chains[k] else null
      invariant done < |mem| ==> pos.pos + done == |Flatten(buf.views[..k])| + position
      invariant done < |mem| ==> if k < |buf.chains| then position <= |buf.views[k]| else position == 0
      invariant Agree(mem, want, done)
      decreases |buf.chains| - k
    {
      var n;
      r, n := CompareBlock(buf, chain, k, position, mem, done, pos.pos, want);
      if r != 0 {
        return;
      }
      done := done + n;
      position := 0;
      chain := chain.next;
      k := k + 1;
    }
    PrefixWhole(buf.views);
    AgreeAll(mem, want, |mem|);
    r := 0;
  }

  /** The bytes of chain number k against the next bytes of mem, as many as both have */
  method CompareBlock(buf: EvBuffer, chain: Chain, ghost k: nat, position: nat, mem: seq<byte>, done: nat, ghost s: nat,
      ghost want: seq<byte>)
      returns (r: int, n: nat)
    requires buf.Core() && k < |buf.chains| == |buf.views| && chain == buf.chains[k] && position <= |buf.views[k]|
    requires done < |mem|
    requires s + |mem| <= |Flatten(buf.views)| && want == Flatten(buf.views)[s..s + |mem|] && Agree(mem, want, done)
    requires s + done == |Flatten(buf.views[..k])| + position
    ensures chain.next == if k + 1 < |buf.chains| then buf.chains[k + 1] else null
    ensures done + n <= |mem| && (done + n < |mem| ==> s + done + n == |Flatten(buf.views[..k + 1])|)
    ensures if r == 0 then Agree(mem, want, done + n) else r == Memcmp(want, mem)
  {
    hide Linked, Separate, Shows, Flatten, LastBlock, Agree, EvBuffer.Core, Memcmp;
    buf.CoreAt(k);
    n := if |mem| - done + position > chain.off then chain.off - position else |mem| - done;
    SliceFromBlock(buf.views, k, position, n, s, |mem|, done);
    r := Memcmp(chain.Read(position, n), mem[done..done + n]);
    AgreeMore(mem, want, done, n);
    AgreeAll(mem, want, done + n);
    if r != 0 {
      AgreeIs(mem, want, done);
      MemcmpAt(want, mem, done, n);
    }
  }

  lemma AgreeIs(a: seq<byte>, b: seq<byte>, n: nat)
    requires Agree(a, b, n)
    ensures n <= |a| == |b| && a[..n] == b[..n]
  {
  }

  lemma AgreeNone(a: seq<byte>, b: seq<byte>)
    requires |a| == |b|
    ensures Agree(a, b, 0)
  {
  }

  /** The position where a search starts, and the one before which a match must end. */
  ghost function StartOf(start: Option<Ptr>): int {
    if start.Some? then start.value.pos else 0
  }

  ghost function EndOf(buf: EvBuffer, end: Option<Ptr>): int
    reads buf`views
  {
    if end.Some? then end.value.pos else |Flatten(buf.views)|
  }

  /** No match starts at any position from s on that is below t. */
  ghost predicate NoneBelow(c: seq<byte>, what: seq<byte>, s: int, t: int) {
    forall q: nat :: s <= q < t ==> !Occurs(c, what, q)
  }

  /** No match starts at s or later and ends by e. */
  ghost predicate NoneWithin(c: seq<byte>, what: seq<byte>, s: int, e: int) {
    forall q: nat :: s <= q && q + |what| <= e ==> !Occurs(c, what, q)
  }

  /** evbuffer_search_range; positions are added up in an ssize_t, which must not overflow. */
  method SearchRange(buf: EvBuffer, what: seq<byte>, start: Option<Ptr>, end: Option<Ptr>) returns (r: Ptr)
    requires buf.Core() && |Flatten(buf.views)| <= SSIZE_MAX
    requires (start.Some? ==> buf.PtrOk(start.value)) && (end.Some? ==> buf.PtrOk(end.value))
    ensures buf.Core()
    ensures what == [] || |what| > SSIZE_MAX ==> r == if start.Some? then start.value else Ptr(0, buf.first, 0)
    ensures 0 < |what| <= SSIZE_MAX && r.pos >= 0 ==> Found(buf, what, StartOf(start), EndOf(buf, end), r)
    ensures 0 < |what| <= SSIZE_MAX && r.pos < 0 ==>
      r == NOT_FOUND && NoneWithin(buf.Contents(), what, StartOf(start), EndOf(buf, end))
  {
    hide Linked, Separate, Shows, Flatten, LastBlock, Occurs, NoneBelow, NoneWithin, EvBuffer.Core;
    var pos := if start.Some? then start.value else Ptr(0, buf.first, 0);
    var chain := pos.chain;
    ghost var k: nat := 0;
    buf.CoreAt(0);
    PrefixWhole(buf.views);
    if start.Some? {
      k :| buf.PtrAt(start.value, k);
    }
    var lastChain := if end.Some? then end.value.chain else null;
    if what == [] || |what| > SSIZE_MAX {
      return pos;
    }
    r := SearchWalk(buf, what, pos, lastChain, end, k);
  }

  /** What a search from s for what may return as found. */
  ghost predicate Found(buf: EvBuffer, what: seq<byte>, s: int, e: int, r: Ptr)
    reads buf`chains, buf`views
  {
    && s <= r.pos && 0 <= r.pos && r.pos + |what| <= e && Occurs(Flatten(buf.views), what, r.pos)
    && NoneBelow(Flatten(buf.views), what, s, r.pos) && (exists k: nat :: Canonical(buf, r, k))
  }

  method SearchWalk(buf: EvBuffer, what: seq<byte>, start: Ptr, lastChain: Chain?, end: Option<Ptr>, ghost k0: nat)
      returns (r: Ptr)
    requires buf.Core() && |Flatten(buf.views)| <= SIZE_MAX && what != []
    requires buf.PtrAt(start, k0) && (end.Some? ==> buf.PtrOk(end.value)) && lastChain == if end.Some? then
        end.value.chain else null
    ensures buf.Core()
    ensures r.pos >= 0 ==> Found(buf, what, start.pos, EndOf(buf, end), r)
    ensures r.pos < 0 ==> r == NOT_FOUND && NoneWithin(Flatten(buf.views), what, start.pos, EndOf(buf, end))
  {
    hide Linked, Separate, Shows, Flatten, LastBlock, Occurs, NoneBelow, NoneWithin, Found, EvBuffer.Core;
    var pos := start;
    ghost var k: nat := k0;
    NoneYet(Flatten(buf.views), what, start.pos);
    while pos.chain != null
      invariant buf.Core() && buf.PtrAt(pos, k) && start.pos <= pos.pos
      invariant NoneBelow(Flatten(buf.views), what, start.pos, pos.pos)
      decreases |buf.chains| - k, |Flatten(buf.views)| - pos.pos
    {
      var stop;
      stop, r, pos, k := SearchStep(buf, what, start.pos, pos, lastChain, end, k);
      if stop {
        return;
      }
    }
    buf.CoreAt(k);
    PrefixWhole(buf.views);
    EndBound(buf, end);
    Beyond(Flatten(buf.views), what, start.pos, pos.pos, EndOf(buf, end));
    r := NOT_FOUND;
  }

  /** One turn of the search loop: either it ends, or it goes on from a later position. */
  method SearchStep(buf: EvBuffer, what: seq<byte>, ghost s: int, pos0: Ptr, lastChain: Chain?, end: Option<Ptr>,
      ghost k0: nat)
      returns (stop: bool, r: Ptr, pos: Ptr, ghost k: nat)
    requires buf.Core() && |Flatten(buf.views)| <= SIZE_MAX && what != []
    requires buf.PtrAt(pos0, k0) && pos0.chain != null && s <= pos0.pos
    requires NoneBelow(Flatten(buf.views), what, s, pos0.pos)
    requires (end.Some? ==> buf.PtrOk(end.value)) && lastChain == if end.Some? then end.value.chain else null
    ensures buf.Core()
    ensures stop && r.pos >= 0 ==> Found(buf, what, s, EndOf(buf, end), r)
    ensures stop && r.pos < 0 ==> r == NOT_FOUND && NoneWithin(Flatten(buf.views), what, s, EndOf(buf, end))
    ensures !stop ==> buf.PtrAt(pos, k) && s <= pos.pos && NoneBelow(Flatten(buf.views), what, s, pos.pos)
    ensures !stop ==> (k == k0 && pos0.pos < pos.pos <= |Flatten(buf.views)|) || k0 < k <= |buf.chains|
  {
    hide Linked, Separate, Shows, Flatten, LastBlock, Occurs, NoneBelow, NoneWithin, EvBuffer.Core;
    ghost var c := Flatten(buf.views);
    buf.CoreAt(k0);
    PrefixFits(buf.views, k0);
    PrefixLength(buf.views, k0);
    stop, r, pos, k := true, NOT_FOUND, pos0, k0;
    var chain := pos0.chain;
    var p := Memchr(chain, pos.posInChain, chain.off - pos.posInChain, what[0]);
    assert buf.views[k0] == chain.View();
    SkipTo(buf.views, what, k0, pos.posInChain, if p < 0 then chain.off else p, s);
    if p >= 0 {
      pos := Ptr(pos.pos + p - pos.posInChain, chain, p);
      var m := PtrMemcmp(buf, pos, what, k);
      OccursFits(c, what, pos.pos);
      if m == 0 {
        if end.Some? && pos.pos + |what| > end.value.pos {
          Beyond(c, what, s, pos.pos, EndOf(buf, end));
        } else {
          assert Canonical(buf, pos, k0);
          r := pos;
        }
        return;
      }
      NoneMore(c, what, s, pos.pos);
      pos := Ptr(pos.pos + 1, chain, p + 1);
      if pos.posInChain < chain.off {
        stop := false;
        return;
      }
    } else {
      if chain == lastChain {
        PastEnd(buf, end, k);
        Beyond(c, what, s, pos.pos + chain.off - pos.posInChain, EndOf(buf, end));
        return;
      }
      pos := Ptr(pos.pos + chain.off - pos.posInChain, chain, chain.off);
    }
    stop, pos, k := false, Ptr(pos.pos, chain.next, 0), k + 1;
  }

  lemma NoneYet(c: seq<byte>, what: seq<byte>, s: int)
    ensures NoneBelow(c, what, s, s)
  {
  }

  lemma NoneMore(c: seq<byte>, what: seq<byte>, s: int, t: nat)
    requires NoneBelow(c, what, s, t) && !Occurs(c, what, t)
    ensures NoneBelow(c, what, s, t + 1)
  {
  }

  lemma OccursFits(c: seq<byte>, what: seq<byte>, p: nat)
    ensures Occurs(c, what, p) ==> p + |what| <= |c|
  {
  }

  lemma Beyond(c: seq<byte>, what: seq<byte>, s: int, t: int, e: int)
    requires NoneBelow(c, what, s, t) && t + |what| > e
    ensures NoneWithin(c, what, s, e)
  {
  }

  /** Positions at to p of block k whose byte differs from what[0] start no match. */
  lemma SkipTo(views: seq<seq<byte>>, what: seq<byte>, k: nat, at: nat, p: nat, s: int)
    requires k < |views| && at <= p <= |views[k]| && what != []
    requires forall q :: at <= q < p ==> views[k][q] != what[0]
    requires NoneBelow(Flatten(views), what, s, |Flatten(views[..k])| + at)
    ensures NoneBelow(Flatten(views), what, s, |Flatten(views[..k])| + p)
  {
    hide Flatten, Occurs;
    var c, pre := Flatten(views), |Flatten(views[..k])|;
    forall q: nat | s <= q < pre + p
      ensures !Occurs(c, what, q)
    {
      if q >= pre + at {
        BlockByte(views, k, q - pre);
        NoMatchAt(c, what, q);
      }
    }
  }

  lemma BlockByte(views: seq<seq<byte>>, k: nat, j: nat)
    requires k < |views| && j < |views[k]|
    ensures var q := |Flatten(views[..k])| + j; q < |Flatten(views)| && Flatten(views)[q] == views[k][j]
  {
    FlattenAt(views, k);
  }

  lemma NoMatchAt(c: seq<byte>, what: seq<byte>, q: nat)
    requires what != [] && q < |c| && c[q] != what[0]
    ensures !Occurs(c, what, q)
  {
    if q + |what| <= |c| {
      assert c[q..q + |what|][0] == c[q];
    }
  }

  lemma PastEnd(buf: EvBuffer, end: Option<Ptr>, k: nat)
    requires buf.Core() && k < |buf.chains| && end.Some? && buf.PtrOk(end.value) && end.value.chain == buf.chains[k]
    ensures EndOf(buf, end) <= |Flatten(buf.views[..k])| + |buf.views[k]|
  {
    hide Flatten;
    var ke: nat :| buf.PtrAt(end.value, ke);
  }

  lemma EndBound(buf: EvBuffer, end: Option<Ptr>)
    requires end.Some? ==> buf.PtrOk(end.value)
    ensures EndOf(buf, end) <= |Flatten(buf.views)|
  {
    if end.Some? {
      var ke: nat :| buf.PtrAt(end.value, ke);
      buf.PtrBound(end.value, ke);
    }
  }
}
