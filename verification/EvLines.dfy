/** Finding ends of lines in an evbuffer, and reading a line off its front. */
module EvLines {
  import opened Bytes
  import opened Blocks
  import opened ChainLists
  import opened EvBuffers
  import opened EvSearch

  datatype EolStyle = EolAny | EolCrlf | EolCrlfStrict | EolLf | EolNul

  const CR: byte := 13
  const LF: byte := 10
  const NUL: byte := 0
  const CHUNK_SZ: nat := 128

  /** What a walk over the chains looks for: one byte, or either byte of a CRLF. */
  datatype Sought = One(b: byte) | CrOrLf {
    ghost predicate Has(x: byte) {
      match this
      case One(b) => x == b
      case CrOrLf => x == CR || x == LF
    }
  }

  /** The first position from s on that holds a sought byte; the end of c when there is none. */
  ghost function FirstIn(c: seq<byte>, s: nat, w: Sought): (p: nat)
    requires s <= |c|
    ensures s <= p <= |c| && (p < |c| ==> w.Has(c[p]))
    ensures forall q :: s <= q < p ==> !w.Has(c[q])
    decreases |c| - s
  {
    if s == |c| || w.Has(c[s]) then s else FirstIn(c, s + 1, w)
  }

  /** How many bytes from s on are sought ones, without a gap. */
  ghost function RunLength(c: seq<byte>, s: nat, w: Sought): (n: nat)
    requires s <= |c|
    ensures s + n <= |c| && (s + n < |c| ==> !w.Has(c[s + n]))
    ensures forall q :: s <= q < s + n ==> w.Has(c[q])
    decreases |c| - s
  {
    if s == |c| || !w.Has(c[s]) then 0 else 1 + RunLength(c, s + 1, w)
  }

  lemma {:induction false} FirstInIs(c: seq<byte>, s: nat, p: nat, w: Sought)
    requires s <= p <= |c| && (p < |c| ==> w.Has(c[p])) && forall q :: s <= q < p ==> !w.Has(c[q])
    ensures FirstIn(c, s, w) == p
    decreases p - s
  {
    if s < p {
      FirstInIs(c, s + 1, p, w);
    }
  }

  /** find_eol_char over the chain's data from position i on, in chunks */
  method FindEolIn(c: Chain, i: nat) returns (p: int)
    requires c.Ok() && i <= c.off
    ensures p == -1 || i <= p < c.off
    ensures p >= 0 ==> CrOrLf.Has(c.View()[p])
    ensures forall q :: i <= q < (if p < 0 then c.off else p) ==> !CrOrLf.Has(c.View()[q])
  {
    var s := i;
    while s < c.off
      invariant i <= s
      invariant forall q :: i <= q < s && q < c.off ==> !CrOrLf.Has(c.View()[q])
    {
      var chunk := if s + CHUNK_SZ < c.off then CHUNK_SZ else c.off - s;
      var cr := Memchr(c, s, chunk, CR);
      var lf := Memchr(c, s, chunk, LF);
      if cr >= 0 {
        if lf >= 0 && lf < cr {
          return lf;
        }
        return cr;
      } else if lf >= 0 {
        return lf;
      }
      s := s + CHUNK_SZ;
    }
    p := -1;
  }

  method FindIn(c: Chain, i: nat, w: Sought) returns (p: int)
    requires c.Ok() && i <= c.off
    ensures p == -1 || i <= p < c.off
    ensures p >= 0 ==> w.Has(c.View()[p])
    ensures forall q :: i <= q < (if p < 0 then c.off else p) ==> !w.Has(c.View()[q])
  {
    match w {
      case One(b) => p := Memchr(c, i, c.off - i, b);
      case CrOrLf => p := FindEolIn(c, i);
    }
  }

  /** evbuffer_strchr and evbuffer_find_eol_char; found is false where they return -1 */
  method FindByte(buf: EvBuffer, start: Ptr, w: Sought, ghost k0: nat) returns (found: bool, it: Ptr, ghost k: nat)
    requires buf.Core() && buf.PtrAt(start, k0)
    ensures buf.Core()
    ensures var c := Flatten(buf.views); 0 <= start.pos <= |c| && var p := FirstIn(c, start.pos, w);
      found == (p < |c|) && (found ==> it.pos == p && buf.PtrAt(it, k) && Canonical(buf, it, k))
  {
    hide Linked, Separate, Shows, Flatten, LastBlock, Chain.View, Sought.Has, EvBuffer.Core;
    ghost var c := Flatten(buf.views);
    buf.PtrBound(start, k0);
    it, k := start, k0;
    while it.chain != null
      invariant buf.Core() && buf.PtrAt(it, k) && start.pos <= it.pos <= |c|
      invariant forall q :: start.pos <= q < it.pos ==> !w.Has(c[q])
      decreases |buf.chains| - k
    {
      buf.CoreAt(k);
      var chain := it.chain;
      var p := FindIn(chain, it.posInChain, w);
      assert buf.views[k] == chain.View();
      SkipBytes(buf.views, w, k, it.posInChain, if p < 0 then chain.off else p, start.pos);
      PrefixLength(buf.views, k);
      if p >= 0 {
        BlockByte(buf.views, k, p);
        it := Ptr(it.pos + p - it.posInChain, chain, p);
        FirstInIs(c, start.pos, it.pos, w);
        found := true;
        return;
      }
      PrefixFits(buf.views, k);
      it := Ptr(it.pos + chain.off - it.posInChain, chain.next, 0);
      k := k + 1;
    }
    buf.CoreAt(k);
    PrefixWhole(buf.views);
    FirstInIs(c, start.pos, |c|, w);
    found := false;
  }

  lemma SkipBytes(views: seq<seq<byte>>, w: Sought, k: nat, at: nat, p: nat, s: int)
    requires k < |views| && at <= p <= |views[k]| && 0 <= s <= |Flatten(views[..k])| + at
    requires forall q :: at <= q < p ==> !w.Has(views[k][q])
    requires |Flatten(views[..k])| + at <= |Flatten(views)| && forall q :: s <= q < |Flatten(views[..k])| + at ==>
        !w.Has(Flatten(views)[q])
    ensures |Flatten(views[..k])| + p <= |Flatten(views)|
    ensures forall q :: s <= q < |Flatten(views[..k])| + p ==> !w.Has(Flatten(views)[q])
  {
    hide Flatten;
    var pre := |Flatten(views[..k])|;
    PrefixFits(views, k);
    forall q | pre + at <= q < pre + p
      ensures !w.Has(Flatten(views)[q])
    {
      BlockByte(views, k, q - pre);
    }
  }

  /** evbuffer_strspn over CR and LF. The position it leaves is the end of the run; where that is the end of the buffer,
      the chain it names is the last one, at offset 0. */
  method StrSpn(buf: EvBuffer, ptr: Ptr, w: Sought, ghost k0: nat) returns (count: nat, end: Ptr)
    requires buf.Core() && buf.PtrAt(ptr, k0)
    ensures buf.Core()
    ensures 0 <= ptr.pos <= |buf.Contents()| && count == RunLength(buf.Contents(), ptr.pos, w)
    ensures end.pos == ptr.pos + count && (ptr.chain == null ==> end == ptr)
    ensures ptr.chain != null && end.pos < |buf.Contents()| ==> exists k: nat :: Canonical(buf, end, k)
    ensures ptr.chain != null && end.pos == |buf.Contents()| ==>
        buf.chains != [] && end.chain == Last(buf) && end.posInChain == 0
  {
    hide Linked, Separate, Shows, Flatten, LastBlock, Chain.View, EvBuffer.Core, RunLength, Sought.Has, AllHave;
    ghost var c := Flatten(buf.views);
    buf.PtrBound(ptr, k0);
    buf.CoreAt(k0);
    PrefixWhole(buf.views);
    count, end := 0, ptr;
    hide Canonical;
    NoneHave(c, ptr.pos, w);
    if ptr.chain == null {
      RunLengthIs(c, ptr.pos, 0, w);
      return;
    }
    var chain, i := ptr.chain, ptr.posInChain;
    ghost var k: nat := k0;
    while true
      invariant 0 <= k < |buf.chains| == |buf.views| && 0 <= i <= |buf.views[k]| && chain == buf.chains[k]
      invariant ptr.pos + count == |Flatten(buf.views[..k])| + i <= |c|
      invariant AllHave(c, ptr.pos, ptr.pos + count, w)
      decreases |buf.chains| - k
    {
      var j := SpnChain(buf, chain, k, i, w, ptr.pos);
      count := count + j - i;
      if j < chain.off {
        end := Ptr(ptr.pos + count, chain, j);
        break;
      }
      if chain.next == null {
        end := Ptr(ptr.pos + count, chain, 0);
        break;
      }
      i := 0;
      chain := chain.next;
      k := k + 1;
    }
    RunLengthIs(c, ptr.pos, count, w);
  }

  /** The run goes on through chain number k, or ends there. */
  method SpnChain(buf: EvBuffer, chain: Chain, ghost k: nat, i: nat, w: Sought, ghost s: nat) returns (j: nat)
    requires buf.Core() && k < |buf.chains| == |buf.views| && chain == buf.chains[k] && i <= |buf.views[k]|
    requires AllHave(Flatten(buf.views), s, |Flatten(buf.views[..k])| + i, w)
    ensures buf.Core() && i <= j <= chain.off == |buf.views[k]|
    ensures chain.next == if k + 1 < |buf.chains| then buf.chains[k + 1] else null
    ensures |Flatten(buf.views[..k + 1])| == |Flatten(buf.views[..k])| + chain.off <= |Flatten(buf.views)|
    ensures var c, e := Flatten(buf.views), |Flatten(buf.views[..k])| + j;
      && AllHave(c, s, e, w) && (k + 1 == |buf.chains| && j == chain.off ==> e == |c|)
      && (j < chain.off ==> e < |c| && !w.Has(c[e]) && Canonical(buf, Ptr(e, chain, j), k))
  {
    hide Linked, Separate, Shows, Flatten, LastBlock, Chain.View, EvBuffer.Core, Sought.Has, HasByte;
    buf.CoreAt(k);
    PrefixLength(buf.views, k);
    PrefixWhole(buf.views);
    PrefixFits(buf.views, k);
    j := SpnIn(chain, i, w);
    assert buf.views[k] == chain.View();
    RunBytes(buf.views, w, k, i, j, s);
  }

  /** The run of sought bytes within one chain */
  method SpnIn(c: Chain, i: nat, w: Sought) returns (j: nat)
    requires c.Ok() && i <= c.off
    ensures i <= j <= c.off && (j < c.off ==> !w.Has(c.View()[j]))
    ensures forall q :: i <= q < j ==> w.Has(c.View()[q])
  {
    j := i;
    while j < c.off && HasByte(w, c.Read(j, 1)[0])
      invariant i <= j <= c.off
      invariant forall q :: i <= q < j ==> w.Has(c.View()[q])
    {
      assert c.Read(j, 1)[0] == c.View()[j];
      j := j + 1;
    }
    assert j < c.off ==> c.Read(j, 1)[0] == c.View()[j];
  }

  /** The bytes from s up to e are sought ones. */
  ghost predicate AllHave(c: seq<byte>, s: int, e: int, w: Sought) {
    0 <= s <= e <= |c| && forall q :: s <= q < e ==> w.Has(c[q])
  }

  lemma NoneHave(c: seq<byte>, s: nat, w: Sought)
    requires s <= |c|
    ensures AllHave(c, s, s, w)
  {
  }

  lemma RunBytes(views: seq<seq<byte>>, w: Sought, k: nat, at: nat, p: nat, s: int)
    requires k < |views| && at <= p <= |views[k]| && 0 <= s <= |Flatten(views[..k])| + at <= |Flatten(views)|
    requires forall q :: at <= q < p ==> w.Has(views[k][q])
    requires p < |views[k]| ==> !w.Has(views[k][p])
    requires AllHave(Flatten(views), s, |Flatten(views[..k])| + at, w)
    ensures var e := |Flatten(views[..k])| + p;
      && e <= |Flatten(views)| && (p < |views[k]| ==> e < |Flatten(views)| && !w.Has(Flatten(views)[e]))
      && AllHave(Flatten(views), s, e, w)
  {
    hide Flatten;
    var pre := |Flatten(views[..k])|;
    PrefixFits(views, k);
    forall q | pre + at <= q < pre + p
      ensures w.Has(Flatten(views)[q])
    {
      BlockByte(views, k, q - pre);
    }
    if p < |views[k]| {
      BlockByte(views, k, p);
    }
  }

  ghost function Last(buf: EvBuffer): Chain?
    reads buf`chains
  {
    if buf.chains == [] then null else buf.chains[|buf.chains| - 1]
  }

  predicate HasByte(w: Sought, x: byte)
    ensures HasByte(w, x) == w.Has(x)
  {
    match w
    case One(b) => x == b
    case CrOrLf => x == CR || x == LF
  }

  lemma {:induction false} RunLengthIs(c: seq<byte>, s: nat, n: nat, w: Sought)
    requires AllHave(c, s, s + n, w) && (s + n < |c| ==> !w.Has(c[s + n]))
    ensures RunLength(c, s, w) == n
    decreases n
  {
    if n > 0 {
      RunLengthIs(c, s + 1, n - 1, w);
    }
  }

  const CRLF: seq<byte> := [CR, LF]

  /** The first position from s on where CR LF stands; the end of c when there is none. */
  ghost function FirstPair(c: seq<byte>, s: nat): (p: nat)
    requires s <= |c|
    ensures s <= p <= |c| && (p < |c| ==> Occurs(c, CRLF, p))
    ensures forall q: nat :: s <= q < p ==> !Occurs(c, CRLF, q)
    decreases |c| - s
  {
    if s == |c| || Occurs(c, CRLF, s) then s else FirstPair(c, s + 1)
  }

  lemma {:induction false} FirstPairIs(c: seq<byte>, s: nat, p: nat)
    requires s <= p <= |c| && (p < |c| ==> Occurs(c, CRLF, p)) && forall q: nat :: s <= q < p ==> !Occurs(c, CRLF, q)
    ensures FirstPair(c, s) == p
    decreases p - s
  {
    if s < p {
      FirstPairIs(c, s + 1, p);
    }
  }

  /** Where the first end of line from s on stands in c, and how long it is. */
  ghost function EolAt(c: seq<byte>, s: nat, style: EolStyle): Option<(nat, nat)>
    requires s <= |c|
  {
    match style
    case EolAny => var p := FirstIn(c, s, CrOrLf); if p == |c| then None else Some((p, RunLength(c, p, CrOrLf)))
    case EolCrlfStrict => var p := FirstPair(c, s); if p == |c| then None else Some((p, 2))
    case EolCrlf =>
      var p := FirstIn(c, s, One(LF));
      if p == |c| then None else if p > s && c[p - 1] == CR then Some((p - 1, 2)) else Some((p, 1))
    case EolLf => var p := FirstIn(c, s, One(LF)); if p == |c| then None else Some((p, 1))
    case EolNul => var p := FirstIn(c, s, One(NUL)); if p == |c| then None else Some((p, 1))
  }

  lemma NoEolAtEnd(c: seq<byte>, style: EolStyle)
    ensures EolAt(c, |c|, style) == None
  {
  }

  /** evbuffer_search_eol */
  method SearchEol(buf: EvBuffer, start: Option<Ptr>, style: EolStyle) returns (it: Ptr, eolLen: nat)
    requires buf.Core() && |buf.Contents()| <= SSIZE_MAX && (start.Some? ==> buf.PtrOk(start.value))
    ensures buf.Core()
    ensures 0 <= StartOf(start) <= |buf.Contents()|
    ensures match EolAt(buf.Contents(), StartOf(start), style)
      case None => it == NOT_FOUND && eolLen == 0
      case Some((p, n)) => it.pos == p && eolLen == n && buf.PtrOk(it)
  {
    hide Linked, Separate, Shows, Flatten, LastBlock, Occurs, EvBuffer.Core, EolAt;
    ghost var k: nat := 0;
    buf.CoreAt(0);
    PrefixWhole(buf.views);
    it, eolLen := Ptr(0, buf.first, 0), 0;
    if start.Some? {
      k :| buf.PtrAt(start.value, k);
      it := start.value;
    }
    buf.PtrBound(it, k);
    if start.Some? && start.value.chain == null {
      buf.CoreAt(k);
      NoEolAtEnd(Flatten(buf.views), style);
      return NOT_FOUND, 0;
    }
    it, eolLen := SearchFrom(buf, it, style, k);
  }

  /** The search for each style */
  method SearchFrom(buf: EvBuffer, start: Ptr, style: EolStyle, ghost k0: nat) returns (it: Ptr, eolLen: nat)
    requires buf.Core() && |buf.Contents()| <= SSIZE_MAX && buf.PtrAt(start, k0)
    ensures buf.Core() && 0 <= start.pos <= |buf.Contents()|
    ensures match EolAt(buf.Contents(), start.pos, style)
      case None => it == NOT_FOUND && eolLen == 0
      case Some((p, n)) => it.pos == p && eolLen == n && buf.PtrOk(it)
  {
    hide Linked, Separate, Shows, Flatten, LastBlock, Occurs, EvBuffer.Core, FirstIn, FirstPair, RunLength;
    buf.PtrBound(start, k0);
    it, eolLen := start, 0;
    ghost var k := k0;
    match style {
      case EolAny =>
        var found;
        found, it, k := FindByte(buf, it, CrOrLf, k);
        if !found {
          return NOT_FOUND, 0;
        }
        var it2;
        eolLen, it2 := StrSpn(buf, it, CrOrLf, k);
      case EolCrlfStrict =>
        it, eolLen := SearchPair(buf, it, k);
      case EolCrlf =>
        it, eolLen := SearchCrlf(buf, it, k);
      case EolLf =>
        it, eolLen := SearchOne(buf, it, LF, k);
      case EolNul =>
        it, eolLen := SearchOne(buf, it, NUL, k);
    }
  }

  method SearchOne(buf: EvBuffer, start: Ptr, b: byte, ghost k0: nat) returns (it: Ptr, eolLen: nat)
    requires buf.Core() && buf.PtrAt(start, k0)
    ensures buf.Core()
    ensures var c := buf.Contents(); 0 <= start.pos <= |c| && var p := FirstIn(c, start.pos, One(b));
      if p == |c| then it == NOT_FOUND && eolLen == 0 else it.pos == p && eolLen == 1 && buf.PtrOk(it)
  {
    hide Linked, Separate, Shows, Flatten, LastBlock, EvBuffer.Core;
    var found;
    ghost var k;
    found, it, k := FindByte(buf, start, One(b), k0);
    if found {
      eolLen := 1;
    } else {
      it, eolLen := NOT_FOUND, 0;
    }
  }

  method SearchPair(buf: EvBuffer, start: Ptr, ghost k0: nat) returns (it: Ptr, eolLen: nat)
    requires buf.Core() && buf.PtrAt(start, k0) && |buf.Contents()| <= SSIZE_MAX
    ensures buf.Core()
    ensures var c := buf.Contents(); 0 <= start.pos <= |c| && var p := FirstPair(c, start.pos);
      if p == |c| then it == NOT_FOUND && eolLen == 0 else it.pos == p && eolLen == 2 && buf.PtrOk(it)
  {
    hide Linked, Separate, Shows, Flatten, LastBlock, Occurs, EvBuffer.Core;
    buf.PtrBound(start, k0);
    it := SearchRange(buf, CRLF, Some(start), None);
    ghost var c := Flatten(buf.views);
    if it.pos < 0 {
      eolLen := 0;
      OccursWithin(c);
      FirstPairIs(c, start.pos, |c|);
    } else {
      eolLen := 2;
      FirstPairIs(c, start.pos, it.pos);
    }
  }

  lemma OccursWithin(c: seq<byte>)
    ensures forall q: nat :: Occurs(c, CRLF, q) ==> q + 2 <= |c|
  {
  }

  method SearchCrlf(buf: EvBuffer, start: Ptr, ghost k0: nat) returns (it: Ptr, eolLen: nat)
    requires buf.Core() && buf.PtrAt(start, k0) && |buf.Contents()| <= SSIZE_MAX
    ensures buf.Core()
    ensures var c := buf.Contents(); 0 <= start.pos <= |c| && var p := FirstIn(c, start.pos, One(LF));
      if p == |c| then it == NOT_FOUND && eolLen == 0
      else if p > start.pos && c[p - 1] == CR then it.pos == p - 1 && eolLen == 2 && buf.PtrOk(it)
      else it.pos == p && eolLen == 1 && buf.PtrOk(it)
  {
    hide Linked, Separate, Shows, Flatten, LastBlock, EvBuffer.Core;
    var found;
    ghost var k;
    found, it, k := FindByte(buf, start, One(LF), k0);
    if !found {
      return NOT_FOUND, 0;
    }
    eolLen := 1;
    if it.pos == start.pos {
      return;
    }
    var r, it2 := PtrSubtract(buf, it, 1, k);
    var b := GetChr(buf, it2);
    if b == CR as int {
      it, eolLen := it2, 2;
    }
  }

  /** evbuffer_ptr_subtract; a position that is none, or that has fewer bytes before it, is left as it is. */
  method PtrSubtract(buf: EvBuffer, pos: Ptr, howfar: nat, ghost k: nat) returns (r: int, q: Ptr)
    requires buf.Core() && pos.pos <= SSIZE_MAX && (pos.pos >= 0 ==> buf.PtrAt(pos, k))
    ensures buf.Core()
    ensures if pos.pos < 0 || howfar > pos.pos then r == -1 && q == pos
            else
              && r == 0 && q.pos == pos.pos - howfar && buf.PtrOk(q)
              && (howfar > 0 ==> exists j: nat :: Canonical(buf, q, j))
  {
    hide Linked, Separate, Shows, Flatten, LastBlock, EvBuffer.Core;
    if pos.pos < 0 || howfar > pos.pos {
      return -1, pos;
    }
    buf.PtrBound(pos, k);
    if pos.chain != null && howfar <= pos.posInChain {
      q := Ptr(pos.pos - howfar, pos.chain, pos.posInChain - howfar);
      assert buf.PtrAt(q, k) && (howfar > 0 ==> Canonical(buf, q, k));
      return 0, q;
    }
    r, q := PtrSet(buf, pos, pos.pos - howfar, SET);
  }

  /** evbuffer_getchr */
  method GetChr(buf: EvBuffer, it: Ptr) returns (b: int)
    requires buf.Core() && exists k: nat :: Canonical(buf, it, k)
    ensures buf.Core() && 0 <= it.pos <= |buf.Contents()|
    ensures b == if it.pos < |buf.Contents()| then buf.Contents()[it.pos] as int else -1
  {
    hide Linked, Separate, Shows, Flatten, LastBlock, EvBuffer.Core;
    ghost var k: nat :| Canonical(buf, it, k);
    buf.PtrBound(it, k);
    buf.CoreAt(k);
    PrefixWhole(buf.views);
    if it.chain == null {
      return -1;
    }
    BlockByte(buf.views, k, it.posInChain);
    b := it.chain.Read(it.posInChain, 1)[0] as int;
  }

  /** evbuffer_readln; the line comes as a NUL-terminated array, or null where the function returns NULL */
  method Readln(buf: EvBuffer, style: EolStyle) returns (line: array?<byte>, nRead: nat)
    requires buf.Valid() && |buf.Contents()| <= SSIZE_MAX
    modifies buf.Footprint()
    ensures buf.Valid()
    ensures line == null <==> old(buf.freezeStart) || old(EolAt(buf.Contents(), 0, style)) == None
    ensures line == null ==> nRead == 0 && buf.Contents() == old(buf.Contents())
    ensures line != null ==>
      var (p, n) := old(EolAt(buf.Contents(), 0, style)).value;
      && nRead == p <= |old(buf.Contents())| && line.Length == p + 1 && line[p] == 0
      && line[..p] == old(buf.Contents())[..p] && buf.Contents() == DropBytes(old(buf.Contents()), p + n)
  {
    hide Linked, Separate, Shows, Flatten, LastBlock, Own, EolAt, EvBuffer.Core;
    line, nRead := null, 0;
    if buf.freezeStart {
      return;
    }
    EolFits(Flatten(buf.views), style);
    var it, extra := SearchEol(buf, None, style);
    if it.pos < 0 {
      return;
    }
    line := TakeLine(buf, it.pos, extra);
    nRead := it.pos;
  }

  method TakeLine(buf: EvBuffer, n: nat, extra: nat) returns (line: array<byte>)
    requires buf.Valid() && !buf.freezeStart && n + extra <= |buf.Contents()|
    modifies buf.Footprint()
    ensures buf.Valid() && buf.Contents() == DropBytes(old(buf.Contents()), n + extra)
    ensures fresh(line) && line.Length == n + 1 && line[n] == 0 && line[..n] == old(buf.Contents())[..n]
  {
    hide Linked, Separate, Shows, Flatten, LastBlock, Own, BuffersOf, EvBuffer.Core;
    Allocated(buf.chains);
    buf.CoreLength();
    line := new byte[n + 1];
    NotOwned(buf.chains, line);
    RemoveInto(buf, line, n, buf.chains);
    line[n] := 0;
    DropTwice(old(Flatten(buf.views)), n, extra);
    var _ := buf.Drain(extra);
  }

  /** Take the first n bytes off; the chains that stay are old ones. */
  method RemoveInto(buf: EvBuffer, line: array<byte>, n: nat, ghost cs: seq<Chain>)
    requires buf.Valid() && !buf.freezeStart && n <= |buf.Contents()| && cs == buf.chains
    requires line.Length == n + 1 && line !in BuffersOf(buf.chains)
    modifies buf.Footprint(), line
    ensures buf.Valid() && !buf.freezeStart && buf.Contents() == DropBytes(old(buf.Contents()), n)
    ensures line[..n] == old(buf.Contents())[..n]
    ensures line !in Own(buf.chains) && line !in BuffersOf(buf.chains) && buf.Footprint() <= {buf} + Own(cs)
  {
    hide Linked, Separate, Shows, Flatten, LastBlock, Own, BuffersOf, EvBuffer.Core;
    buf.CoreLength();
    var r := buf.Remove(line, n);
    OwnWithin(buf.chains, cs, cs);
    NotOwned(buf.chains, line);
  }

  lemma DropTwice(c: seq<byte>, a: nat, b: nat)
    ensures DropBytes(DropBytes(c, a), b) == DropBytes(c, a + b)
  {
  }

  lemma EolFits(c: seq<byte>, style: EolStyle)
    ensures EolAt(c, 0, style).Some? ==> EolAt(c, 0, style).value.0 + EolAt(c, 0, style).value.1 <= |c|
  {
  }

  /** Whether the bytes from position p on start with an end of line of the given style. */
  ghost predicate EolStarts(c: seq<byte>, p: nat, style: EolStyle) {
    p < |c| && match style
      case EolAny => c[p] == CR || c[p] == LF
      case EolCrlfStrict => Occurs(c, CRLF, p)
      case EolCrlf => c[p] == LF || Occurs(c, CRLF, p)
      case EolLf => c[p] == LF
      case EolNul => c[p] == NUL
  }

  /** The end of line found is the first one from the start of the search on: none starts earlier, and there is none
      when none is found. */
  lemma EolIsFirst(c: seq<byte>, s: nat, style: EolStyle)
    requires s <= |c|
    ensures match EolAt(c, s, style)
      case None => forall q: nat :: s <= q ==> !EolStarts(c, q, style)
      case Some((p, n)) => s <= p && EolStarts(c, p, style) && forall q: nat :: s <= q < p ==> !EolStarts(c, q, style)
  {
    var e := EolAt(c, s, style);
    forall q: nat | s <= q && (e.None? || q < e.value.0)
      ensures !EolStarts(c, q, style)
    {
      if q < |c| {
        assert One(LF).Has(c[q]) <==> c[q] == LF;
        assert One(NUL).Has(c[q]) <==> c[q] == NUL;
        assert CrOrLf.Has(c[q]) <==> c[q] == CR || c[q] == LF;
        PairAt(c, q);
        if q + 1 < |c| {
          assert One(LF).Has(c[q + 1]) <==> c[q + 1] == LF;
        }
      }
    }
    if e.Some? {
      PairAt(c, e.value.0);
    }
  }

  lemma PairAt(c: seq<byte>, q: nat)
    ensures Occurs(c, CRLF, q) <==> q + 1 < |c| && c[q] == CR && c[q + 1] == LF
  {
    if q + 2 <= |c| {
      assert c[q..q + 2] == [c[q], c[q + 1]];
    }
  }

  /** The terminator taken off is the one the style asks for: the whole run of CR and LF, or a pair, or one byte. */
  lemma EolIsWhole(c: seq<byte>, s: nat, style: EolStyle)
    requires s <= |c| && EolAt(c, s, style).Some?
    ensures var (p, n) := EolAt(c, s, style).value; p + n <= |c| && match style
      case EolAny => n > 0 && (p + n == |c| || !CrOrLf.Has(c[p + n])) && forall q :: p <= q < p + n ==> CrOrLf.Has(c[q])
      case EolCrlfStrict => c[p..p + n] == CRLF
      case EolCrlf => c[p..p + n] == CRLF || (c[p..p + n] == [LF] && (p == s || c[p - 1] != CR))
      case EolLf => c[p..p + n] == [LF]
      case EolNul => c[p..p + n] == [NUL]
  {
  }
}
