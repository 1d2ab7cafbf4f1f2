/** evbuffer: a byte queue held in a list of chains. */
module EvBuffers {
  import opened Bytes
  import opened Blocks
  import opened ChainLists

  /** struct evbuffer_cb_info, if there is anything to report */
  datatype CbInfo = NoInfo | Info(origSize: nat, nAdded: nat, nDeleted: nat)

  /** struct evbuffer_cb_entry: a callback, and its flags EVBUFFER_CB_ENABLED and EVBUFFER_CB_NODEFER */
  datatype Callback = Callback(id: nat, enabled: bool, nodefer: bool)

  /** Which callbacks a pass calls: all that are enabled, or where the others are deferred those that are not to be, or
      in the deferred pass just the others */
  predicate Chosen(cb: Callback, runningDeferred: bool, deferredCbs: bool) {
    cb.enabled && (if runningDeferred then !cb.nodefer else deferredCbs ==> cb.nodefer)
  }

  function Called(cbs: seq<Callback>, runningDeferred: bool, deferredCbs: bool): seq<Callback> {
    if cbs == [] then []
    else
      var rest, cb := Called(cbs[..|cbs| - 1], runningDeferred, deferredCbs), cbs[|cbs| - 1];
      if Chosen(cb, runningDeferred, deferredCbs) then rest + [cb] else rest
  }

  lemma {:induction false} CalledIs(cbs: seq<Callback>, runningDeferred: bool, deferredCbs: bool, cb: Callback)
    ensures cb in Called(cbs, runningDeferred, deferredCbs) <==> cb in cbs && Chosen(cb, runningDeferred, deferredCbs)
  {
    if cbs != [] {
      CalledIs(cbs[..|cbs| - 1], runningDeferred, deferredCbs, cb);
      assert cbs == cbs[..|cbs| - 1] + [cbs[|cbs| - 1]];
    }
  }

  /** An enabled callback is called in the pass at once or in the deferred pass, and not in both. */
  lemma CalledApart(cbs: seq<Callback>, cb: Callback)
    ensures cb in cbs && cb.enabled <==> cb in Called(cbs, false, true) || cb in Called(cbs, true, true)
    ensures !(cb in Called(cbs, false, true) && cb in Called(cbs, true, true))
    ensures cb in cbs && cb.enabled <==> cb in Called(cbs, false, false)
  {
    CalledIs(cbs, false, true, cb);
    CalledIs(cbs, true, true, cb);
    CalledIs(cbs, false, false, cb);
  }

  datatype Slot = FirstOf(buf: EvBuffer) | NextOf(chain: Chain)

  lemma NotOwnedBuffer(cs: seq<Chain>, b: EvBuffer)
    ensures b !in Own(cs)
  {
  }

  /** struct evbuffer_ptr */
  datatype Ptr = Ptr(pos: int, chain: Chain?, posInChain: nat)

  lemma AddedHalves(all: seq<byte>, data: seq<byte>, k: nat)
    requires k <= |data|
    ensures all + data[..k] + data[k..] == all + data && (k == 0 ==> all + data[k..] == all + data)
  {
    assert data == data[..k] + data[k..];
  }

  lemma NotABuffer(cs: seq<Chain>, b: EvBuffer)
    ensures b !in BuffersOf(cs)
  {
  }

  /** What the callbacks are told of: the length at the last report, and the bytes added and deleted since */
  function Report(cbs: seq<Callback>, origSize: nat, nAdded: nat, nDeleted: nat): CbInfo {
    if cbs == [] || (nAdded == 0 && nDeleted == 0) then NoInfo else Info(origSize, nAdded, nDeleted)
  }

  lemma OrigSize(total: nat, deleted: nat, was: nat, added: nat)
    requires was <= SIZE_MAX && Wrap(total + deleted) == Wrap(was + added)
    ensures Wrap(total + deleted - added) == was
  {
  }

  /** Bytes that are added to a buffer and counted as added keep the ledger; so do bytes deleted and counted as
      deleted. */
  lemma LedgerKept(total: nat, deleted: nat, was: nat, added: nat, n: nat)
    requires Wrap(total + deleted) == Wrap(was + added)
    ensures Wrap(Wrap(total + n) + deleted) == Wrap(was + Wrap(added + n))
    ensures n <= total ==> Wrap(total - n + Wrap(deleted + n)) == Wrap(was + added)
  {
    hide Wrap;
    WrapSum(total + n, deleted);
    WrapSum(total + deleted, n);
    WrapSum(was + added, n);
    WrapSum(was, added + n);
    WrapSum(total - n, deleted + n);
  }

  class EvBuffer {
    var first: Chain?
    var last: Chain?
    var lastWithDatap: Slot
    var totalLen: nat
    var nAddForCb: nat
    var nDelForCb: nat
    var freezeStart: bool
    var freezeEnd: bool
    var callbacks: seq<Callback>
    var deferredCbs: bool
    /** The callback of this evbuffer in the event base, which runs the deferred pass, is scheduled. */
    var deferredQueued: bool

    ghost var chains: seq<Chain>
    ghost var views: seq<seq<byte>>
    ghost var lwd: nat
    ghost var lenAtCallback: nat

    ghost predicate LastWithData()
      reads `lastWithDatap, `chains, `views, `lwd
    {
      && LastBlock(views, lwd)
      && lwd <= |chains|
      && lastWithDatap == SlotAt(lwd)
    }

    /** The next-pointer that holds chain number i. */
    ghost function SlotAt(i: nat): Slot
      requires i <= |chains|
      reads `chains
    {
      if i == 0 then FirstOf(this) else NextOf(chains[i - 1])
    }

    ghost predicate Ends()
      reads `first, `last, `chains
    {
      && first == (if chains == [] then null else chains[0])
      && last == (if chains == [] then null else chains[|chains| - 1])
    }

    /** The list is well formed; total_len is left open. */
    ghost predicate Body()
      reads `first, `last, `lastWithDatap, `chains, `views, `lwd
      reads chains`next, chains`misalign, chains`off, BuffersOf(chains)
    {
      && |views| == |chains|
      && Linked(chains) && Separate(chains) && Shows(chains, views)
      && Ends()
      && LastWithData()
    }

    ghost predicate Core()
      reads `first, `last, `lastWithDatap, `totalLen, `chains, `views, `lwd
      reads chains`next, chains`misalign, chains`off, BuffersOf(chains)
    {
      Body() && totalLen == Wrap(|Flatten(views)|)
    }

    /** The counters for the callbacks account for all changes of length since the last report, modulo 2^64. */
    ghost predicate Ledger()
      reads `totalLen, `nAddForCb, `nDelForCb, `lenAtCallback
    {
      lenAtCallback <= SIZE_MAX && Wrap(totalLen + nDelForCb) == Wrap(lenAtCallback + nAddForCb)
    }

    /** Everything but the bound on the length, without which total_len is the length modulo 2^64 */
    ghost predicate Sound()
      reads this, chains, BuffersOf(chains)
    {
      Core() && Ledger()
    }

    /** total_len can tell the length. */
    ghost predicate Countable()
      reads `views
    {
      |Flatten(views)| <= SIZE_MAX
    }

    ghost predicate Valid()
      reads this, chains, BuffersOf(chains)
    {
      Sound() && Countable()
    }

    ghost function Contents(): seq<byte>
      reads this
    {
      Flatten(views)
    }

    ghost function Footprint(): set<object>
      reads this
    {
      {this} + Own(chains)
    }

    constructor ()
      ensures Valid() && Contents() == [] && chains == []
      ensures !freezeStart && !freezeEnd
    {
      first, last, lastWithDatap, totalLen := null, null, FirstOf(this), 0;
      nAddForCb, nDelForCb, lenAtCallback := 0, 0, 0;
      freezeStart, freezeEnd, callbacks, deferredCbs, deferredQueued := false, false, [], false, false;
      chains, views, lwd := [], [], 0;
    }

    function Deref(s: Slot): Chain?
      reads match s case FirstOf(b) => {b as object} case NextOf(c) => {c}
    {
      match s
      case FirstOf(b) => b.first
      case NextOf(c) => c.next
    }

    lemma WalkFacts(k: nat)
      requires Core() && k <= |chains|
      ensures Deref(SlotAt(k)) == if k < |chains| then chains[k] else null
      ensures k < |chains| ==> chains[k].Ok() && |views[k]| == chains[k].off
      ensures 0 < k ==> chains[k - 1] in chains && chains[k - 1].next == if k < |chains| then chains[k] else null
      ensures if chains == [] then lwd == 0 else lwd < |chains|
      ensures k == 0 ==> first == if chains == [] then null else chains[0]
    {
    }

    method FreeTrailingEmptyChains() returns (ch: Slot, ghost k: nat)
      requires Core()
      modifies `first, `chains, `views, chains`next
      ensures Tailless() && lwd == old(lwd)
      ensures lwd <= k <= lwd + 1 && k <= |old(chains)|
      ensures chains == old(chains)[..k] && views == old(views)[..k] && |views| == |chains|
      ensures Flatten(views) == old(Flatten(views))
      ensures k == lwd || views[lwd] != []
      ensures ch == SlotAt(|chains|)
    {
      hide Linked, Separate, Shows, Flatten, Wrap;
      ch := lastWithDatap;
      k := lwd;
      WalkFacts(k);
      while Deref(ch) != null && Deref(ch).off != 0
        invariant lwd <= k <= |chains|
        invariant ch == SlotAt(k)
        invariant k <= lwd + 1
        invariant forall i :: lwd <= i < k ==> views[i] != []
        invariant Deref(ch) == if k < |chains| then chains[k] else null
        invariant Core()
        modifies {}
        decreases |chains| - k
      {
        WalkFacts(k);
        ch := NextOf(Deref(ch));
        k := k + 1;
        WalkFacts(k);
      }
      if Deref(ch) != null {
        WalkFacts(k);
        CutAt(ch, k);
      }
    }

    method CutAt(ch: Slot, ghost k: nat)
      requires Core() && k < |chains| && lwd <= k && ch == SlotAt(k)
      requires forall i :: k <= i < |views| ==> views[i] == []
      modifies `first, `chains, `views, chains`next
      ensures Linked(chains) && Separate(chains) && Shows(chains, views)
      ensures first == (if chains == [] then null else chains[0])
      ensures LastWithData() && lwd == old(lwd)
      ensures chains == old(chains)[..k] && views == old(views[..k])
      ensures Flatten(views) == old(Flatten(views))
    {
      hide Linked, Separate, Shows, Flatten, Wrap;
      WalkFacts(k);
      Links(chains);
      Apart(chains);
      Prefix(chains, views, k);
      ghost var cs, vs := chains[..k], views[..k];
      match ch {
        case FirstOf(b) => NotABuffer(cs, b); b.first := null;
        case NextOf(c) => ChainsAreNotBuffers(cs, c); c.next := null;
      }
      LinkUp(cs);
      chains, views := cs, views[..k];
    }

    method AppendHere(c: Chain, data: seq<byte>)
      requires Core() && lwd < |chains| && c == chains[lwd]
      requires !c.immutable && c.misalign + c.off + |data| <= c.buffer.Length
      modifies `totalLen, `views, c`off, c.buffer
      ensures Core() && c.off == old(c.off) + |data|
      ensures views == old(views)[lwd := old(views)[lwd] + data]
      ensures Flatten(views) == old(Flatten(views)) + data
    {
      hide Linked, Separate, Shows, Flatten, LastBlock, Wrap;
      NotABuffer(chains, this);
      LastBlockGrows(views, lwd, data);
      AppendTo(c, chains, views, lwd, data);
      WrapSum(|Flatten(views)|, |data|);
      views := views[lwd := views[lwd] + data];
      totalLen := Wrap(totalLen + |data|);
    }

    /** No change waits to be told to the callbacks, unless the deferred pass is scheduled. */
    ghost predicate Told()
      reads `callbacks, `deferredCbs, `deferredQueued, `nAddForCb, `nDelForCb
    {
      (nAddForCb == 0 && nDelForCb == 0) || (callbacks != [] && deferredCbs && deferredQueued)
    }

    /** evbuffer_invoke_callbacks_ */
    method InvokeCallbacks()
      requires Sound()
      modifies `nAddForCb, `nDelForCb, `lenAtCallback, `deferredQueued
      ensures Sound() && Told()
      ensures callbacks != [] && deferredCbs ==>
                deferredQueued && nAddForCb == old(nAddForCb) && nDelForCb == old(nDelForCb) &&
                    lenAtCallback == old(lenAtCallback)
      ensures callbacks == [] || !deferredCbs ==> deferredQueued == old(deferredQueued)
    {
      hide Linked, Separate, Shows, Flatten, LastBlock, Wrap;
      NotABuffer(chains, this);
      if callbacks == [] {
        nAddForCb, nDelForCb, lenAtCallback := 0, 0, totalLen;
        return;
      }
      if deferredCbs {
        deferredQueued := true;
      }
      var _, _ := RunCallbacks(false);
    }

    /** evbuffer_deferred_callback, when the event base runs it */
    method DeferredCallback() returns (info: CbInfo, called: seq<Callback>)
      requires Sound() && deferredQueued
      modifies `nAddForCb, `nDelForCb, `lenAtCallback, `deferredQueued
      ensures Sound() && Told() && !deferredQueued && lenAtCallback == totalLen
      ensures info == Report(callbacks, old(lenAtCallback), old(nAddForCb), old(nDelForCb))
      ensures called == if info == NoInfo then [] else Called(callbacks, true, deferredCbs)
    {
      hide Linked, Separate, Shows, Flatten, LastBlock, Called, Wrap;
      NotABuffer(chains, this);
      deferredQueued := false;
      info, called := RunCallbacks(true);
    }

    /** evbuffer_run_callbacks: each report starts from the length at which the one before ended. */
    method RunCallbacks(runningDeferred: bool) returns (info: CbInfo, called: seq<Callback>)
      requires Sound()
      modifies `nAddForCb, `nDelForCb, `lenAtCallback
      ensures Sound()
      ensures info == Report(callbacks, old(lenAtCallback), old(nAddForCb), old(nDelForCb))
      ensures info.Info? ==> Wrap(info.origSize + info.nAdded) == Wrap(totalLen + info.nDeleted)
      ensures called == if info == NoInfo then [] else Called(callbacks, runningDeferred, deferredCbs)
      ensures if callbacks != [] && deferredCbs && !runningDeferred
              then nAddForCb == old(nAddForCb) && nDelForCb == old(nDelForCb) && lenAtCallback == old(lenAtCallback)
              else nAddForCb == nDelForCb == 0 && lenAtCallback == totalLen
    {
      hide Linked, Separate, Shows, Flatten, LastBlock, Called, Wrap, Chosen;
      NotABuffer(chains, this);
      info, called := NoInfo, [];
      if callbacks == [] {
        nAddForCb, nDelForCb, lenAtCallback := 0, 0, totalLen;
        return;
      }
      if nAddForCb == 0 && nDelForCb == 0 {
        return;
      }
      info := Info(Wrap(totalLen + nDelForCb - nAddForCb), nAddForCb, nDelForCb);
      OrigSize(totalLen, nDelForCb, lenAtCallback, nAddForCb);
      if runningDeferred || !deferredCbs {
        nAddForCb, nDelForCb, lenAtCallback := 0, 0, totalLen;
      }
      called := CallAll(runningDeferred);
    }

    method CallAll(runningDeferred: bool) returns (called: seq<Callback>)
      ensures called == Called(callbacks, runningDeferred, deferredCbs)
    {
      called := [];
      var i := 0;
      while i < |callbacks|
        invariant i <= |callbacks| && called == Called(callbacks[..i], runningDeferred, deferredCbs)
      {
        assert callbacks[..i + 1][..i] == callbacks[..i];
        if Chosen(callbacks[i], runningDeferred, deferredCbs) {
          called := called + [callbacks[i]];
        }
        i := i + 1;
      }
      assert callbacks[..i] == callbacks;
    }

    /** n bytes that were added to a buffer of the given total_len are counted, and the callbacks invoked. */
    method NoteAdded(n: nat, ghost total: nat)
      requires Core() && lenAtCallback <= SIZE_MAX && Wrap(total + nDelForCb) == Wrap(lenAtCallback + nAddForCb)
      requires totalLen == Wrap(total + n)
      modifies `nAddForCb, `nDelForCb, `lenAtCallback, `deferredQueued
      ensures Sound() && Told()
    {
      hide Linked, Separate, Shows, Flatten, LastBlock, Wrap;
      LedgerKept(total, nDelForCb, lenAtCallback, nAddForCb, n);
      NotABuffer(chains, this);
      nAddForCb := Wrap(nAddForCb + n);
      InvokeCallbacks();
    }

    /** So are n bytes that were deleted. */
    method NoteDeleted(n: nat, ghost total: nat)
      requires Core() && lenAtCallback <= SIZE_MAX && Wrap(total + nDelForCb) == Wrap(lenAtCallback + nAddForCb)
      requires n <= total && totalLen == total - n
      modifies `nAddForCb, `nDelForCb, `lenAtCallback, `deferredQueued
      ensures Sound() && Told()
    {
      hide Linked, Separate, Shows, Flatten, LastBlock, Wrap;
      LedgerKept(total, nDelForCb, lenAtCallback, nAddForCb, n);
      NotABuffer(chains, this);
      nDelForCb := Wrap(nDelForCb + n);
      InvokeCallbacks();
    }

    /** evbuffer_chain_insert */
    method ChainInsert(chain: Chain) returns (ghost k: nat)
      requires Core() && chain !in chains && chain.Ok() && Joinable(chains, chain) && chain.next == null
      modifies `first, `last, `lastWithDatap, `totalLen, `chains, `views, `lwd, chains`next
      ensures Core() && lwd == if chain.off == 0 then old(lwd) else k
      ensures old(lwd) <= k <= old(lwd) + 1 && k <= |old(chains)|
      ensures chains == old(chains)[..k] + [chain] && views == old(views)[..k] + [old(chain.View())]
      ensures Flatten(views) == old(Flatten(views)) + old(chain.View())
    {
      hide Linked, Separate, Shows, Flatten, Chain.View, Joinable, Chain.Ok, Wrap;
      WalkFacts(lwd);
      if Deref(lastWithDatap) == null {
        k := 0;
        LinkAtEnd(lastWithDatap, chain);
      } else {
        ghost var cs := chains;
        var chp;
        chp, k := FreeTrailingEmptyChains();
        JoinPrefix(cs, k, chain);
        LinkAtEnd(chp, chain);
      }
    }

    ghost predicate Tailless()
      reads this, chains, BuffersOf(chains)
    {
      && |views| == |chains|
      && Linked(chains) && Separate(chains) && Shows(chains, views)
      && first == (if chains == [] then null else chains[0])
      && LastWithData()
      && totalLen == Wrap(|Flatten(views)|)
      && lwd <= |chains| <= lwd + 1
    }

    method LinkAtEnd(chp: Slot, chain: Chain)
      requires Tailless() && chain !in chains && chain.Ok() && Joinable(chains, chain) && chain.next == null
      requires chp == SlotAt(|chains|)
      modifies `first, `last, `lastWithDatap, `totalLen, `chains, `views, `lwd, chains`next
      ensures Core() && lwd == if chain.off == 0 then old(lwd) else old(|chains|)
      ensures chains == old(chains) + [chain] && views == old(views) + [old(chain.View())]
      ensures Flatten(views) == old(Flatten(views)) + old(chain.View())
    {
      hide Linked, Separate, Shows, Flatten, LastBlock, Chain.View, Joinable, Wrap;
      ghost var v := chain.View();
      Extended(chains, views, chain);
      LinkOne(chain);
      Store(chp, chain, [chain], views + [v]);
      TakeOne(chp, chain, v);
    }

    method TakeOne(chp: Slot, chain: Chain, ghost v: seq<byte>)
      requires |views| == |chains| && LastWithData() && lwd <= |chains| <= lwd + 1
      requires chp == SlotAt(|chains|) && first == (chains + [chain])[0] && |v| == chain.off
      requires Linked(chains + [chain]) && Separate(chains + [chain]) && Shows(chains + [chain], views + [v])
      requires totalLen == Wrap(|Flatten(views)|) && Flatten(views + [v]) == Flatten(views) + v
      modifies `last, `lastWithDatap, `totalLen, `chains, `views, `lwd
      ensures Core() && lwd == if chain.off == 0 then old(lwd) else old(|chains|)
      ensures chains == old(chains) + [chain] && views == old(views) + [v]
    {
      hide Linked, Separate, Shows, Flatten, LastBlock, Wrap;
      LastBlockAfter(views, lwd, v);
      NotABuffer(chains + [chain], this);
      if chain.off != 0 {
        lastWithDatap := chp;
        lwd := |chains|;
      }
      last := chain;
      WrapSum(|Flatten(views)|, chain.off);
      totalLen := Wrap(totalLen + chain.off);
      chains, views := chains + [chain], views + [v];
    }

    /** Store the head of the list ys into the slot behind the last chain. */
    method Store(chp: Slot, y: Chain, ghost ys: seq<Chain>, ghost vs: seq<seq<byte>>)
      requires Linked(chains) && Separate(chains) && Linked(ys) && ys != [] && y == ys[0]
      requires Separate(chains + ys) && Shows(chains + ys, vs) && (forall c :: c in chains ==> c !in ys)
      requires chp == SlotAt(|chains|) && (chains != [] ==> first == chains[0])
      modifies `first, chains`next
      ensures Linked(chains + ys) && Shows(chains + ys, vs) && Linked(ys)
      ensures first == (chains + ys)[0]
    {
      hide Linked, Separate, Shows, Flatten;
      ghost var cs := chains + ys;
      Links(chains);
      Apart(chains);
      NotABuffer(cs, this);
      match chp {
        case FirstOf(b) => b.first := y;
        case NextOf(c) => ChainsAreNotBuffers(cs, c); assert c in chains; c.next := y;
      }
      LinkConcat(chains, ys);
    }

    /** evbuffer_add */
    method Add(data: seq<byte>) returns (r: int)
      requires Sound()
      modifies Footprint()
      ensures Sound() && (old(Valid()) ==> Valid())
      ensures forall c :: c in chains && c !in old(chains) ==> fresh(c) && fresh(c.buffer)
      ensures r == if old(freezeEnd) || old(totalLen) + |data| > SIZE_MAX then -1 else 0
      ensures Contents() == if r == 0 then old(Contents()) + data else old(Contents())
      ensures freezeStart == old(freezeStart) && freezeEnd == old(freezeEnd)
      ensures r == 0 ==> Told()
    {
      hide Linked, Separate, Shows, Flatten, LastBlock, Own, Core, Wrap;
      CoreLength();
      r := -1;
      if freezeEnd || |data| > SIZE_MAX - totalLen {
        return;
      }
      Owned(chains);
      var chain := WritableTail(|data|);
      AddAt(chain, data);
      NoteAdded(|data|, old(totalLen));
      r := 0;
    }

    method WritableTail(size: nat) returns (chain: Chain)
      requires Core()
      modifies `first, `last, `lastWithDatap, `totalLen, `chains, `views, `lwd, chains`next
      ensures Core() && lwd < |chains| && chain == chains[lwd]
      ensures Flatten(views) == old(Flatten(views)) && totalLen == old(totalLen)
      ensures chains == old(chains) || (chains == [chain] && fresh(chain) && fresh(chain.buffer))
    {
      hide Linked, Separate, Shows, Flatten, LastBlock, Wrap;
      WalkFacts(lwd);
      var c := if Deref(lastWithDatap) == null then last else Deref(lastWithDatap);
      if c == null {
        Allocated(chains);
        chain := new Chain.New(size);
        ghost var k := ChainInsert(chain);
      } else {
        chain := c;
      }
    }

    method AddAt(chain: Chain, data: seq<byte>)
      requires Core() && lwd < |chains| && chain == chains[lwd]
      modifies `first, `last, `lastWithDatap, `totalLen, `chains, `views, `lwd, chains`next
      modifies chain`off, chain`misalign, if chain.immutable then {} else {chain.buffer}
      ensures Core() && Flatten(views) == old(Flatten(views)) + data && totalLen == Wrap(old(totalLen) + |data|)
      ensures forall c :: c in chains && c !in old(chains) ==> fresh(c) && fresh(c.buffer)
    {
      hide Linked, Separate, Shows, Flatten, LastBlock, Wrap;
      WalkFacts(lwd);
      var remain := 0;
      if !chain.immutable {
        remain := chain.buffer.Length - chain.misalign - chain.off;
        WrapSum(|Flatten(views)|, |data|);
        if remain >= |data| {
          AppendHere(chain, data);
          return;
        } else if ShouldRealign(chain, |data|) {
          AlignHere(chain);
          AppendHere(chain, data);
          return;
        }
      }
      AddSpill(chain, remain, data);
    }

    method AlignHere(c: Chain)
      requires Core() && lwd < |chains| && c == chains[lwd] && !c.immutable
      modifies c`misalign, c.buffer
      ensures Core() && c.misalign == 0
    {
      hide Linked, Separate, Shows, Flatten, LastBlock, Wrap;
      AlignAt(c, chains, views, lwd);
    }

    method AddSpill(chain: Chain, remain: nat, data: seq<byte>)
      requires Core() && lwd < |chains| && chain == chains[lwd]
      requires remain == (if chain.immutable then 0 else chain.buffer.Length - chain.misalign - chain.off) <= |data|
      modifies `first, `last, `lastWithDatap, `totalLen, `chains, `views, `lwd, chains`next
      modifies chain`off, if chain.immutable then {} else {chain.buffer}
      ensures Core() && Flatten(views) == old(Flatten(views)) + data && totalLen == Wrap(old(totalLen) + |data|)
      ensures forall c :: c in chains && c !in old(chains) ==> fresh(c) && fresh(c.buffer)
    {
      hide Linked, Separate, Shows, Flatten, LastBlock, Wrap;
      var toAlloc := chain.buffer.Length;
      if toAlloc <= CHAIN_MAX_AUTO_SIZE / 2 {
        toAlloc := 2 * toAlloc;
      }
      if |data| > toAlloc {
        toAlloc := |data|;
      }
      Allocated(chains);
      AddedHalves(Flatten(views), data, remain);
      WrapSum(|Flatten(views)|, |data|);
      var tmp := NewChainWith(toAlloc, data[remain..]);
      if remain > 0 {
        AppendHere(chain, data[..remain]);
      }
      ghost var k := ChainInsert(tmp);
    }

    method PrependHere(c: Chain, data: seq<byte>)
      requires Core() && 0 < |chains| && c == chains[0] && !c.immutable && |data| <= c.misalign
      modifies `totalLen, `views, c`off, c`misalign, c.buffer
      ensures Core() && c.off == old(c.off) + |data| && c.misalign == old(c.misalign) - |data|
      ensures Flatten(views) == data + old(Flatten(views))
    {
      hide Linked, Separate, Shows, Flatten, LastBlock, Wrap;
      NotABuffer(chains, this);
      LastBlockFront(views, lwd, data);
      PrependTo(c, chains, views, 0, data);
      WrapSum(|Flatten(views)|, |data|);
      views := views[0 := data + views[0]];
      totalLen := Wrap(totalLen + |data|);
    }

    method MoveEmpty(c: Chain, m: nat)
      requires Core() && c in chains && c.off == 0 && !c.immutable && m <= c.buffer.Length
      modifies c`misalign
      ensures Core() && c.misalign == m
    {
      hide Linked, Separate, Flatten, LastBlock;
      c.misalign := m;
    }

    method PrependNew(chain: Chain, data: seq<byte>)
      requires Core() && 0 < |chains| && chain == chains[0] && data != []
      modifies `first, `lastWithDatap, `totalLen, `chains, `views, `lwd
      ensures Core() && Flatten(views) == data + old(Flatten(views))
      ensures |chains| > 0 && fresh(chains[0]) && fresh(chains[0].buffer) && chains[1..] == old(chains)
    {
      hide Linked, Separate, Shows, Flatten, LastBlock, Chain.View, Joinable, Wrap;
      Allocated(chains);
      var tmp := NewChainAtEnd(data, chains);
      tmp.next := chain;
      Fronted(chains, views, tmp);
      PushFront(tmp, chain, data);
    }

    method PushFront(tmp: Chain, chain: Chain, ghost data: seq<byte>)
      requires Core() && 0 < |chains| && chain == chains[0] && data != [] && |data| == tmp.off
      requires Linked([tmp] + chains) && Separate([tmp] + chains) && Shows([tmp] + chains, [data] + views)
      requires Flatten([data] + views) == data + Flatten(views)
      modifies `first, `lastWithDatap, `totalLen, `chains, `views, `lwd
      ensures Core() && chains == [tmp] + old(chains) && views == [data] + old(views)
    {
      hide Linked, Separate, Shows, Flatten, LastBlock, Chain.View, Wrap;
      WalkFacts(0);
      LastBlockPush(views, lwd, data);
      NotABuffer([tmp] + chains, this);
      first := tmp;
      if lastWithDatap == FirstOf(this) && chain.off != 0 {
        lastWithDatap := NextOf(tmp);
      }
      lwd := if lwd == 0 && views[0] == [] then 0 else lwd + 1;
      WrapSum(|Flatten(views)|, tmp.off);
      totalLen := Wrap(totalLen + tmp.off);
      chains, views := [tmp] + chains, [data] + views;
    }

    /** evbuffer_prepend */
    method Prepend(data: seq<byte>) returns (r: int)
      requires Valid()
      modifies Footprint()
      ensures Valid() && forall c :: c in chains && c !in old(chains) ==> fresh(c) && fresh(c.buffer)
      ensures r == if data != [] && (old(freezeStart) || old(totalLen) + |data| > SIZE_MAX) then -1 else 0
      ensures Contents() == if r == 0 then data + old(Contents()) else old(Contents())
      ensures freezeStart == old(freezeStart) && freezeEnd == old(freezeEnd)
      ensures r == 0 && data != [] ==> Told()
    {
      hide Linked, Separate, Shows, Flatten, LastBlock, Own, Core, Wrap;
      CoreLength();
      if data == [] {
        return 0;
      }
      if freezeStart || |data| > SIZE_MAX - totalLen {
        return -1;
      }
      Owned(chains);
      var chain := FirstChain(|data|);
      PrependAt(chain, data);
      NoteAdded(|data|, old(totalLen));
      r := 0;
    }

    method FirstChain(size: nat) returns (chain: Chain)
      requires Core()
      modifies `first, `last, `lastWithDatap, `totalLen, `chains, `views, `lwd, chains`next
      ensures Core() && 0 < |chains| && chain == chains[0]
      ensures Flatten(views) == old(Flatten(views)) && totalLen == old(totalLen)
      ensures chains == old(chains) || (chains == [chain] && fresh(chain) && fresh(chain.buffer))
    {
      hide Linked, Separate, Shows, Flatten, LastBlock, Wrap;
      WalkFacts(0);
      if first == null {
        Allocated(chains);
        chain := new Chain.New(size);
        ghost var k := ChainInsert(chain);
      } else {
        chain := first;
      }
    }

    method PrependAt(chain: Chain, data: seq<byte>)
      requires Core() && 0 < |chains| && chain == chains[0] && data != []
      modifies `first, `lastWithDatap, `totalLen, `chains, `views, `lwd
      modifies chain`off, chain`misalign, if chain.immutable then {} else {chain.buffer}
      ensures Core() && Flatten(views) == data + old(Flatten(views)) && totalLen == Wrap(old(totalLen) + |data|)
      ensures forall c :: c in chains && c !in old(chains) ==> fresh(c) && fresh(c.buffer)
    {
      hide Linked, Separate, Shows, Flatten, LastBlock, Wrap;
      WalkFacts(0);
      WrapSum(|Flatten(views)|, |data|);
      var datlen := |data|;
      if !chain.immutable {
        if chain.off == 0 {
          MoveEmpty(chain, chain.buffer.Length);
        }
        if chain.misalign >= datlen {
          PrependHere(chain, data);
          return;
        } else if chain.misalign > 0 {
          datlen := datlen - chain.misalign;
          PrependHere(chain, data[datlen..]);
        }
      }
      assert data == data[..datlen] + data[datlen..];
      PrependNew(chain, data[..datlen]);
    }

    /** evbuffer_drain */
    method Drain(n: nat) returns (r: int)
      requires Valid()
      modifies Footprint()
      ensures Valid() && forall c :: c in chains ==> c in old(chains)
      ensures r == if old(freezeStart) && old(totalLen) != 0 then -1 else 0
      ensures Contents() == if r == 0 then DropBytes(old(Contents()), n) else old(Contents())
      ensures freezeStart == old(freezeStart) && freezeEnd == old(freezeEnd)
      ensures r == 0 && old(totalLen) != 0 ==> Told()
    {
      hide Linked, Separate, Shows, Flatten, LastBlock, Own, Core;
      CoreLength();
      if totalLen == 0 {
        return 0;
      }
      if freezeStart {
        return -1;
      }
      Owned(chains);
      var len := n;
      if len >= totalLen {
        len := totalLen;
        ZeroChain();
      } else {
        ghost var k := DrainPart(len);
      }
      NoteDeleted(len, old(totalLen));
      r := 0;
    }

    lemma CoreLength()
      requires Core()
      ensures totalLen == Wrap(|Flatten(views)|) <= |Flatten(views)|
      ensures Countable() ==> totalLen == |Flatten(views)|
    {
    }

    /** ZERO_CHAIN */
    method ZeroChain()
      modifies `first, `last, `lastWithDatap, `totalLen, `chains, `views, `lwd
      ensures Core() && chains == [] && views == [] && totalLen == 0 && Flatten(views) == []
    {
      first, last, lastWithDatap, totalLen := null, null, FirstOf(this), 0;
      chains, views, lwd := [], [], 0;
    }

    method DrainPart(len: nat) returns (ghost k: nat)
      requires Core() && len < totalLen
      modifies `first, `lastWithDatap, `totalLen, `chains, `views, `lwd
      modifies chains`off, chains`misalign
      ensures Core() && totalLen == old(totalLen) - len
      ensures Flatten(views) == old(Flatten(views))[len..]
      ensures k < |old(chains)| && chains == old(chains)[k..]
    {
      hide Linked, Separate, Shows, Flatten, LastBlock;
      NotABuffer(chains, this);
      totalLen := totalLen - len;
      var chain, remaining;
      chain, remaining, k := DrainWalk(len);
      DropBlocks(views, lwd, k, remaining);
      ShowAt(chains, views, k);
      DropFrom(chain, chains, views, k, remaining);
      DropChains(chain, k, views[k := views[k][remaining..]]);
    }

    /** Make chain, which is number k, the first one. */
    method DropChains(chain: Chain, ghost k: nat, ghost vs: seq<seq<byte>>)
      requires Linked(chains) && Separate(chains) && Shows(chains, vs) && |vs| == |chains|
      requires Ends() && k <= lwd < |chains| && chain == chains[k]
      requires lastWithDatap == if k < lwd then SlotAt(lwd) else FirstOf(this)
      requires LastBlock(vs[k..], lwd - k) && totalLen == Wrap(|Flatten(vs[k..])|)
      modifies `first, `chains, `views, `lwd
      ensures Core() && chains == old(chains)[k..] && views == vs[k..]
    {
      hide Linked, Separate, Shows, Flatten, LastBlock;
      Suffix(chains, vs, k);
      NotABuffer(chains[k..], this);
      first := chain;
      chains, views, lwd := chains[k..], vs[k..], lwd - k;
    }

    method DrainWalk(len: nat) returns (chain: Chain, remaining: nat, ghost k: nat)
      requires Linked(chains) && Separate(chains) && Shows(chains, views) && |views| == |chains|
      requires Ends() && LastWithData() && len < |Flatten(views)|
      modifies `lastWithDatap
      ensures Linked(chains) && Separate(chains) && Shows(chains, views)
      ensures k <= lwd < |chains| && chain == chains[k]
      ensures |Flatten(views[..k])| + remaining == len && remaining < |views[k]|
      ensures lastWithDatap == if k < lwd then old(lastWithDatap) else FirstOf(this)
    {
      hide Linked, Separate, Shows, Flatten, LastBlock;
      WalkStart(views, lwd);
      NotABuffer(chains, this);
      Apart(chains);
      chain, remaining, k := first, len, 0;
      ShowAt(chains, views, k);
      while remaining >= chain.off
        invariant k <= lwd < |chains| && chain == chains[k] && chain.off == |views[k]|
        invariant |Flatten(views[..k])| + remaining == len
        invariant lastWithDatap == if k < lwd then old(lastWithDatap) else FirstOf(this)
        invariant Linked(chains) && Separate(chains) && Shows(chains, views)
        modifies `lastWithDatap
        decreases |chains| - k
      {
        WalkStep(views, lwd, k, remaining);
        LinkAt(chains, k);
        LinkAt(chains, lwd - 1);
        ShowAt(chains, views, k + 1);
        var next := chain.next;
        remaining := remaining - chain.off;
        if chain == Deref(lastWithDatap) {
          lastWithDatap := FirstOf(this);
        }
        if NextOf(chain) == lastWithDatap {
          lastWithDatap := FirstOf(this);
        }
        chain := next;
        k := k + 1;
      }
    }

    /** p denotes a byte position in chain number k, or the end when k counts all chains. */
    ghost predicate PtrAt(p: Ptr, k: nat)
      reads `chains, `views
    {
      && k <= |chains| && |views| == |chains|
      && (if k == |chains| then p.chain == null && p.posInChain == 0
          else p.chain == chains[k] && p.posInChain <= |views[k]|)
      && p.pos == |Flatten(views[..k])| + p.posInChain
    }

    ghost predicate PtrOk(p: Ptr)
      reads `chains, `views
    {
      exists k: nat :: PtrAt(p, k)
    }

    /** evbuffer_copyout_from; None is the NULL pointer */
    method CopyoutFrom(pos: Option<Ptr>, dataOut: array<byte>, n: nat) returns (r: int)
      requires Core() && Countable() && dataOut !in BuffersOf(chains) && n <= dataOut.Length
      requires pos.Some? ==> PtrOk(pos.value)
      modifies dataOut
      ensures Core()
      ensures r == CopyResult(n, if pos.Some? then pos.value.pos else 0, pos.Some?)
      ensures 0 <= r ==> var s := if pos.Some? then pos.value.pos else 0;
        0 <= s && s + r <= |Contents()| && dataOut[..r] == Contents()[s..s + r] && dataOut[r..] == old(dataOut[r..])
      ensures r < 0 ==> dataOut[..] == old(dataOut[..])
    {
      hide Linked, Separate, Shows, Flatten, LastBlock;
      CoreLength();
      var chain, posInChain, datlen := first, 0, n;
      ghost var k: nat := 0;
      if pos.Some? {
        if n > SSIZE_MAX - pos.value.pos {
          return -1;
        }
        k :| PtrAt(pos.value, k);
        PtrBound(pos.value, k);
        chain, posInChain := pos.value.chain, pos.value.posInChain;
        if n + pos.value.pos > totalLen {
          datlen := totalLen - pos.value.pos;
        }
      } else {
        PrefixWhole(views);
        if n > totalLen {
          datlen := totalLen;
        }
      }
      if datlen == 0 {
        return 0;
      }
      if freezeStart {
        return -1;
      }
      CopyWalk(chain, k, posInChain, dataOut, datlen);
      r := datlen;
    }

    /** What evbuffer_copyout_from returns when asked for n bytes from position s. */
    ghost function CopyResult(n: nat, s: int, usesPtr: bool): int
      reads `totalLen, `freezeStart
    {
      if usesPtr && n > SSIZE_MAX - s then -1
      else var m := if n + s > totalLen then totalLen - s else n;
        if m == 0 then 0 else if freezeStart then -1 else m
    }

    lemma PtrBound(p: Ptr, k: nat)
      requires PtrAt(p, k)
      ensures 0 <= p.pos <= |Flatten(views)|
    {
      FlattenSplit(views, k);
      if k < |views| {
        FlattenAt(views, k);
      }
    }

    lemma TakeAll(s: seq<byte>, n: nat)
      requires |s| == n
      ensures s[..n] == s
    {
    }

    method CopyWalk(start: Chain?, ghost k0: nat, startPos: nat, dataOut: array<byte>, n: nat)
      requires Core() && dataOut !in BuffersOf(chains) && n <= dataOut.Length
      requires k0 <= |views| && PtrAt(Ptr(|Flatten(views[..k0])| + startPos, start, startPos), k0)
      requires |Flatten(views[..k0])| + startPos + n <= |Flatten(views)|
      modifies dataOut
      ensures Core()
      ensures var s := |Flatten(views[..k0])| + startPos;
        dataOut[..n] == Flatten(views)[s..s + n] && dataOut[n..] == old(dataOut[n..])
    {
      hide Linked, Separate, Shows, Flatten, LastBlock, Core, Chain.View;
      var chain, posInChain, datlen, done := start, startPos, n, 0;
      ghost var k: nat := k0;
      ghost var s := |Flatten(views[..k0])| + startPos;
      ghost var want := Flatten(views)[s..s + n];
      CoreAt(k);
      InBlock(views, k, posInChain, datlen);
      while datlen > 0 && datlen >= chain.off - posInChain
        invariant Core() && 0 <= k <= |chains| == |views| && 0 <= done && 0 <= datlen && 0 <= posInChain
        invariant chain == if k < |chains| then chains[k] else null
        invariant datlen > 0 ==> k < |chains| && chain.Ok() && chain.off == |views[k]| && posInChain <= chain.off
        invariant done + datlen == n && s + n <= |Flatten(views)| && n <= dataOut.Length
        invariant s + done == |Flatten(views[..k])| + posInChain
        invariant dataOut[..done] == want[..done] && dataOut[n..] == old(dataOut[n..])
        decreases datlen, |chains| - k
      {
        var copylen := chain.off - posInChain;
        CopyBlock(chain, k, posInChain, copylen, dataOut, done, s, want);
        done := done + copylen;
        datlen := datlen - copylen;
        CoreAt(k);
        chain := chain.next;
        posInChain := 0;
        k := k + 1;
        CoreAt(k);
        InBlock(views, k, posInChain, datlen);
      }
      if datlen > 0 {
        CopyBlock(chain, k, posInChain, datlen, dataOut, done, s, want);
      }
      TakeAll(want, n);
    }

    /** The next m bytes of want come from chain number k. */
    method CopyBlock(chain: Chain, ghost k: nat, p: nat, m: nat, dataOut: array<byte>, done: nat, ghost s: nat,
        ghost want: seq<byte>)
      requires Core() && k < |chains| == |views| && chain == chains[k] && p + m <= |views[k]|
      requires dataOut !in BuffersOf(chains)
      requires s + |want| <= |Flatten(views)| && want == Flatten(views)[s..s + |want|]
      requires s + done == |Flatten(views[..k])| + p
      requires done + m <= |want| <= dataOut.Length && dataOut[..done] == want[..done]
      modifies dataOut
      ensures Core() && dataOut[..done + m] == want[..done + m] && dataOut[|want|..] == old(dataOut[|want|..])
      ensures |Flatten(views[..k + 1])| == |Flatten(views[..k])| + |views[k]|
    {
      hide Linked, Separate, Shows, Flatten, LastBlock, Core, Chain.View;
      CoreAt(k);
      SliceFromBlock(views, k, p, m, s, |want|, done);
      CopyNext(chain, p, m, dataOut, done, want);
    }

    lemma CoreAt(k: nat)
      requires Core() && k <= |chains|
      ensures |views| == |chains| && totalLen == Wrap(|Flatten(views)|) && LastBlock(views, lwd)
      ensures k < |chains| ==>
        && chains[k] in chains && chains[k].Ok() && chains[k].View() == views[k] && chains[k].off == |views[k]|
        && chains[k].next == (if k + 1 < |chains| then chains[k + 1] else null)
        && chains[k].buffer in BuffersOf(chains)
      ensures first == if chains == [] then null else chains[0]
    {
    }

    /** evbuffer_remove */
    method Remove(dataOut: array<byte>, n: nat) returns (r: int)
      requires Valid() && dataOut !in BuffersOf(chains) && n <= dataOut.Length
      modifies Footprint(), dataOut
      ensures Valid() && forall c :: c in chains ==> c in old(chains)
      ensures freezeStart == old(freezeStart) && freezeEnd == old(freezeEnd)
      ensures r == ToInt(old(CopyResult(n, 0, false)))
      ensures var k := old(CopyResult(n, 0, false));
        if k < 0 then Contents() == old(Contents()) && dataOut[..] == old(dataOut[..])
        else
          && k <= |old(Contents())| && k <= dataOut.Length && Contents() == DropBytes(old(Contents()), k)
          && dataOut[..k] == old(Contents())[..k] && dataOut[k..] == old(dataOut[k..])
    {
      hide Linked, Separate, Shows, Flatten, LastBlock, Own, Core, Wrap, ToInt;
      CoreLength();
      NotOwned(chains, dataOut);
      var k := CopyoutFrom(None, dataOut, n);
      if k > 0 {
        var d := Drain(k);
        if d < 0 {
          k := -1;
        }
      }
      r := ToInt(k);
    }

    method InsertReference(chain: Chain, ghost data: seq<byte>)
      requires Core() && chain !in chains && chain.Ok() && Joinable(chains, chain) && chain.next == null
      requires chain.View() == data
      modifies `first, `last, `lastWithDatap, `totalLen, `chains, `views, `lwd, chains`next
      ensures Core() && Flatten(views) == old(Flatten(views)) + data
      ensures |views| == |chains| > 0 && views[|chains| - 1] == data && chains[|chains| - 1] == chain
      ensures |chains| <= |old(chains)| + 1 && chains[..|chains| - 1] == old(chains)[..|chains| - 1]
      ensures forall c :: c in chains && c !in old(chains) ==> c == chain
    {
      hide Linked, Separate, Shows, Flatten, LastBlock, Core, Joinable, Chain.View;
      ghost var cs := chains;
      ghost var k := ChainInsert(chain);
      CoreAt(0);
      assert forall c :: c in cs[..k] ==> c in cs;
    }

    /** evbuffer_add_reference */
    method AddReference(data: array<byte>) returns (r: int)
      requires Valid() && forall c :: c in chains && !c.immutable ==> c.buffer != data
      modifies Footprint()
      ensures Sound() && (Countable() ==> Valid())
      ensures forall c :: c in chains && c !in old(chains) ==> fresh(c) && c.immutable && c.buffer == data
      ensures r == if old(freezeEnd) then -1 else 0
      ensures Contents() == if r == 0 then old(Contents()) + data[..] else old(Contents())
      ensures freezeStart == old(freezeStart) && freezeEnd == old(freezeEnd)
      ensures r == 0 ==> Told()
      ensures r == 0 ==> |views| == |chains| > 0 && views[|chains| - 1] == data[..]
      ensures r == 0 ==> chains[|chains| - 1].buffer == data && chains[|chains| - 1].immutable
      ensures r == 0 ==> |chains| <= |old(chains)| + 1 && chains[..|chains| - 1] == old(chains)[..|chains| - 1]
    {
      hide Linked, Separate, Shows, Flatten, LastBlock, Own, Core, Wrap;
      Allocated(chains);
      Owned(chains);
      var chain := new Chain.Reference(data);
      if freezeEnd {
        return -1;
      }
      CoreLength();
      WrapSum(|Flatten(views)|, data.Length);
      InsertReference(chain, data[..]);
      CoreLength();
      NoteAdded(data.Length, old(totalLen));
      r := 0;
    }

    /** COPY_CHAIN, after all chains of this evbuffer have been freed */
    method CopyChain(src: EvBuffer)
      requires src.Core() && this != src
      modifies `first, `last, `lastWithDatap, `totalLen, `chains, `views, `lwd
      ensures src.Core() && Core() && chains == src.chains && views == src.views && lwd == src.lwd
      ensures totalLen == src.totalLen
    {
      hide Linked, Separate, Shows, Flatten, LastBlock, Wrap;
      NotABuffer(src.chains, this);
      first := src.first;
      if src.lastWithDatap == FirstOf(src) {
        lastWithDatap := FirstOf(this);
      } else {
        lastWithDatap := src.lastWithDatap;
      }
      last := src.last;
      totalLen := src.totalLen;
      chains, views, lwd := src.chains, src.views, src.lwd;
    }

    /** APPEND_CHAIN */
    method AppendChain(src: EvBuffer) returns (ghost k: nat)
      requires Core() && src.Core() && this != src && Disjoint(chains, src.chains)
      requires src.totalLen != 0
      modifies `first, `last, `lastWithDatap, `totalLen, `chains, `views, `lwd, chains`next
      ensures Core() && k <= |old(chains)| && chains == old(chains)[..k] + src.chains
      ensures Flatten(views) == old(Flatten(views)) + Flatten(src.views)
      ensures totalLen == Wrap(old(totalLen) + src.totalLen)
    {
      hide Linked, Separate, Shows, Flatten, LastBlock, Disjoint, Core, Wrap;
      ghost var cs := chains;
      NotABuffer(src.chains, this);
      src.CoreLength();
      CoreLength();
      NoSharedChains(chains, src.chains);
      var chp;
      chp, k := FreeTrailingEmptyChains();
      DisjointParts(cs, src.chains, chains, src.chains);
      Splice(chp, src);
    }

    method Splice(chp: Slot, src: EvBuffer)
      requires Tailless() && src.Core() && this != src && Disjoint(chains, src.chains)
      requires src.totalLen != 0 && chp == SlotAt(|chains|)
      modifies `first, `last, `lastWithDatap, `totalLen, `chains, `views, `lwd, chains`next
      ensures Core() && chains == old(chains) + src.chains
      ensures Flatten(views) == old(Flatten(views)) + Flatten(src.views)
      ensures totalLen == Wrap(old(totalLen) + src.totalLen)
    {
      hide Linked, Separate, Shows, Flatten, LastBlock, Disjoint, Wrap;
      ConcatLists(chains, src.chains, views, src.views);
      NoSharedChains(chains, src.chains);
      WalkStart(src.views, src.lwd);
      NotABuffer(src.chains, this);
      Store(chp, src.first, src.chains, views + src.views);
      TakeTail(chp, src);
    }

    method TakeTail(chp: Slot, src: EvBuffer)
      requires this != src && LastBlock(src.views, src.lwd) && Flatten(src.views) != []
      requires |views| == |chains| && |src.views| == |src.chains| && src.Ends() && src.LastWithData()
      requires chp == SlotAt(|chains|) && first == (chains + src.chains)[0]
      requires totalLen == Wrap(|Flatten(views)|) && src.totalLen == Wrap(|Flatten(src.views)|)
      requires Linked(chains + src.chains) && Separate(chains + src.chains)
      requires Shows(chains + src.chains, views + src.views)
      requires Flatten(views + src.views) == Flatten(views) + Flatten(src.views)
      modifies `last, `lastWithDatap, `totalLen, `chains, `views, `lwd
      ensures Core() && chains == old(chains) + src.chains && views == old(views) + src.views
      ensures totalLen == Wrap(old(totalLen) + src.totalLen)
    {
      hide Linked, Separate, Shows, Flatten, LastBlock, Wrap;
      LastBlockConcat(views, src.views, src.lwd);
      NotABuffer(chains + src.chains, this);
      WrapSum(|Flatten(views)|, src.totalLen);
      WrapSum(|Flatten(views)|, |Flatten(src.views)|);
      if src.lastWithDatap == FirstOf(src) {
        lastWithDatap := chp;
      } else {
        lastWithDatap := src.lastWithDatap;
      }
      last := src.last;
      totalLen := Wrap(totalLen + src.totalLen);
      chains, views, lwd := chains + src.chains, views + src.views, |chains| + src.lwd;
    }

    /** What the two-buffer operations need of their arguments: nothing shared. */
    ghost predicate Unshared(other: EvBuffer)
      reads `chains, other`chains
    {
      Disjoint(chains, other.chains)
    }

    /** evbuffer_add_buffer, on outbuf */
    method AddBuffer(inbuf: EvBuffer) returns (r: int)
      requires Valid() && inbuf.Valid() && (this != inbuf ==> Unshared(inbuf))
      modifies Footprint(), inbuf
      ensures Sound() && (Countable() ==> Valid()) && inbuf.Valid() && (this != inbuf ==> Unshared(inbuf))
      ensures var idle := old(inbuf.totalLen) == 0 || this == inbuf;
        && (r == if !idle && (old(freezeEnd) || old(inbuf.freezeStart)) then -1 else 0)
        && (if r < 0 || idle then Contents() == old(Contents()) && inbuf.Contents() == old(inbuf.Contents())
            else Contents() == old(Contents()) + old(inbuf.Contents()) && inbuf.Contents() == [])
      ensures forall c :: c in chains ==> c in old(chains) || c in old(inbuf.chains)
      ensures freezeStart == old(freezeStart) && freezeEnd == old(freezeEnd)
      ensures r == 0 && old(inbuf.totalLen) != 0 && this != inbuf ==> Told() && inbuf.Told()
    {
      hide Linked, Separate, Shows, Flatten, LastBlock, Own, Disjoint, Core, Wrap;
      CoreLength();
      inbuf.CoreLength();
      if inbuf.totalLen == 0 || this == inbuf {
        return 0;
      }
      if freezeEnd || inbuf.freezeStart {
        return -1;
      }
      Owned(chains);
      var n := inbuf.totalLen;
      if totalLen == 0 {
        CopyChain(inbuf);
      } else {
        ghost var k := AppendChain(inbuf);
      }
      MovedOut(inbuf, n, old(totalLen));
      DisjointEmpty(chains);
      r := 0;
    }

    /** The end of add_buffer and prepend_buffer: n bytes have moved here from inbuf. */
    method MovedOut(inbuf: EvBuffer, n: nat, ghost total: nat)
      requires this != inbuf && Core() && lenAtCallback <= SIZE_MAX && totalLen == Wrap(total + n)
      requires Wrap(total + nDelForCb) == Wrap(lenAtCallback + nAddForCb)
      requires inbuf.Ledger() && inbuf.totalLen == n
      modifies `nAddForCb, `nDelForCb, `lenAtCallback, `deferredQueued
      modifies inbuf
      ensures Sound() && inbuf.Valid() && inbuf.chains == [] && inbuf.Contents() == []
      ensures Told() && inbuf.Told()
      ensures inbuf.freezeStart == old(inbuf.freezeStart) && inbuf.freezeEnd == old(inbuf.freezeEnd)
    {
      hide Linked, Separate, Shows, Flatten, LastBlock, Core, Wrap;
      NotABuffer(chains, inbuf);
      NotABuffer(chains, this);
      inbuf.ZeroChain();
      NotABuffer(inbuf.chains, inbuf);
      NotABuffer(inbuf.chains, this);
      inbuf.NoteDeleted(n, n);
      NoteAdded(n, total);
    }

    /** PREPEND_CHAIN; the slot this.last_with_datap is never null here, since this evbuffer has data */
    method PrependChain(src: EvBuffer)
      requires Core() && src.Core() && this != src && Disjoint(src.chains, chains)
      requires totalLen != 0 && src.totalLen != 0
      modifies `first, `lastWithDatap, `totalLen, `chains, `views, `lwd, src.last`next
      ensures Core() && chains == src.chains + old(chains)
      ensures Flatten(views) == Flatten(src.views) + old(Flatten(views))
      ensures totalLen == Wrap(old(totalLen) + src.totalLen)
    {
      hide Linked, Separate, Shows, Flatten, LastBlock, Disjoint, Wrap;
      ConcatLists(src.chains, chains, src.views, views);
      WalkStart(src.views, src.lwd);
      WalkStart(views, lwd);
      NoSharedChains(src.chains, chains);
      LinkLists(src.last, first, src.chains, chains, src.views + views);
      TakeFront(src);
    }

    static method LinkLists(x: Chain, y: Chain, ghost xs: seq<Chain>, ghost ys: seq<Chain>, ghost vs: seq<seq<byte>>)
      requires Linked(xs) && Linked(ys) && xs != [] && ys != [] && x == xs[|xs| - 1] && y == ys[0]
      requires Separate(xs) && x !in ys && Shows(xs + ys, vs)
      modifies x`next
      ensures Linked(xs + ys) && Shows(xs + ys, vs)
    {
      hide Linked, Separate, Shows, Flatten;
      Links(xs);
      Apart(xs);
      ChainsAreNotBuffers(xs + ys, x);
      x.next := y;
      LinkConcat(xs, ys);
    }

    method TakeFront(src: EvBuffer)
      requires this != src && Ends() && LastWithData() && |views| == |chains| && chains != [] && Flatten(views) != []
      requires src.chains != [] && src.Ends() && |src.views| == |src.chains|
      requires totalLen == Wrap(|Flatten(views)|) && src.totalLen == Wrap(|Flatten(src.views)|)
      requires Linked(src.chains + chains) && Separate(src.chains + chains)
      requires Shows(src.chains + chains, src.views + views)
      requires Flatten(src.views + views) == Flatten(src.views) + Flatten(views)
      modifies `first, `lastWithDatap, `totalLen, `chains, `views, `lwd
      ensures Core() && chains == src.chains + old(chains) && views == src.views + old(views)
      ensures totalLen == Wrap(old(totalLen) + src.totalLen)
    {
      hide Linked, Separate, Shows, Flatten, LastBlock, Wrap;
      LastBlockConcat(src.views, views, lwd);
      NotABuffer(src.chains + chains, this);
      first := src.first;
      WrapSum(|Flatten(views)|, src.totalLen);
      WrapSum(|Flatten(views)|, |Flatten(src.views)|);
      totalLen := Wrap(totalLen + src.totalLen);
      if lastWithDatap == FirstOf(this) {
        lastWithDatap := NextOf(src.last);
      }
      chains, views, lwd := src.chains + chains, src.views + views, |src.chains| + lwd;
    }

    /** evbuffer_prepend_buffer, on outbuf */
    method PrependBuffer(inbuf: EvBuffer) returns (r: int)
      requires Valid() && inbuf.Valid() && (this != inbuf ==> Unshared(inbuf))
      modifies Footprint(), inbuf, inbuf.chains`next
      ensures Sound() && (Countable() ==> Valid()) && inbuf.Valid() && (this != inbuf ==> Unshared(inbuf))
      ensures var idle := old(inbuf.totalLen) == 0 || this == inbuf;
        && (r == if !idle && (old(freezeStart) || old(inbuf.freezeStart)) then -1 else 0)
        && (if r < 0 || idle then Contents() == old(Contents()) && inbuf.Contents() == old(inbuf.Contents())
            else Contents() == old(inbuf.Contents()) + old(Contents()) && inbuf.Contents() == [])
      ensures forall c :: c in chains ==> c in old(chains) || c in old(inbuf.chains)
      ensures freezeStart == old(freezeStart) && freezeEnd == old(freezeEnd)
      ensures r == 0 && old(inbuf.totalLen) != 0 && this != inbuf ==> Told() && inbuf.Told()
    {
      hide Linked, Separate, Shows, Flatten, LastBlock, Own, Disjoint, Core, Wrap;
      CoreLength();
      inbuf.CoreLength();
      if inbuf.totalLen == 0 || this == inbuf {
        return 0;
      }
      if freezeStart || inbuf.freezeStart {
        return -1;
      }
      Owned(chains);
      var n := inbuf.totalLen;
      if totalLen == 0 {
        CopyChain(inbuf);
      } else {
        DisjointSymmetric(chains, inbuf.chains);
        inbuf.CoreAt(0);
        inbuf.LastIn();
        PrependChain(inbuf);
      }
      MovedOut(inbuf, n, old(totalLen));
      DisjointEmpty(chains);
      r := 0;
    }

    lemma LastIn()
      requires Core() && totalLen != 0
      ensures last != null && last in chains
    {
    }

    /** advance_last_with_data */
    method AdvanceLastWithData()
      requires |views| == |chains| && Linked(chains) && Separate(chains) && Shows(chains, views) && Ends()
      requires lwd < |chains| && lastWithDatap == SlotAt(lwd) && (lwd == 0 || views[lwd] != [])
      modifies `lastWithDatap, `lwd
      ensures Body()
    {
      hide Linked, Separate, Shows, Flatten;
      NotABuffer(chains, this);
      var chainp := lastWithDatap;
      ghost var k: nat := lwd;
      SlotHolds(k);
      while Deref(chainp).next != null
        invariant lwd <= k < |chains| == |views| && chainp == SlotAt(k) && Deref(chainp) == chains[k]
        invariant lastWithDatap == SlotAt(lwd) && (lwd == 0 || views[lwd] != [])
        invariant forall i :: lwd < i <= k ==> views[i] == []
        invariant Linked(chains) && Shows(chains, views) && Ends()
        modifies `lastWithDatap, `lwd
        decreases |chains| - k
      {
        SlotHolds(k);
        chainp := NextOf(Deref(chainp));
        k := k + 1;
        SlotHolds(k);
        if Deref(chainp).off != 0 {
          lastWithDatap := chainp;
          lwd := k;
        }
      }
      SlotHolds(k);
    }

    lemma SlotHolds(k: nat)
      requires Linked(chains) && Shows(chains, views) && Ends() && k < |chains|
      ensures Deref(SlotAt(k)) == chains[k] && |views| == |chains| && |views[k]| == chains[k].off
      ensures chains[k].next == if k + 1 < |chains| then chains[k + 1] else null
    {
      LinkAt(chains, k);
      if k > 0 {
        LinkAt(chains, k - 1);
      }
    }

    /** evbuffer_remove_buffer, on src. The result of the inner evbuffer_add is ignored: when dst cannot take
        all the bytes, those behind the last whole chain are lost. The whole chains move without a look at the
        counter of dst. */
    method RemoveBuffer(dst: EvBuffer, datlen: nat) returns (r: int)
      requires Valid() && dst.Valid() && (this != dst ==> Unshared(dst))
      modifies Footprint(), dst.Footprint()
      ensures Valid() && dst.Sound() && (dst.Countable() ==> dst.Valid()) && (this != dst ==> Unshared(dst))
      ensures var idle, stopped := datlen == 0 || this == dst, old(dst.freezeEnd) || old(freezeStart);
        var n := if datlen < |old(Contents())| then datlen else |old(Contents())|;
        if idle || stopped then
          && r == (if idle then 0 else -1)
          && Contents() == old(Contents()) && dst.Contents() == old(dst.Contents())
        else
          && r == ToInt(n) && Contents() == DropBytes(old(Contents()), n)
          && dst.Contents() == old(dst.Contents())
                               + TakeBytes(old(Contents()), Arriving(old(views), n, |old(dst.Contents())|))
          && (n > 0 ==> Told() && dst.Told())
    {
      hide Linked, Separate, Shows, Flatten, LastBlock, Own, Disjoint, Core, WholeBlocks, Wrap, ToInt;
      CoreLength();
      dst.CoreLength();
      if datlen == 0 || this == dst {
        return 0;
      }
      if dst.freezeEnd || freezeStart {
        return -1;
      }
      if datlen >= totalLen {
        r := ToInt(totalLen);
        DisjointSymmetric(chains, dst.chains);
        var _ := dst.AddBuffer(this);
        DisjointSymmetric(dst.chains, chains);
      } else {
        MovePart(dst, datlen);
        r := ToInt(datlen);
      }
    }

    method MovePart(dst: EvBuffer, datlen: nat)
      requires Valid() && dst.Valid() && this != dst && Unshared(dst) && datlen < totalLen && !dst.freezeEnd
      modifies Footprint(), dst.Footprint()
      ensures Valid() && dst.Sound() && (dst.Countable() ==> dst.Valid()) && Unshared(dst)
      ensures freezeStart == old(freezeStart) && freezeEnd == old(freezeEnd)
      ensures Contents() == old(Contents())[datlen..]
      ensures dst.Contents() == old(dst.Contents())
                                + TakeBytes(old(Contents()), Arriving(old(views), datlen, |old(dst.Contents())|))
      ensures datlen > 0 ==> Told() && dst.Told()
    {
      hide Linked, Separate, Shows, Flatten, LastBlock, Own, Disjoint, Core, Body, Wrap, Arriving, TakeBytes;
      CoreLength();
      NotOwnedBuffer(chains, this);
      NotOwnedBuffer(dst.chains, this);
      MoveData(dst, datlen);
      MoveAccounts(dst, datlen);
    }

    method MoveData(dst: EvBuffer, datlen: nat)
      requires Core() && dst.Valid() && this != dst && Unshared(dst) && datlen < totalLen && !dst.freezeEnd
      modifies `first, `lastWithDatap, `chains, `views, `lwd, Own(chains), dst.Footprint()
      ensures Body() && dst.Sound() && Unshared(dst)
      ensures datlen <= |old(Flatten(views))| && Flatten(views) == old(Flatten(views))[datlen..]
      ensures dst.Contents() == old(dst.Contents())
                                + TakeBytes(old(Flatten(views)), Arriving(old(views), datlen, |old(dst.Contents())|))
    {
      hide Linked, Separate, Shows, Flatten, LastBlock, Own, Disjoint, Core, Body, WholeBlocks, Wrap, Arriving,
          TakeBytes;
      CoreLength();
      Owned(chains);
      Owned(dst.chains);
      ghost var vs, cs, ds := views, chains, dst.chains;
      var chain, rest;
      ghost var k;
      chain, rest, k := MoveWhole(dst, datlen);
      ArrivingIs(vs, k, rest, datlen, |Flatten(old(dst.views))|);
      OwnWithin(dst.chains, ds, cs);
      NotOwnedBuffer(dst.chains, this);
      MoveRest(dst, chain, rest);
    }

    method MoveAccounts(dst: EvBuffer, datlen: nat)
      requires Body() && Countable() && totalLen == |Flatten(views)| + datlen && Ledger()
      requires dst.Sound() && this != dst
      modifies `totalLen, `nAddForCb, `nDelForCb, `lenAtCallback, `deferredQueued
      modifies dst`nAddForCb, dst`nDelForCb, dst`lenAtCallback, dst`deferredQueued
      ensures Valid() && dst.Sound()
      ensures datlen > 0 ==> Told() && dst.Told()
    {
      hide Linked, Separate, Shows, Flatten, LastBlock, Body, Wrap;
      NotABuffer(dst.chains, dst);
      NotABuffer(dst.chains, this);
      NotABuffer(chains, this);
      NotABuffer(chains, dst);
      LedgerKept(totalLen, nDelForCb, lenAtCallback, nAddForCb, datlen);
      totalLen := totalLen - datlen;
      nDelForCb := Wrap(nDelForCb + datlen);
      if datlen > 0 {
        dst.InvokeCallbacks();
        InvokeCallbacks();
      }
    }

    /** The first rest bytes of the first chain go to dst by evbuffer_add. */
    method MoveRest(dst: EvBuffer, chain: Chain, rest: nat)
      requires Body() && chains != [] && chain == chains[0] && rest < |views[0]|
      requires dst.Sound() && this != dst && Unshared(dst) && !dst.freezeEnd
      modifies `views, chain`misalign, chain`off, dst.Footprint()
      ensures Body() && chains == old(chains) && Flatten(views) == old(Flatten(views))[rest..]
      ensures dst.Sound() && Unshared(dst)
      ensures dst.Contents() == old(dst.Contents()) + if Wrap(|old(dst.Contents())|) + rest <= SIZE_MAX then
          old(Flatten(views))[..rest] else []
    {
      hide Linked, Separate, Shows, Flatten, LastBlock, Own, Disjoint, Core, Body, Wrap;
      BodyFirst();
      FlattenAt(views, 0);
      ghost var data := chain.View()[..rest];
      assert chain.buffer[chain.misalign..chain.misalign + rest] == data;
      PrefixWhole(views);
      AddApart(dst, chain.buffer[chain.misalign..chain.misalign + rest]);
      NoSharedChains(chains, dst.chains);
      NotABuffer(dst.chains, this);
      DropFirst(chain, rest);
    }

    lemma BodyFirst()
      requires Body() && chains != []
      ensures first == chains[0] && first.Ok() && first.View() == views[0] && |views| == |chains|
      ensures first.off == |views[0]|
    {
    }

    method AddApart(dst: EvBuffer, data: seq<byte>)
      requires Body() && dst.Sound() && this != dst && Unshared(dst) && !dst.freezeEnd
      modifies dst.Footprint()
      ensures Body() && chains == old(chains) && views == old(views)
      ensures dst.Sound() && Unshared(dst)
      ensures dst.Contents() == old(dst.Contents()) + if Wrap(|old(dst.Contents())|) + |data| <= SIZE_MAX then data
          else []
    {
      hide Linked, Separate, Shows, Flatten, LastBlock, Own, Disjoint, Core, Body, Wrap;
      dst.CoreLength();
      ghost var ds := dst.chains;
      DisjointSymmetric(chains, ds);
      OwnApart(ds, chains);
      NotABuffer(chains, dst);
      NotOwnedBuffer(ds, this);
      Allocated(chains);
      var _ := dst.Add(data);
      StillApart(ds, dst.chains, chains);
    }

    /** Drop the first n bytes of the first chain, not the whole of it. */
    method DropFirst(chain: Chain, n: nat)
      requires Body() && chains != [] && chain == chains[0] && n < |views[0]|
      modifies `views, chain`misalign, chain`off
      ensures Body() && chains == old(chains) && Flatten(views) == old(Flatten(views))[n..]
    {
      hide Linked, Separate, Shows, Flatten, LastBlock;
      ShowAt(chains, views, 0);
      LastBlockHas(views, lwd);
      DropBlocks(views, lwd, 0, n);
      PrefixWhole(views);
      NotABuffer(chains, this);
      DropFrom(chain, chains, views, 0, n);
      views := views[0 := views[0][n..]];
    }

    method MoveWalk(datlen: nat) returns (chain: Chain, previous: Chain, nread: nat, rest: nat, ghost k: nat)
      requires Core() && datlen < totalLen
      modifies `lastWithDatap
      ensures Linked(chains) && Separate(chains) && Shows(chains, views)
      ensures k <= lwd < |chains| && chain == chains[k] && (k > 0 ==> previous == chains[k - 1])
      ensures nread == |Flatten(views[..k])| && nread + rest == datlen && rest < |views[k]|
      ensures lastWithDatap == if k < lwd then old(lastWithDatap) else FirstOf(this)
    {
      hide Linked, Separate, Shows, Flatten, LastBlock;
      WalkStart(views, lwd);
      NotABuffer(chains, this);
      Apart(chains);
      chain, previous, nread, rest, k := first, first, 0, datlen, 0;
      ShowAt(chains, views, k);
      while chain.off <= rest
        invariant k <= lwd < |chains| && chain == chains[k] && chain.off == |views[k]|
        invariant k > 0 ==> previous == chains[k - 1]
        invariant nread == |Flatten(views[..k])| && nread + rest == datlen
        invariant lastWithDatap == if k < lwd then old(lastWithDatap) else FirstOf(this)
        invariant Linked(chains) && Separate(chains) && Shows(chains, views)
        modifies `lastWithDatap
        decreases |chains| - k
      {
        WalkStep(views, lwd, k, rest);
        LinkAt(chains, k);
        ShowAt(chains, views, k + 1);
        nread := nread + chain.off;
        rest := rest - chain.off;
        previous := chain;
        if lastWithDatap == NextOf(chain) {
          lastWithDatap := FirstOf(this);
        }
        chain := chain.next;
        k := k + 1;
      }
    }

    /** The whole chains within the first datlen bytes go to dst. */
    method MoveWhole(dst: EvBuffer, datlen: nat) returns (chain: Chain, rest: nat, ghost k: nat)
      requires Core() && dst.Valid() && this != dst && Unshared(dst) && datlen < totalLen
      modifies `first, `lastWithDatap, `chains, `views, `lwd, chains`next
      modifies dst`first, dst`last, dst`lastWithDatap, dst`totalLen, dst`nAddForCb, dst`chains, dst`views, dst`lwd,
          dst.chains`next
      ensures Body() && dst.Sound() && Unshared(dst)
      ensures k <= |old(chains)| == |old(views)| && chains == old(chains)[k..] && views == old(views)[k..]
      ensures chains != [] && chain == chains[0] && rest < |views[0]| && |Flatten(old(views)[..k])| + rest == datlen
      ensures Flatten(dst.views) == old(Flatten(dst.views)) + Flatten(old(views)[..k])
      ensures forall c :: c in dst.chains ==> c in old(dst.chains) || c in old(chains)
    {
      hide Linked, Separate, Shows, Flatten, LastBlock, Disjoint;
      var previous, nread;
      NotABuffer(dst.chains, this);
      chain, previous, nread, rest, k := MoveWalk(datlen);
      Apart(chains);
      if chain != first {
        MoveSome(dst, chain, previous, nread, k);
      } else {
        PrefixWhole(views);
      }
    }

    method MoveSome(dst: EvBuffer, chain: Chain, previous: Chain, nread: nat, ghost k: nat)
      requires Linked(chains) && Separate(chains) && Shows(chains, views) && |views| == |chains| && Ends()
      requires LastBlock(views, lwd) && lastWithDatap == if k < lwd then SlotAt(lwd) else FirstOf(this)
      requires 0 < k <= lwd < |chains| && chain == chains[k] && previous == chains[k - 1]
      requires nread == |Flatten(views[..k])|
      requires dst.Valid() && this != dst && Unshared(dst)
      modifies `first, `chains, `views, `lwd, chains`next
      modifies dst`first, dst`last, dst`lastWithDatap, dst`totalLen, dst`nAddForCb, dst`chains, dst`views, dst`lwd,
          dst.chains`next
      ensures Body() && chains == old(chains)[k..] && views == old(views)[k..]
      ensures dst.Sound() && Unshared(dst)
      ensures Flatten(dst.views) == old(Flatten(dst.views)) + old(Flatten(views[..k]))
      ensures forall c :: c in dst.chains ==> c in old(dst.chains) || c in old(chains)
    {
      hide Linked, Separate, Shows, Flatten, LastBlock, Disjoint, Core, Body, Wrap;
      ghost var ds, cs := dst.chains, chains;
      DisjointSymmetric(chains, dst.chains);
      dst.CoreLength();
      ghost var j := MoveChains(dst, chain, previous, nread, k);
      dst.CoreLength();
      NotABuffer(dst.chains, dst);
      NotABuffer(chains, dst);
      WrapSum(|Flatten(old(dst.views))|, nread);
      LedgerKept(old(dst.totalLen), dst.nDelForCb, dst.lenAtCallback, dst.nAddForCb, nread);
      dst.nAddForCb := Wrap(dst.nAddForCb + nread);
      DisjointAfterMove(ds, j, cs, k);
    }

    method MoveChains(dst: EvBuffer, chain: Chain, previous: Chain, nread: nat, ghost k: nat) returns (ghost j: nat)
      requires Linked(chains) && Separate(chains) && Shows(chains, views) && |views| == |chains| && Ends()
      requires LastBlock(views, lwd) && lastWithDatap == if k < lwd then SlotAt(lwd) else FirstOf(this)
      requires 0 < k <= lwd < |chains| && chain == chains[k] && previous == chains[k - 1]
      requires nread == |Flatten(views[..k])|
      requires dst.Core() && this != dst && Disjoint(dst.chains, chains)
      modifies `first, `chains, `views, `lwd, chains`next
      modifies dst`first, dst`last, dst`lastWithDatap, dst`totalLen, dst`chains, dst`views, dst`lwd, dst.chains`next
      ensures Body() && chains == old(chains)[k..] && views == old(views)[k..]
      ensures dst.Core() && j <= |old(dst.chains)| && dst.chains == old(dst.chains)[..j] + old(chains)[..k]
      ensures Flatten(dst.views) == old(Flatten(dst.views)) + old(Flatten(views[..k]))
    {
      hide Linked, Separate, Shows, Flatten, LastBlock, Disjoint, Core, Body;
      ghost var ys, zs := chains[..k], chains[k..];
      DisjointParts(dst.chains, chains, dst.chains, ys);
      DisjointParts(dst.chains, chains, dst.chains, zs);
      NoSharedChains(dst.chains, chains);
      NotABuffer(dst.chains, this);
      ChainsAreNotBuffers(dst.chains, previous);
      CutLists(previous, chains, views, k);
      NoSharedChains(dst.chains, zs);
      NotABuffer(zs, dst);
      j := dst.TakeList(first, previous, nread, ys, views[..k]);
      NotABuffer(dst.chains, this);
      KeepRest(chain, k);
    }

    method TakeList(head: Chain, previous: Chain, nread: nat, ghost ys: seq<Chain>, ghost ws: seq<seq<byte>>)
        returns (ghost j: nat)
      requires Core()
      requires Linked(ys) && Separate(ys) && Shows(ys, ws) && ys != [] && head == ys[0] && previous == ys[|ys| - 1]
      requires Disjoint(chains, ys) && nread == |Flatten(ws)|
      modifies `first, `last, `lastWithDatap, `totalLen, `chains, `views, `lwd, chains`next
      ensures Core() && j <= |old(chains)| && chains == old(chains)[..j] + ys
      ensures Flatten(views) == old(Flatten(views)) + Flatten(ws)
    {
      hide Linked, Separate, Shows, Flatten, LastBlock, Disjoint, Core;
      ghost var cs := chains;
      NoSharedChains(chains, ys);
      NotABuffer(ys, this);
      CoreLength();
      var chp;
      chp, j := FreeTrailingEmptyChains();
      DisjointParts(cs, ys, chains, ys);
      TakeChains(chp, head, previous, nread, ys, ws);
    }

    method KeepRest(chain: Chain, ghost k: nat)
      requires |views| == |chains| && k <= lwd < |chains|
      requires Linked(chains[k..]) && Separate(chains[k..]) && Shows(chains[k..], views[k..])
      requires chain == chains[k] && last == chains[|chains| - 1]
      requires LastBlock(views, lwd) && lastWithDatap == if k < lwd then SlotAt(lwd) else FirstOf(this)
      modifies `first, `chains, `views, `lwd
      ensures Body() && chains == old(chains)[k..] && views == old(views)[k..]
    {
      hide Linked, Separate, Shows, Flatten, LastBlock;
      SplitBlocks(views, lwd, k);
      NotABuffer(chains[k..], this);
      first := chain;
      chains, views, lwd := chains[k..], views[k..], lwd - k;
    }

    static method CutLists(previous: Chain, ghost xs: seq<Chain>, ghost vs: seq<seq<byte>>, ghost k: nat)
      requires Linked(xs) && Separate(xs) && Shows(xs, vs) && 0 < k < |xs| && previous == xs[k - 1]
      modifies previous`next
      ensures Linked(xs[..k]) && Linked(xs[k..]) && |vs| == |xs|
      ensures Separate(xs[..k]) && Separate(xs[k..]) && Shows(xs[..k], vs[..k]) && Shows(xs[k..], vs[k..])
    {
      hide Linked, Separate, Shows, Flatten;
      Suffix(xs, vs, k);
      Parts(xs, vs, k);
      Links(xs);
      Apart(xs);
      ChainsAreNotBuffers(xs[..k], previous);
      ChainsAreNotBuffers(xs[k..], previous);
      previous.next := null;
      LinkUp(xs[..k]);
      LinkUp(xs[k..]);
    }

    method TakeChains(chp: Slot, head: Chain, previous: Chain, nread: nat, ghost ys: seq<Chain>,
        ghost ws: seq<seq<byte>>)
      requires Tailless() && chp == SlotAt(|chains|)
      requires Linked(ys) && Separate(ys) && Shows(ys, ws) && ys != [] && head == ys[0] && previous == ys[|ys| - 1]
      requires Disjoint(chains, ys) && nread == |Flatten(ws)|
      modifies `first, `last, `lastWithDatap, `totalLen, `chains, `views, `lwd, chains`next
      ensures Core() && chains == old(chains) + ys && Flatten(views) == old(Flatten(views)) + Flatten(ws)
    {
      hide Linked, Separate, Shows, Flatten, LastBlock, Disjoint, Wrap, Body;
      ConcatLists(chains, ys, views, ws);
      NoSharedChains(chains, ys);
      LastBlockHas(views, lwd);
      WrapSum(|Flatten(views)|, nread);
      Store(chp, head, ys, views + ws);
      NotABuffer(chains + ys, this);
      last := previous;
      totalLen := Wrap(totalLen + nread);
      chains, views := chains + ys, views + ws;
      AdvanceLastWithData();
    }

    /** evbuffer_pullup; returns the first chain when the first size bytes lie contiguously in it, and null otherwise. A
        negative size asks for all; the code asserts that an ssize_t can count the bytes behind the first chain. */
    method Pullup(size: int) returns (c: Chain?)
      requires Core() && size <= SSIZE_MAX
      requires size < 0 && chains != [] && |views[0]| < totalLen ==> totalLen - |views[0]| <= SSIZE_MAX
      modifies Footprint()
      ensures Core() && totalLen == old(totalLen) && Contents() == old(Contents()) && (old(Ledger()) ==> Ledger())
      ensures freezeStart == old(freezeStart) && freezeEnd == old(freezeEnd)
      ensures var n := if size < 0 then totalLen else size;
        && (c == null <==> n == 0 || n > totalLen)
        && (c != null ==> chains != [] && c == chains[0] && n <= |views[0]|)
      ensures forall x :: x in chains && x !in old(chains) ==> fresh(x) && fresh(x.buffer)
    {
      hide Linked, Separate, Shows, Flatten, LastBlock, Own, Core;
      CoreLength();
      CoreAt(0);
      var n := if size < 0 then totalLen else size;
      if n == 0 || n > totalLen {
        return null;
      }
      PrefixWhole(views);
      InBlock(views, 0, 0, n);
      var chain := first;
      if chain.off >= n {
        return chain;
      }
      Owned(chains);
      if chain.buffer.Length - chain.misalign >= n {
        PullInPlace(chain, n);
        c := chain;
      } else {
        c := PullFresh(n);
      }
      CoreLength();
    }

    /** The copying loop of evbuffer_pullup, from chain number k0 on. */
    method PullWalk(tmp: Chain, ghost k0: nat, start: Chain?, have: nat, size: nat)
      returns (chain: Chain?, rest: nat, removedLast: bool, removedSlot: bool, ghost k: nat)
      requires Linked(chains) && Separate(chains) && Shows(chains, views) && |views| == |chains| && LastWithData()
      requires k0 <= 1 <= lwd < |chains| && Deref(lastWithDatap) == chains[lwd] && start == chains[k0]
      requires Solo(chains, tmp) && (forall i :: k0 <= i < |chains| ==> chains[i] != tmp)
      requires (tmp in chains ==> tmp.off <= have)
      requires have == |Flatten(views[..k0])| && have <= size <= |Flatten(views)|
      requires tmp.misalign + size <= tmp.buffer.Length
      requires Holds(tmp, have, Flatten(views)[0..size])
      modifies tmp.buffer
      ensures Shows(chains, views)
      ensures k0 <= k <= |chains| && chain == (if k < |chains| then chains[k] else null)
      ensures |Flatten(views[..k])| + rest == size && (if k < |chains| then rest < |views[k]| else rest == 0)
      ensures Holds(tmp, size, Flatten(views)[0..size])
      ensures removedLast == (k > lwd) && removedSlot == (k0 < lwd <= k)
    {
      hide Linked, Separate, Shows, Flatten, LastBlock, Chain.View, Solo, Holds;
      var lastWithData := Deref(lastWithDatap);
      var at := have;
      ghost var want := Flatten(views)[0..size];
      chain, rest, removedLast, removedSlot, k := start, size - have, false, false, k0;
      ShowAt(chains, views, k);
      while chain != null && rest >= chain.off
        invariant k0 <= k <= |chains| && chain == (if k < |chains| then chains[k] else null)
        invariant k < |chains| ==> chain.Ok() && chain.off == |views[k]|
        invariant at == |Flatten(views[..k])| && at + rest == size
        invariant Holds(tmp, at, want) && have <= at
        invariant removedLast == (k > lwd) && removedSlot == (k0 < lwd <= k)
        invariant Shows(chains, views)
        decreases |chains| - k
      {
        ShowAt(chains, views, k);
        LinkAt(chains, k);
        SliceFromBlock(views, k, 0, chain.off, 0, size, at);
        WalkFlags(k);
        SoloOther(chains, tmp, chain);
        Gather(tmp, at, chain, 0, chain.off, chains, views, want);
        rest := rest - chain.off;
        at := at + chain.off;
        if chain == lastWithData {
          removedLast := true;
        }
        if NextOf(chain) == lastWithDatap {
          removedSlot := true;
        }
        chain := chain.next;
        k := k + 1;
        if k < |chains| {
          ShowAt(chains, views, k);
        }
      }
      PrefixWhole(views);
      if chain != null {
        ShowAt(chains, views, k);
        SliceFromBlock(views, k, 0, rest, 0, size, at);
        SoloOther(chains, tmp, chain);
        Gather(tmp, at, chain, 0, rest, chains, views, want);
      }
    }

    /** The walk is at the last chain with data, or before it, when its chain says so. */
    lemma WalkFlags(k: nat)
      requires Separate(chains) && |views| == |chains| && LastWithData() && k < |chains| && lwd < |chains|
      ensures (chains[k] == chains[lwd] <==> k == lwd) && (NextOf(chains[k]) == lastWithDatap <==> k + 1 == lwd)
    {
      Apart(chains);
    }

    method PullInPlace(chain: Chain, n: nat)
      requires Core() && chains != [] && chain == chains[0] && chain.off < n <= totalLen
      requires !chain.immutable && chain.buffer.Length - chain.misalign >= n
      modifies `first, `last, `lastWithDatap, `chains, `views, `lwd, chains`next, chains`off, chains`misalign,
          chain.buffer
      ensures Core() && Flatten(views) == old(Flatten(views)) && chains != [] && chain == chains[0] && n == |views[0]|
      ensures forall x :: x in chains ==> x in old(chains)
    {
      hide Linked, Separate, Shows, Flatten, LastBlock, Solo, Holds, Joinable;
      ShowAt(chains, views, 0);
      NeedsMore(views, lwd, n);
      SlotHolds(lwd);
      SlotHolds(0);
      SoloMember(chains, chain);
      Apart(chains);
      HoldsFirst(chain, views, n);
      var next, rest, removedLast, removedSlot;
      ghost var k;
      NotABuffer(chains, this);
      next, rest, removedLast, removedSlot, k := PullWalk(chain, 1, chain.next, chain.off, n);
      JoinRest(chains, k);
      PullFinish(chain, next, n, rest, removedLast, removedSlot, 1, k);
    }

    method PullFresh(n: nat) returns (tmp: Chain)
      requires Core() && chains != [] && |views[0]| < n <= totalLen
      modifies `first, `last, `lastWithDatap, `chains, `views, `lwd, chains`off, chains`misalign
      ensures Core() && Flatten(views) == old(Flatten(views)) && chains != [] && tmp == chains[0] && n == |views[0]|
      ensures fresh(tmp) && fresh(tmp.buffer) && forall x :: x in chains ==> x == tmp || x in old(chains)
    {
      hide Linked, Separate, Shows, Flatten, LastBlock, Solo, Holds, Joinable;
      NeedsMore(views, lwd, n);
      SlotHolds(lwd);
      SlotHolds(0);
      Allocated(chains);
      tmp := NewSolo(n, chains, Flatten(views)[0..n]);
      var next, rest, removedLast, removedSlot;
      ghost var k;
      next, rest, removedLast, removedSlot, k := PullWalk(tmp, 0, first, 0, n);
      JoinSuffix(chains, k, tmp);
      PullFinish(tmp, next, n, rest, removedLast, removedSlot, 0, k);
    }

    method PullFinish(tmp: Chain, chain: Chain?, n: nat, rest: nat, removedLast: bool, removedSlot: bool, ghost k0: nat,
        ghost k: nat)
      requires Linked(chains) && Separate(chains) && Shows(chains, views) && |views| == |chains| && LastWithData()
      requires 1 <= lwd < |chains| && k0 <= k <= |chains| && last == chains[|chains| - 1]
      requires totalLen == Wrap(|Flatten(views)|)
      requires tmp !in chains[k..] && Joinable(chains[k..], tmp) && !tmp.immutable
      requires 0 < n <= totalLen && Holds(tmp, n, Flatten(views)[0..n])
      requires k0 <= 1 && (k0 == 1 ==> tmp == chains[0])
      requires chain == (if k < |chains| then chains[k] else null)
      requires |Flatten(views[..k])| + rest == n && (if k < |chains| then rest < |views[k]| else rest == 0)
      requires removedLast == (k > lwd) && removedSlot == (k0 < lwd <= k)
      modifies `first, `last, `lastWithDatap, `chains, `views, `lwd, tmp`off, tmp`next, chains`off, chains`misalign
      ensures Core() && Flatten(views) == old(Flatten(views)) && chains == [tmp] + old(chains)[k..] && n == |views[0]|
    {
      hide Linked, Separate, Shows, Flatten, LastBlock, Solo, Holds, Joinable;
      PullBlocks(views, lwd, k, rest, n);
      NotABuffer(chains, this);
      PullTail(tmp, chain, n, rest, chains, views, k);
      PullFields(tmp, chain, removedLast, removedSlot, k0, k, [Flatten(views)[0..n]] + RestBlocks(views, k, rest));
    }

    method PullFields(tmp: Chain, chain: Chain?, removedLast: bool, removedSlot: bool, ghost k0: nat, ghost k: nat,
        ghost vs: seq<seq<byte>>)
      requires |views| == |chains| && 1 <= lwd < |chains| && k0 <= k <= |chains| && last == chains[|chains| - 1]
      requires lastWithDatap == SlotAt(lwd) && totalLen == Wrap(|Flatten(views)|)
      requires k0 <= 1 && (k0 == 1 ==> tmp == chains[0])
      requires chain == (if k < |chains| then chains[k] else null) && tmp.next == chain
      requires (chain != null ==> chain.off > 0)
      requires removedLast == (k > lwd) && removedSlot == (k0 < lwd <= k)
      requires Linked([tmp] + chains[k..]) && Separate([tmp] + chains[k..]) && Shows([tmp] + chains[k..], vs)
      requires |vs| == 1 + |chains| - k && Flatten(vs) == Flatten(views)
      requires LastBlock(vs, if k > lwd then 0 else lwd - k + 1)
      modifies `first, `last, `lastWithDatap, `chains, `views, `lwd
      ensures Core() && chains == [tmp] + old(chains)[k..] && views == vs
    {
      hide Linked, Separate, Shows, Flatten, LastBlock;
      ghost var cs := [tmp] + chains[k..];
      NotABuffer(cs, this);
      first := tmp;
      if chain == null {
        last := tmp;
      }
      if removedLast {
        lastWithDatap := FirstOf(this);
      } else if removedSlot {
        lastWithDatap := if tmp.next != null && tmp.next.off != 0 then NextOf(tmp) else FirstOf(this);
      }
      lwd := if k > lwd then 0 else lwd - k + 1;
      chains, views := cs, vs;
    }

    static method PullTail(tmp: Chain, chain: Chain?, n: nat, rest: nat, ghost cs: seq<Chain>,
        ghost views: seq<seq<byte>>, ghost k: nat)
      requires Linked(cs) && Separate(cs) && Shows(cs, views) && |views| == |cs| && k <= |cs|
      requires tmp !in cs[k..] && Joinable(cs[k..], tmp) && !tmp.immutable
      requires n <= |Flatten(views)| && Holds(tmp, n, Flatten(views)[0..n])
      requires chain == (if k < |cs| then cs[k] else null) && (if k < |cs| then rest < |views[k]| else rest == 0)
      modifies tmp`off, tmp`next, Opt(chain)`off, Opt(chain)`misalign
      ensures var cs', vs' := [tmp] + cs[k..], [Flatten(views)[0..n]] + RestBlocks(views, k, rest);
        Linked(cs') && Separate(cs') && Shows(cs', vs') && |vs'| == |cs'|
      ensures tmp.next == chain && (chain != null ==> chain.off > 0)
    {
      hide Linked, Separate, Shows, Flatten, Solo, Holds, Joinable;
      ghost var want := Flatten(views)[0..n];
      ghost var rs := RestBlocks(views, k, rest);
      if chain != null {
        ShowAt(cs, views, k);
        DropFrom(chain, cs, views, k, rest);
        Suffix(cs, views[k := views[k][rest..]], k);
      } else {
        Suffix(cs, views, k);
      }
      SetFront(tmp, chain, n, cs[k..], rs, want);
    }

    static method SetFront(tmp: Chain, chain: Chain?, n: nat, ghost cs: seq<Chain>, ghost vs: seq<seq<byte>>,
        ghost want: seq<byte>)
      requires Linked(cs) && Separate(cs) && Shows(cs, vs) && tmp !in cs && Joinable(cs, tmp)
      requires chain == (if cs == [] then null else cs[0]) && |want| == n && Holds(tmp, n, want) && !tmp.immutable
      modifies tmp`off, tmp`next
      ensures Linked([tmp] + cs) && Separate([tmp] + cs) && Shows([tmp] + cs, [want] + vs)
      ensures tmp.next == chain
    {
      hide Linked, Separate, Shows, Flatten;
      ChainsAreNotBuffers(cs, tmp);
      tmp.off := n;
      tmp.next := chain;
      assert tmp.View() == want;
      Fronted(cs, vs, tmp);
    }

    /** evbuffer_expand_singlechain; result is chain number j */
    method ExpandSingleChain(datlen: nat) returns (result: Chain, ghost j: nat)
      requires Core()
      modifies Footprint()
      ensures Core() && Contents() == old(Contents()) && totalLen == old(totalLen)
      ensures lwd <= j < |chains| && result == chains[j] && result.Ok() && result.Space() >= datlen && !result.immutable
      ensures forall c :: c in chains && c !in old(chains) ==> fresh(c) && fresh(c.buffer)
    {
      hide Linked, Separate, Shows, Flatten, LastBlock, Own, Core, Chain.View;
      Owned(chains);
      CoreLength();
      var chainp, i := FirstWithSpace();
      var chain := Deref(chainp);
      CoreAt(i);
      if chain == null || chain.immutable {
        result, j := InsertNew(datlen);
      } else if chain.Space() >= datlen {
        result, j := chain, i;
      } else if chain.off == 0 {
        result, j := InsertNew(datlen);
      } else if ShouldRealign(chain, datlen) {
        OnlyLast(i);
        AlignHere(chain);
        result, j := chain, i;
      } else if chain.Space() < chain.buffer.Length / 8 || chain.off > MAX_TO_COPY_IN_EXPAND
             || datlen >= CHAIN_MAX - chain.off {
        CoreAt(i + 1);
        if chain.next != null && chain.next.Space() >= datlen {
          result, j := chain.next, i + 1;
        } else {
          result, j := InsertNew(datlen);
        }
      } else {
        OnlyLast(i);
        result := Resize(chain, datlen);
        j := i;
      }
      CoreLength();
    }

    method FirstWithSpace() returns (chainp: Slot, ghost i: nat)
      requires Core()
      ensures Core() && lwd <= i <= |chains| && i <= lwd + 1 && chainp == SlotAt(i)
      ensures Deref(chainp) == if i < |chains| then chains[i] else null
    {
      hide Linked, Separate, Shows, Flatten, LastBlock;
      WalkFacts(lwd);
      chainp, i := lastWithDatap, lwd;
      if Deref(chainp) != null && Deref(chainp).Space() == 0 {
        chainp := NextOf(Deref(chainp));
        i := i + 1;
        WalkFacts(i);
      }
    }

    lemma OnlyLast(i: nat)
      requires Core() && lwd <= i < |chains| && chains[i].off != 0
      ensures i == lwd
    {
      assert views[i] == chains[i].View();
    }

    /** evbuffer_chain_insert_new */
    method InsertNew(datlen: nat) returns (result: Chain, ghost j: nat)
      requires Core()
      modifies `first, `last, `lastWithDatap, `totalLen, `chains, `views, `lwd, chains`next
      ensures Core() && Flatten(views) == old(Flatten(views)) && totalLen == old(totalLen)
      ensures lwd <= j < |chains| && result == chains[j] && result.Ok() && result.Space() >= datlen && !result.immutable
      ensures fresh(result) && fresh(result.buffer) && forall c :: c in chains ==> c == result || c in old(chains)
      ensures lwd == old(lwd) && j <= lwd + 1 && j == |chains| - 1
    {
      hide Linked, Separate, Shows, Flatten, LastBlock;
      Allocated(chains);
      result := new Chain.New(datlen);
      j := ChainInsert(result);
    }

    /** Replace the last chain with data by a copy of it that has datlen bytes of space. */
    method Resize(chain: Chain, datlen: nat) returns (tmp: Chain)
      requires Core() && lwd < |chains| && chain == chains[lwd] && chain.off > 0
      modifies `first, `last, `chains, chains`next
      ensures Core() && chains == old(chains)[lwd := tmp] && !tmp.immutable && tmp.Ok() && tmp.Space() >= datlen
      ensures fresh(tmp) && fresh(tmp.buffer)
    {
      hide Linked, Separate, Shows, Flatten, LastBlock, Joinable;
      Allocated(chains);
      CoreAt(lwd);
      tmp := NewCopy(chain.off + datlen, chain.Read(0, chain.off), chains);
      Replaced(chains, views, lwd, tmp);
      Substitute(tmp, chain);
    }

    method Substitute(tmp: Chain, chain: Chain)
      requires Core() && lwd < |chains| && chain == chains[lwd] && tmp !in chains
      requires Separate(chains[lwd := tmp]) && Shows(chains[lwd := tmp], views)
      modifies `first, `last, `chains, chains`next, tmp`next
      ensures Core() && chains == old(chains)[lwd := tmp]
    {
      hide Linked, Separate, Shows, Flatten, LastBlock;
      ghost var cs := chains[lwd := tmp];
      Links(chains);
      Apart(chains);
      NotABuffer(cs, this);
      ChainsAreNotBuffers(cs, tmp);
      match lastWithDatap {
        case FirstOf(b) => b.first := tmp;
        case NextOf(c) => ChainsAreNotBuffers(cs, c); assert c in chains; c.next := tmp;
      }
      if last == chain {
        last := tmp;
      }
      tmp.next := chain.next;
      LinkUp(cs);
      chains := cs;
    }

    /** At most n chains, from the last one with data on, have room for size bytes. */
    ghost predicate HasRoom(size: nat, n: nat)
      reads `chains, `lwd, chains`misalign, chains`off
    {
      exists s: nat, e: nat :: lwd <= s <= lwd + 1 && s <= e <= |chains| && e - s <= n && RoomOf(chains, s, e) >= size
    }

    /** evbuffer_expand_fast_ */
    method ExpandFast(datlen: nat, n: nat) returns (r: int)
      requires Core() && n >= 2
      modifies Footprint()
      ensures r == 0 && Core() && Contents() == old(Contents()) && totalLen == old(totalLen)
      ensures HasRoom(datlen, n)
      ensures forall c :: c in chains && c !in old(chains) ==> fresh(c) && fresh(c.buffer)
    {
      hide Linked, Separate, Shows, Flatten, LastBlock, Own, Core, HasRoom;
      Owned(chains);
      CoreLength();
      LastFact();
      if last == null || last.immutable {
        var chain;
        ghost var j;
        chain, j := InsertNew(datlen);
        RoomInOne(j, datlen, n);
      } else {
        var enough, used, avail;
        ghost var s;
        enough, used, avail, s := FastWalk(datlen, n);
        if !enough {
          if used < n {
            FastAppend(datlen - avail, datlen, n, s, used, avail);
          } else {
            FastReplace(datlen, n);
          }
        }
      }
      CoreLength();
      r := 0;
    }

    lemma LastFact()
      requires Core()
      ensures chains == [] <==> last == null
      ensures last != null ==> last in chains
      ensures lwd <= |chains| && lastWithDatap == SlotAt(lwd)
    {
    }

    lemma RoomInOne(j: nat, size: nat, n: nat)
      requires n >= 2 && lwd <= j <= lwd + 1 && j < |chains| && chains[j].Ok() && chains[j].Space() >= size
      ensures HasRoom(size, n)
    {
      RoomPush(chains, j, j);
      assert RoomOf(chains, j, j + 1) >= size;
    }

    /** The counting loop of evbuffer_expand_fast_. The chains from number s up to the current one have been counted. */
    method FastWalk(datlen: nat, n: nat) returns (enough: bool, used: nat, avail: nat, ghost s: nat)
      requires Core() && n >= 2 && chains != []
      modifies chains`misalign
      ensures Core() && lwd <= s <= lwd + 1 && lwd < |chains|
      ensures enough ==> HasRoom(datlen, n)
      ensures !enough ==> avail < datlen && (used < n ==> Counted(s, |chains|, used, avail))
      ensures !enough ==> chains[lwd].Ok() && (chains[lwd].off > 0 ==> chains[lwd].Space() < datlen)
    {
      hide Linked, Separate, Shows, Flatten, LastBlock, Core, Counting, HasRoom;
      LastFact();
      WalkFacts(lwd);
      var chain := Deref(lastWithDatap);
      ghost var i: nat := lwd;
      s := CountingStart();
      used, avail, enough := 0, 0, false;
      while chain != null && used < n
        invariant lwd <= i <= |chains| && chain == (if i < |chains| then chains[i] else null)
        invariant Core() && Counting(s, i, used, avail) && used <= n && (i == lwd ==> chain != null && used < n)
        invariant (i > lwd ==> avail < datlen)
        modifies chains`misalign
        decreases |chains| - i
      {
        CoreAt(i);
        used, avail := FastCount(chain, i, s, used, avail);
        i := i + 1;
        if avail >= datlen {
          RoomCounted(s, i, used, avail, datlen, n);
          enough := true;
          return;
        }
        chain := chain.next;
      }
      CountingEnd(s, i, used, avail);
    }

    /** The chains from number s up to i have been counted. */
    ghost predicate Counting(s: nat, i: nat, used: nat, avail: nat)
      reads `chains, `lwd, chains`misalign, chains`off
    {
      && lwd <= i <= |chains| && Counted(s, if i < s then s else i, used, avail)
      && lwd < |chains| && chains[lwd].Ok()
      && if i == lwd then s == FirstCounted()
         else lwd <= s <= i && s <= lwd + 1 && (chains[lwd].off > 0 ==> chains[lwd].Space() <= avail)
    }

    lemma CountingStart() returns (s: nat)
      requires Core() && chains != []
      ensures lwd < |chains| && Counting(s, lwd, 0, 0) && lwd <= s <= lwd + 1
    {
      WalkFacts(lwd);
      CoreAt(lwd);
      s := FirstCounted();
    }

    lemma CountingEnd(s: nat, i: nat, used: nat, avail: nat)
      requires Counting(s, i, used, avail) && i > lwd
      ensures chains[lwd].Ok() && (chains[lwd].off > 0 ==> chains[lwd].Space() <= avail)
      ensures lwd <= s <= lwd + 1 && Counted(s, i, used, avail)
    {
    }

    ghost function FirstCounted(): nat
      requires lwd < |chains| && chains[lwd].Ok()
      reads `chains, `lwd, chains`misalign, chains`off
    {
      if chains[lwd].off > 0 && chains[lwd].Space() == 0 then lwd + 1 else lwd
    }

    /** The body of the counting loop for chain number i. */
    method FastCount(chain: Chain, ghost i: nat, ghost s: nat, used0: nat, avail0: nat) returns (used: nat, avail: nat)
      requires Core() && lwd <= i < |chains| && chain == chains[i] && chain.Ok() && Counting(s, i, used0, avail0)
      modifies chain`misalign
      ensures Core() && Counting(s, i + 1, used, avail) && used <= used0 + 1
    {
      hide Linked, Separate, Shows, Flatten, LastBlock, Room;
      Apart(chains);
      CoreAt(i);
      used, avail := used0, avail0;
      ghost var before := chains[s..if i < s then s else i];
      if chain.off != 0 {
        OnlyLast(i);
        var room := chain.Space();
        if room > 0 {
          avail := avail + room;
          used := used + 1;
        }
      } else {
        MoveEmpty0(chain, i);
        avail := avail + chain.buffer.Length;
        used := used + 1;
      }
      if s <= i {
        assert chain !in before;
        RoomPush(chains, s, i);
      }
    }

    /** An empty chain is realigned; one that is immutable has no memory at all. */
    method MoveEmpty0(c: Chain, ghost i: nat)
      requires Core() && i < |chains| && c == chains[i] && c.off == 0
      modifies c`misalign
      ensures Core() && c.Ok() && c.Space() == c.buffer.Length
    {
      hide Linked, Separate, Flatten, LastBlock;
      ShowAt(chains, views, i);
      c.misalign := 0;
    }

    ghost predicate Counted(s: nat, t: nat, used: nat, avail: nat)
      reads `chains, chains`misalign, chains`off
    {
      s <= t <= |chains| && t - s == used && RoomOf(chains, s, t) == avail
    }

    lemma RoomCounted(s: nat, t: nat, used: nat, avail: nat, size: nat, n: nat)
      requires Counting(s, t, used, avail) && t > lwd && used <= n && size <= avail
      ensures HasRoom(size, n)
    {
    }

    /** One more empty chain behind the last one. */
    method FastAppend(size: nat, ghost datlen: nat, ghost n: nat, ghost s: nat, ghost used: nat, ghost avail: nat)
      requires Core() && chains != [] && lwd <= s <= lwd + 1 && Counted(s, |chains|, used, avail) && used < n
      requires size + avail >= datlen
      modifies `last, `chains, `views, chains`next
      ensures Core() && Flatten(views) == old(Flatten(views)) && HasRoom(datlen, n)
      ensures forall c :: c in chains && c !in old(chains) ==> fresh(c) && fresh(c.buffer)
    {
      hide Linked, Separate, Shows, Flatten, LastBlock, Room, Chain.View, Joinable;
      Allocated(chains);
      LastFact();
      ghost var cs := chains;
      assert cs[s..] == cs[s..|cs|];
      var tmp := NewCopy(size, [], chains);
      LinkOne(tmp);
      Extended(chains, views, tmp);
      LinkLists(last, tmp, chains, [tmp], views + [tmp.View()]);
      AppendEmpty(tmp);
      RoomAppend(cs, s, tmp);
      assert RoomOf(chains, s, |chains|) >= datlen;
    }

    method AppendEmpty(tmp: Chain)
      requires |views| == |chains| && Ends() && LastWithData() && chains != [] && totalLen == Wrap(|Flatten(views)|)
      requires Linked(chains + [tmp]) && Separate(chains + [tmp]) && Shows(chains + [tmp], views + [[]])
      requires Flatten(views + [[]]) == Flatten(views) + []
      modifies `last, `chains, `views
      ensures Core() && chains == old(chains) + [tmp] && views == old(views) + [[]]
    {
      hide Linked, Separate, Shows, Flatten, LastBlock;
      LastBlockMore(views, lwd);
      NotABuffer(chains + [tmp], this);
      last := tmp;
      chains, views := chains + [tmp], views + [[]];
    }

    /** All empty chains are replaced by one with enough room. */
    method FastReplace(datlen: nat, ghost n: nat)
      requires Core() && lwd < |chains| && chains[lwd].Ok() && n >= 2
      requires chains[lwd].off > 0 ==> chains[lwd].Space() < datlen
      modifies `first, `last, `lastWithDatap, `chains, `views, chains`next
      ensures Core() && Flatten(views) == old(Flatten(views)) && HasRoom(datlen, n)
      ensures forall c :: c in chains && c !in old(chains) ==> fresh(c) && fresh(c.buffer)
    {
      hide Linked, Separate, Shows, Flatten, LastBlock, Room, Joinable;
      LastFact();
      WalkFacts(lwd);
      var chain := Deref(lastWithDatap);
      var avail := 0;
      if chain.off != 0 {
        avail := chain.Space();
        ReplaceTail(chain, datlen - avail);
        RoomPush(chains, lwd, lwd);
        RoomPush(chains, lwd, lwd + 1);
        assert RoomOf(chains, lwd, lwd + 2) >= datlen;
      } else {
        ReplaceAll(datlen);
        RoomInOne(0, datlen, n);
      }
    }

    method ReplaceAll(size: nat)
      requires Core() && lwd < |chains| && chains[lwd].off == 0
      modifies `first, `last, `lastWithDatap, `chains, `views
      ensures Core() && Flatten(views) == old(Flatten(views)) && lwd == 0
      ensures |chains| == 1 && fresh(chains[0]) && fresh(chains[0].buffer) && chains[0].Ok()
      ensures chains[0].Space() >= size
    {
      hide Flatten;
      CoreAt(lwd);
      LastBlockHas(views, lwd);
      FlattenEmpties(views);
      var tmp := NewCopy(size, [], []);
      SetOnly(tmp);
    }

    method SetOnly(tmp: Chain)
      requires tmp.Ok() && tmp.View() == [] && tmp.next == null && totalLen == 0 && lwd == 0
      modifies `first, `last, `lastWithDatap, `chains, `views
      ensures Core() && Flatten(views) == [] && chains == [tmp]
    {
      first, last, lastWithDatap := tmp, tmp, FirstOf(this);
      chains, views := [tmp], [[]];
      assert Flatten(views) == [];
    }

    method ReplaceTail(chain: Chain, size: nat)
      requires Core() && lwd < |chains| && chain == chains[lwd] && chain.off > 0
      modifies `last, `chains, `views, chain`next
      ensures Core() && Flatten(views) == old(Flatten(views)) && |chains| == lwd + 2
      ensures chains[..lwd + 1] == old(chains)[..lwd + 1] && chain == chains[lwd] && lwd == old(lwd)
      ensures fresh(chains[lwd + 1]) && fresh(chains[lwd + 1].buffer) && chains[lwd + 1].Ok()
      ensures chains[lwd + 1].Space() >= size
    {
      hide Linked, Separate, Shows, Flatten, LastBlock, Chain.View, Joinable;
      Allocated(chains);
      ghost var xs, vs := chains[..lwd + 1], views[..lwd + 1];
      var tmp := NewCopy(size, [], chains);
      Parts(chains, views, lwd + 1);
      JoinPrefix(chains, lwd + 1, tmp);
      Extended(xs, vs, tmp);
      TrimmedTail(views, lwd);
      NewTail(chain, tmp, vs);
    }

    method NewTail(chain: Chain, tmp: Chain, ghost vs: seq<seq<byte>>)
      requires Core() && lwd < |chains| && chain == chains[lwd] && tmp !in chains && tmp.next == null
      requires vs == views[..lwd + 1]
      requires Separate(chains[..lwd + 1] + [tmp]) && Shows(chains[..lwd + 1] + [tmp], vs + [[]])
      requires Flatten(vs + [[]]) == Flatten(views) && LastBlock(vs + [[]], lwd)
      modifies `last, `chains, `views, chain`next
      ensures Core() && views == vs + [[]] && chains == old(chains)[..lwd + 1] + [tmp]
    {
      hide Linked, Separate, Shows, Flatten, LastBlock;
      ghost var xs := chains[..lwd + 1];
      Links(chains);
      Apart(chains);
      NotABuffer(xs + [tmp], this);
      ChainsAreNotBuffers(xs + [tmp], chain);
      LinkOne(tmp);
      chain.next := tmp;
      LinkConcat(xs, [tmp]);
      last := tmp;
      chains, views := xs + [tmp], vs + [[]];
    }
  }
}
