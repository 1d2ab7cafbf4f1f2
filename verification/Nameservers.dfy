/** The ring of nameservers: which are up, who is asked next, and who takes over the requests of one that fails. */
module Nameservers {
  import opened Bytes

  /** struct nameserver */
  class Nameserver {
    const address: seq<byte>
    var next: Nameserver
    var prev: Nameserver
    var up: bool
    var failedTimes: nat
    var inflight: nat

    constructor (address: seq<byte>)
      ensures this.address == address && next == this && prev == this && up && failedTimes == 0 && inflight == 0
    {
      this.address := address;
      next, prev, up, failedTimes, inflight := this, this, true, 0, 0;
    }
  }

  /** struct request, as far as choosing its server is concerned */
  datatype Request = Request(ns: Nameserver, txCount: nat)

  // ---- rings as lists that start at the head ----

  ghost predicate NoDup(ring: seq<Nameserver>) {
    forall i, j :: 0 <= i < j < |ring| ==> ring[i] != ring[j]
  }

  /** Each server is linked to the next in the list and back, the last to the first. */
  ghost predicate Ring(ring: seq<Nameserver>)
    reads ring`next, ring`prev
  {
    forall i :: 0 <= i < |ring| ==>
      ring[i].next == ring[if i + 1 == |ring| then 0 else i + 1] &&
          ring[i].prev == ring[if i == 0 then |ring| - 1 else i - 1]
  }

  function Rotated<T>(ring: seq<T>, k: nat): seq<T>
    requires k <= |ring|
  {
    ring[k..] + ring[..k]
  }

  lemma RotatedNone<T>(ring: seq<T>)
    ensures Rotated(ring, 0) == ring && (ring != [] ==> Rotated(ring, 0)[0] == ring[0])
  {
  }

  lemma RotatedMembers<T>(ring: seq<T>, k: nat)
    requires k <= |ring|
    ensures forall x :: x in Rotated(ring, k) <==> x in ring
  {
    assert ring == ring[..k] + ring[k..];
  }

  lemma RotatedAgain<T>(ring: seq<T>, k: nat)
    requires k < |ring|
    ensures Rotated(Rotated(ring, k), 1) == Rotated(ring, k + 1) && Rotated(ring, k)[0] == ring[k]
    ensures k + 1 < |ring| ==> Rotated(ring, k + 1)[0] == ring[k + 1]
    ensures |Rotated(ring, k)| == |ring| == |Rotated(ring, k + 1)|
  {
    assert Rotated(ring, k)[1..] == ring[k + 1..] + ring[..k];
    assert ring[..k + 1] == ring[..k] + [ring[k]];
  }

  lemma RingRotated(ring: seq<Nameserver>)
    requires Ring(ring) && NoDup(ring) && ring != []
    ensures Ring(Rotated(ring, 1)) && NoDup(Rotated(ring, 1)) && ring[0].next == Rotated(ring, 1)[0]
    ensures forall x :: x in Rotated(ring, 1) <==> x in ring
  {
    var r, n := Rotated(ring, 1), |ring|;
    assert forall i :: 0 <= i < n ==> r[i] == ring[if i + 1 == n then 0 else i + 1];
    assert ring == [ring[0]] + ring[1..];
  }

  /** The servers that are up, in the order of the ring */
  ghost function Good(ring: seq<Nameserver>): seq<Nameserver>
    reads ring`up
  {
    if ring == [] then [] else (if ring[0].up then [ring[0]] else []) + Good(ring[1..])
  }

  lemma {:induction false} GoodConcat(a: seq<Nameserver>, b: seq<Nameserver>)
    ensures Good(a + b) == Good(a) + Good(b)
  {
    if a == [] {
      assert a + b == b;
    } else {
      GoodConcat(a[1..], b);
      assert (a + b)[1..] == a[1..] + b;
    }
  }

  /** The index of the first server that is up */
  ghost function FirstUp(ring: seq<Nameserver>): (k: nat)
    reads ring`up
    requires Good(ring) != []
    ensures k < |ring| && ring[k].up && Good(ring)[0] == ring[k]
    ensures forall i :: 0 <= i < k ==> !ring[i].up
  {
    if ring[0].up then 0 else FirstUp(ring[1..]) + 1
  }

  lemma GoodRotated(ring: seq<Nameserver>)
    requires Good(ring) != []
    ensures Good(Rotated(ring, FirstUp(ring) + 1)) == Rotated(Good(ring), 1)
  {
    var k := FirstUp(ring);
    assert ring == ring[..k] + [ring[k]] + ring[k + 1..];
    GoodNone(ring[..k]);
    GoodConcat(ring[..k], [ring[k]]);
    GoodConcat(ring[..k] + [ring[k]], ring[k + 1..]);
    assert ring[..k + 1] == ring[..k] + [ring[k]];
    GoodConcat(ring[k + 1..], ring[..k + 1]);
    assert Good([ring[k]]) == [ring[k]];
  }

  lemma {:induction false} GoodNone(ring: seq<Nameserver>)
    ensures Good(ring) == [] <==> forall i :: 0 <= i < |ring| ==> !ring[i].up
  {
    if ring != [] {
      GoodNone(ring[1..]);
      assert forall i :: 0 < i < |ring| ==> ring[i] == ring[1..][i - 1];
    }
  }

  /** The list of good servers has each server that is up, once if the ring has it once. */
  lemma {:induction false} GoodIs(ring: seq<Nameserver>)
    ensures forall x :: x in Good(ring) <==> x in ring && x.up
    ensures NoDup(ring) ==> NoDup(Good(ring))
  {
    if ring != [] {
      GoodIs(ring[1..]);
      assert ring == [ring[0]] + ring[1..];
      if NoDup(ring) {
        assert ring[0] !in ring[1..];
        assert NoDup(ring[1..]);
      }
    }
  }

  // ---- fairness ----

  /** What m picks in a row return while no server changes state */
  ghost function Picks(ring: seq<Nameserver>, m: nat): seq<Nameserver>
    reads ring`up
    requires Good(ring) != []
    decreases m
  {
    if m == 0 then []
    else
      var k := FirstUp(ring);
      GoodRotated(ring);
      [ring[k]] + Picks(Rotated(ring, k + 1), m - 1)
  }

  /** While no server changes state, as many picks as servers are up return each of them exactly once, in ring order. */
  lemma PicksFair(ring: seq<Nameserver>, m: nat)
    requires Good(ring) != [] && m <= |Good(ring)|
    ensures Picks(ring, m) == Good(ring)[..m]
    ensures NoDup(ring) ==> NoDup(Picks(ring, m))
    ensures forall x :: x in Picks(ring, |Good(ring)|) <==> x in ring && x.up
  {
    PicksAre(ring, m);
    PicksAre(ring, |Good(ring)|);
    assert Good(ring)[..|Good(ring)|] == Good(ring);
    GoodIs(ring);
  }

  lemma {:induction false} PicksAre(ring: seq<Nameserver>, m: nat)
    requires Good(ring) != [] && m <= |Good(ring)|
    ensures Picks(ring, m) == Good(ring)[..m]
    decreases m
  {
    if m > 0 {
      var ring' := Rotated(ring, FirstUp(ring) + 1);
      GoodRotated(ring);
      PicksAre(ring', m - 1);
      assert Good(ring)[..m] == [Good(ring)[0]] + Rotated(Good(ring), 1)[..m - 1];
    }
  }

  /** struct evdns_base, as far as nameservers are concerned; the requests in flight are in one list. */
  class EvdnsBase {
    var serverHead: Nameserver?
    var globalGoodNameservers: int
    var requests: seq<Request>
    /** The servers in ring order, from the head on */
    ghost var ring: seq<Nameserver>

    constructor ()
      ensures Valid() && ring == [] && requests == []
    {
      serverHead, globalGoodNameservers, requests, ring := null, 0, [], [];
    }

    ghost predicate Shape()
      reads `serverHead, `ring, ring`next, ring`prev
    {
      Ring(ring) && NoDup(ring) && serverHead == if ring == [] then null else ring[0]
    }

    ghost predicate Tally()
      reads `globalGoodNameservers, `ring, ring`up
    {
      globalGoodNameservers == |Good(ring)|
    }

    /** Each server counts the requests in flight that it has. */
    ghost predicate Loads()
      reads `requests, `ring, ring`inflight
    {
      && (forall i :: 0 <= i < |requests| ==> requests[i].ns in ring)
      && forall ns :: ns in ring ==> ns.inflight == Load(requests, ns)
    }

    ghost predicate Valid()
      reads this, ring
    {
      Shape() && Tally() && Loads()
    }

    /** nameserver_pick: the next server that is up, from the head of the ring on; if none is, the ring moves on
        by one. */
    method Pick() returns (picked: Nameserver?)
      requires Valid()
      modifies `serverHead, `ring
      ensures Valid() && forall x :: x in ring <==> x in old(ring)
      ensures picked == null <==> old(ring) == []
      ensures picked != null && old(Good(ring)) == [] ==> ring == Rotated(old(ring), 1) && picked == ring[0]
      ensures picked != null && old(Good(ring)) != [] ==>
                && picked.up && picked == old(ring[FirstUp(ring)])
                && ring == old(Rotated(ring, FirstUp(ring) + 1))
    {
      if serverHead == null {
        return null;
      }
      if globalGoodNameservers == 0 {
        picked := PickAny();
      } else {
        RotatedMembers(ring, FirstUp(ring) + 1);
        hide Good, Shape, Tally, Loads, Rotated, FirstUp;
        picked := PickGood();
      }
    }

    method PickAny() returns (picked: Nameserver)
      requires Valid() && ring != []
      modifies `serverHead, `ring
      ensures Valid() && ring == Rotated(old(ring), 1) && picked == ring[0] && forall x :: x in ring <==> x in old(ring)
    {
      RotatedMembers(ring, 1);
      hide Good, Shape, Tally, Loads, Rotated;
      Advance();
      HeadOfRing();
      picked := serverHead;
    }

    method PickGood() returns (picked: Nameserver)
      requires Valid() && Good(ring) != []
      modifies `serverHead, `ring
      ensures Valid()
      ensures var k := old(FirstUp(ring)); picked == old(ring)[k] && picked.up && ring == Rotated(old(ring), k + 1)
    {
      ghost var was, k := ring, FirstUp(ring);
      FoundUp(was);
      hide Good, Shape, Tally, Loads, Rotated, FirstUp;
      Seek(k);
      picked := serverHead;
      Advance();
    }

    lemma FoundUp(was: seq<Nameserver>)
      requires Good(was) != []
      ensures var k := FirstUp(was);
              && was[k].up && (forall i :: 0 <= i < k ==> !was[i].up)
              && Rotated(was, k) != [] && Rotated(was, k)[0] == was[k]
              && Rotated(Rotated(was, k), 1) == Rotated(was, k + 1)
    {
      hide FirstUp, Good, Rotated;
      var k := FirstUp(was);
      RotatedAgain(was, k);
    }

    /** The search of nameserver_pick; it meets a server that is up before it comes round. */
    method Seek(ghost n: nat)
      requires Valid() && n < |ring| && ring[n].up && forall i :: 0 <= i < n ==> !ring[i].up
      modifies `serverHead, `ring
      ensures Valid() && ring == Rotated(old(ring), n) && ring != [] && serverHead == ring[0]
    {
      ghost var k, was := 0, ring;
      hide Good, Shape, Tally, Loads, Rotated;
      RotatedNone(ring);
      HeadOfRing();
      while !serverHead.up
        modifies `serverHead, `ring
        invariant Valid() && 0 <= k <= n && ring == Rotated(was, k) && ring != [] && serverHead == ring[0]
        invariant ring[0] == was[k]
        decreases n - k
      {
        RotatedAgain(was, k);
        Advance();
        HeadOfRing();
        k := k + 1;
      }
    }

    lemma HeadOfRing()
      requires Shape() && ring != []
      ensures serverHead == ring[0]
    {
    }

    /** base->server_head = base->server_head->next */
    method Advance()
      requires Valid() && ring != []
      modifies `serverHead, `ring
      ensures Valid() && ring == Rotated(old(ring), 1) && ring != []
    {
      RingRotated(ring);
      assert ring == [ring[0]] + ring[1..];
      GoodConcat([ring[0]], ring[1..]);
      GoodConcat(ring[1..], [ring[0]]);
      serverHead := serverHead.next;
      ring := Rotated(ring, 1);
    }

    /** A server changes state, and the tally with it. */
    method SetUp(ns: Nameserver, up: bool)
      requires Valid() && ns in ring && ns.up != up
      modifies `globalGoodNameservers, ns`up
      ensures Valid() && ns.up == up && globalGoodNameservers == old(globalGoodNameservers) + if up then 1 else -1
    {
      ghost var k := Split(ns);
      hide Good, Loads, Shape, Tally;
      Flip(ns, up, k);
    }

    method Flip(ns: Nameserver, up: bool, ghost k: nat)
      requires Tally() && ns.up != up && k < |ring| && ring[k] == ns && ns !in ring[..k] && ns !in ring[k + 1..]
      modifies `globalGoodNameservers, ns`up
      ensures Tally() && ns.up == up && globalGoodNameservers == old(globalGoodNameservers) + if up then 1 else -1
    {
      ghost var a, c := ring[..k], ring[k + 1..];
      GoodAround(ring, k);
      hide Good;
      ghost var ga, gc := Good(a), Good(c);
      globalGoodNameservers := globalGoodNameservers + if up then 1 else -1;
      ns.up := up;
      assert Good(a) == ga && Good(c) == gc;
      GoodAround(ring, k);
    }

    lemma Split(ns: Nameserver) returns (k: nat)
      requires Shape() && ns in ring
      ensures k < |ring| && ring[k] == ns && ns !in ring[..k] && ns !in ring[k + 1..]
    {
      k :| 0 <= k < |ring| && ring[k] == ns;
    }

    /** nameserver_failed; whoever waited to be sent to the failed server goes to another, if one is up. */
    method Failed(ns: Nameserver)
      requires Valid() && ns in ring
      modifies this, ns`up, ns`failedTimes, ring`inflight
      ensures Valid() && !ns.up && |requests| == |old(requests)|
      ensures globalGoodNameservers == old(globalGoodNameservers) - if old(ns.up) then 1 else 0
      ensures forall x :: x in ring <==> x in old(ring)
      ensures !old(ns.up) || globalGoodNameservers == 0 ==> requests == old(requests) && ring == old(ring)
      ensures old(ns.up) ==> ns.failedTimes == 1
      ensures old(ns.up) && globalGoodNameservers > 0 ==>
                forall i :: 0 <= i < |requests| && requests[i].txCount == 0 && old(requests)[i].ns == ns ==>
                    requests[i].ns.up
      ensures forall i :: 0 <= i < |requests| ==> requests[i].txCount == old(requests)[i].txCount
      ensures forall i :: 0 <= i < |requests| && (old(requests)[i].ns != ns || old(requests)[i].txCount > 0) ==>
                requests[i] == old(requests)[i]
    {
      if !ns.up {
        return;
      }
      SetUp(ns, false);
      ns.failedTimes := 1;
      if globalGoodNameservers == 0 {
        return;
      }
      Reassign(ns);
    }

    /** The walk over the requests in flight */
    method Reassign(ns: Nameserver)
      requires Valid() && ns in ring && !ns.up && globalGoodNameservers > 0
      modifies `requests, `serverHead, `ring, ring`inflight
      ensures Valid() && |requests| == |old(requests)| && forall x :: x in ring <==> x in old(ring)
      ensures forall i :: 0 <= i < |requests| && requests[i].txCount == 0 && old(requests)[i].ns == ns ==>
          requests[i].ns.up
      ensures forall i :: 0 <= i < |requests| ==> requests[i].txCount == old(requests)[i].txCount
      ensures forall i :: 0 <= i < |requests| && (old(requests)[i].ns != ns || old(requests)[i].txCount > 0) ==>
                requests[i] == old(requests)[i]
    {
      ghost var nodes := set x | x in ring;
      hide Good, Shape, Loads, Rotated, FirstUp;
      var i := 0;
      while i < |requests|
        modifies `requests, `serverHead, `ring, nodes`inflight
        invariant i <= |requests| == |old(requests)| && Valid() && forall x :: x in ring <==> x in nodes
        invariant forall k :: 0 <= k < i && requests[k].txCount == 0 && old(requests)[k].ns == ns ==> requests[k].ns.up
        invariant forall k :: 0 <= k < |requests| ==> requests[k].txCount == old(requests)[k].txCount
        invariant forall k ::
            0 <= k < |requests| && (k >= i || old(requests)[k].ns != ns || old(requests)[k].txCount > 0) ==>
                    requests[k] == old(requests)[k]
      {
        if requests[i].txCount == 0 && requests[i].ns == ns {
          MoveRequest(i, nodes);
        }
        i := i + 1;
      }
    }

    /** request_swap_ns with the server that nameserver_pick returns */
    method MoveRequest(i: nat, ghost nodes: set<Nameserver>)
      requires Valid() && globalGoodNameservers > 0 && i < |requests| && forall x :: x in ring <==> x in nodes
      modifies `requests, `serverHead, `ring, nodes`inflight
      ensures Valid() && (forall x :: x in ring <==> x in nodes)
      ensures |requests| == |old(requests)| && requests[i].ns.up
      ensures requests == old(requests)[i := Request(requests[i].ns, old(requests)[i].txCount)]
    {
      hide Good, Shape, Tally, Loads;
      var picked := PickFor(nodes);
      SwapNs(i, picked, nodes);
    }

    method PickFor(ghost nodes: set<Nameserver>) returns (picked: Nameserver)
      requires Valid() && globalGoodNameservers > 0 && forall x :: x in ring <==> x in nodes
      modifies `serverHead, `ring
      ensures Valid() && picked in ring && picked.up && forall x :: x in ring <==> x in nodes
    {
      GoodExists();
      hide Good, Shape, Tally, Loads, Rotated, FirstUp;
      picked := PickGood();
    }

    lemma GoodExists()
      requires Tally() && globalGoodNameservers > 0
      ensures Good(ring) != [] && ring[FirstUp(ring)] in ring
      ensures forall x :: x in Rotated(ring, FirstUp(ring) + 1) <==> x in ring
    {
      RotatedMembers(ring, FirstUp(ring) + 1);
    }

    /** request_swap_ns */
    method SwapNs(i: nat, ns: Nameserver, ghost nodes: set<Nameserver>)
      requires Valid() && i < |requests| && ns in ring && forall x :: x in ring ==> x in nodes
      modifies `requests, nodes`inflight
      ensures Valid() && requests == old(requests)[i := Request(ns, old(requests)[i].txCount)]
    {
      var req := requests[i];
      if req.ns != ns {
        forall x
          ensures Load(requests[i := req.(ns := ns)], x)
                  == Load(requests, x) - (if req.ns == x then 1 else 0) + (if ns == x then 1 else 0)
        {
          LoadUpdate(requests, i, req.(ns := ns), x);
        }
        req.ns.inflight := req.ns.inflight - 1;
        ns.inflight := ns.inflight + 1;
        requests := requests[i := req.(ns := ns)];
      }
    }

    /** nameserver_up */
    method Up(ns: Nameserver)
      requires Valid() && ns in ring
      modifies `globalGoodNameservers, ns`up, ns`failedTimes
      ensures Valid() && ns.up && globalGoodNameservers == old(globalGoodNameservers) + if old(ns.up) then 0 else 1
      ensures ns.failedTimes == if old(ns.up) then old(ns.failedTimes) else 0
    {
      if ns.up {
        return;
      }
      SetUp(ns, true);
      ns.failedTimes := 0;
    }

    /** The walk once round the ring that looks for an address */
    method HasAddress(address: seq<byte>) returns (found: bool)
      requires Valid()
      ensures found <==> exists x :: x in ring && x.address == address
    {
      if serverHead == null {
        return false;
      }
      var server := serverHead;
      ghost var k := 0;
      var again := true;
      while again
        invariant 0 <= k <= |ring| && (again ==> k < |ring| && server == ring[k]) && (!again ==> k == |ring|)
        invariant forall i :: 0 <= i < k ==> ring[i].address != address
        decreases |ring| - k, again
      {
        if server.address == address {
          return true;
        }
        server := server.next;
        k := k + 1;
        assert k < |ring| ==> server == ring[k] && ring[0] != ring[k];
        again := server != serverHead;
      }
      found := false;
    }

    /** evdns_nameserver_add_impl_: 3 when the address is known already; a new server goes behind the head of
        the ring. */
    method Add(address: seq<byte>) returns (r: int)
      requires Valid()
      modifies `serverHead, `globalGoodNameservers, `ring, ring`next, ring`prev
      ensures Valid()
      ensures r == if exists x :: x in old(ring) && x.address == address then 3 else 0
      ensures r == 3 ==> ring == old(ring) && globalGoodNameservers == old(globalGoodNameservers)
      ensures r == 0 ==>
                && globalGoodNameservers == old(globalGoodNameservers) + 1
                && |ring| == |old(ring)| + 1 && var ns := ring[if old(ring) == [] then 0 else 1];
                   fresh(ns) && ns.up && ns.address == address &&
                   ring == Inserted(old(ring), ns)
    {
      var known := HasAddress(address);
      if known {
        return 3;
      }
      var ns := new Nameserver(address);
      Insert(ns);
      r := 0;
    }

    method Insert(ns: Nameserver)
      requires Valid() && ns !in ring && ns.up && ns.inflight == 0 && ns.next == ns && ns.prev == ns
      modifies `serverHead, `globalGoodNameservers, `ring, ring`next, ring`prev, ns`next, ns`prev
      ensures Valid() && globalGoodNameservers == old(globalGoodNameservers) + 1
      ensures ring == Inserted(old(ring), ns)
    {
      if serverHead == null {
        InsertFirst(ns);
      } else {
        InsertBehind(ns);
      }
    }

    method InsertFirst(ns: Nameserver)
      requires Valid() && ring == [] && ns.up && ns.inflight == 0 && ns.next == ns && ns.prev == ns
      modifies `serverHead, `globalGoodNameservers, `ring
      ensures Valid() && globalGoodNameservers == old(globalGoodNameservers) + 1 && ring == Inserted(old(ring), ns)
    {
      InsertFacts(ring, ns);
      NoLoad(ns);
      serverHead := ns;
      ring := [ns];
      globalGoodNameservers := globalGoodNameservers + 1;
    }

    method InsertBehind(ns: Nameserver)
      requires Valid() && ring != [] && ns !in ring && ns.up && ns.inflight == 0
      modifies `serverHead, `globalGoodNameservers, `ring, ring`next, ring`prev, ns`next, ns`prev
      ensures Valid() && globalGoodNameservers == old(globalGoodNameservers) + 1
      ensures ring == Inserted(old(ring), ns)
    {
      ghost var r := Inserted(ring, ns);
      InsertFacts(ring, ns);
      MoreLoads(ns);
      hide Good, Loads, LoadsOf, NoDup, Ring, Inserted;
      Link(ns, r);
      Adopt(r);
    }

    method Adopt(ghost r: seq<Nameserver>)
      requires Ring(r) && NoDup(r) && LoadsOf(r) && |Good(r)| == globalGoodNameservers + 1 && r != []
      requires r[0] == serverHead
      modifies `globalGoodNameservers, `ring
      ensures Valid() && globalGoodNameservers == old(globalGoodNameservers) + 1 && ring == r
    {
      hide Good, Ring, NoDup;
      ring := r;
      globalGoodNameservers := globalGoodNameservers + 1;
    }

    /** The loads are right for a longer ring. */
    ghost predicate LoadsOf(r: seq<Nameserver>)
      reads `requests, r`inflight
    {
      && (forall i :: 0 <= i < |requests| ==> requests[i].ns in r)
      && forall ns :: ns in r ==> ns.inflight == Load(requests, ns)
    }

    lemma MoreLoads(ns: Nameserver)
      requires Loads() && ring != [] && ns !in ring && ns.inflight == 0
      ensures LoadsOf(Inserted(ring, ns))
    {
      NoLoad(ns);
      assert ring == [ring[0]] + ring[1..];
    }

    lemma NoLoad(ns: Nameserver)
      requires Loads() && ns !in ring
      ensures Load(requests, ns) == 0
    {
      NoneOf(requests, ns);
    }

    /** The four pointers of an insertion behind the head */
    method Link(ns: Nameserver, ghost r: seq<Nameserver>)
      requires Shape() && ring != [] && ns !in ring && r == Inserted(ring, ns)
      modifies ring`next, ring`prev, ns`next, ns`prev
      ensures Ring(r) && NoDup(r)
    {
      ghost var n := |ring|;
      assert forall i :: 0 <= i < |r| ==> r[i] == if i == 0 then ring[0] else if i == 1 then ns else ring[i - 1];
      assert serverHead.next == ring[if n == 1 then 0 else 1];
      ns.next := serverHead.next;
      ns.prev := serverHead;
      serverHead.next := ns;
      ns.next.prev := ns;
      forall i | 0 <= i < |r|
        ensures r[i].next == r[if i + 1 == |r| then 0 else i + 1] && r[i].prev == r[if i == 0 then |r| - 1 else i - 1]
      {
        if i >= 2 {
          assert r[i] == ring[i - 1];
        }
      }
    }
  }

  /** How many of the requests a server has */
  ghost function Load(requests: seq<Request>, ns: Nameserver): nat {
    if requests == [] then 0 else (if requests[0].ns == ns then 1 else 0) + Load(requests[1..], ns)
  }

  lemma {:induction false} LoadUpdate(requests: seq<Request>, i: nat, r: Request, ns: Nameserver)
    requires i < |requests|
    ensures Load(requests[i := r], ns) ==
        Load(requests, ns) - (if requests[i].ns == ns then 1 else 0) + (if r.ns == ns then 1 else 0)
  {
    if i > 0 {
      LoadUpdate(requests[1..], i - 1, r, ns);
      assert requests[i := r][1..] == requests[1..][i - 1 := r];
    } else {
      assert requests[i := r][1..] == requests[1..];
    }
  }

  lemma GoodAround(ring: seq<Nameserver>, k: nat)
    requires k < |ring|
    ensures Good(ring) == Good(ring[..k]) + (if ring[k].up then [ring[k]] else []) + Good(ring[k + 1..])
  {
    var a, b := ring[..k], ring[k..];
    assert ring == a + b;
    GoodConcat(a, b);
    assert b[1..] == ring[k + 1..] && b[0] == ring[k];
  }

  /** The ring once a server is put behind its head */
  function Inserted(ring: seq<Nameserver>, ns: Nameserver): seq<Nameserver> {
    if ring == [] then [ns] else [ring[0], ns] + ring[1..]
  }

  lemma InsertFacts(ring: seq<Nameserver>, ns: Nameserver)
    requires ns.up
    ensures Good([ns]) == [ns]
    ensures ring != [] ==>
        |Good(Inserted(ring, ns))| == |Good(ring)| + 1 && Inserted(ring, ns) != [] && Inserted(ring, ns)[0] == ring[0]
  {
    if ring != [] {
      var t := ring[1..];
      assert ring == [ring[0]] + t;
      GoodConcat([ring[0]], t);
      assert [ring[0], ns] + t == [ring[0]] + ([ns] + t);
      GoodConcat([ring[0]], [ns] + t);
      GoodConcat([ns], t);
      assert Good([ns]) == [ns];
    }
  }

  lemma {:induction false} NoneOf(requests: seq<Request>, ns: Nameserver)
    requires forall i :: 0 <= i < |requests| ==> requests[i].ns != ns
    ensures Load(requests, ns) == 0
  {
    if requests != [] {
      NoneOf(requests[1..], ns);
    }
  }
}
