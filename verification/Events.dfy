/** The queues of an event base: what is inserted, waiting for a time, active, or to become active later. */
module Events {
  import opened Bytes

  type Id = nat

  const MAX_DEFERREDS_QUEUED: nat := 32
  const MAX_COMMON_TIMEOUTS: nat := 256

  /** Why an event became active: the EV_* bits of ev_res */
  datatype Reason = TIMEOUT | READ | WRITE | SIGNAL | CLOSED

  /** An event or a bare callback: what it is, the EVLIST_* flags, and when it times out in microseconds. An event with
      a common timeout carries the number of its common timeout list. */
  datatype Ev = Ev(pri: nat, internal_: bool, deferred: bool, persist: bool, inserted: bool, timeout: bool,
      active: bool, later: bool,
                   res: set<Reason>, when: int, common: Option<nat>)

  // ---- lists without repetition ----

  ghost predicate NoDup(q: seq<Id>) {
    forall i, j :: 0 <= i < j < |q| ==> q[i] != q[j]
  }

  /** TAILQ_REMOVE */
  function Remove(q: seq<Id>, id: Id): seq<Id>
    requires id in q
  {
    if q[0] == id then q[1..] else [q[0]] + Remove(q[1..], id)
  }

  lemma {:induction false} RemoveLength(q: seq<Id>, id: Id)
    requires id in q
    ensures |Remove(q, id)| == |q| - 1
    ensures forall x :: x in Remove(q, id) ==> x in q
    ensures forall x :: x in q && x != id ==> x in Remove(q, id)
  {
    if q[0] != id {
      RemoveLength(q[1..], id);
    }
  }

  lemma {:induction false} RemoveNoDup(q: seq<Id>, id: Id)
    requires id in q && NoDup(q)
    ensures NoDup(Remove(q, id)) && id !in Remove(q, id)
  {
    RemoveLength(q, id);
    if q[0] != id {
      RemoveNoDup(q[1..], id);
      RemoveLength(q[1..], id);
      assert q[0] !in q[1..];
    } else {
      assert id !in q[1..];
    }
  }

  function InsertAt(q: seq<Id>, k: nat, id: Id): seq<Id>
    requires k <= |q|
  {
    q[..k] + [id] + q[k..]
  }

  lemma InsertAtMembers(q: seq<Id>, k: nat, id: Id)
    requires k <= |q| && NoDup(q) && id !in q
    ensures NoDup(InsertAt(q, k, id)) && forall x :: x in InsertAt(q, k, id) <==> x == id || x in q
  {
    var r := InsertAt(q, k, id);
    assert forall j :: 0 <= j < |r| ==> r[j] == if j < k then q[j] else if j == k then id else q[j - 1];
    forall x | x in q
      ensures x in r
    {
      var j :| 0 <= j < |q| && q[j] == x;
      assert r[if j < k then j else j + 1] == x;
    }
  }

  lemma Overwritten<T>(s: seq<T>, i: nat, x: T, y: T)
    requires i < |s|
    ensures s[i := x][i := y] == s[i := y] && s[i := x][i] == x && (s[i] == x ==> s[i := x] == s)
  {
  }

  lemma {:induction false} EarliestExists(events: seq<Ev>, heap: set<Id>)
    requires heap != {} && forall x :: x in heap ==> x < |events|
    ensures exists id :: id in heap && forall x :: x in heap ==> events[id].when <= events[x].when
    decreases heap
  {
    var a :| a in heap;
    var rest := heap - {a};
    if rest == {} {
      assert heap == {a};
    } else {
      EarliestExists(events, rest);
      var b :| b in rest && forall x :: x in rest ==> events[b].when <= events[x].when;
      var first := if events[a].when <= events[b].when then a else b;
      assert first in heap && forall x :: x in heap ==> x == a || x in rest;
    }
  }

  // ---- the books ----

  function Bit(b: bool): nat {
    if b then 1 else 0
  }

  /** In how many lists the event is, if it is not internal */
  function Weight(e: Ev): nat {
    if e.internal_ then 0 else Bit(e.inserted) + Bit(e.timeout) + Bit(e.active) + Bit(e.later)
  }

  function Total(events: seq<Ev>): nat {
    if events == [] then 0 else Weight(events[0]) + Total(events[1..])
  }

  lemma {:induction false} TotalUpdate(events: seq<Ev>, id: Id, e: Ev)
    requires id < |events|
    ensures Total(events[id := e]) == Total(events) - Weight(events[id]) + Weight(e)
  {
    if id > 0 {
      TotalUpdate(events[1..], id - 1, e);
      assert events[id := e][1..] == events[1..][id - 1 := e];
    } else {
      assert events[id := e][1..] == events[1..];
    }
  }

  /** The lists of an event base: active queues by priority, the later queue, the heap, and the common timeout lists */
  datatype Queues = Queues(active: seq<seq<Id>>, later: seq<Id>, heap: set<Id>, common: seq<seq<Id>>)

  /** Each flag of an event is set exactly when the event is in the list the flag stands for. */
  ghost predicate Placed(e: Ev, id: Id, q: Queues) {
    && e.pri < |q.active| && (e.active <==> id in q.active[e.pri])
    && (e.later <==> id in q.later) && !(e.active && e.later)
    && match e.common
       case None => e.timeout <==> id in q.heap
       case Some(c) => c < |q.common| && (e.timeout <==> id in q.common[c])
  }

  ghost predicate ActiveQueue(events: seq<Ev>, q: seq<Id>, p: nat) {
    NoDup(q) && forall id :: id in q ==> id < |events| && events[id].pri == p
  }

  ghost predicate CommonList(events: seq<Ev>, q: seq<Id>, c: nat) {
    NoDup(q) && forall id :: id in q ==> id < |events| && events[id].common == Some(c)
  }

  /** The lists have no repetition and hold events of the right sort. */
  ghost predicate Sound(events: seq<Ev>, q: Queues) {
    && (forall p: nat :: p < |q.active| ==> ActiveQueue(events, q.active[p], p))
    && (forall c: nat :: c < |q.common| ==> CommonList(events, q.common[c], c))
    && NoDup(q.later) && (forall id :: id in q.later ==> id < |events|)
    && (forall id :: id in q.heap ==> id < |events| && events[id].common == None)
  }

  ghost predicate Lists(events: seq<Ev>, q: Queues) {
    Sound(events, q) && forall id: nat :: id < |events| ==> Placed(events[id], id, q)
  }

  /** Every common timeout list is in order of time. */
  ghost predicate Sorted(events: seq<Ev>, q: seq<Id>) {
    && (forall i :: 0 <= i < |q| ==> q[i] < |events|)
    && (forall i, j :: 0 <= i < j < |q| ==> events[q[i]].when <= events[q[j]].when)
  }

  /** The internal timer of a list fires before its first event is due: it is active, or in the heap no later, or
      excused because its callback is about to see to the list. */
  ghost predicate TimerOk(events: seq<Ev>, list: seq<Id>, timer: Id, excused: set<Id>) {
    && timer < |events| && events[timer].common == None && events[timer].internal_
    && (list != [] ==>
          && list[0] < |events|
          && (timer in excused || events[timer].active || (events[timer].timeout &&
              events[timer].when <= events[list[0]].when)))
  }

  ghost predicate ListOk(events: seq<Ev>, list: seq<Id>, timer: Id, excused: set<Id>) {
    Sorted(events, list) && TimerOk(events, list, timer, excused)
  }

  /** All common timeout lists are in order and have a timer that fires in time. */
  ghost predicate TimedOk(events: seq<Ev>, common: seq<seq<Id>>, timers: seq<Id>, excused: set<Id>) {
    && |timers| == |common| && NoDup(timers)
    && forall c: nat :: c < |common| ==> ListOk(events, common[c], timers[c], excused)
  }

  /** A change to an event that keeps its time, and keeps its timer promise if it is a timer, keeps all lists timed. */
  lemma TimedUpdate(events: seq<Ev>, common: seq<seq<Id>>, timers: seq<Id>, excused: set<Id>, id: Id, e: Ev)
    requires TimedOk(events, common, timers, excused) && id < |events|
    requires e.internal_ == events[id].internal_ && e.common == events[id].common && e.when == events[id].when
    requires id in timers ==> id in excused || e.active || (!events[id].active && e.timeout == events[id].timeout)
    ensures TimedOk(events[id := e], common, timers, excused)
  {
    var events' := events[id := e];
    forall c: nat | c < |common|
      ensures ListOk(events', common[c], timers[c], excused)
    {
      assert ListOk(events, common[c], timers[c], excused);
      assert timers[c] == id ==> id in timers;
    }
  }

  lemma SortedSame(events: seq<Ev>, list: seq<Id>, id: Id, e: Ev)
    requires Sorted(events, list) && id < |events| && e.when == events[id].when
    ensures Sorted(events[id := e], list)
  {
  }

  lemma TimedUpdateSame(events: seq<Ev>, common: seq<seq<Id>>, timers: seq<Id>, excused: set<Id>, id: Id, e: Ev)
    requires TimedOk(events, common, timers, excused) && id < |events|
    requires e == events[id].(inserted := e.inserted, later := e.later, res := e.res)
    ensures TimedOk(events[id := e], common, timers, excused)
  {
    var events' := events[id := e];
    forall c: nat | c < |common|
      ensures ListOk(events', common[c], timers[c], excused)
    {
      assert ListOk(events, common[c], timers[c], excused);
    }
  }

  lemma InsertSorted(events: seq<Ev>, list: seq<Id>, k: nat, id: Id)
    requires Sorted(events, list) && k <= |list| && id < |events|
    requires k > 0 ==> events[list[k - 1]].when <= events[id].when
    requires k < |list| ==> events[id].when < events[list[k]].when
    ensures Sorted(events, InsertAt(list, k, id))
  {
    var r := InsertAt(list, k, id);
    assert forall j :: 0 <= j < |r| ==> r[j] == if j < k then list[j] else if j == k then id else list[j - 1];
  }

  /** An event in no list may get any time; a timer may, if it is excused. */
  lemma TimedRetime(events: seq<Ev>, common: seq<seq<Id>>, timers: seq<Id>, excused: set<Id>, id: Id, e: Ev)
    requires TimedOk(events, common, timers, excused) && id < |events| && e.internal_ == events[id].internal_
    requires forall c: nat :: c < |common| ==> id !in common[c]
    requires id in timers ==> id in excused && e.common == None
    ensures TimedOk(events[id := e], common, timers, excused)
  {
    var events' := events[id := e];
    forall c: nat | c < |common|
      ensures ListOk(events', common[c], timers[c], excused)
    {
      assert ListOk(events, common[c], timers[c], excused);
      assert timers[c] == id ==> id in timers;
      if common[c] != [] {
        assert common[c][0] in common[c];
      }
    }
  }

  lemma {:induction false} RemoveAt(q: seq<Id>, id: Id) returns (k: nat)
    requires id in q
    ensures k < |q| && q[k] == id && Remove(q, id) == q[..k] + q[k + 1..]
  {
    k := 0;
    if q[0] != id {
      var j := RemoveAt(q[1..], id);
      k := j + 1;
      Sliced(q, j);
    }
  }

  lemma Sliced(q: seq<Id>, j: nat)
    requires j + 1 < |q|
    ensures [q[0]] + (q[1..][..j] + q[1..][j + 1..]) == q[..j + 1] + q[j + 2..] && q[1..][j] == q[j + 1]
  {
  }

  lemma RemoveSorted(events: seq<Ev>, list: seq<Id>, id: Id)
    requires Sorted(events, list) && id in list
    ensures Sorted(events, Remove(list, id))
    ensures Remove(list, id) != [] ==> events[list[0]].when <= events[Remove(list, id)[0]].when
  {
    var k := RemoveAt(list, id);
    hide Remove, Sorted;
    SortedWithout(events, list, k);
  }

  lemma SortedWithout(events: seq<Ev>, list: seq<Id>, k: nat)
    requires Sorted(events, list) && k < |list|
    ensures var rest := list[..k] + list[k + 1..];
            Sorted(events, rest) && (rest != [] ==> events[list[0]].when <= events[rest[0]].when)
  {
    var rest := list[..k] + list[k + 1..];
    assert forall i :: 0 <= i < |rest| ==> rest[i] == list[if i < k then i else i + 1];
  }

  lemma TimedRemove(events: seq<Ev>, common: seq<seq<Id>>, timers: seq<Id>, excused: set<Id>, c: nat, id: Id)
    requires TimedOk(events, common, timers, excused) && c < |common| && id in common[c]
    ensures TimedOk(events, common[c := Remove(common[c], id)], timers, excused)
  {
    var common' := common[c := Remove(common[c], id)];
    assert ListOk(events, common[c], timers[c], excused);
    RemoveSorted(events, common[c], id);
    forall k: nat | k < |common'|
      ensures ListOk(events, common'[k], timers[k], excused)
    {
      assert ListOk(events, common[k], timers[k], excused);
    }
  }

  /** A list that gets a new first event needs its timer set again. */
  lemma TimedInsert(events: seq<Ev>, common: seq<seq<Id>>, timers: seq<Id>, excused: set<Id>, c: nat, k: nat, id: Id)
    requires TimedOk(events, common, timers, excused) && c < |common| && k <= |common[c]| && id < |events|
    requires Sorted(events, InsertAt(common[c], k, id))
    ensures TimedOk(events, common[c := InsertAt(common[c], k, id)], timers,
                    if InsertAt(common[c], k, id)[0] == id then excused + {timers[c]} else excused)
  {
    var list := InsertAt(common[c], k, id);
    var common' := common[c := list];
    var excused' := if list[0] == id then excused + {timers[c]} else excused;
    forall d: nat | d < |common'|
      ensures ListOk(events, common'[d], timers[d], excused')
    {
      assert ListOk(events, common[d], timers[d], excused);
      assert k > 0 ==> list[0] == common[c][0];
    }
  }

  /** Whoever is excused for a timer that is in the heap in time need not be. */
  lemma TimedScheduled(events: seq<Ev>, common: seq<seq<Id>>, timers: seq<Id>, excused: set<Id>, c: nat)
    requires TimedOk(events, common, timers, excused) && c < |common| && timers[c] < |events|
    requires common[c] != [] ==>
               common[c][0] < |events| &&
               (events[timers[c]].active || (events[timers[c]].timeout &&
                   events[timers[c]].when <= events[common[c][0]].when))
    ensures TimedOk(events, common, timers, excused - {timers[c]})
  {
    forall d: nat | d < |common|
      ensures ListOk(events, common[d], timers[d], excused - {timers[c]})
    {
      assert ListOk(events, common[d], timers[d], excused);
      assert timers[d] == timers[c] ==> d == c;
    }
  }

  lemma TimedMore(events: seq<Ev>, common: seq<seq<Id>>, timers: seq<Id>, excused: set<Id>, more: set<Id>)
    requires TimedOk(events, common, timers, excused) && excused <= more
    ensures TimedOk(events, common, timers, more)
  {
    forall d: nat | d < |common|
      ensures ListOk(events, common[d], timers[d], more)
    {
      assert ListOk(events, common[d], timers[d], excused);
    }
  }

  /** The common timeout lists once an event leaves its list */
  function CommonWithout(q: Queues, e: Ev, id: Id): seq<seq<Id>> {
    match e.common
    case None => q.common
    case Some(c) => if c < |q.common| && id in q.common[c] then q.common[c := Remove(q.common[c], id)] else q.common
  }

  lemma TimeoutDropped(events: seq<Ev>, q: Queues, timers: seq<Id>, excused: set<Id>, id: Id)
    requires Lists(events, q) && TimedOk(events, q.common, timers, excused) && id < |events| && events[id].timeout
    ensures var e, common := events[id].(timeout := false), CommonWithout(q, events[id], id);
            && TimedOk(events[id := e], common, timers, excused + {id})
            && (id !in timers ==> TimedOk(events[id := e], common, timers, excused))
            && |common| == |q.common| && |Flatten(common)| == |Flatten(q.common)| - (if e.common.Some? then 1 else 0)
  {
    var e, common := events[id].(timeout := false), CommonWithout(q, events[id], id);
    assert Placed(events[id], id, q);
    if e.common.Some? {
      TimedRemove(events, q.common, timers, excused, e.common.value, id);
      FlattenLength(q.common, e.common.value, Remove(q.common[e.common.value], id));
      RemoveLength(q.common[e.common.value], id);
    }
    hide TimedOk, Lists, Flatten;
    TimedMore(events, common, timers, excused, excused + {id});
    TimedUpdate(events, common, timers, excused + {id}, id, e);
    if id !in timers {
      TimedUpdate(events, common, timers, excused, id, e);
    }
  }

  /** The common timeout lists once an event enters its list */
  function CommonWith(q: Queues, e: Ev, k: nat, id: Id): seq<seq<Id>> {
    match e.common
    case None => q.common
    case Some(c) => if c < |q.common| && k <= |q.common[c]| then q.common[c := InsertAt(q.common[c], k, id)]
        else q.common
  }

  lemma TimeoutAdded(events: seq<Ev>, q: Queues, timers: seq<Id>, excused: set<Id>, id: Id, k: nat)
    requires TimedOk(events, q.common, timers, excused) && id < |events| && (id in timers ==> id in excused)
    requires match events[id].common
             case None => true
             case Some(c) =>
               && c < |q.common| && k <= |q.common[c]|
               && Sorted(events[id := events[id].(timeout := true)], InsertAt(q.common[c], k, id))
    ensures var e, common := events[id].(timeout := true), CommonWith(q, events[id], k, id);
            && TimedOk(events[id := e], common, timers, Newly(common, timers, excused, id, e))
            && |common| == |q.common| && |Flatten(common)| == |Flatten(q.common)| + (if e.common.Some? then 1 else 0)
  {
    var e, common := events[id].(timeout := true), CommonWith(q, events[id], k, id);
    TimedUpdate(events, q.common, timers, excused, id, e);
    match events[id].common
    case None =>
    case Some(c) =>
      TimedInsert(events[id := e], q.common, timers, excused, c, k, id);
      FlattenLength(q.common, c, InsertAt(q.common[c], k, id));
  }

  /** Who is excused once an event has entered its list: if it is the first there, the timer of the list too. */
  function Newly(common: seq<seq<Id>>, timers: seq<Id>, excused: set<Id>, id: Id, e: Ev): set<Id> {
    match e.common
    case None => excused
    case Some(c) => if c < |common| && c < |timers| && common[c] != [] && common[c][0] == id then excused + {timers[c]}
        else excused
  }

  /** An active timer need not be excused. */
  lemma TimedActive(events: seq<Ev>, common: seq<seq<Id>>, timers: seq<Id>, excused: set<Id>, id: Id, e: Ev)
    requires TimedOk(events, common, timers, excused) && id < |events|
    requires e.internal_ == events[id].internal_ && e.common == events[id].common && e.when == events[id].when
    requires e.active
    ensures TimedOk(events[id := e], common, timers, excused - {id})
  {
    var events' := events[id := e];
    forall c: nat | c < |common|
      ensures ListOk(events', common[c], timers[c], excused - {id})
    {
      assert ListOk(events, common[c], timers[c], excused);
    }
  }

  lemma NotInCommon(events: seq<Ev>, q: Queues, id: Id)
    requires Lists(events, q) && id < |events| && !events[id].timeout
    ensures forall c: nat :: c < |q.common| ==> id !in q.common[c]
  {
    forall c: nat | c < |q.common|
      ensures id !in q.common[c]
    {
      assert CommonList(events, q.common[c], c);
      assert Placed(events[id], id, q);
    }
  }

  /** An active queue that gains or loses just this callback fits the flipped flag. */
  lemma ActiveChanged(events: seq<Ev>, q: Queues, id: Id, list: seq<Id>)
    requires Lists(events, q) && id < |events| && NoDup(list) && !events[id].later
    requires events[id].pri < |q.active|
    requires forall x :: x in list <==> if x == id then !events[id].active else x in q.active[events[id].pri]
    ensures Lists(events[id := events[id].(active := !events[id].active)],
        q.(active := q.active[events[id].pri := list]))
  {
    var events', q' := events[id := events[id].(active := !events[id].active)],
        q.(active := q.active[events[id].pri := list]);
    assert Placed(events[id], id, q);
    forall k: nat | k < |events'|
      ensures Placed(events'[k], k, q')
    {
      assert Placed(events[k], k, q);
    }
    forall c: nat | c < |q.common|
      ensures CommonList(events', q'.common[c], c)
    {
      assert CommonList(events, q.common[c], c);
    }
    forall r: nat | r < |q.active|
      ensures ActiveQueue(events', q'.active[r], r)
    {
      assert ActiveQueue(events, q.active[r], r);
    }
  }

  /** So does the later queue. */
  lemma LaterChanged(events: seq<Ev>, q: Queues, id: Id, list: seq<Id>)
    requires Lists(events, q) && id < |events| && NoDup(list) && !events[id].active
    requires forall x :: x in list <==> if x == id then !events[id].later else x in q.later
    ensures Lists(events[id := events[id].(later := !events[id].later)], q.(later := list))
  {
    var events', q' := events[id := events[id].(later := !events[id].later)], q.(later := list);
    assert Placed(events[id], id, q);
    forall k: nat | k < |events'|
      ensures Placed(events'[k], k, q')
    {
      assert Placed(events[k], k, q);
    }
    forall c: nat | c < |q.common|
      ensures CommonList(events', q'.common[c], c)
    {
      assert CommonList(events, q.common[c], c);
    }
    forall r: nat | r < |q.active|
      ensures ActiveQueue(events', q'.active[r], r)
    {
      assert ActiveQueue(events, q.active[r], r);
    }
  }

  /** So does a common timeout list. */
  lemma CommonChanged(events: seq<Ev>, q: Queues, id: Id, list: seq<Id>)
    requires Lists(events, q) && id < |events| && NoDup(list)
    requires events[id].common.Some? && events[id].common.value < |q.common|
    requires forall x :: x in list <==> if x == id then !events[id].timeout else x in q.common[events[id].common.value]
    ensures Lists(events[id := events[id].(timeout := !events[id].timeout)],
        q.(common := q.common[events[id].common.value := list]))
  {
    var events', q' := events[id := events[id].(timeout := !events[id].timeout)],
        q.(common := q.common[events[id].common.value := list]);
    assert Placed(events[id], id, q);
    forall k: nat | k < |events'|
      ensures Placed(events'[k], k, q')
    {
      assert Placed(events[k], k, q);
    }
    forall c: nat | c < |q.common|
      ensures CommonList(events', q'.common[c], c)
    {
      assert CommonList(events, q.common[c], c);
    }
    forall r: nat | r < |q.active|
      ensures ActiveQueue(events', q'.active[r], r)
    {
      assert ActiveQueue(events, q.active[r], r);
    }
  }

  /** So does the heap. */
  lemma HeapChanged(events: seq<Ev>, q: Queues, id: Id)
    requires Lists(events, q) && id < |events| && events[id].common.None?
    ensures Lists(events[id := events[id].(timeout := !events[id].timeout)],
                  q.(heap := if events[id].timeout then q.heap - {id} else q.heap + {id}))
  {
    var events' := events[id := events[id].(timeout := !events[id].timeout)];
    var q' := q.(heap := if events[id].timeout then q.heap - {id} else q.heap + {id});
    forall k: nat | k < |events'|
      ensures Placed(events'[k], k, q')
    {
      assert Placed(events[k], k, q);
    }
    forall c: nat | c < |q.common|
      ensures CommonList(events', q'.common[c], c)
    {
      assert CommonList(events, q.common[c], c);
    }
    forall r: nat | r < |q.active|
      ensures ActiveQueue(events', q'.active[r], r)
    {
      assert ActiveQueue(events, q.active[r], r);
    }
  }

  /** The first callback of the later queue may move to the active queue of its priority. */
  lemma LaterToActive(events: seq<Ev>, q: Queues, id: Id)
    requires Lists(events, q) && q.later != [] && q.later[0] == id && id < |events| && events[id].pri < |q.active|
    ensures var p := events[id].pri;
            Lists(events[id := events[id].(later := false, active := true)],
                  q.(later := q.later[1..], active := q.active[p := q.active[p] + [id]]))
  {
    assert Placed(events[id], id, q);
    var p := events[id].pri;
    assert ActiveQueue(events, q.active[p], p);
    LaterChanged(events, q, id, q.later[1..]);
    var events', q' := events[id := events[id].(later := false)], q.(later := q.later[1..]);
    Overwritten(events, id, events[id].(later := false), events[id].(later := false, active := true));
    hide Lists;
    ActiveChanged(events', q', id, q.active[p] + [id]);
  }

  lemma {:induction false} TotalMore(events: seq<Ev>, e: Ev)
    ensures Total(events + [e]) == Total(events) + Weight(e)
  {
    if events == [] {
      assert events + [e] == [e];
    } else {
      TotalMore(events[1..], e);
      assert (events + [e])[1..] == events[1..] + [e];
    }
  }

  lemma ListsMore(events: seq<Ev>, q: Queues, e: Ev)
    requires Lists(events, q) && e.pri < |q.active| && !e.active && !e.later && !e.timeout && e.common == None
    ensures Lists(events + [e], q)
  {
    var events' := events + [e];
    forall c: nat | c < |q.common|
      ensures CommonList(events', q.common[c], c)
    {
      assert CommonList(events, q.common[c], c);
    }
    forall r: nat | r < |q.active|
      ensures ActiveQueue(events', q.active[r], r)
    {
      assert ActiveQueue(events, q.active[r], r);
    }
    forall k: nat | k < |events'|
      ensures Placed(events'[k], k, q)
    {
      if k < |events| {
        assert Placed(events[k], k, q);
      } else {
        assert ActiveQueue(events, q.active[e.pri], e.pri);
      }
    }
  }

  lemma TimedLonger(events: seq<Ev>, common: seq<seq<Id>>, timers: seq<Id>, excused: set<Id>, e: Ev)
    requires TimedOk(events, common, timers, excused)
    ensures TimedOk(events + [e], common, timers, excused)
  {
    forall c: nat | c < |common|
      ensures ListOk(events + [e], common[c], timers[c], excused)
    {
      assert ListOk(events, common[c], timers[c], excused);
    }
  }

  lemma ListMore(events: seq<Ev>, q: Queues, timers: seq<Id>, excused: set<Id>, t: Id)
    requires Lists(events, q) && TimedOk(events, q.common, timers, excused)
    requires t < |events| && t !in timers && events[t].common == None && events[t].internal_
    ensures Lists(events, q.(common := q.common + [[]])) && TimedOk(events, q.common + [[]], timers + [t], excused)
  {
    var q' := q.(common := q.common + [[]]);
    forall c: nat | c < |q'.common|
      ensures CommonList(events, q'.common[c], c) && ListOk(events, q'.common[c], (timers + [t])[c], excused)
    {
      if c < |q.common| {
        assert CommonList(events, q.common[c], c) && ListOk(events, q.common[c], timers[c], excused);
      }
    }
    forall k: nat | k < |events|
      ensures Placed(events[k], k, q')
    {
      assert Placed(events[k], k, q);
    }
  }

  /** What no list depends on may change freely. */
  lemma DetailChanged(events: seq<Ev>, q: Queues, id: Id, e: Ev)
    requires Lists(events, q) && id < |events|
    requires e == events[id].(inserted := e.inserted, res := e.res, when := e.when, common := e.common)
    requires e.common == events[id].common || (!e.timeout && (e.common.Some? ==> e.common.value < |q.common|))
    ensures Lists(events[id := e], q)
  {
    var events' := events[id := e];
    assert Placed(events[id], id, q);
    forall c: nat | c < |q.common|
      ensures CommonList(events', q.common[c], c)
    {
      assert CommonList(events, q.common[c], c);
    }
    forall k: nat | k < |events'|
      ensures Placed(events'[k], k, q)
    {
      assert Placed(events[k], k, q);
      if k == id && e.common.Some? {
        assert CommonList(events, q.common[e.common.value], e.common.value);
      }
    }
    forall r: nat | r < |q.active|
      ensures ActiveQueue(events', q.active[r], r)
    {
      assert ActiveQueue(events, q.active[r], r);
    }
  }

  lemma FlattenLength<T>(a: seq<seq<T>>, k: nat, v: seq<T>)
    requires k < |a|
    ensures |Flatten(a[k := v])| == |Flatten(a)| - |a[k]| + |v|
  {
    FlattenAt(a, k);
    FlattenUpdate(a, k, v);
  }

  /** struct event_base, the parts that queue events */
  class EventBase {
    var events: seq<Ev>
    var lists: Queues
    /** The internal timer of each common timeout list */
    var timers: seq<Id>
    /** The duration of each common timeout list */
    var durations: seq<Span>
    var eventCount: int
    var eventCountActive: int
    var nDeferreds: nat
    /** The event whose callback is executing */
    var running: Option<Id>
    var runningPriority: int
    var eventContinue: bool

    /** event_count counts the list memberships of events that are not internal, event_count_active the active
        queues. */
    ghost predicate Books()
      reads `events, `lists, `eventCount, `eventCountActive
    {
      && Lists(events, lists)
      && eventCount == Total(events)
      && eventCountActive == |Flatten(lists.active)| + |lists.later|
    }

    /** event_base_new: active queues for each priority, and nothing in any list */
    constructor (priorities: nat)
      ensures Valid() && events == [] && timers == [] && |lists.active| == priorities && running == None
    {
      events, timers, durations := [], [], [];
      lists := Queues(seq(priorities, _ => []), [], {}, []);
      eventCount, eventCountActive, nDeferreds := 0, 0, 0;
      running, runningPriority, eventContinue := None, -1, false;
      new;
      FlattenEmpties(lists.active);
    }

    /** event_assign or event_deferred_cb_init_: a new event, in no list */
    method Assign(pri: nat, internal_: bool, deferred: bool, persist: bool) returns (id: Id)
      requires Valid() && pri < |lists.active|
      modifies `events
      ensures Valid() && id == |old(events)|
      ensures events == old(events) + [Ev(pri, internal_, deferred, persist, false, false, false, false, {}, 0, None)]
    {
      id := |events|;
      var e := Ev(pri, internal_, deferred, persist, false, false, false, false, {}, 0, None);
      TotalMore(events, e);
      ListsMore(events, lists, e);
      TimedLonger(events, lists.common, timers, Excused(), e);
      hide Lists, TimedOk, Total;
      events := events + [e];
    }

    /** Each common timeout list has its own duration. */
    ghost predicate Durations()
      reads `timers, `durations
    {
      |durations| == |timers| && forall i, j :: 0 <= i < j < |durations| ==> durations[i] != durations[j]
    }

    /** event_base_init_common_timeout: the number of the list for a duration, which is a new one if there is room and
        need */
    method InitCommonTimeout(duration: Span) returns (r: Option<nat>)
      requires Valid() && |lists.active| > 0
      modifies `events, `lists, `timers, `durations
      ensures Valid()
      ensures var d := Normal(duration, |old(timers)|);
              if d in old(durations) || |old(timers)| == MAX_COMMON_TIMEOUTS then
                && events == old(events) && lists == old(lists) && timers == old(timers) && durations == old(durations)
                && (if d in durations then r.Some? && r.value < |durations| && durations[r.value] == d else r == None)
              else
                && r == Some(|old(timers)|) && durations == old(durations) + [d]
                && lists == old(lists).(common := old(lists).common + [[]])
                && timers == old(timers) + [|old(events)|] && |events| == |old(events)| + 1
    {
      var d := Normal(duration, |timers|);
      var i := 0;
      while i < |timers|
        invariant i <= |timers| && d !in durations[..i]
      {
        if d == durations[i] {
          return Some(i);
        }
        i := i + 1;
      }
      assert durations[..|timers|] == durations;
      if |timers| == MAX_COMMON_TIMEOUTS {
        return None;
      }
      NewList(d);
      r := Some(|timers| - 1);
    }

    method NewList(d: Span)
      requires Valid() && |lists.active| > 0 && d !in durations
      modifies `events, `lists, `timers, `durations
      ensures Valid() && durations == old(durations) + [d]
      ensures lists == old(lists).(common := old(lists).common + [[]])
      ensures timers == old(timers) + [|old(events)|] && |events| == |old(events)| + 1
    {
      var t := Assign(0, true, false, false);
      hide Total;
      ListMore(events, lists, timers, Excused(), t);
      lists := lists.(common := lists.common + [[]]);
      timers := timers + [t];
      durations := durations + [d];
    }

    /** event_queue_insert_active */
    method InsertActive(id: Id)
      requires Books() && id < |events| && !events[id].later
      modifies `events, `lists, `eventCount, `eventCountActive
      ensures Books() && events == old(events)[id := old(events)[id].(active := true)]
      ensures lists == if old(events)[id].active then old(lists) else Enqueued(old(lists), old(events)[id].pri, id)
    {
      var e := events[id];
      if e.active {
        return;
      }
      assert Placed(e, id, lists);
      var queue := lists.active[e.pri] + [id];
      assert ActiveQueue(events, lists.active[e.pri], e.pri);
      ActiveChanged(events, lists, id, queue);
      TotalUpdate(events, id, e.(active := true));
      FlattenLength(lists.active, e.pri, queue);
      hide Lists, Total;
      eventCount := eventCount + if e.internal_ then 0 else 1;
      events := events[id := e.(active := true)];
      eventCountActive := eventCountActive + 1;
      lists := lists.(active := lists.active[e.pri := queue]);
    }

    /** event_queue_remove_active */
    method RemoveActive(id: Id)
      requires Books() && id < |events| && events[id].active
      modifies `events, `lists, `eventCount, `eventCountActive
      ensures Books() && events == old(events)[id := old(events)[id].(active := false)]
      ensures var p := events[id].pri;
              && p < |old(lists).active| && id in old(lists).active[p]
              && lists == old(lists).(active := old(lists).active[p := Remove(old(lists).active[p], id)])
    {
      var e := events[id];
      assert Placed(e, id, lists);
      var queue := Remove(lists.active[e.pri], id);
      assert ActiveQueue(events, lists.active[e.pri], e.pri);
      RemoveNoDup(lists.active[e.pri], id);
      RemoveLength(lists.active[e.pri], id);
      ActiveChanged(events, lists, id, queue);
      TotalUpdate(events, id, e.(active := false));
      FlattenLength(lists.active, e.pri, queue);
      hide Lists, Total;
      eventCount := eventCount - if e.internal_ then 0 else 1;
      events := events[id := e.(active := false)];
      eventCountActive := eventCountActive - 1;
      lists := lists.(active := lists.active[e.pri := queue]);
    }

    /** event_queue_insert_active_later */
    method InsertLater(id: Id)
      requires Books() && id < |events|
      modifies `events, `lists, `eventCount, `eventCountActive
      ensures Books()
      ensures if old(events)[id].active || old(events)[id].later then events == old(events) && lists == old(lists)
              else
                && events == old(events)[id := old(events)[id].(later := true)]
                && lists == old(lists).(later := old(lists).later + [id])
    {
      var e := events[id];
      if e.later || e.active {
        return;
      }
      assert Placed(e, id, lists);
      LaterChanged(events, lists, id, lists.later + [id]);
      TotalUpdate(events, id, e.(later := true));
      hide Lists, Total;
      eventCount := eventCount + if e.internal_ then 0 else 1;
      events := events[id := e.(later := true)];
      eventCountActive := eventCountActive + 1;
      lists := lists.(later := lists.later + [id]);
    }

    /** event_queue_remove_active_later */
    method RemoveLater(id: Id)
      requires Books() && id < |events| && events[id].later
      modifies `events, `lists, `eventCount, `eventCountActive
      ensures Books() && events == old(events)[id := old(events)[id].(later := false)]
      ensures id in old(lists).later && lists == old(lists).(later := Remove(old(lists).later, id))
    {
      var e := events[id];
      assert Placed(e, id, lists);
      var queue := Remove(lists.later, id);
      RemoveNoDup(lists.later, id);
      RemoveLength(lists.later, id);
      LaterChanged(events, lists, id, queue);
      TotalUpdate(events, id, e.(later := false));
      hide Lists, Total;
      eventCount := eventCount - if e.internal_ then 0 else 1;
      events := events[id := e.(later := false)];
      eventCountActive := eventCountActive - 1;
      lists := lists.(later := queue);
    }

    /** event_queue_insert_inserted */
    method InsertInserted(id: Id)
      requires Books() && id < |events| && !events[id].inserted
      modifies `events, `eventCount
      ensures Books() && events == old(events)[id := old(events)[id].(inserted := true)]
    {
      var e := events[id];
      TotalUpdate(events, id, e.(inserted := true));
      DetailChanged(events, lists, id, e.(inserted := true));
      hide Lists, Total;
      eventCount := eventCount + if e.internal_ then 0 else 1;
      events := events[id := e.(inserted := true)];
    }

    /** event_queue_remove_inserted */
    method RemoveInserted(id: Id)
      requires Books() && id < |events| && events[id].inserted
      modifies `events, `eventCount
      ensures Books() && events == old(events)[id := old(events)[id].(inserted := false)]
    {
      var e := events[id];
      TotalUpdate(events, id, e.(inserted := false));
      DetailChanged(events, lists, id, e.(inserted := false));
      hide Lists, Total;
      eventCount := eventCount - if e.internal_ then 0 else 1;
      events := events[id := e.(inserted := false)];
    }
 
    /** insert_common_timeout_inorder: after the last event due no later, so that equal times keep their order of
        arrival */
    method InsertInOrder(list: seq<Id>, id: Id) returns (r: seq<Id>, ghost k: nat)
      requires id < |events| && Sorted(events, list)
      ensures k <= |list| && r == InsertAt(list, k, id) && Sorted(events, r)
      ensures k > 0 ==> events[list[k - 1]].when <= events[id].when
      ensures k < |list| ==> events[id].when < events[list[k]].when
    {
      var i := |list|;
      while i > 0
        invariant 0 <= i <= |list|
        invariant i < |list| ==> events[id].when < events[list[i]].when
      {
        if events[id].when >= events[list[i - 1]].when {
          break;
        }
        i := i - 1;
      }
      k := i;
      r := list[..i] + [id] + list[i..];
      InsertSorted(events, list, k, id);
    }

    /** event_queue_insert_timeout */
    method InsertTimeout(id: Id) returns (ghost k: nat)
      requires Books() && id < |events| && !events[id].timeout
      requires forall c: nat :: events[id].common == Some(c) && c < |lists.common| ==> Sorted(events, lists.common[c])
      modifies `events, `lists, `eventCount
      ensures Books() && events == old(events)[id := old(events)[id].(timeout := true)]
      ensures lists == old(lists).(heap := if events[id].common.None? then old(lists).heap + {id} else old(lists).heap,
                                   common := CommonWith(old(lists), events[id], k, id))
      ensures forall c: nat :: events[id].common == Some(c) ==>
                c < |lists.common| && k <= |old(lists).common[c]| && Sorted(events, lists.common[c])
    {
      if events[id].common.Some? {
        k := InsertCommon(id, events[id].common.value);
      } else {
        k := 0;
        TotalUpdate(events, id, events[id].(timeout := true));
        HeapChanged(events, lists, id);
        assert Placed(events[id], id, lists);
        hide Lists, Total;
        eventCount := eventCount + if events[id].internal_ then 0 else 1;
        events := events[id := events[id].(timeout := true)];
        lists := lists.(heap := lists.heap + {id});
      }
    }

    method InsertCommon(id: Id, c: nat) returns (ghost k: nat)
      requires Books() && id < |events| && !events[id].timeout && events[id].common == Some(c)
      requires c < |lists.common| ==> Sorted(events, lists.common[c])
      modifies `events, `lists, `eventCount
      ensures Books() && events == old(events)[id := old(events)[id].(timeout := true)]
      ensures c < |old(lists).common| && id !in old(lists).common[c] && k <= |old(lists).common[c]|
      ensures lists == old(lists).(common := old(lists).common[c := InsertAt(old(lists).common[c], k, id)])
      ensures Sorted(events, lists.common[c])
    {
      var e := events[id];
      assert Placed(e, id, lists);
      assert CommonList(events, lists.common[c], c);
      TotalUpdate(events, id, e.(timeout := true));
      hide Lists, Total, NoDup, InsertAt, Sorted;
      var list;
      list, k := InsertInOrder(lists.common[c], id);
      SortedSame(events, list, id, e.(timeout := true));
      InsertAtMembers(lists.common[c], k, id);
      CommonChanged(events, lists, id, list);
      lists := lists.(common := lists.common[c := list]);
      eventCount := eventCount + if e.internal_ then 0 else 1;
      events := events[id := e.(timeout := true)];
    }

    /** event_queue_remove_timeout */
    method RemoveTimeout(id: Id)
      requires Books() && id < |events| && events[id].timeout
      modifies `events, `lists, `eventCount
      ensures Books() && events == old(events)[id := old(events)[id].(timeout := false)]
      ensures lists == old(lists).(heap := old(lists).heap - {id}, common := CommonWithout(old(lists), events[id], id))
    {
      var e := events[id];
      assert Placed(e, id, lists);
      assert e.common.Some? ==> lists.heap - {id} == lists.heap;
      TotalUpdate(events, id, e.(timeout := false));
      assert Weight(e) == Weight(e.(timeout := false)) + if e.internal_ then 0 else 1;
      hide Weight, Placed;
      if e.common.Some? {
        var c := e.common.value;
        assert CommonList(events, lists.common[c], c);
        RemoveNoDup(lists.common[c], id);
        RemoveLength(lists.common[c], id);
        CommonChanged(events, lists, id, Remove(lists.common[c], id));
        hide Lists, Total;
        lists := lists.(common := lists.common[c := Remove(lists.common[c], id)]);
      } else {
        HeapChanged(events, lists, id);
        hide Lists, Total;
        lists := lists.(heap := lists.heap - {id});
      }
      eventCount := eventCount - if e.internal_ then 0 else 1;
      events := events[id := e.(timeout := false)];
    }
 
    ghost predicate Timed(excused: set<Id>)
      reads `events, `lists, `timers
    {
      TimedOk(events, lists.common, timers, excused)
    }

    /** event_del_nolock_ and event_add_nolock_ take an event out of the timeouts. */
    method DropTimeout(id: Id, ghost excused: set<Id>)
      requires Books() && Timed(excused) && id < |events| && events[id].timeout
      modifies `events, `lists, `eventCount
      ensures Books() && Timed(excused + {id}) && ((id in timers ==> id in excused) ==> Timed(excused))
      ensures events == old(events)[id := old(events)[id].(timeout := false)]
      ensures lists == old(lists).(heap := old(lists).heap - {id}, common := CommonWithout(old(lists), events[id], id))
      ensures |Flatten(lists.common)| == |Flatten(old(lists).common)| - (if events[id].common.Some? then 1 else 0)
    {
      TimeoutDropped(events, lists, timers, excused, id);
      assert id in excused ==> excused + {id} == excused;
      hide TimedOk, Lists, Flatten, Total, Remove;
      RemoveTimeout(id);
    }
 
    /** The time of an event is set while it waits for none. */
    method Retime(id: Id, when: int, common: Option<nat>, ghost excused: set<Id>)
      requires Books() && Timed(excused) && id < |events| && !events[id].timeout
      requires (id in timers ==> id in excused && common == None) && (common.Some? ==> common.value < |lists.common|)
      modifies `events
      ensures Books() && Timed(excused) && events == old(events)[id := old(events)[id].(when := when, common := common)]
    {
      ghost var e := events[id].(when := when, common := common);
      assert Weight(e) == Weight(events[id]);
      hide TimedOk, Lists, Total, Flatten, Weight;
      NotInCommon(events, lists, id);
      DetailChanged(events, lists, id, e);
      TotalUpdate(events, id, e);
      TimedRetime(events, lists.common, timers, excused, id, e);
      events := events[id := events[id].(when := when, common := common)];
    }

    method EnterTimeout(id: Id, ghost excused: set<Id>)
      requires Books() && Timed(excused) && id < |events| && !events[id].timeout && (id in timers ==> id in excused)
      modifies `events, `lists, `eventCount
      ensures Books() && events == old(events)[id := old(events)[id].(timeout := true)]
      ensures Timed(Newly(lists.common, timers, excused, id, events[id]))
      ensures lists.active == old(lists).active && lists.later == old(lists).later
      ensures |lists.common| == |old(lists).common|
      ensures events[id].common.None? ==> lists.common == old(lists).common && lists.heap == old(lists).heap + {id}
      ensures events[id].common.Some? ==> |Flatten(lists.common)| == |Flatten(old(lists).common)| + 1
    {
      assert Placed(events[id], id, lists);
      if events[id].common.Some? {
        assert ListOk(events, lists.common[events[id].common.value], timers[events[id].common.value], excused);
      }
      hide TimedOk, Lists, Total, Flatten, Sorted;
      ghost var k := InsertTimeout(id);
      TimeoutAdded(old(events), old(lists), timers, excused, id, k);
    }

    /** An active event, which is no timer unless it is excused, leaves its active queue. */
    method Deactivate(id: Id, ghost excused: set<Id>)
      requires Books() && Timed(excused) && id < |events| && events[id].active && (id in timers ==> id in excused)
      modifies `events, `lists, `eventCount, `eventCountActive
      ensures Books() && Timed(excused) && events == old(events)[id := old(events)[id].(active := false)]
      ensures var p := events[id].pri;
              && p < |old(lists).active| && id in old(lists).active[p]
              && lists == old(lists).(active := old(lists).active[p := Remove(old(lists).active[p], id)])
      ensures NoMore(old(lists), lists)
    {
      RemovedNoMore(events, lists, id);
      TimedUpdate(events, lists.common, timers, excused, id, events[id].(active := false));
      hide TimedOk, Lists, Total, Flatten, Remove, NoMore;
      RemoveActive(id);
    }

    method Withdraw(id: Id, ghost excused: set<Id>)
      requires Books() && Timed(excused) && id < |events| && (id in timers ==> id in excused)
      modifies `events, `lists, `eventCount, `eventCountActive
      ensures Books() && Timed(excused) && NoMore(old(lists), lists)
      ensures events == old(events)[id := Withdrawn(old(events)[id])]
      ensures lists.later == old(lists).later && |lists.common| == |old(lists).common|
      ensures |lists.active| == |old(lists).active|
      ensures events[id].common == None ==> lists.common == old(lists).common
    {
      ghost var e := events[id];
      Overwritten(events, id, e.(timeout := false), Withdrawn(e));
      hide TimedOk, Lists, Total, Flatten, Remove, NoMore;
      LeaveTimeout(id, excused);
      ghost var q := lists;
      NoMoreSelf(q);
      if events[id].active && TIMEOUT in events[id].res {
        Deactivate(id, excused);
      }
      NoMoreAgain(old(lists), q, lists);
    }

    /** The part of event_add_nolock_ that sets the timeout: it leaves any list it waits in, is no longer active because
        of an earlier timeout, and enters the list of its new time. */
    method AddTimeout(id: Id, when: int, common: Option<nat>, ghost excused: set<Id>)
      requires Books() && Timed(excused) && id < |events|
      requires (id in timers ==> id in excused && common == None) && (common.Some? ==> common.value < |lists.common|)
      modifies `events, `lists, `eventCount, `eventCountActive
      ensures Books() && events == old(events)[id := Waiting(old(events)[id], when, common)]
      ensures Timed(Newly(lists.common, timers, excused, id, events[id]))
      ensures lists.later == old(lists).later && |lists.common| == |old(lists).common|
      ensures |lists.active| == |old(lists).active|
      ensures common == old(events)[id].common == None ==>
          lists.common == old(lists).common && NoMore(old(lists), lists)
    {
      ghost var e := events[id];
      Overwritten(events, id, Withdrawn(e), Withdrawn(e).(when := when, common := common));
      Overwritten(events, id, Withdrawn(e).(when := when, common := common), Waiting(e, when, common));
      hide TimedOk, Lists, Total, Flatten, NoMore;
      Withdraw(id, excused);
      ghost var q := lists;
      Retime(id, when, common, excused);
      EnterTimeout(id, excused);
      if common == None {
        NoMoreHeap(q, lists);
        NoMoreAgain(old(lists), q, lists);
      }
    }

    function Excused(): set<Id>
      reads `running
    {
      if running.Some? then {running.value} else {}
    }

    ghost predicate Valid()
      reads this
    {
      Books() && Timed(Excused()) && Durations()
    }

    /** common_timeout_schedule: the timer of a list waits for the time of the list's first event. */
    method CommonTimeoutSchedule(c: nat, ghost excused: set<Id>)
      requires Books() && c < |lists.common| && |timers| == |lists.common| && timers[c] < |events|
      requires Timed(excused) && timers[c] in excused && lists.common[c] != [] && lists.common[c][0] < |events|
      modifies `events, `lists, `eventCount, `eventCountActive
      ensures Books() && Timed(excused - {timers[c]})
      ensures events == old(events)[timers[c] := Waiting(old(events)[timers[c]],
          old(events)[old(lists).common[c][0]].when, None)]
      ensures lists.later == old(lists).later && lists.common == old(lists).common && NoMore(old(lists), lists)
    {
      var t := timers[c];
      assert ListOk(events, lists.common[c], t, excused);
      assert t in timers;
      hide TimedOk, Lists, Total, Flatten, NoMore;
      AddTimeout(t, events[lists.common[c][0]].when, None, excused);
      TimedScheduled(events, lists.common, timers, excused, c);
    }

    /** event_add_nolock_, given what evmap_io_add_ or evmap_signal_add_ returns and the time read */
    method AddNolock(id: Id, wantsIo: bool, mapped: int, tv: Option<Timeval>, absolute: bool, now: int)
        returns (res: int)
      requires Valid() && id < |events| && id !in timers && -1 <= mapped <= 1
      requires tv.Some? && tv.value.common.Some? ==> tv.value.common.value < |lists.common|
      modifies `events, `lists, `eventCount, `eventCountActive
      ensures Valid()
      ensures res == if wantsIo && old(Idle(id)) && mapped == -1 then -1 else 0
      ensures |events| == |old(events)| && forall k :: 0 <= k < |events| && k != id && k !in timers ==>
          events[k] == old(events)[k]
      ensures res == -1 ==> events == old(events) && lists == old(lists)
      ensures res == 0 ==>
                events[id] ==
                var e := if wantsIo && old(Idle(id)) then old(events)[id].(inserted := true) else old(events)[id];
                match tv
                case None => e
                case Some(t) => Waiting(e, if absolute then t.usec else now + t.usec, t.common)
    {
      res := 0;
      if wantsIo && !events[id].inserted && !events[id].active && !events[id].later {
        res := mapped;
        if res != -1 {
          TimedUpdate(events, lists.common, timers, Excused(), id, events[id].(inserted := true));
          InsertInserted(id);
        }
        if res == 1 {
          res := 0;
        }
      }
      if res != -1 && tv.Some? {
        SetTimeout(id, if absolute then tv.value.usec else now + tv.value.usec, tv.value.common);
      }
    }

    lemma InItsList(id: Id, c: nat)
      requires id < |events| && Books() && Timed(Newly(lists.common, timers, Excused(), id, events[id]))
      requires events[id].timeout && events[id].common == Some(c)
      ensures c < |lists.common| == |timers| && lists.common[c] != [] && lists.common[c][0] < |events|
      ensures timers[c] < |events|
      ensures Newly(lists.common, timers, Excused(), id, events[id])
              == if lists.common[c][0] == id then Excused() + {timers[c]} else Excused()
      ensures id !in timers ==> timers[c] != id
    {
      assert Placed(events[id], id, lists);
      assert ListOk(events, lists.common[c], timers[c], Newly(lists.common, timers, Excused(), id, events[id]));
    }

    /** A new timeout, and a new time for the timer of a common timeout list if it is the first there */
    method SetTimeout(id: Id, when: int, common: Option<nat>)
      requires Valid() && id < |events| && id !in timers && (common.Some? ==> common.value < |lists.common|)
      modifies `events, `lists, `eventCount, `eventCountActive
      ensures Valid() && |events| == |old(events)| && events[id] == Waiting(old(events)[id], when, common)
      ensures forall k :: 0 <= k < |events| && k != id && k !in timers ==> events[k] == old(events)[k]
    {
      hide TimedOk, Lists, Total, Flatten, NoMore;
      AddTimeout(id, when, common, Excused());
      if common.Some? {
        var c := common.value;
        InItsList(id, c);
        hide Newly;
        if lists.common[c][0] == id {
          CommonTimeoutSchedule(c, Excused() + {timers[c]});
          TimedMore(events, lists.common, timers, Excused() + {timers[c]} - {timers[c]}, Excused());
        }
      }
    }

    /** event_callback_activate_nolock_ */
    method CallbackActivate(id: Id, ghost excused: set<Id>) returns (r: int)
      requires Books() && Timed(excused) && id < |events|
      modifies `events, `lists, `eventCount, `eventCountActive
      ensures Books() && Timed(excused - {id})
      ensures events == old(events)[id := old(events)[id].(active := true, later := false)]
      ensures r == if old(events)[id].active || old(events)[id].later then 0 else 1
      ensures lists == WithActive(old(lists), old(events)[id], id)
    {
      assert Placed(events[id], id, lists);
      TimedActive(events, lists.common, timers, excused, id, events[id].(active := true, later := false));
      ghost var e := events[id];
      Overwritten(events, id, e.(active := true, later := false), e);
      Overwritten(events, id, e.(later := false), e.(active := true, later := false));
      hide TimedOk, Lists, Total, Flatten, Remove, Enqueued;
      if events[id].active {
        return 0;
      }
      r := 1;
      if events[id].later {
        RemoveLater(id);
        r := 0;
      }
      InsertActive(id);
    }

    /** event_callback_activate_later_nolock_ */
    method CallbackActivateLater(id: Id) returns (r: int)
      requires Valid() && id < |events|
      modifies `events, `lists, `eventCount, `eventCountActive
      ensures Valid() && r == if old(events)[id].active || old(events)[id].later then 0 else 1
      ensures events == old(events)[id := old(events)[id].(later := !old(events)[id].active)]
      ensures lists == if r == 1 then old(lists).(later := old(lists).later + [id]) else old(lists)
    {
      if events[id].active || events[id].later {
        assert Placed(events[id], id, lists);
        return 0;
      }
      TimedUpdateSame(events, lists.common, timers, Excused(), id, events[id].(later := true));
      hide TimedOk, Lists, Total, Flatten;
      InsertLater(id);
      r := 1;
    }

    /** event_active_nolock_ */
    method ActiveNolock(id: Id, res: set<Reason>, ghost excused: set<Id>)
      requires Books() && Timed(excused) && id < |events|
      modifies `events, `lists, `eventCount, `eventCountActive, `eventContinue
      ensures Books() && Timed(excused - {id}) && events == old(events)[id := Activated(old(events)[id], res)]
      ensures lists == WithActive(old(lists), old(events)[id], id)
      ensures eventContinue == (old(eventContinue) || (!old(events)[id].active && events[id].pri < runningPriority))
    {
      hide TimedOk, Lists, Total, Flatten, Remove, Enqueued, Reasons;
      var e := events[id];
      Overwritten(events, id, e.(res := Reasons(e, res)), Activated(e, res));
      Annotate(id, Reasons(e, res), excused);
      if !events[id].active && events[id].pri < runningPriority {
        eventContinue := true;
      }
      var r := CallbackActivate(id, excused);
    }

    method Annotate(id: Id, res: set<Reason>, ghost excused: set<Id>)
      requires Books() && Timed(excused) && id < |events|
      modifies `events
      ensures Books() && Timed(excused) && events == old(events)[id := old(events)[id].(res := res)]
    {
      TimedUpdateSame(events, lists.common, timers, excused, id, events[id].(res := res));
      DetailChanged(events, lists, id, events[id].(res := res));
      TotalUpdate(events, id, events[id].(res := res));
      hide TimedOk, Lists, Total, Flatten;
      events := events[id := events[id].(res := res)];
    }

    /** event_callback_cancel_nolock_: an event is deleted, any other callback leaves its queue. */
    method CallbackCancel(id: Id, unmapped: int) returns (r: int)
      requires Valid() && id < |events| && id !in timers && -1 <= unmapped <= 1
      modifies `events, `lists, `eventCount, `eventCountActive
      ensures Valid()
      ensures old(events)[id].deferred ==>
                && r == 0 && events == old(events)[id := old(events)[id].(active := false, later := false)]
                && lists == WithoutActive(old(lists), old(events)[id], id)
      ensures !old(events)[id].deferred ==>
                && r == (if old(events)[id].inserted && unmapped == -1 then -1 else 0)
                && events == old(events)[id := Deleted(old(events)[id])]
                && lists == WithoutEvent(old(lists), old(events)[id], id)
    {
      hide TimedOk, Lists, Total, Flatten, WithoutActive, WithoutEvent;
      if !events[id].deferred {
        r := DelNolock(id, unmapped, Excused());
      } else {
        LeaveActive(id, Excused());
        r := 0;
      }
    }

    /** event_deferred_cb_schedule_: beyond 32 in one pass of the loop, callbacks wait for the next pass. */
    method DeferredSchedule(id: Id) returns (r: int)
      requires Valid() && id < |events|
      modifies `events, `lists, `eventCount, `eventCountActive, `nDeferreds
      ensures Valid() && r == if old(events)[id].active || old(events)[id].later then 0 else 1
      ensures nDeferreds == old(nDeferreds) + if old(nDeferreds) > MAX_DEFERREDS_QUEUED then 0 else r
      ensures old(nDeferreds) > MAX_DEFERREDS_QUEUED ==>
                && events == old(events)[id := old(events)[id].(later := !old(events)[id].active)]
                && lists == if r == 1 then old(lists).(later := old(lists).later + [id]) else old(lists)
      ensures old(nDeferreds) <= MAX_DEFERREDS_QUEUED ==>
                && events == old(events)[id := old(events)[id].(active := true, later := false)]
                && lists == WithActive(old(lists), old(events)[id], id)
    {
      hide TimedOk, Lists, Total, Flatten, Remove, WithActive;
      if nDeferreds > MAX_DEFERREDS_QUEUED {
        r := CallbackActivateLater(id);
      } else {
        r := CallbackActivate(id, Excused());
        TimedMore(events, lists.common, timers, Excused() - {id}, Excused());
        if r != 0 {
          nDeferreds := nDeferreds + 1;
        }
      }
    }

    /** event_del_nolock_, given what evmap_io_del_ or evmap_signal_del_ returns */
    method DelNolock(id: Id, unmapped: int, ghost excused: set<Id>) returns (res: int)
      requires Books() && Timed(excused) && id < |events| && -1 <= unmapped <= 1
      modifies `events, `lists, `eventCount, `eventCountActive
      ensures Books() && Timed(excused + {id}) && ((id in timers ==> id in excused) ==> Timed(excused))
      ensures events == old(events)[id := Deleted(old(events)[id])]
      ensures res == if old(events)[id].inserted && unmapped == -1 then -1 else 0
      ensures lists == WithoutEvent(old(lists), old(events)[id], id)
    {
      ghost var ex := if id in timers then excused + {id} else excused;
      assert id in excused ==> excused + {id} == excused;
      TimedMore(events, lists.common, timers, excused, ex);
      ghost var e := events[id];
      Overwritten(events, id, e.(timeout := false), e.(timeout := false, active := false, later := false));
      Overwritten(events, id, e.(timeout := false, active := false, later := false), Deleted(e));
      hide TimedOk, Lists, Total, Flatten, WithoutTimeout, WithoutActive, NoMore;
      LeaveTimeout(id, ex);
      LeaveActive(id, ex);
      res := 0;
      if events[id].inserted {
        LeaveMap(id, ex);
        res := if unmapped == 1 then 0 else unmapped;
      }
      TimedMore(events, lists.common, timers, ex, excused + {id});
    }

    method LeaveTimeout(id: Id, ghost excused: set<Id>)
      requires Books() && Timed(excused) && id < |events| && (id in timers ==> id in excused)
      modifies `events, `lists, `eventCount
      ensures Books() && Timed(excused) && events == old(events)[id := old(events)[id].(timeout := false)]
      ensures lists == WithoutTimeout(old(lists), old(events)[id], id) && NoMore(old(lists), lists)
    {
      RemovedNoMore(events, lists, id);
      hide TimedOk, Lists, Total, Flatten, Remove, NoMore;
      if events[id].timeout {
        DropTimeout(id, excused);
      }
    }

    method LeaveActive(id: Id, ghost excused: set<Id>)
      requires Books() && Timed(excused) && id < |events| && (id in timers ==> id in excused)
      modifies `events, `lists, `eventCount, `eventCountActive
      ensures Books() && Timed(excused)
      ensures events == old(events)[id := old(events)[id].(active := false, later := false)]
      ensures lists == WithoutActive(old(lists), old(events)[id], id)
    {
      assert Placed(events[id], id, lists);
      hide TimedOk, Lists, Total, Flatten, Remove;
      if events[id].active {
        Deactivate(id, excused);
      } else if events[id].later {
        LeaveLater(id, excused);
      }
    }

    method LeaveLater(id: Id, ghost excused: set<Id>)
      requires Books() && Timed(excused) && id < |events| && events[id].later
      modifies `events, `lists, `eventCount, `eventCountActive
      ensures Books() && Timed(excused) && events == old(events)[id := old(events)[id].(later := false)]
      ensures id in old(lists).later && lists == old(lists).(later := Remove(old(lists).later, id))
    {
      TimedUpdateSame(events, lists.common, timers, excused, id, events[id].(later := false));
      hide TimedOk, Lists, Total, Flatten;
      RemoveLater(id);
    }

    method LeaveMap(id: Id, ghost excused: set<Id>)
      requires Books() && Timed(excused) && id < |events| && events[id].inserted
      modifies `events, `eventCount
      ensures Books() && Timed(excused) && events == old(events)[id := old(events)[id].(inserted := false)]
    {
      TimedUpdateSame(events, lists.common, timers, excused, id, events[id].(inserted := false));
      hide TimedOk, Lists, Total, Flatten;
      RemoveInserted(id);
    }

    /** An event whose time has come leaves all lists and becomes active. */
    method Fire(id: Id, ghost excused: set<Id>)
      requires Books() && Timed(excused) && id < |events|
      modifies `events, `lists, `eventCount, `eventCountActive, `eventContinue
      ensures Books() && Timed(excused) && events == old(events)[id := Fired(old(events)[id])]
      ensures lists == FiredLists(old(lists), old(events)[id], id)
    {
      ghost var e := events[id];
      Overwritten(events, id, Deleted(e), Fired(e));
      hide TimedOk, Lists, Total, Flatten, Remove, WithActive, WithoutEvent;
      var r := DelNolock(id, 0, excused);
      ActiveNolock(id, {TIMEOUT}, excused + {id});
      TimedMore(events, lists.common, timers, excused + {id} - {id}, excused);
    }

    /** timeout_process */
    method TimeoutProcess(now: int)
      requires Valid()
      modifies `events, `lists, `eventCount, `eventCountActive, `eventContinue
      ensures Valid() && |events| == |old(events)|
      ensures forall id :: 0 <= id < |events| ==>
                events[id] == if id in old(lists).heap && old(events)[id].when <= now then Fired(old(events)[id])
                    else old(events)[id]
      ensures forall id :: id in lists.heap <==> id in old(lists).heap && id < |events| && old(events)[id].when > now
      ensures lists.common == old(lists).common
    {
      hide TimedOk, Lists, Total, Flatten, FiredLists;
      while lists.heap != {}
        modifies `events, `lists, `eventCount, `eventCountActive, `eventContinue
        invariant Valid() && |events| == |old(events)|
        invariant lists.heap <= old(lists).heap && lists.common == old(lists).common
        invariant forall id :: 0 <= id < |events| ==>
                    events[id] == if id in old(lists).heap - lists.heap then Fired(old(events)[id]) else old(events)[id]
        invariant forall id :: id in old(lists).heap - lists.heap ==> id < |events| && old(events)[id].when <= now
        decreases lists.heap
      {
        var ev := HeapTop();
        if events[ev].when > now {
          break;
        }
        assert events[ev] == old(events)[ev];
        FiredFromHeap(ev);
        ghost var heap := lists.heap;
        Fire(ev, Excused());
        assert forall id :: id in old(lists).heap - lists.heap <==> id == ev || id in old(lists).heap - heap;
      }
      HeapBounds();
    }

    lemma HeapBounds()
      requires Books()
      ensures forall id :: id in lists.heap ==> id < |events|
    {
    }

    lemma FiredFromHeap(id: Id)
      requires Books() && id in lists.heap && id < |events|
      ensures FiredLists(lists, events[id], id).heap == lists.heap - {id}
      ensures FiredLists(lists, events[id], id).common == lists.common
    {
      assert Placed(events[id], id, lists);
    }

    /** common_timeout_callback, run for the timer of list c: the due events fire, and the timer is set for the first
        other. */
    method CommonTimeoutCallback(c: nat, now: int) returns (ghost due: nat)
      requires Valid() && c < |lists.common| && |timers| == |lists.common| && running == Some(timers[c])
      modifies `events, `lists, `eventCount, `eventCountActive, `eventContinue
      ensures Books() && Timed({}) && |events| == |old(events)|
      ensures due <= |old(lists).common[c]| && lists.common == old(lists).common[c := old(lists).common[c][due..]]
      ensures forall i :: 0 <= i < |old(lists).common[c]| ==> old(lists).common[c][i] < |events|
      ensures forall i :: 0 <= i < |old(lists).common[c]| ==>
          (i < due <==> old(events)[old(lists).common[c][i]].when <= now)
      ensures forall id :: 0 <= id < |events| && id != timers[c] ==>
          events[id] == FireAll(old(events), old(lists).common[c][..due])[id]
      ensures NoMore(old(lists), lists) && SameSort(old(events), events)
    {
      due := FireDue(c, now);
      FireAllSort(old(events), old(lists).common[c][..due]);
      hide Books, Timed, Fired, FireAll, NoMore, SameSort;
      ghost var q, es := lists, events;
      Reschedule(c);
      NoMoreAgain(old(lists), q, lists);
      SortAgain(old(events), es, events);
    }

    /** The timer whose callback runs is set for the first event of its list, if there is any. */
    method Reschedule(c: nat)
      requires Valid() && c < |lists.common| && |timers| == |lists.common| && running == Some(timers[c])
      modifies `events, `lists, `eventCount, `eventCountActive
      ensures Books() && Timed({}) && |events| == |old(events)| && lists.common == old(lists).common
      ensures NoMore(old(lists), lists) && SameSort(old(events), events)
      ensures forall id :: 0 <= id < |events| && id != timers[c] ==> events[id] == old(events)[id]
    {
      ListFacts(c);
      hide TimedOk, Lists, Total, Flatten, NoDup, NoMore, SameSort;
      NoMoreSelf(lists);
      assert Excused() - {timers[c]} == {};
      SortSelf(events);
      if lists.common[c] != [] {
        SortUpdate(events, timers[c], Waiting(events[timers[c]], events[lists.common[c][0]].when, None));
        CommonTimeoutSchedule(c, Excused());
      } else {
        TimedScheduled(events, lists.common, timers, Excused(), c);
      }
    }

    method FireFirst(c: nat) returns (ev: Id)
      requires Valid() && c < |lists.common| && lists.common[c] != [] && lists.common[c][0] < |events|
      modifies `events, `lists, `eventCount, `eventCountActive, `eventContinue
      ensures Valid() && ev == old(lists).common[c][0]
      ensures events == old(events)[ev := Fired(old(events)[ev])]
      ensures lists.common == old(lists).common[c := old(lists).common[c][1..]] && NoMore(old(lists), lists)
    {
      ev := lists.common[c][0];
      FiredFromCommon(c);
      FirstInCommon(c);
      FiredNoMore(events, lists, ev);
      hide TimedOk, Lists, Total, Flatten, FiredLists, Fired, NoMore;
      Fire(ev, Excused());
    }

    lemma FirstInCommon(c: nat)
      requires Books() && c < |lists.common| && lists.common[c] != []
      ensures var id := lists.common[c][0]; id < |events| && events[id].timeout && events[id].common == Some(c)
    {
      var id := lists.common[c][0];
      assert CommonList(events, lists.common[c], c);
      assert id in lists.common[c];
      assert Placed(events[id], id, lists);
    }

    /** The loop of common_timeout_callback */
    method FireDue(c: nat, now: int) returns (ghost due: nat)
      requires Valid() && c < |lists.common| && |timers| == |lists.common|
      modifies `events, `lists, `eventCount, `eventCountActive, `eventContinue
      ensures Valid() && |events| == |old(events)|
      ensures due <= |old(lists).common[c]| && lists.common == old(lists).common[c := old(lists).common[c][due..]]
      ensures forall i :: 0 <= i < |old(lists).common[c]| ==> old(lists).common[c][i] < |events|
      ensures forall i :: 0 <= i < |old(lists).common[c]| ==>
          (i < due <==> old(events)[old(lists).common[c][i]].when <= now)
      ensures events == FireAll(old(events), old(lists).common[c][..due])
      ensures NoMore(old(lists), lists)
    {
      ghost var list := lists.common[c];
      ListFacts(c);
      NoMoreSelf(lists);
      hide Valid, Fired, NoDup, FireAll, Sorted, NoMore;
      due := 0;
      FireAllNone(events);
      Overwritten(lists.common, c, list, list);
      assert list[..0] == [] && list[0..] == list;
      while lists.common[c] != [] && events[lists.common[c][0]].when <= now
        modifies `events, `lists, `eventCount, `eventCountActive, `eventContinue
        invariant Valid() && |events| == |old(events)| && due <= |list|
        invariant lists.common == old(lists).common[c := list[due..]]
        invariant due > 0 ==> old(events)[list[due - 1]].when <= now
        invariant events == FireAll(old(events), list[..due]) && NoMore(old(lists), lists)
        decreases |list| - due
      {
        FireAllMore(old(events), list, due);
        Overwritten(old(lists).common, c, list[due..], list[due + 1..]);
        assert list[due..][1..] == list[due + 1..];
        ghost var q := lists;
        var ev := FireFirst(c);
        NoMoreAgain(old(lists), q, lists);
        due := due + 1;
      }
      if due < |list| {
        FireAllMore(old(events), list, due);
      }
      DuePrefix(old(events), list, due, now);
    }

    lemma ListFacts(c: nat)
      requires Valid() && c < |lists.common| && |timers| == |lists.common|
      ensures forall i :: 0 <= i < |lists.common[c]| ==> lists.common[c][i] < |events|
      ensures Sorted(events, lists.common[c])
      ensures NoDup(lists.common[c])
      ensures timers[c] < |events| && timers[c] !in lists.common[c]
    {
      assert ListOk(events, lists.common[c], timers[c], Excused());
      assert CommonList(events, lists.common[c], c);
    }

    lemma FiredFromCommon(c: nat)
      requires Books() && c < |lists.common| && lists.common[c] != []
      ensures lists.common[c][0] < |events|
      ensures FiredLists(lists, events[lists.common[c][0]], lists.common[c][0]).common ==
          lists.common[c := lists.common[c][1..]]
    {
      var id := lists.common[c][0];
      assert CommonList(events, lists.common[c], c);
      assert id in lists.common[c];
      assert Placed(events[id], id, lists);
    }

    /** One turn of the loop of event_queue_make_later_events_active */
    method MoveFirstLater()
      requires Valid() && lists.later != []
      modifies `events, `lists, `nDeferreds
      ensures Valid() && old(lists).later[0] < |old(events)|
      ensures var id := old(lists).later[0];
              && events == old(events)[id := old(events)[id].(later := false, active := true)]
              && lists == Enqueued(old(lists).(later := old(lists).later[1..]), events[id].pri, id)
              && events[id].pri < |lists.active|
              && nDeferreds == old(nDeferreds) + Bit(events[id].deferred)
    {
      var id := lists.later[0];
      LaterMoves(id);
      var e := events[id];
      hide TimedOk, Lists, Total, Flatten, Enqueued;
      events := events[id := e.(later := false, active := true)];
      lists := Enqueued(lists.(later := lists.later[1..]), e.pri, id);
      nDeferreds := nDeferreds + Bit(e.deferred);
    }

    lemma LaterMoves(id: Id)
      requires Valid() && lists.later != [] && lists.later[0] == id
      ensures id < |events| && events[id].pri < |lists.active|
      ensures var events', lists' := events[id := events[id].(later := false, active := true)],
                                     Enqueued(lists.(later := lists.later[1..]), events[id].pri, id);
              && Lists(events', lists') && Total(events') == Total(events)
              && |Flatten(lists'.active)| + |lists'.later| == |Flatten(lists.active)| + |lists.later|
              && TimedOk(events', lists'.common, timers, Excused()) && |lists'.active| == |lists.active|
    {
      assert id in lists.later;
      assert Placed(events[id], id, lists);
      var e := events[id];
      var e' := e.(later := false, active := true);
      LaterToActive(events, lists, id);
      TotalUpdate(events, id, e');
      TimedActive(events, lists.common, timers, Excused(), id, e');
      TimedMore(events[id := e'], lists.common, timers, Excused() - {id}, Excused());
      FlattenLength(lists.active, e.pri, lists.active[e.pri] + [id]);
    }

    /** event_queue_make_later_events_active: every postponed callback joins the active queue of its priority,
        in order. */
    method MakeLaterActive()
      requires Valid()
      modifies `events, `lists, `nDeferreds
      ensures Valid() && lists.later == [] && lists.heap == old(lists).heap && lists.common == old(lists).common
      ensures |events| == |old(events)| && |lists.active| == |old(lists).active|
      ensures forall p :: 0 <= p < |lists.active| ==>
                lists.active[p] == old(lists).active[p] + OfPriority(old(events), old(lists).later, p)
      ensures nDeferreds == old(nDeferreds) + Deferreds(old(events), old(lists).later)
    {
      ghost var later := lists.later;
      ghost var n := 0;
      NoneLater(events);
      hide Books, Timed, OfPriority, Deferreds;
      while lists.later != []
        modifies `events, `lists, `nDeferreds
        invariant Valid() && n <= |later| && lists.later == later[n..]
        invariant lists.heap == old(lists).heap && lists.common == old(lists).common
        invariant SameSort(old(events), events) && |lists.active| == |old(lists).active|
        invariant forall p :: 0 <= p < |lists.active| ==>
                    lists.active[p] + OfPriority(old(events), later[n..], p) ==
                        old(lists).active[p] + OfPriority(old(events), later, p)
        invariant nDeferreds + Deferreds(old(events), later[n..]) == old(nDeferreds) + Deferreds(old(events), later)
        decreases |lists.later|
      {
        MoveFirstLater();
        FirstLater(old(events), later[n..]);
        assert later[n..][1..] == later[n + 1..];
        n := n + 1;
      }
    }

    /** What a pass over the active queue of one priority can still have to run */
    ghost function Ahead(p: nat): nat
      reads `lists, `nDeferreds
      requires p < |lists.active|
    {
      |lists.active[p]| + |Flatten(lists.common)| + Budget()
    }

    /** How many more deferred callbacks may become active in this pass of the loop */
    ghost function Budget(): nat
      reads `nDeferreds
    {
      if nDeferreds > MAX_DEFERREDS_QUEUED then 0 else MAX_DEFERREDS_QUEUED + 1 - nDeferreds
    }

    /** How many callbacks of a set, which is that of the deferred ones, the pass can still have to run */
    ghost function Reserve(p: nat, d: set<Id>): nat
      reads `lists, `nDeferreds
      requires p < |lists.active|
    {
      Among(lists.active[p], d) + Budget()
    }

    /** A pass postpones callbacks only when its budget for deferred callbacks is spent. */
    ghost predicate Budgeted()
      reads this
    {
      lists.later == [] || nDeferreds > MAX_DEFERREDS_QUEUED
    }

    /** The first callback of an active queue is taken out and becomes the one that runs. */
    method TakeFirst(p: nat, ghost d: set<Id>) returns (id: Id)
      requires Valid() && running == None && p < |lists.active| && lists.active[p] != [] && Budgeted()
      modifies `events, `lists, `eventCount, `eventCountActive, `running
      ensures Valid() && running == Some(id) && id < |events| && Budgeted() && |lists.active| == |old(lists).active|
      ensures id == old(lists).active[p][0] && !events[id].active
      ensures Ahead(p) <= old(Ahead(p)) - 1
      ensures SameSort(old(events), events) && (NoneIn(old(lists).common, d) ==> NoneIn(lists.common, d))
      ensures Reserve(p, d) == old(Reserve(p, d)) - Bit(id in d)
    {
      hide Books, Timed;
      id := lists.active[p][0];
      FirstActive(p);
      if !events[id].deferred && !events[id].persist {
        TakeEvent(id, p, d);
      } else {
        TakeCallback(id, p, d);
      }
      running := Some(id);
    }

    method TakeEvent(id: Id, p: nat, ghost d: set<Id>)
      requires Books() && Timed({id}) && id < |events| && events[id].active && events[id].pri == p < |lists.active|
      modifies `events, `lists, `eventCount, `eventCountActive
      ensures Books() && Timed({id}) && |events| == |old(events)| && |lists.active| == |old(lists).active|
      ensures !events[id].active && SameSort(old(events), events)
      ensures Ahead(p) <= old(Ahead(p)) - 1 && (old(lists).later == [] ==> lists.later == [])
      ensures NoneIn(old(lists).common, d) ==> NoneIn(lists.common, d)
      ensures Reserve(p, d) == old(Reserve(p, d)) - Bit(id in d)
    {
      RemovedNoMore(events, lists, id);
      RemovedFewer(events, lists, id, d);
      WithoutActiveList(lists, events[id], id);
      assert {id} + {id} == {id};
      SortUpdate(events, id, Deleted(events[id]));
      hide TimedOk, Lists, Total, Flatten, Remove, WithoutEvent, Among, NoneIn, NoMore, SameSort;
      var r := DelNolock(id, 0, {id});
    }

    method TakeCallback(id: Id, p: nat, ghost d: set<Id>)
      requires Books() && Timed({id}) && id < |events| && events[id].active && events[id].pri == p < |lists.active|
      modifies `events, `lists, `eventCount, `eventCountActive
      ensures Books() && Timed({id}) && |events| == |old(events)| && |lists.active| == |old(lists).active|
      ensures !events[id].active && SameSort(old(events), events)
      ensures Ahead(p) <= old(Ahead(p)) - 1 && (old(lists).later == [] ==> lists.later == [])
      ensures NoneIn(old(lists).common, d) ==> NoneIn(lists.common, d)
      ensures Reserve(p, d) == old(Reserve(p, d)) - Bit(id in d)
    {
      assert Placed(events[id], id, lists);
      RemoveLength(lists.active[p], id);
      RemovedFewer(events, lists, id, d);
      SortUpdate(events, id, events[id].(active := false));
      hide TimedOk, Lists, Total, Flatten, Remove, NoMore, Among, NoneIn, SameSort;
      Deactivate(id, {id});
    }

    lemma FirstActive(p: nat)
      requires Books() && Timed({}) && p < |lists.active| && lists.active[p] != []
      ensures var id := lists.active[p][0]; Timed({id}) && id < |events| && events[id].active && events[id].pri == p
    {
      TimedMore(events, lists.common, timers, {}, {lists.active[p][0]});
      var id := lists.active[p][0];
      assert ActiveQueue(events, lists.active[p], p);
      assert id in lists.active[p];
      assert Placed(events[id], id, lists);
    }

    /** A deferred callback schedules deferred callbacks, itself among them or not. */
    method RunDeferred(ids: seq<Id>, p: nat, ghost d: set<Id>)
      requires Valid() && p < |lists.active| && Budgeted()
      modifies `events, `lists, `eventCount, `eventCountActive, `nDeferreds
      ensures Valid() && Budgeted() && |events| == |old(events)| && |lists.active| == |old(lists).active|
      ensures Ahead(p) <= old(Ahead(p)) && Reserve(p, d) <= old(Reserve(p, d))
      ensures SameSort(old(events), events) && lists.common == old(lists).common
    {
      hide Books, Timed, Among;
      var i := 0;
      while i < |ids|
        modifies `events, `lists, `eventCount, `eventCountActive, `nDeferreds
        invariant i <= |ids|
        invariant Valid() && Budgeted() && |events| == |old(events)| && |lists.active| == |old(lists).active|
        invariant Ahead(p) <= old(Ahead(p)) && Reserve(p, d) <= old(Reserve(p, d))
        invariant SameSort(old(events), events) && lists.common == old(lists).common
      {
        if ids[i] < |events| {
          var r := ScheduleInPass(ids[i], p, d);
        }
        i := i + 1;
      }
    }

    /** One more deferred callback costs a unit of the budget or waits for the next pass. */
    method ScheduleInPass(id: Id, p: nat, ghost d: set<Id>) returns (r: int)
      requires Valid() && id < |events| && p < |lists.active| && Budgeted()
      modifies `events, `lists, `eventCount, `eventCountActive, `nDeferreds
      ensures Valid() && Budgeted() && |events| == |old(events)| && |lists.active| == |old(lists).active|
      ensures Ahead(p) <= old(Ahead(p)) && (events[id].active || events[id].later)
      ensures Reserve(p, d) <= old(Reserve(p, d))
      ensures SameSort(old(events), events) && lists.common == old(lists).common
    {
      assert Placed(events[id], id, lists);
      ActiveAmong(lists, events[id], id, p, d);
      ghost var e := events[id];
      SortUpdate(events, id, e.(active := true, later := false));
      SortUpdate(events, id, e.(later := !e.active));
      hide TimedOk, Lists, Total, Flatten, Remove, Among, SameSort, WithActive;
      r := DeferredSchedule(id);
    }

    /** event_process_active_single_queue: run the callbacks of one active queue until it is empty or told to stop. What
        the i-th callback schedules is an arbitrary list of deferred callbacks; the internal timer of a common timeout
        list fires what is due there. */
    method ProcessSingleQueue(p: nat, maxToProcess: nat, now: int, schedules: seq<seq<Id>>, stops: set<nat>)
      returns (count: nat, ghost ran: nat, ghost deferred: nat)
      requires Valid() && running == None && p < |lists.active| && Budgeted()
      modifies `events, `lists, `eventCount, `eventCountActive, `eventContinue, `nDeferreds, `running
      ensures Valid() && running == None && Budgeted() && |lists.active| == |old(lists).active|
      ensures ran + Ahead(p) <= old(Ahead(p)) && count <= ran && deferred <= ran
      ensures SameSort(old(events), events)
      ensures NoneIn(old(lists).common, DeferredIds(old(events))) ==>
          && NoneIn(lists.common, DeferredIds(events))
          && deferred + Reserve(p, DeferredIds(events)) <= old(Reserve(p, DeferredIds(events)))
      ensures lists.active[p] == [] || count >= maxToProcess || ran in stops || eventContinue
    {
      count, ran, deferred := 0, 0, 0;
      var runs := 0;
      ghost var d, apart := DeferredIds(events), NoneIn(lists.common, DeferredIds(events));
      SortSelf(events);
      hide Books, Timed, Durations, Reserve, NoneIn, SameSort, DeferredIds;
      while lists.active[p] != []
        modifies `events, `lists, `eventCount, `eventCountActive, `eventContinue, `nDeferreds, `running
        invariant Valid() && running == None && Budgeted() && |lists.active| == |old(lists).active|
        invariant runs == ran && ran + Ahead(p) <= old(Ahead(p)) && count <= ran && deferred <= ran
        invariant SameSort(old(events), events)
        invariant apart ==> NoneIn(lists.common, d) && deferred + Reserve(p, d) <= old(Reserve(p, d))
        decreases Ahead(p)
      {
        ghost var es := events;
        var id := TakeFirst(p, d);
        SortAgain(old(events), es, events);
        SortDeferred(old(events), events, id);
        runs, ran, deferred := runs + 1, ran + 1, deferred + Bit(events[id].deferred);
        if !events[id].internal_ {
          count := count + 1;
        }
        es := events;
        RunCallback(id, p, now, if runs < |schedules| then schedules[runs] else [], d);
        SortAgain(old(events), es, events);
        if runs in stops || count >= maxToProcess || eventContinue {
          break;
        }
      }
      SameDeferreds(old(events), events);
    }

    /** The callback of the running event */
    method RunCallback(id: Id, p: nat, now: int, ids: seq<Id>, ghost d: set<Id>)
      requires Valid() && running == Some(id) && p < |lists.active| && Budgeted()
      modifies `events, `lists, `eventCount, `eventCountActive, `eventContinue, `nDeferreds, `running
      ensures Valid() && running == None && Budgeted() && |lists.active| == |old(lists).active|
      ensures Ahead(p) <= old(Ahead(p)) && SameSort(old(events), events)
      ensures NoneIn(old(lists).common, d) ==> NoneIn(lists.common, d) && Reserve(p, d) <= old(Reserve(p, d))
    {
      hide Books, Timed, Durations, Ahead, Reserve, NoneIn;
      if id in timers {
        var c :| 0 <= c < |timers| && timers[c] == id;
        TimersPaired();
        RunTimer(c, p, now, d);
      } else {
        RunDeferred(ids, p, d);
        NotATimer(id);
      }
      running := None;
    }

    method RunTimer(c: nat, p: nat, now: int, ghost d: set<Id>)
      requires Valid() && c < |timers| == |lists.common| && running == Some(timers[c]) && p < |lists.active|
      requires Budgeted()
      modifies `events, `lists, `eventCount, `eventCountActive, `eventContinue
      ensures Books() && Timed({}) && Budgeted() && |lists.active| == |old(lists).active|
      ensures Ahead(p) <= old(Ahead(p)) && SameSort(old(events), events)
      ensures NoneIn(old(lists).common, d) ==> NoneIn(lists.common, d) && Reserve(p, d) <= old(Reserve(p, d))
    {
      hide TimedOk, Lists, Total, Flatten, FireAll, Fired, Among, NoneIn;
      ghost var due := CommonTimeoutCallback(c, now);
      assert FewerOf(old(lists), lists, d);
    }

    lemma TimersPaired()
      requires Valid()
      ensures |timers| == |lists.common|
    {
    }

    lemma NotATimer(id: Id)
      requires Timed({id}) && id !in timers
      ensures Timed({})
    {
      forall d: nat | d < |lists.common|
        ensures ListOk(events, lists.common[d], timers[d], {})
      {
        assert ListOk(events, lists.common[d], timers[d], {id});
      }
    }

    /** min_heap_top_ */
    method HeapTop() returns (id: Id)
      requires Books() && lists.heap != {}
      ensures id in lists.heap && id < |events| && forall x :: x in lists.heap ==>
          x < |events| && events[id].when <= events[x].when
    {
      EarliestExists(events, lists.heap);
      id :| id in lists.heap && forall x :: x in lists.heap ==> events[id].when <= events[x].when;
    }

    /** timeout_next, called when nothing is active: how long to wait, or None to wait for input only. The loop never
        sleeps past the time of any pending event, common timeouts included. */
    method TimeoutNext(now: int) returns (wait: Option<nat>)
      requires Valid() && eventCountActive == 0 && running == None
      ensures wait == None <==> forall id :: 0 <= id < |events| ==> !events[id].timeout
      ensures forall id :: 0 <= id < |events| && events[id].timeout ==>
                wait.Some? && wait.value <= if events[id].when <= now then 0 else events[id].when - now
      ensures wait.Some? && wait.value > 0 ==>
          exists id :: 0 <= id < |events| && events[id].timeout && events[id].when == now + wait.value
    {
      if lists.heap == {} {
        forall id | 0 <= id < |events|
          ensures !events[id].timeout
        {
          if events[id].timeout {
            EarlierInHeap(id);
          }
        }
        return None;
      }
      var ev := HeapTop();
      TopIsEarliest(ev);
      hide TimedOk, Lists;
      if events[ev].when <= now {
        wait := Some(0);
      } else {
        wait := Some(events[ev].when - now);
      }
    }

    lemma TopIsEarliest(top: Id)
      requires Valid() && eventCountActive == 0 && running == None && top in lists.heap && top < |events|
      requires forall x :: x in lists.heap ==> x < |events| && events[top].when <= events[x].when
      ensures events[top].timeout
      ensures forall id :: 0 <= id < |events| && events[id].timeout ==> events[top].when <= events[id].when
    {
      assert Placed(events[top], top, lists);
      forall id | 0 <= id < |events| && events[id].timeout
        ensures events[top].when <= events[id].when
      {
        hide TimedOk, Lists;
        EarlierInHeap(id);
      }
    }

    /** With nothing active, some event of the heap is due no later than any pending event. */
    lemma EarlierInHeap(id: Id)
      requires Valid() && eventCountActive == 0 && running == None && id < |events| && events[id].timeout
      ensures exists x :: x in lists.heap && x < |events| && events[x].when <= events[id].when
    {
      assert Placed(events[id], id, lists);
      if events[id].common.Some? {
        var c := events[id].common.value;
        var list, t := lists.common[c], timers[c];
        assert ListOk(events, list, t, {});
        var k :| 0 <= k < |list| && list[k] == id;
        assert events[list[0]].when <= events[list[k]].when;
        NoneActive(t);
        assert Placed(events[t], t, lists);
      }
    }

    lemma NoneActive(id: Id)
      requires Books() && eventCountActive == 0 && id < |events|
      ensures !events[id].active && !events[id].later
    {
      assert Placed(events[id], id, lists);
      if events[id].active {
        FlattenAt(lists.active, events[id].pri);
      }
    }

    /** In neither the fd map nor an active queue */
    predicate Idle(id: Id)
      reads `events
      requires id < |events|
    {
      !events[id].inserted && !events[id].active && !events[id].later
    }
  }

  /** An event in no list */
  function Deleted(e: Ev): Ev {
    e.(timeout := false, active := false, later := false, inserted := false)
  }

  function WithoutTimeout(q: Queues, e: Ev, id: Id): Queues {
    if e.timeout then q.(heap := q.heap - {id}, common := CommonWithout(q, e, id)) else q
  }

  function WithoutActive(q: Queues, e: Ev, id: Id): Queues {
    if e.active && e.pri < |q.active| && id in q.active[e.pri] then
      q.(active := q.active[e.pri := Remove(q.active[e.pri], id)])
    else if e.later && id in q.later then q.(later := Remove(q.later, id))
    else q
  }

  /** The lists once an event has left all of them */
  function WithoutEvent(q: Queues, e: Ev, id: Id): Queues {
    WithoutActive(WithoutTimeout(q, e, id), e.(timeout := false), id)
  }

  /** An event made active for a reason, besides those it may be active for already */
  function Activated(e: Ev, res: set<Reason>): Ev {
    e.(res := Reasons(e, res), active := true, later := false)
  }

  /** The lists once a callback is active */
  function WithActive(q: Queues, e: Ev, id: Id): Queues {
    if e.active then q
    else Enqueued(if e.later && id in q.later then q.(later := Remove(q.later, id)) else q, e.pri, id)
  }

  /** TAILQ_INSERT_TAIL on the active queue of the callback's priority */
  function Enqueued(q: Queues, pri: nat, id: Id): Queues {
    if pri < |q.active| then q.(active := q.active[pri := q.active[pri] + [id]]) else q
  }

  /** The reasons to be active, added to those already there */
  function Reasons(e: Ev, res: set<Reason>): set<Reason> {
    if e.active || e.later then e.res + res else res
  }

  /** An event after its time has come */
  function Fired(e: Ev): Ev {
    Activated(Deleted(e), {TIMEOUT})
  }

  function FiredLists(q: Queues, e: Ev, id: Id): Queues {
    WithActive(WithoutEvent(q, e, id), Deleted(e), id)
  }

  /** The events after the time of some of them, one after the other, has come */
  function FireAll(events: seq<Ev>, ids: seq<Id>): (r: seq<Ev>)
    ensures |r| == |events|
  {
    if ids == [] then events
    else
      var r, id := FireAll(events, ids[..|ids| - 1]), ids[|ids| - 1];
      if id < |r| then r[id := Fired(r[id])] else r
  }

  lemma {:induction false} FireAllSort(events: seq<Ev>, ids: seq<Id>)
    ensures SameSort(events, FireAll(events, ids))
  {
    if ids != [] {
      FireAllSort(events, ids[..|ids| - 1]);
    }
  }

  lemma FireAllNone(events: seq<Ev>)
    ensures FireAll(events, []) == events
  {
  }

  /** Each of them fires as it was, and no other changes. */
  lemma {:induction false} FireAllAt(events: seq<Ev>, ids: seq<Id>, id: Id)
    requires (forall i :: 0 <= i < |ids| ==> ids[i] < |events|) && NoDup(ids) && id < |events|
    ensures FireAll(events, ids)[id] == if id in ids then Fired(events[id]) else events[id]
  {
    hide Fired;
    if ids != [] {
      var rest, last := ids[..|ids| - 1], ids[|ids| - 1];
      FireAllAt(events, rest, id);
      assert ids == rest + [last] && last !in rest;
    }
  }

  lemma FireAllLast(events: seq<Ev>, ids: seq<Id>)
    requires ids != [] && ids[|ids| - 1] < |events|
    ensures var r, id := FireAll(events, ids[..|ids| - 1]), ids[|ids| - 1];
            FireAll(events, ids) == r[id := Fired(r[id])]
  {
  }

  lemma FireAllMore(events: seq<Ev>, list: seq<Id>, n: nat)
    requires (forall i :: 0 <= i < |list| ==> list[i] < |events|) && NoDup(list) && n < |list|
    ensures FireAll(events, list[..n])[list[n]] == events[list[n]]
    ensures FireAll(events, list[..n + 1]) == FireAll(events, list[..n])[list[n] := Fired(events[list[n]])]
  {
    var ids := list[..n + 1];
    hide Fired;
    FireAllAt(events, list[..n], list[n]);
    assert ids[..n] == list[..n] && ids[n] == list[n] && |ids| == n + 1;
    FireAllLast(events, ids);
    hide FireAll;
  }

  /** In a sorted list the due events are those before the first that is not. */
  lemma DuePrefix(events: seq<Ev>, list: seq<Id>, due: nat, now: int)
    requires Sorted(events, list) && due <= |list|
    requires due > 0 ==> events[list[due - 1]].when <= now
    requires due < |list| ==> events[list[due]].when > now
    ensures forall i :: 0 <= i < |list| ==> (i < due <==> events[list[i]].when <= now)
  {
  }

  /** The callbacks of one priority, in order */
  function OfPriority(events: seq<Ev>, q: seq<Id>, p: nat): seq<Id> {
    if q == [] then []
    else (if q[0] < |events| && events[q[0]].pri == p then [q[0]] else []) + OfPriority(events, q[1..], p)
  }

  /** How many of the callbacks in a queue are in a set */
  function Among(q: seq<Id>, d: set<Id>): nat {
    if q == [] then 0 else Bit(q[0] in d) + Among(q[1..], d)
  }

  function DeferredIds(events: seq<Ev>): set<Id> {
    set id | 0 <= id < |events| && events[id].deferred
  }

  /** How many of them are deferred callbacks */
  function Deferreds(events: seq<Ev>, q: seq<Id>): nat {
    Among(q, DeferredIds(events))
  }

  lemma {:induction false} AmongAppend(q: seq<Id>, id: Id, d: set<Id>)
    ensures Among(q + [id], d) == Among(q, d) + Bit(id in d)
  {
    if q == [] {
      assert [] + [id] == [id];
    } else {
      assert (q + [id])[1..] == q[1..] + [id];
      AmongAppend(q[1..], id, d);
    }
  }

  lemma {:induction false} AmongRemove(q: seq<Id>, id: Id, d: set<Id>)
    requires id in q
    ensures Among(Remove(q, id), d) == Among(q, d) - Bit(id in d)
  {
    if q[0] != id {
      AmongRemove(q[1..], id, d);
      assert ([q[0]] + Remove(q[1..], id))[1..] == Remove(q[1..], id);
    }
  }

  lemma FirstLater(events: seq<Ev>, q: seq<Id>)
    requires q != [] && q[0] < |events|
    ensures Deferreds(events, q) == Bit(events[q[0]].deferred) + Deferreds(events, q[1..])
    ensures forall p :: OfPriority(events, q, p)
                        == (if events[q[0]].pri == p then [q[0]] else []) + OfPriority(events, q[1..], p)
  {
  }

  lemma NoneLater(events: seq<Ev>)
    ensures Deferreds(events, []) == 0 && forall p :: OfPriority(events, [], p) == []
  {
  }

  lemma SortAgain(events: seq<Ev>, events1: seq<Ev>, events2: seq<Ev>)
    requires SameSort(events, events1) && SameSort(events1, events2)
    ensures SameSort(events, events2)
  {
  }

  lemma SortSelf(events: seq<Ev>)
    ensures SameSort(events, events)
  {
  }

  lemma SortUpdate(events: seq<Ev>, id: Id, e: Ev)
    requires id < |events| ==> e.pri == events[id].pri && e.deferred == events[id].deferred
    ensures id < |events| ==> SameSort(events, events[id := e])
  {
  }

  lemma SortDeferred(events: seq<Ev>, events': seq<Ev>, id: Id)
    requires SameSort(events, events') && id < |events'|
    ensures events'[id].deferred <==> id in DeferredIds(events)
  {
  }

  lemma SameDeferreds(events: seq<Ev>, events': seq<Ev>)
    requires SameSort(events, events')
    ensures DeferredIds(events') == DeferredIds(events)
  {
  }

  /** Events keep their priority and nature. */
  ghost predicate SameSort(events: seq<Ev>, events': seq<Ev>) {
    && |events'| == |events|
    && forall id :: 0 <= id < |events| ==>
        events'[id].pri == events[id].pri && events'[id].deferred == events[id].deferred
  }

  /** No callback of the set waits in a common timeout list. */
  ghost predicate NoneIn(common: seq<seq<Id>>, d: set<Id>) {
    forall c, i :: 0 <= c < |common| && 0 <= i < |common[c]| ==> common[c][i] !in d
  }

  /** Of a set of callbacks that wait for no common timeout, the second state has no more active, and none waits
      there. */
  ghost predicate FewerOf(q: Queues, q': Queues, d: set<Id>) {
    NoneIn(q.common, d) ==>
      && NoneIn(q'.common, d)
      && |q'.active| == |q.active|
      && forall p :: 0 <= p < |q.active| ==> Among(q'.active[p], d) <= Among(q.active[p], d)
  }

  /** The second state has no more callbacks that are active at a priority or could get so by a common timeout, and of
      any set of callbacks that wait for no common timeout it has no more that are active. */
  ghost predicate NoMore(q: Queues, q': Queues) {
    && |q'.active| == |q.active| && (q.later == [] ==> q'.later == [])
    && (forall p :: 0 <= p < |q.active| ==>
                      |q'.active[p]| + |Flatten(q'.common)| <= |q.active[p]| + |Flatten(q.common)|)
    && forall d :: FewerOf(q, q', d)
  }

  lemma NoMoreSelf(q: Queues)
    ensures NoMore(q, q)
  {
  }

  lemma NoMoreAgain(q: Queues, q1: Queues, q2: Queues)
    requires NoMore(q, q1) && NoMore(q1, q2)
    ensures NoMore(q, q2)
  {
    hide Flatten, Among, NoneIn;
    forall d
      ensures FewerOf(q, q2, d)
    {
      assert FewerOf(q, q1, d) && FewerOf(q1, q2, d);
    }
  }

  lemma NoMoreHeap(q: Queues, q': Queues)
    requires q' == q.(heap := q'.heap)
    ensures NoMore(q, q')
  {
  }

  /** An event that leaves its lists leaves at most as many of any set, and one less of any that it is in, if it was
      active. */
  lemma RemovedFewer(events: seq<Ev>, q: Queues, id: Id, d: set<Id>)
    requires Lists(events, q) && id < |events|
    ensures FewerOf(q, WithoutTimeout(q, events[id], id), d)
    ensures FewerOf(q, WithoutActive(q, events[id], id), d)
    ensures FewerOf(q, WithoutEvent(q, events[id], id), d)
    ensures events[id].active ==>
        && events[id].pri < |q.active| && id in q.active[events[id].pri]
        && Among(Remove(q.active[events[id].pri], id), d) == Among(q.active[events[id].pri], d) - Bit(id in d)
  {
    var e := events[id];
    assert Placed(e, id, q);
    if e.active {
      AmongRemove(q.active[e.pri], id, d);
    }
    if e.timeout && e.common.Some? {
      RemoveLength(q.common[e.common.value], id);
      NoneRemoved(q.common, e.common.value, id, d);
    }
    hide Lists, Among, Remove, NoneIn, Placed;
  }

  /** A callback made active is at most one more in its queue. */
  lemma ActiveAmong(q: Queues, e: Ev, id: Id, p: nat, d: set<Id>)
    requires p < |q.active|
    ensures var q' := WithActive(q, e, id);
            && |q'.active| == |q.active| && q'.common == q.common && (q.later == [] ==> q'.later == [])
            && |q'.active[p]| <= |q.active[p]| + (if e.active then 0 else 1)
            && Among(q'.active[p], d) <= Among(q.active[p], d) + (if e.active then 0 else 1)
  {
    AmongAppend(q.active[p], id, d);
  }

  lemma WithoutActiveList(q: Queues, e: Ev, id: Id)
    requires e.active && e.pri < |q.active| && id in q.active[e.pri]
    ensures WithoutEvent(q, e, id).active == q.active[e.pri := Remove(q.active[e.pri], id)]
    ensures WithoutEvent(q, e, id).later == q.later
  {
  }

  lemma NoneRemoved(common: seq<seq<Id>>, c: nat, id: Id, d: set<Id>)
    requires c < |common| && id in common[c]
    ensures NoneIn(common, d) ==> NoneIn(common[c := Remove(common[c], id)], d)
  {
    RemoveLength(common[c], id);
    var list := Remove(common[c], id);
    if NoneIn(common, d) {
      forall i | 0 <= i < |list|
        ensures list[i] !in d
      {
        assert list[i] in list && list[i] in common[c];
      }
    }
  }

  lemma FiredFewer(events: seq<Ev>, q: Queues, id: Id, d: set<Id>)
    requires Lists(events, q) && id < |events| && events[id].timeout && events[id].common.Some?
    ensures FewerOf(q, FiredLists(q, events[id], id), d)
  {
    var e := events[id];
    assert Placed(e, id, q);
    RemovedFewer(events, q, id, d);
    var q' := WithoutEvent(q, e, id);
    if NoneIn(q.common, d) && e.pri < |q'.active| {
      assert id !in d;
      AmongAppend(q'.active[e.pri], id, d);
      hide Lists, Among, Remove, NoneIn, Placed, WithoutEvent;
    }
  }

  lemma FiredNoMore(events: seq<Ev>, q: Queues, id: Id)
    requires Lists(events, q) && id < |events| && events[id].timeout && events[id].common.Some?
    ensures NoMore(q, FiredLists(q, events[id], id))
  {
    var e := events[id];
    assert Placed(e, id, q);
    var c := e.common.value;
    FlattenLength(q.common, c, Remove(q.common[c], id));
    RemoveLength(q.common[c], id);
    if e.active {
      RemoveLength(q.active[e.pri], id);
    }
    forall d
      ensures FewerOf(q, FiredLists(q, e, id), d)
    {
      FiredFewer(events, q, id, d);
    }
    hide Flatten, Lists, FewerOf;
  }

  lemma RemovedNoMore(events: seq<Ev>, q: Queues, id: Id)
    requires Lists(events, q) && id < |events|
    ensures NoMore(q, WithoutEvent(q, events[id], id)) && NoMore(q, WithoutActive(q, events[id], id))
    ensures NoMore(q, WithoutTimeout(q, events[id], id))
    ensures |WithoutEvent(q, events[id], id).active| == |q.active|
    ensures events[id].active ==>
              && events[id].pri < |q.active|
              && |WithoutEvent(q, events[id], id).active[events[id].pri]| == |q.active[events[id].pri]| - 1
              && |WithoutActive(q, events[id], id).active[events[id].pri]| == |q.active[events[id].pri]| - 1
    ensures |Flatten(WithoutEvent(q, events[id], id).common)| <= |Flatten(q.common)|
  {
    var e := events[id];
    assert Placed(e, id, q);
    if e.common.Some? && e.timeout {
      var c := e.common.value;
      FlattenLength(q.common, c, Remove(q.common[c], id));
      RemoveLength(q.common[c], id);
    }
    if e.active {
      RemoveLength(q.active[e.pri], id);
    }
    forall d
      ensures FewerOf(q, WithoutEvent(q, e, id), d) && FewerOf(q, WithoutActive(q, e, id), d)
      ensures FewerOf(q, WithoutTimeout(q, e, id), d)
    {
      RemovedFewer(events, q, id, d);
    }
    hide Flatten, Lists, FewerOf;
  }

  /** A duration, as struct timeval gives it */
  datatype Span = Span(sec: int, usec: nat)

  /** is_common_timeout: the top bits of the microseconds hold a magic number and the number of a list. */
  predicate IsCommon(usec: nat, lists: nat) {
    usec / 0x1000_0000 % 16 == 5 && usec / 0x10_0000 % 256 < lists
  }

  /** The duration with more than a second's worth of microseconds carried over, once the top bits are off */
  function Normal(d: Span, lists: nat): Span {
    if d.usec <= 1000000 then d
    else
      var usec := if IsCommon(d.usec, lists) then d.usec % 0x10_0000 else d.usec;
      Span(d.sec + usec / 1000000, usec % 1000000)
  }

  /** A timeval, with the number of its common timeout list if it stands for a common timeout */
  datatype Timeval = Timeval(usec: int, common: Option<nat>)

  /** An event that waits for a time */
  function Waiting(e: Ev, when: int, common: Option<nat>): Ev {
    Withdrawn(e).(timeout := true, when := when, common := common)
  }

  /** An event that waits for no time, and is not active because of one */
  function Withdrawn(e: Ev): Ev {
    e.(timeout := false, active := e.active && TIMEOUT !in e.res)
  }
}
