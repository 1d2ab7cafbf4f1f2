/** Which events are wanted on which fd, the changelist that delays telling the kernel, and epoll, which tells it. */
module Evmaps {
  import opened Bytes
  import opened EpollTable

  /** What the kernel knows about an fd: nothing to watch with, no watch, or a watch for these epoll events. */
  datatype Kernel = Closed | Unpollable | Idle | Watched(events: mask) {
    predicate Open() {
      Idle? || Watched?
    }
  }

  datatype Errno = OK | EEXIST | ENOENT | EBADF | EPERM

  /** epoll_ctl */
  function Ctl(k: Kernel, op: int, events: mask): (Kernel, Errno) {
    if k == Closed then (k, EBADF)
    else if k == Unpollable then (k, EPERM)
    else if op == CTL_ADD then (if k == Idle then (Watched(events), OK) else (k, EEXIST))
    else if op == CTL_MOD then (if k == Idle then (k, ENOENT) else (Watched(events), OK))
    else (if k == Idle then (k, ENOENT) else (Idle, OK))
  }

  /** A set of the kinds of event an fd can have. */
  datatype Kinds = Kinds(read: bool, write: bool, close: bool) {
    function Plus(k: Kinds): Kinds {
      Kinds(read || k.read, write || k.write, close || k.close)
    }

    function Minus(k: Kinds): Kinds {
      Kinds(read && !k.read, write && !k.write, close && !k.close)
    }
  }

  const NONE := Kinds(false, false, false)

  function KindsIn(m: mask): Kinds {
    Kinds(m & EV_READ != 0, m & EV_WRITE != 0, m & EV_CLOSED != 0)
  }

  function MaskOf(k: Kinds): mask {
    Pick(k.read, EV_READ) | Pick(k.write, EV_WRITE) | Pick(k.close, EV_CLOSED)
  }

  /** The epoll events for these kinds. */
  function EpollOf(k: Kinds): mask {
    Pick(k.read, IN) | Pick(k.write, OUT) | Pick(k.close, HUP)
  }

  /** The epoll events for these kinds, and whether to watch for their edges only. */
  function WatchFor(k: Kinds, edge: bool): mask {
    EpollOf(k) | Pick(edge, EPOLLET)
  }

  lemma MaskRound(k: Kinds, et: mask)
    ensures KindsIn(MaskOf(k)) == k && MaskOf(k) & EV_SIGNAL == 0 && (MaskOf(k) == 0 <==> k == NONE)
    ensures KindsIn((et & EV_ET) | MaskOf(k)) == k && ((et & EV_ET) | MaskOf(k)) & EV_SIGNAL == 0
  {
  }

  /** What the kernel holds agrees with the wanted kinds of event; an fd it cannot watch is out of scope. */
  predicate Agrees(k: Kernel, kinds: Kinds) {
    match k
    case Closed => true
    case Unpollable => true
    case Idle => kinds == NONE
    case Watched(events) => events & !EPOLLET == EpollOf(kinds) && kinds != NONE
  }

  // ---- one change ----

  predicate EdgeTriggered(ch: Change) {
    (ch.readChange | ch.writeChange | ch.closeChange) & EV_ET != 0
  }

  /** The kinds enabled once a change is applied. */
  function Outcome(ch: Change): Kinds {
    Kinds(After(ch.oldEvents, EV_READ, ch.readChange), After(ch.oldEvents, EV_WRITE, ch.writeChange),
          After(ch.oldEvents, EV_CLOSED, ch.closeChange))
  }

  /** What one change must leave in the kernel, and whether it must report success. */
  function Applied(k: Kernel, ch: Change): (Kernel, int) {
    if !Effective(ch) then (k, 0)
    else if Outcome(ch) == NONE then (if k.Open() then Idle else k, 0)
    else if k.Open() then (Watched(WatchFor(Outcome(ch), EdgeTriggered(ch))), 0)
    else (k, -1)
  }

  lemma OutcomeTarget(ch: Change)
    ensures EpollOf(Outcome(ch)) == Target(ch) && (Outcome(ch) == NONE <==> Target(ch) == 0)
  {
  }

  lemma WatchForIs(k: Kinds, edge: bool)
    ensures WatchFor(k, edge) == EpollOf(k) | Pick(edge, EPOLLET)
  {
    hide EpollOf, Pick;
  }

  lemma WatchedAgrees(k: Kinds, edge: bool)
    ensures Agrees(Watched(WatchFor(k, edge)), k) <==> k != NONE
  {
  }

  lemma UnwatchedAgrees(k: Kernel, kinds: Kinds)
    requires !k.Watched? && (k.Idle? ==> kinds == NONE)
    ensures Agrees(k, kinds)
  {
  }

  lemma IneffectiveOutcome(ch: Change)
    requires !Effective(ch)
    ensures Outcome(ch) == KindsIn(ch.oldEvents)
  {
  }

  /** Whatever the kernel held for an fd, an effective change leaves exactly the outcome there; any other leaves
      it be. */
  lemma AppliedAgrees(k: Kernel, ch: Change)
    requires Effective(ch) || Agrees(k, KindsIn(ch.oldEvents))
    ensures Agrees(Applied(k, ch).0, Outcome(ch))
  {
    hide WatchFor, Outcome, EdgeTriggered, Effective, Agrees, KindsIn;
    if !Effective(ch) {
      IneffectiveOutcome(ch);
    } else if Outcome(ch) != NONE && k.Open() {
      WatchedAgrees(Outcome(ch), EdgeTriggered(ch));
    } else if k.Open() {
      UnwatchedAgrees(Idle, NONE);
    } else {
      UnwatchedAgrees(k, Outcome(ch));
    }
  }

  /** event_changelist_add_, on the change of the fd */
  function WithAdd(ch: Change, events: mask): Change {
    var evchange := CHANGE_ADD | (events & (EV_ET | EV_PERSIST | EV_SIGNAL));
    ch.(readChange := if events & (EV_READ | EV_SIGNAL) != 0 then evchange else ch.readChange,
        writeChange := if events & EV_WRITE != 0 then evchange else ch.writeChange,
        closeChange := if events & EV_CLOSED != 0 then evchange else ch.closeChange)
  }

  /** event_changelist_del_, on the change of the fd */
  function WithDel(ch: Change, events: mask): Change {
    var del := CHANGE_DEL | (events & EV_ET);
    ch.(readChange := if events & (EV_READ | EV_SIGNAL) == 0 then ch.readChange
                      else if ch.oldEvents & (EV_READ | EV_SIGNAL) == 0 then 0 else del,
        writeChange := if events & EV_WRITE == 0 then ch.writeChange else if ch.oldEvents & EV_WRITE == 0 then 0
            else del,
        closeChange := if events & EV_CLOSED == 0 then ch.closeChange else if ch.oldEvents & EV_CLOSED == 0 then 0
            else del)
  }

  lemma AddOne(was: mask, kind: mask, events: mask)
    ensures var evchange := CHANGE_ADD | (events & (EV_ET | EV_PERSIST | EV_SIGNAL));
            evchange & 3 == 1 && After(was, kind, evchange)
  {
  }

  lemma DelOne(was: mask, kind: mask, events: mask)
    ensures var del := CHANGE_DEL | (events & EV_ET);
            del & 3 == 2 && !After(was, kind, del) && (was & kind == 0 ==> !After(was, kind, 0))
  {
  }

  /** A recorded add of kinds enables these kinds and no other. */
  lemma AddOutcome(ch: Change, events: mask)
    requires Sane(ch) && events & EV_SIGNAL == 0
    ensures Sane(WithAdd(ch, events)) && Outcome(WithAdd(ch, events)) == Outcome(ch).Plus(KindsIn(events))
  {
    assert events & (EV_READ | EV_SIGNAL) != 0 <==> events & EV_READ != 0;
    AddOne(ch.oldEvents, EV_READ, events);
    AddOne(ch.oldEvents, EV_WRITE, events);
    AddOne(ch.oldEvents, EV_CLOSED, events);
    hide After;
  }

  /** A recorded delete of kinds disables these kinds and no other. */
  lemma DelOutcome(ch: Change, events: mask)
    requires Sane(ch) && events & EV_SIGNAL == 0 && ch.oldEvents & EV_SIGNAL == 0
    ensures Sane(WithDel(ch, events)) && Outcome(WithDel(ch, events)) == Outcome(ch).Minus(KindsIn(events))
  {
    assert events & (EV_READ | EV_SIGNAL) != 0 <==> events & EV_READ != 0;
    assert ch.oldEvents & (EV_READ | EV_SIGNAL) != 0 <==> ch.oldEvents & EV_READ != 0;
    DelOne(ch.oldEvents, EV_READ, events);
    DelOne(ch.oldEvents, EV_WRITE, events);
    DelOne(ch.oldEvents, EV_CLOSED, events);
    hide After;
  }

  /** The change that epoll_nochangelist_add applies at once */
  function AddNow(fd: int, was: mask, events: mask): Change {
    var add := CHANGE_ADD | (events & EV_ET);
    Change(fd, was, Pick(events & EV_READ != 0, add), Pick(events & EV_WRITE != 0, add),
        Pick(events & EV_CLOSED != 0, add))
  }

  /** The change that epoll_nochangelist_del applies at once */
  function DeleteNow(fd: int, was: mask, events: mask): Change {
    var del := CHANGE_DEL | (events & EV_ET);
    Change(fd, was, Pick(events & EV_READ != 0, del), Pick(events & EV_WRITE != 0, del),
        Pick(events & EV_CLOSED != 0, del))
  }

  lemma NowOutcome(fd: int, was: mask, events: mask)
    ensures Sane(AddNow(fd, was, events)) && Outcome(AddNow(fd, was, events)) == KindsIn(was).Plus(KindsIn(events))
    ensures Sane(DeleteNow(fd, was, events))
    ensures Outcome(DeleteNow(fd, was, events)) == KindsIn(was).Minus(KindsIn(events))
    ensures KindsIn(events) != NONE ==> Effective(AddNow(fd, was, events)) && Effective(DeleteNow(fd, was, events))
  {
  }

  // ---- the tables of the event base ----

  datatype Event = Event(id: int, events: mask)

  /** struct evmap_io with its changelist fdinfo */
  datatype IoEntry = IoEntry(nread: nat, nwrite: nat, nclose: nat, events: seq<Event>, idxplus1: nat)

  const NO_ENTRY := IoEntry(0, 0, 0, [], 0)
  const MAX_EVENTS: nat := 0xffff

  predicate Has(m: mask, kind: mask) {
    m & kind != 0
  }

  function Count(events: seq<Event>, kind: mask): nat {
    if events == [] then 0 else (if Has(events[0].events, kind) then 1 else 0) + Count(events[1..], kind)
  }

  /** The kinds with a count above zero */
  function Interest(e: IoEntry): Kinds {
    Kinds(e.nread > 0, e.nwrite > 0, e.nclose > 0)
  }

  predicate Counted(e: IoEntry) {
    && e.nread == Count(e.events, EV_READ) <= MAX_EVENTS
    && e.nwrite == Count(e.events, EV_WRITE) <= MAX_EVENTS
    && e.nclose == Count(e.events, EV_CLOSED) <= MAX_EVENTS
  }

  /** A kind has a count above zero exactly when one of the events of the fd asks for it. */
  lemma {:induction false} CountPositive(events: seq<Event>, kind: mask)
    ensures Count(events, kind) > 0 <==> exists ev :: ev in events && Has(ev.events, kind)
  {
    hide Has;
    if events != [] {
      CountPositive(events[1..], kind);
      assert forall ev :: ev in events <==> ev == events[0] || ev in events[1..];
    }
  }

  /** The list after LIST_REMOVE of one of its events */
  function Without(events: seq<Event>, ev: Event): seq<Event>
    requires ev in events
  {
    if events[0] == ev then events[1..] else [events[0]] + Without(events[1..], ev)
  }

  lemma {:induction false} WithoutCount(events: seq<Event>, ev: Event, kind: mask)
    requires ev in events
    ensures Count(events, kind) == Count(Without(events, ev), kind) + (if Has(ev.events, kind) then 1 else 0)
  {
    hide Has;
    if events[0] != ev {
      WithoutCount(events[1..], ev, kind);
    }
  }

  function EntryIn(io: map<int, IoEntry>, fd: int): IoEntry {
    if fd in io then io[fd] else NO_ENTRY
  }

  /** The kinds the kernel has last been told to watch: those before the pending change, if there is one. */
  function Told(e: IoEntry, changes: seq<Change>): Kinds
    requires e.idxplus1 <= |changes|
  {
    if e.idxplus1 == 0 then Interest(e) else KindsIn(changes[e.idxplus1 - 1].oldEvents)
  }

  predicate EntryOk(fd: int, e: IoEntry, changes: seq<Change>) {
    && fd >= 0 && Counted(e) && e.idxplus1 <= |changes|
    && (e.idxplus1 > 0 ==> changes[e.idxplus1 - 1].fd == fd)
  }

  predicate NoSignal(m: mask) {
    m & EV_SIGNAL == 0
  }

  predicate ChangeOk(i: nat, ch: Change, io: map<int, IoEntry>) {
    && ch.fd in io && io[ch.fd].idxplus1 == i + 1
    && Sane(ch) && NoSignal(ch.oldEvents) && Outcome(ch) == Interest(io[ch.fd])
  }

  /** Counts match the event lists, fds and change slots are in bijection, and a pending change leads to what is
      wanted. */
  ghost predicate Booked(io: map<int, IoEntry>, changes: seq<Change>) {
    && (forall fd :: fd in io ==> EntryOk(fd, io[fd], changes))
    && (forall i: nat :: i < |changes| ==> ChangeOk(i, changes[i], io))
  }

  /** event_changelist_get_or_construct, on the tables */
  function Constructed(io: map<int, IoEntry>, changes: seq<Change>, fd: int, was: mask): (map<int, IoEntry>,
      seq<Change>)
    requires fd in io
  {
    if io[fd].idxplus1 == 0
    then (io[fd := io[fd].(idxplus1 := |changes| + 1)], changes + [Change(fd, was, 0, 0, 0)])
    else (io, changes)
  }

  /** A change record for an fd, as long as nothing has been recorded in it, leads back to what the entry wants. */
  lemma FreshChange(fd: int, e: IoEntry, idxplus1: nat)
    ensures var ch := Change(fd, MaskOf(Interest(e)), 0, 0, 0);
            NoSignal(ch.oldEvents) && Sane(ch) && Outcome(ch) == Interest(e) == KindsIn(ch.oldEvents)
    ensures Interest(e.(idxplus1 := idxplus1)) == Interest(e) && Counted(e.(idxplus1 := idxplus1)) == Counted(e)
  {
    MaskRound(Interest(e), 0);
    IneffectiveOutcome(Change(fd, MaskOf(Interest(e)), 0, 0, 0));
  }

  lemma ConstructedBooked(io: map<int, IoEntry>, changes: seq<Change>, fd: int)
    requires Booked(io, changes) && fd in io
    ensures var r := Constructed(io, changes, fd, MaskOf(Interest(io[fd])));
            && Booked(r.0, r.1) && r.0.Keys == io.Keys && r.0[fd] == io[fd].(idxplus1 := r.0[fd].idxplus1)
            && r.0[fd].idxplus1 > 0
            && (forall f :: f in io ==> Told(r.0[f], r.1) == Told(io[f], changes))
  {
    hide MaskOf, KindsIn, Outcome, Counted, Sane, NoSignal, Interest;
    var was := MaskOf(Interest(io[fd]));
    var (io', changes') := Constructed(io, changes, fd, was);
    FreshChange(fd, io[fd], |changes| + 1);
    assert EntryOk(fd, io[fd], changes);
    forall f | f in io'
      ensures EntryOk(f, io'[f], changes')
      ensures Told(io'[f], changes') == Told(io[f], changes)
    {
      assert EntryOk(f, io[f], changes);
    }
    forall i: nat | i < |changes'|
      ensures ChangeOk(i, changes'[i], io')
    {
      if i < |changes| {
        assert ChangeOk(i, changes[i], io);
      }
    }
  }

  /** Replacing an entry and its pending change together keeps the books. */
  lemma ReplacedBooked(io: map<int, IoEntry>, changes: seq<Change>, fd: int, e: IoEntry, ch: Change)
    requires Booked(io, changes) && fd in io && e.idxplus1 == io[fd].idxplus1 > 0 && Counted(e)
    requires ch.fd == fd && ch.oldEvents == changes[e.idxplus1 - 1].oldEvents
    requires Sane(ch) && Outcome(ch) == Interest(e)
    ensures Booked(io[fd := e], changes[e.idxplus1 - 1 := ch])
    ensures forall f :: f in io ==> Told(io[fd := e][f], changes[e.idxplus1 - 1 := ch]) == Told(io[f], changes)
  {
    hide Outcome, Counted, Interest, Sane, KindsIn, NoSignal;
    var io', changes' := io[fd := e], changes[e.idxplus1 - 1 := ch];
    assert EntryOk(fd, io[fd], changes) && ChangeOk(e.idxplus1 - 1, changes[e.idxplus1 - 1], io);
    forall f | f in io'
      ensures EntryOk(f, io'[f], changes')
      ensures Told(io'[f], changes') == Told(io[f], changes)
    {
      assert EntryOk(f, io[f], changes);
    }
    forall i: nat | i < |changes'|
      ensures ChangeOk(i, changes'[i], io')
    {
      assert ChangeOk(i, changes[i], io);
    }
  }

  /** Replacing an entry that still wants the same kinds, or has no change pending, keeps the books. */
  lemma EntryBooked(io: map<int, IoEntry>, changes: seq<Change>, fd: int, e: IoEntry)
    requires Booked(io, changes) && fd >= 0 && Counted(e) && e.idxplus1 == EntryIn(io, fd).idxplus1
    requires e.idxplus1 == 0 || Interest(e) == Interest(EntryIn(io, fd))
    ensures Booked(io[fd := e], changes)
  {
    hide Outcome, Counted, Interest, Sane, KindsIn, NoSignal;
  }

  function KernelIn(kernel: map<int, Kernel>, fd: int): Kernel {
    if fd in kernel then kernel[fd] else Closed
  }

  /** The part of struct event_base that deals with fds, together with the kernel's side of epoll. */
  class EventBase {
    const useChangelist: bool
    /** event_enable_debug_mode has been called. */
    const debugMode: bool
    var io: map<int, IoEntry>
    var changes: seq<Change>
    var kernel: map<int, Kernel>
    /** fds that were closed and opened again while watched, and for which nothing has been applied since */
    ghost var stale: set<int>

    constructor (useChangelist: bool, debugMode: bool)
      ensures Valid() && this.useChangelist == useChangelist && this.debugMode == debugMode
      ensures io == map[] && kernel == map[] && stale == {}
    {
      this.useChangelist := useChangelist;
      this.debugMode := debugMode;
      io, changes, kernel, stale := map[], [], map[], {};
    }

    function KernelAt(fd: int): Kernel
      reads this
    {
      KernelIn(kernel, fd)
    }

    function Entry(fd: int): IoEntry
      reads this
    {
      EntryIn(io, fd)
    }

    ghost predicate Books()
      reads this
    {
      Booked(io, changes) && (!useChangelist ==> changes == [])
    }

    /** What the kernel holds for an fd that is not stale is what it was last told. */
    ghost predicate InSync()
      reads this
      requires Books()
    {
      forall fd :: fd !in stale ==> Agrees(KernelAt(fd), Told(Entry(fd), changes))
    }

    ghost predicate Valid()
      reads this
    {
      Books() && InSync()
    }

    /** The kernel performs epoll_ctl. */
    method EpollCtl(op: int, fd: int, events: mask) returns (errno: Errno)
      modifies `kernel
      ensures (KernelAt(fd), errno) == Ctl(old(KernelAt(fd)), op, events)
      ensures forall f :: f != fd ==> KernelIn(kernel, f) == KernelIn(old(kernel), f)
    {
      var r := Ctl(KernelAt(fd), op, events);
      kernel := kernel[fd := r.0];
      errno := r.1;
    }

    /** epoll_apply_one_change */
    method ApplyOneChange(ch: Change) returns (r: int)
      requires Sane(ch)
      modifies `kernel
      ensures (KernelAt(ch.fd), r) == Applied(old(KernelAt(ch.fd)), ch)
      ensures forall f :: f != ch.fd ==> KernelIn(kernel, f) == KernelIn(old(kernel), f)
    {
      ghost var k := KernelAt(ch.fd);
      var row := OpTable(ch);
      RowMeaning(ch);
      hide OpTable, Effective, Outcome, WatchFor, EpollOf, Pick, EdgeTriggered;
      if row.events == 0 {
        return 0;
      }
      var events := row.events | Pick(EdgeTriggered(ch), EPOLLET);
      var errno := EpollCtl(row.op, ch.fd, events);
      if errno == OK {
        return 0;
      }
      if row.op == CTL_MOD {
        if errno == ENOENT {
          errno := EpollCtl(CTL_ADD, ch.fd, events);
          return if errno == OK then 0 else -1;
        }
      } else if row.op == CTL_ADD {
        if errno == EEXIST {
          errno := EpollCtl(CTL_MOD, ch.fd, events);
          return if errno == OK then 0 else -1;
        }
      } else if row.op == CTL_DEL {
        if errno == ENOENT || errno == EBADF || errno == EPERM {
          return 0;
        }
      }
      return -1;
    }

    /** The change that waits to be applied to an fd, if any */
    function PendingAt(fd: int): Option<Change>
      reads this
      requires Entry(fd).idxplus1 <= |changes|
    {
      if Entry(fd).idxplus1 == 0 then None else Some(changes[Entry(fd).idxplus1 - 1])
    }

    function AppliedAt(k: Kernel, pending: Option<Change>): Kernel {
      if pending.None? then k else Applied(k, pending.value).0
    }

    /** epoll_apply_changes */
    method ApplyChanges() returns (r: int)
      requires Books()
      modifies `kernel
      ensures forall fd :: KernelAt(fd) == AppliedAt(old(KernelAt(fd)), PendingAt(fd))
    {
      hide Applied, Sane, Outcome, Counted, Interest;
      r := 0;
      var i := 0;
      while i < |changes|
        modifies `kernel
        invariant i <= |changes|
        invariant forall fd :: KernelAt(fd) ==
                    if Entry(fd).idxplus1 <= i then AppliedAt(old(KernelAt(fd)), PendingAt(fd)) else old(KernelAt(fd))
      {
        var ch := changes[i];
        assert ChangeOk(i, ch, io);
        assert forall fd :: Entry(fd).idxplus1 == i + 1 ==> fd == ch.fd;
        hide NoSignal, EntryOk, ChangeOk, Booked;
        var r' := ApplyOneChange(ch);
        if r' < 0 {
          r := -1;
        }
        i := i + 1;
      }
    }

    /** event_changelist_remove_all_ */
    method RemoveAll()
      requires Books()
      modifies `io, `changes
      ensures changes == [] && io.Keys == old(io).Keys
      ensures forall fd :: fd in io ==> io[fd] == old(io)[fd].(idxplus1 := 0)
    {
      hide Sane, Outcome, Counted, Interest;
      var i := 0;
      while i < |changes|
        modifies `io
        invariant i <= |changes|
        invariant io.Keys == old(io).Keys
        invariant forall fd :: fd in io ==>
                    io[fd] == if old(io)[fd].idxplus1 <= i then old(io)[fd].(idxplus1 := 0) else old(io)[fd]
      {
        var fd := changes[i].fd;
        assert ChangeOk(i, changes[i], old(io));
        assert forall f :: f in io && old(io)[f].idxplus1 == i + 1 ==> f == fd;
        io := io[fd := io[fd].(idxplus1 := 0)];
        i := i + 1;
      }
      changes := [];
    }

    /** epoll_dispatch up to epoll_wait */
    method Dispatch()
      requires Valid()
      modifies this
      ensures Valid() && changes == []
      ensures forall fd :: Entry(fd) == old(Entry(fd)).(idxplus1 := 0)
      ensures stale == old(stale) - (set ch | ch in old(changes) && Effective(ch) :: ch.fd)
      ensures forall fd :: fd !in stale ==> Agrees(KernelAt(fd), Interest(Entry(fd)))
    {
      hide Applied, Agrees, Sane, Outcome, Counted, Interest, Effective;
      var r := ApplyChanges();
      stale := stale - (set ch | ch in changes && Effective(ch) :: ch.fd);
      forall fd | fd !in stale
        ensures Agrees(KernelAt(fd), Interest(Entry(fd)))
      {
        if Entry(fd).idxplus1 > 0 {
          var ch := changes[Entry(fd).idxplus1 - 1];
          assert ChangeOk(Entry(fd).idxplus1 - 1, ch, io);
          AppliedAgrees(old(KernelAt(fd)), ch);
        }
      }
      label Before:
      RemoveAll();
      SettledBooks(old@Before(io), old@Before(changes), io);
      forall fd | fd !in stale
        ensures Agrees(KernelAt(fd), Told(Entry(fd), changes))
      {
        SameInterest(old@Before(Entry(fd)), 0);
      }
    }

    /** event_changelist_get_or_construct */
    method GetOrConstruct(fd: int, was: mask) returns (i: nat)
      requires Books() && fd in io && was == MaskOf(Interest(io[fd]))
      modifies `io, `changes
      ensures (io, changes) == Constructed(old(io), old(changes), fd, was)
      ensures i < |changes| && io[fd].idxplus1 == i + 1 && changes[i].fd == fd
    {
      if io[fd].idxplus1 == 0 {
        i := |changes|;
        changes := changes + [Change(fd, was, 0, 0, 0)];
        io := io[fd := io[fd].(idxplus1 := i + 1)];
      } else {
        i := io[fd].idxplus1 - 1;
      }
    }

    /** event_changelist_add_ */
    method ChangelistAdd(fd: int, was: mask, events: mask) returns (r: int)
      requires Books() && fd in io && was == MaskOf(Interest(io[fd]))
      modifies `io, `changes
      ensures r == 0
      ensures var c := Constructed(old(io), old(changes), fd, was);
              && io == c.0 && 0 < io[fd].idxplus1 <= |c.1|
              && changes == c.1[io[fd].idxplus1 - 1 := WithAdd(c.1[io[fd].idxplus1 - 1], events)]
    {
      var i := GetOrConstruct(fd, was);
      var evchange := CHANGE_ADD | (events & (EV_ET | EV_PERSIST | EV_SIGNAL));
      var change := changes[i];
      if events & (EV_READ | EV_SIGNAL) != 0 {
        change := change.(readChange := evchange);
      }
      if events & EV_WRITE != 0 {
        change := change.(writeChange := evchange);
      }
      if events & EV_CLOSED != 0 {
        change := change.(closeChange := evchange);
      }
      changes := changes[i := change];
      r := 0;
    }

    /** event_changelist_del_ */
    method ChangelistDel(fd: int, was: mask, events: mask) returns (r: int)
      requires Books() && fd in io && was == MaskOf(Interest(io[fd]))
      modifies `io, `changes
      ensures r == 0
      ensures var c := Constructed(old(io), old(changes), fd, was);
              && io == c.0 && 0 < io[fd].idxplus1 <= |c.1|
              && changes == c.1[io[fd].idxplus1 - 1 := WithDel(c.1[io[fd].idxplus1 - 1], events)]
    {
      var i := GetOrConstruct(fd, was);
      var del := CHANGE_DEL | (events & EV_ET);
      var change := changes[i];
      if events & (EV_READ | EV_SIGNAL) != 0 {
        change := change.(readChange := if change.oldEvents & (EV_READ | EV_SIGNAL) == 0 then 0 else del);
      }
      if events & EV_WRITE != 0 {
        change := change.(writeChange := if change.oldEvents & EV_WRITE == 0 then 0 else del);
      }
      if events & EV_CLOSED != 0 {
        change := change.(closeChange := if change.oldEvents & EV_CLOSED == 0 then 0 else del);
      }
      changes := changes[i := change];
      r := 0;
    }

    /** epoll_nochangelist_add */
    method NochangelistAdd(fd: int, was: mask, events: mask) returns (r: int)
      modifies `kernel
      ensures (KernelAt(fd), r) == Applied(old(KernelAt(fd)), AddNow(fd, was, events))
      ensures forall f :: f != fd ==> KernelIn(kernel, f) == KernelIn(old(kernel), f)
      ensures KindsIn(events) != NONE ==> Agrees(KernelAt(fd), KindsIn(was).Plus(KindsIn(events)))
    {
      hide Applied, Sane, Outcome, Effective, EdgeTriggered, KindsIn;
      var ch := Change(fd, was, 0, 0, 0);
      if events & EV_WRITE != 0 {
        ch := ch.(writeChange := CHANGE_ADD | (events & EV_ET));
      }
      if events & EV_READ != 0 {
        ch := ch.(readChange := CHANGE_ADD | (events & EV_ET));
      }
      if events & EV_CLOSED != 0 {
        ch := ch.(closeChange := CHANGE_ADD | (events & EV_ET));
      }
      NowOutcome(fd, was, events);
      if KindsIn(events) != NONE {
        AppliedAgrees(KernelAt(fd), ch);
      }
      r := ApplyOneChange(ch);
    }

    /** epoll_nochangelist_del */
    method NochangelistDel(fd: int, was: mask, events: mask) returns (r: int)
      modifies `kernel
      ensures (KernelAt(fd), r) == Applied(old(KernelAt(fd)), DeleteNow(fd, was, events))
      ensures forall f :: f != fd ==> KernelIn(kernel, f) == KernelIn(old(kernel), f)
      ensures KindsIn(events) != NONE ==> Agrees(KernelAt(fd), KindsIn(was).Minus(KindsIn(events)))
    {
      hide Applied, Sane, Outcome, Effective, EdgeTriggered, KindsIn;
      var ch := Change(fd, was, 0, 0, 0);
      if events & EV_WRITE != 0 {
        ch := ch.(writeChange := CHANGE_DEL | (events & EV_ET));
      }
      if events & EV_READ != 0 {
        ch := ch.(readChange := CHANGE_DEL | (events & EV_ET));
      }
      if events & EV_CLOSED != 0 {
        ch := ch.(closeChange := CHANGE_DEL | (events & EV_ET));
      }
      NowOutcome(fd, was, events);
      if KindsIn(events) != NONE {
        AppliedAgrees(KernelAt(fd), ch);
      }
      r := ApplyOneChange(ch);
    }

    /** Entry e may now be stored for the fd. */
    ghost predicate ReadyFor(fd: int, e: IoEntry)
      reads this
    {
      && fd in io && var io' := io[fd := e.(idxplus1 := io[fd].idxplus1)];
      && Booked(io', changes) && (!useChangelist ==> changes == [])
      && forall f :: f !in stale ==> Agrees(KernelAt(f), Told(EntryIn(io', f), changes))
    }

    /** The entries are those of before, up to the change slot of the fd. */
    ghost predicate EntriesKept(before: map<int, IoEntry>, fd: int)
      reads this
    {
      && fd in before && io.Keys == before.Keys && io[fd] == before[fd].(idxplus1 := io[fd].idxplus1)
      && forall f :: f != fd ==> EntryIn(io, f) == EntryIn(before, f)
    }

    /** The changelist takes the request. */
    method QueueAdd(fd: int, was: mask, events: mask, ghost e: IoEntry) returns (r: int)
      requires Valid() && useChangelist && fd in io && was == MaskOf(Interest(io[fd])) && events & EV_SIGNAL == 0
      requires Counted(e) && Interest(e) == Interest(io[fd]).Plus(KindsIn(events))
      modifies `io, `changes
      ensures ReadyFor(fd, e) && EntriesKept(old(io), fd) && r == 0
    {
      hide WithAdd, KindsIn, MaskOf, Interest, Counted, Agrees, Told, Booked, Constructed, Outcome, Sane, NoSignal;
      QueuedAdd(io, changes, fd, events, e);
      r := ChangelistAdd(fd, was, events);
    }

    /** The kernel is told at once. */
    method ApplyAdd(fd: int, was: mask, events: mask, ghost e: IoEntry) returns (r: int)
      requires Valid() && !useChangelist && fd in io && was == MaskOf(Interest(io[fd]))
      requires KindsIn(events) != NONE && Counted(e) && Interest(e) == Interest(io[fd]).Plus(KindsIn(events))
      modifies `kernel, `stale
      ensures ReadyFor(fd, e)
      ensures r == (if !old(KernelAt(fd)).Open() then -1 else 0) && (r == -1 ==> Valid())
      ensures stale == old(stale) - {fd} && forall f :: f != fd || r == -1 ==>
          KernelIn(kernel, f) == KernelIn(old(kernel), f)
    {
      AddNowAgrees(KernelAt(fd), fd, io[fd], events, e);
      EntryBooked(io, changes, fd, e.(idxplus1 := 0));
      assert !KernelAt(fd).Open() ==> Agrees(KernelAt(fd), Interest(io[fd]));
      hide AddNow, KindsIn, MaskOf, Interest, Counted, Agrees, Applied, Booked;
      r := NochangelistAdd(fd, was, events);
      stale := stale - {fd};
    }

    /** evsel->add: through the changelist, or at once */
    method BackendAdd(fd: int, was: mask, events: mask, ghost e: IoEntry) returns (r: int)
      requires Valid() && fd in io && was == MaskOf(Interest(io[fd])) && events & EV_SIGNAL == 0
      requires KindsIn(events) != NONE && Counted(e) && Interest(e) == Interest(io[fd]).Plus(KindsIn(events))
      modifies `io, `changes, `kernel, `stale
      ensures ReadyFor(fd, e) && fd in io && EntriesKept(old(io), fd)
      ensures r == (if !useChangelist && !old(KernelAt(fd)).Open() then -1 else 0) && (r == -1 ==> Valid())
      ensures useChangelist ==> kernel == old(kernel) && stale == old(stale)
      ensures !useChangelist ==> io == old(io) && changes == old(changes) && stale == old(stale) - {fd}
      ensures forall f :: f != fd || r == -1 ==> KernelIn(kernel, f) == KernelIn(old(kernel), f)
    {
      hide KindsIn, MaskOf, Interest, Counted, ReadyFor;
      if useChangelist {
        r := QueueAdd(fd, was, events, e);
      } else {
        r := ApplyAdd(fd, was, events, e);
      }
    }

    /** The changelist takes the request. */
    method QueueDel(fd: int, was: mask, events: mask, ghost e: IoEntry) returns (r: int)
      requires Valid() && useChangelist && fd in io && was == MaskOf(Interest(io[fd])) && events & EV_SIGNAL == 0
      requires Counted(e) && Interest(e) == Interest(io[fd]).Minus(KindsIn(events))
      modifies `io, `changes
      ensures ReadyFor(fd, e) && EntriesKept(old(io), fd) && r == 0
    {
      hide WithDel, KindsIn, MaskOf, Interest, Counted, Agrees, Told, Booked, Constructed, Outcome, Sane, NoSignal;
      QueuedDel(io, changes, fd, events, e);
      r := ChangelistDel(fd, was, events);
    }

    /** The kernel is told at once. */
    method ApplyDel(fd: int, was: mask, events: mask, ghost e: IoEntry) returns (r: int)
      requires Valid() && !useChangelist && fd in io && was == MaskOf(Interest(io[fd]))
      requires KindsIn(events) != NONE && Counted(e) && Interest(e) == Interest(io[fd]).Minus(KindsIn(events))
      modifies `kernel, `stale
      ensures ReadyFor(fd, e)
      ensures r == (if !old(KernelAt(fd)).Open() && Interest(e) != NONE then -1 else 0)
      ensures stale == old(stale) - {fd} && forall f :: f != fd || r == -1 ==>
          KernelIn(kernel, f) == KernelIn(old(kernel), f)
    {
      DelNowAgrees(KernelAt(fd), fd, io[fd], events, e);
      EntryBooked(io, changes, fd, e.(idxplus1 := 0));
      hide DeleteNow, KindsIn, MaskOf, Interest, Counted, Agrees, Applied, Booked;
      r := NochangelistDel(fd, was, events);
      stale := stale - {fd};
    }

    /** evsel->del: through the changelist, or at once */
    method BackendDel(fd: int, was: mask, events: mask, ghost e: IoEntry) returns (r: int)
      requires Valid() && fd in io && was == MaskOf(Interest(io[fd])) && events & EV_SIGNAL == 0
      requires KindsIn(events) != NONE && Counted(e) && Interest(e) == Interest(io[fd]).Minus(KindsIn(events))
      modifies `io, `changes, `kernel, `stale
      ensures ReadyFor(fd, e) && fd in io && EntriesKept(old(io), fd)
      ensures r == (if !useChangelist && !old(KernelAt(fd)).Open() && Interest(e) != NONE then -1 else 0)
      ensures useChangelist ==> kernel == old(kernel) && stale == old(stale)
      ensures !useChangelist ==> io == old(io) && changes == old(changes) && stale == old(stale) - {fd}
      ensures forall f :: f != fd || r == -1 ==> KernelIn(kernel, f) == KernelIn(old(kernel), f)
    {
      hide KindsIn, MaskOf, Interest, Counted, ReadyFor;
      if useChangelist {
        r := QueueDel(fd, was, events, e);
      } else {
        r := ApplyDel(fd, was, events, e);
      }
    }

    lemma Unchanged(fd: int, e: IoEntry)
      requires Valid() && fd in io && Counted(e) && e.idxplus1 == io[fd].idxplus1 && Interest(e) == Interest(io[fd])
      ensures ReadyFor(fd, e) && EntriesKept(io, fd)
    {
      hide Agrees, Counted, Interest;
      EntryBooked(io, changes, fd, e);
    }

    /** GET_IO_SLOT_AND_CTOR */
    method Slot(fd: int)
      requires Valid() && fd >= 0
      modifies `io
      ensures Valid() && fd in io && forall f :: EntryIn(io, f) == EntryIn(old(io), f)
    {
      hide Agrees;
      if fd !in io {
        EntryBooked(io, changes, fd, NO_ENTRY);
        io := io[fd := NO_ENTRY];
      }
    }

    /** The counts and the event list of an entry are stored. */
    method Store(fd: int, e: IoEntry, ghost before: map<int, IoEntry>)
      requires fd in io && ReadyFor(fd, e) && EntriesKept(before, fd)
      modifies `io
      ensures Valid() && io.Keys == before.Keys && Entry(fd) == e.(idxplus1 := old(Entry(fd)).idxplus1)
      ensures forall f :: f != fd ==> EntryIn(io, f) == EntryIn(before, f)
    {
      hide Agrees, Booked;
      io := io[fd := e.(idxplus1 := io[fd].idxplus1)];
    }

    /** The backend is told of the new kinds, if there are any. */
    method TellAdded(fd: int, events: mask, gained: Kinds, e: IoEntry) returns (r: int)
      requires Valid() && fd in io && Counted(e) && e.idxplus1 == io[fd].idxplus1
      requires Interest(e) == Interest(io[fd]).Plus(gained)
      modifies `io, `changes, `kernel, `stale
      ensures ReadyFor(fd, e) && fd in io && EntriesKept(old(io), fd)
      ensures r == if gained == NONE then 0 else if !useChangelist && !old(KernelAt(fd)).Open() then -1 else 1
      ensures r == -1 ==> Valid() && io == old(io) && changes == old(changes)
      ensures useChangelist || r == 0 ==> kernel == old(kernel) && stale == old(stale)
      ensures !useChangelist && r != 0 ==> stale == old(stale) - {fd}
      ensures forall f :: f != fd || r == -1 ==> KernelIn(kernel, f) == KernelIn(old(kernel), f)
    {
      hide KindsIn, MaskOf, Interest, Counted, ReadyFor, EntriesKept;
      if gained == NONE {
        r := 0;
        Unchanged(fd, e);
      } else {
        var res := MaskOf(gained);
        MaskRound(gained, events);
        r := BackendAdd(fd, MaskOf(Interest(io[fd])), (events & EV_ET) | res, e);
        if r != -1 {
          r := 1;
        }
      }
    }

    /** The backend is told of the lost kinds, if there are any. */
    method TellRemoved(fd: int, events: mask, lost: Kinds, e: IoEntry) returns (r: int)
      requires Valid() && fd in io && Counted(e) && e.idxplus1 == io[fd].idxplus1
      requires Interest(e) == Interest(io[fd]).Minus(lost)
      modifies `io, `changes, `kernel, `stale
      ensures ReadyFor(fd, e) && fd in io && EntriesKept(old(io), fd)
      ensures r == if lost == NONE then 0
          else if !useChangelist && !old(KernelAt(fd)).Open() && Interest(e) != NONE then -1 else 1
      ensures r == -1 ==> io == old(io) && changes == old(changes)
      ensures useChangelist || r == 0 ==> kernel == old(kernel) && stale == old(stale)
      ensures !useChangelist && r != 0 ==> stale == old(stale) - {fd}
      ensures forall f :: f != fd || r == -1 ==> KernelIn(kernel, f) == KernelIn(old(kernel), f)
    {
      hide KindsIn, MaskOf, Interest, Counted, ReadyFor, EntriesKept;
      if lost == NONE {
        r := 0;
        Unchanged(fd, e);
      } else {
        var res := MaskOf(lost);
        MaskRound(lost, events);
        r := BackendDel(fd, MaskOf(Interest(io[fd])), (events & EV_ET) | res, e);
        if r != -1 {
          r := 1;
        }
      }
    }

    /** evmap_io_add_ once the fd has an entry */
    method AddTo(fd: int, ev: Event) returns (r: int)
      requires Valid() && fd in io && fd >= 0
      modifies this
      ensures Valid() && fd in io
      ensures forall f :: f != fd || r == -1 ==> EntryIn(io, f) == EntryIn(old(io), f)
      ensures forall f :: f != fd || r == -1 ==> KernelIn(kernel, f) == KernelIn(old(kernel), f)
      ensures r == AddResult(fd, ev, old(io)[fd], debugMode, useChangelist || old(KernelAt(fd)).Open())
      ensures if r == -1 then changes == old(changes) else io[fd].events == [ev] + old(io)[fd].events
      ensures useChangelist || r == 0 ==> kernel == old(kernel) && stale == old(stale)
      ensures !useChangelist && r == 1 ==> stale == old(stale) - {fd}
    {
      var ctx := io[fd];
      assert EntryOk(fd, ctx, changes);
      var nread := ctx.nread + if Has(ev.events, EV_READ) then 1 else 0;
      var nwrite := ctx.nwrite + if Has(ev.events, EV_WRITE) then 1 else 0;
      var nclose := ctx.nclose + if Has(ev.events, EV_CLOSED) then 1 else 0;
      var gained := Gained(ctx, ev.events);
      hide Has, Agrees, KindsIn, MaskOf, Booked, KernelIn, Count, SameEdge;
      if nread > MAX_EVENTS || nwrite > MAX_EVENTS || nclose > MAX_EVENTS {
        return -1;
      }
      if debugMode && ctx.events != [] && !SameEdge(ctx.events[0], ev) {
        return -1;
      }
      var e := IoEntry(nread, nwrite, nclose, [ev] + ctx.events, ctx.idxplus1);
      AddedEntry(ctx, ev, e);
      hide Interest, Counted, InSync, Gained;
      r := Enter(fd, ev.events, gained, e);
    }

    /** The backend is told of the new kinds, and unless it fails the new entry is stored. */
    method Enter(fd: int, events: mask, gained: Kinds, e: IoEntry) returns (r: int)
      requires Valid() && fd in io && fd >= 0 && Counted(e) && e.idxplus1 == io[fd].idxplus1
      requires Interest(e) == Interest(io[fd]).Plus(gained)
      modifies this
      ensures Valid() && fd in io
      ensures forall f :: f != fd || r == -1 ==> EntryIn(io, f) == EntryIn(old(io), f)
      ensures forall f :: f != fd || r == -1 ==> KernelIn(kernel, f) == KernelIn(old(kernel), f)
      ensures r == if gained == NONE then 0 else if useChangelist || old(KernelAt(fd)).Open() then 1 else -1
      ensures if r == -1 then changes == old(changes) else io[fd].events == e.events
      ensures useChangelist || r == 0 ==> kernel == old(kernel) && stale == old(stale)
      ensures !useChangelist && r == 1 ==> stale == old(stale) - {fd}
    {
      ghost var before := io;
      hide Interest, Counted, ReadyFor, EntriesKept, InSync, Has, Agrees, KindsIn, MaskOf, Booked, KernelIn, Count;
      r := TellAdded(fd, events, gained, e);
      if r != -1 {
        Store(fd, e, before);
      }
    }

    /** evmap_io_add_: -1 on failure, 1 if the backend was told, 0 otherwise */
    method IoAdd(fd: int, ev: Event) returns (r: int)
      requires Valid()
      modifies this
      ensures Valid()
      ensures forall f :: f != fd || fd < 0 || r == -1 ==> EntryIn(io, f) == EntryIn(old(io), f)
      ensures forall f :: f != fd || fd < 0 || r == -1 ==> KernelIn(kernel, f) == KernelIn(old(kernel), f)
      ensures r == AddResult(fd, ev, old(Entry(fd)), debugMode, useChangelist || old(KernelAt(fd)).Open())
      ensures if fd < 0 || r == -1 then changes == old(changes) else Entry(fd).events == [ev] + old(Entry(fd)).events
      ensures useChangelist || r == 0 ==> kernel == old(kernel) && stale == old(stale)
      ensures !useChangelist && r == 1 ==> stale == old(stale) - {fd}
    {
      if fd < 0 {
        return 0;
      }
      Slot(fd);
      assert EntryIn(io, fd) == EntryIn(old(io), fd);
      hide Agrees, InSync, Books, AddResult, KernelIn;
      r := AddTo(fd, ev);
    }

    /** evmap_io_del_: -1 on failure, 1 if the backend was told, 0 otherwise; the event leaves the list in any case. */
    method IoDel(fd: int, ev: Event) returns (r: int)
      requires Valid() && (fd in io ==> ev in io[fd].events)
      modifies this
      ensures Valid() && io.Keys == old(io).Keys
      ensures forall f :: f != fd || f !in io ==> EntryIn(io, f) == EntryIn(old(io), f)
      ensures forall f :: f != fd || r != 1 ==> KernelIn(kernel, f) == KernelIn(old(kernel), f)
      ensures r == DelResult(fd, ev, old(io), useChangelist || old(KernelAt(fd)).Open())
      ensures fd in io ==> Entry(fd).events == Without(old(Entry(fd)).events, ev)
      ensures useChangelist || r == 0 ==> kernel == old(kernel) && stale == old(stale)
      ensures !useChangelist && r != 0 ==> stale == if fd in io then old(stale) - {fd} else old(stale)
    {
      if fd < 0 {
        return 0;
      }
      if fd !in io {
        return -1;
      }
      ghost var before := io;
      var ctx := io[fd];
      assert EntryOk(fd, ctx, changes);
      WithoutCount(ctx.events, ev, EV_READ);
      WithoutCount(ctx.events, ev, EV_WRITE);
      WithoutCount(ctx.events, ev, EV_CLOSED);
      var nread := ctx.nread - if Has(ev.events, EV_READ) then 1 else 0;
      var nwrite := ctx.nwrite - if Has(ev.events, EV_WRITE) then 1 else 0;
      var nclose := ctx.nclose - if Has(ev.events, EV_CLOSED) then 1 else 0;
      var lost := Lost(ctx, ev.events);
      hide Has, Agrees, KindsIn, MaskOf, Booked, KernelIn, Count;
      var e := IoEntry(nread, nwrite, nclose, Without(ctx.events, ev), ctx.idxplus1);
      RemovedEntry(ctx, ev, e);
      hide Interest, Counted, ReadyFor, EntriesKept, InSync;
      r := TellRemoved(fd, ev.events, lost, e);
      Store(fd, e, before);
    }

    /** The environment closes an fd. */
    method CloseFd(fd: int)
      requires Valid()
      modifies `kernel, `stale
      ensures Valid() && stale == old(stale) - {fd}
      ensures KernelAt(fd) == Closed && forall f :: f != fd ==> KernelIn(kernel, f) == KernelIn(old(kernel), f)
    {
      hide Told, Booked;
      kernel := kernel[fd := Closed];
      stale := stale - {fd};
    }

    /** The environment opens an fd again; it is stale if it was being watched when it was closed. */
    method OpenFd(fd: int, pollable: bool)
      requires Valid() && KernelAt(fd) == Closed
      modifies `kernel, `stale
      ensures Valid()
      ensures stale == if pollable && Told(Entry(fd), changes) != NONE then old(stale) + {fd} else old(stale) - {fd}
      ensures KernelAt(fd) == (if pollable then Idle else Unpollable)
      ensures forall f :: f != fd ==> KernelIn(kernel, f) == KernelIn(old(kernel), f)
    {
      kernel := kernel[fd := if pollable then Idle else Unpollable];
      stale := if pollable && Told(Entry(fd), changes) != NONE then stale + {fd} else stale - {fd};
    }
  }

  lemma SameInterest(e: IoEntry, idxplus1: nat)
    ensures Interest(e.(idxplus1 := idxplus1)) == Interest(e) && Counted(e.(idxplus1 := idxplus1)) == Counted(e)
  {
  }

  lemma SettledBooks(io: map<int, IoEntry>, changes: seq<Change>, io': map<int, IoEntry>)
    requires Booked(io, changes) && io'.Keys == io.Keys
    requires forall fd :: fd in io ==> io'[fd] == io[fd].(idxplus1 := 0)
    ensures Booked(io', [])
  {
    hide Counted, Interest, Outcome, Sane;
    forall fd | fd in io'
      ensures EntryOk(fd, io'[fd], [])
    {
      SameInterest(io[fd], 0);
      assert EntryOk(fd, io[fd], changes);
    }
  }

  lemma RecordAdd(io: map<int, IoEntry>, changes: seq<Change>, fd: int, events: mask, e: IoEntry)
    requires Booked(io, changes) && fd in io && io[fd].idxplus1 > 0 && Counted(e)
    requires events & EV_SIGNAL == 0 && Interest(e) == Interest(io[fd]).Plus(KindsIn(events))
    ensures var i := io[fd].idxplus1 - 1;
            i < |changes| &&
            var io', changes' := io[fd := e.(idxplus1 := i + 1)], changes[i := WithAdd(changes[i], events)];
            Booked(io', changes') && forall f :: f in io ==> Told(io'[f], changes') == Told(io[f], changes)
  {
    var i := io[fd].idxplus1 - 1;
    assert EntryOk(fd, io[fd], changes) && ChangeOk(i, changes[i], io);
    AddOutcome(changes[i], events);
    SameInterest(e, i + 1);
    hide Outcome, Counted, Interest, Sane;
    ReplacedBooked(io, changes, fd, e.(idxplus1 := i + 1), WithAdd(changes[i], events));
  }

  lemma RecordDel(io: map<int, IoEntry>, changes: seq<Change>, fd: int, events: mask, e: IoEntry)
    requires Booked(io, changes) && fd in io && io[fd].idxplus1 > 0 && Counted(e)
    requires events & EV_SIGNAL == 0 && Interest(e) == Interest(io[fd]).Minus(KindsIn(events))
    ensures var i := io[fd].idxplus1 - 1;
            i < |changes| &&
            var io', changes' := io[fd := e.(idxplus1 := i + 1)], changes[i := WithDel(changes[i], events)];
            Booked(io', changes') && forall f :: f in io ==> Told(io'[f], changes') == Told(io[f], changes)
  {
    var i := io[fd].idxplus1 - 1;
    assert EntryOk(fd, io[fd], changes) && ChangeOk(i, changes[i], io);
    DelOutcome(changes[i], events);
    SameInterest(e, i + 1);
    hide Outcome, Counted, Interest, Sane;
    ReplacedBooked(io, changes, fd, e.(idxplus1 := i + 1), WithDel(changes[i], events));
  }

  lemma AddNowAgrees(k: Kernel, fd: int, e0: IoEntry, events: mask, e: IoEntry)
    requires KindsIn(events) != NONE && Interest(e) == Interest(e0).Plus(KindsIn(events))
    ensures var r := Applied(k, AddNow(fd, MaskOf(Interest(e0)), events));
            && r.1 == (if !k.Open() then -1 else 0) && (r.1 == -1 ==> r.0 == k)
            && Agrees(r.0, Interest(e.(idxplus1 := 0)))
  {
    var was := MaskOf(Interest(e0));
    NowOutcome(fd, was, events);
    MaskRound(Interest(e0), 0);
    AppliedAgrees(k, AddNow(fd, was, events));
    SameInterest(e, 0);
    hide Agrees, Effective, Outcome, KindsIn, MaskOf, WatchFor, AddNow, EdgeTriggered;
  }

  lemma DelNowAgrees(k: Kernel, fd: int, e0: IoEntry, events: mask, e: IoEntry)
    requires KindsIn(events) != NONE && Interest(e) == Interest(e0).Minus(KindsIn(events))
    ensures var r := Applied(k, DeleteNow(fd, MaskOf(Interest(e0)), events));
            && r.1 == (if !k.Open() && Interest(e) != NONE then -1 else 0) && (r.1 == -1 ==> r.0 == k)
            && Agrees(r.0, Interest(e.(idxplus1 := 0)))
  {
    var was := MaskOf(Interest(e0));
    NowOutcome(fd, was, events);
    MaskRound(Interest(e0), 0);
    AppliedAgrees(k, DeleteNow(fd, was, events));
    SameInterest(e, 0);
    hide Agrees, Effective, Outcome, KindsIn, MaskOf, WatchFor, DeleteNow, EdgeTriggered;
  }

  lemma QueuedAdd(io: map<int, IoEntry>, changes: seq<Change>, fd: int, events: mask, e: IoEntry)
    requires Booked(io, changes) && fd in io && Counted(e)
    requires events & EV_SIGNAL == 0 && Interest(e) == Interest(io[fd]).Plus(KindsIn(events))
    ensures var c := Constructed(io, changes, fd, MaskOf(Interest(io[fd])));
            && c.0.Keys == io.Keys && c.0[fd] == io[fd].(idxplus1 := c.0[fd].idxplus1)
            && (forall f :: f in io && f != fd ==> c.0[f] == io[f])
            && 0 < c.0[fd].idxplus1 <= |c.1|
            && var i := c.0[fd].idxplus1 - 1;
            var io', changes' := c.0[fd := e.(idxplus1 := i + 1)], c.1[i := WithAdd(c.1[i], events)];
            Booked(io', changes') && forall f :: Told(EntryIn(io', f), changes') == Told(EntryIn(io, f), changes)
  {
    var c := Constructed(io, changes, fd, MaskOf(Interest(io[fd])));
    ConstructedBooked(io, changes, fd);
    SameInterest(io[fd], c.0[fd].idxplus1);
    hide WithAdd, KindsIn, MaskOf, Interest, Counted;
    RecordAdd(c.0, c.1, fd, events, e);
  }

  lemma QueuedDel(io: map<int, IoEntry>, changes: seq<Change>, fd: int, events: mask, e: IoEntry)
    requires Booked(io, changes) && fd in io && Counted(e)
    requires events & EV_SIGNAL == 0 && Interest(e) == Interest(io[fd]).Minus(KindsIn(events))
    ensures var c := Constructed(io, changes, fd, MaskOf(Interest(io[fd])));
            && c.0.Keys == io.Keys && c.0[fd] == io[fd].(idxplus1 := c.0[fd].idxplus1)
            && (forall f :: f in io && f != fd ==> c.0[f] == io[f])
            && 0 < c.0[fd].idxplus1 <= |c.1|
            && var i := c.0[fd].idxplus1 - 1;
            var io', changes' := c.0[fd := e.(idxplus1 := i + 1)], c.1[i := WithDel(c.1[i], events)];
            Booked(io', changes') && forall f :: Told(EntryIn(io', f), changes') == Told(EntryIn(io, f), changes)
  {
    var c := Constructed(io, changes, fd, MaskOf(Interest(io[fd])));
    ConstructedBooked(io, changes, fd);
    SameInterest(io[fd], c.0[fd].idxplus1);
    hide WithDel, KindsIn, MaskOf, Interest, Counted;
    RecordDel(c.0, c.1, fd, events, e);
  }

  /** The kinds whose first event this is */
  function Gained(e: IoEntry, events: mask): Kinds {
    Kinds(Has(events, EV_READ) && e.nread == 0, Has(events, EV_WRITE) && e.nwrite == 0, Has(events, EV_CLOSED) &&
        e.nclose == 0)
  }

  /** The kinds whose last event this is */
  function Lost(e: IoEntry, events: mask): Kinds {
    Kinds(Has(events, EV_READ) && e.nread == 1, Has(events, EV_WRITE) && e.nwrite == 1, Has(events, EV_CLOSED) &&
        e.nclose == 1)
  }

  /** Both events are edge-triggered, or neither is. */
  predicate SameEdge(ev: Event, other: Event) {
    ev.events & EV_ET == other.events & EV_ET
  }

  /** An add fails when a count is at its limit, when debug mode finds an edge-triggered event mixed with another, or
      when the kernel refuses a new kind; otherwise it reports new kinds. */
  function AddResult(fd: int, ev: Event, e: IoEntry, debugMode: bool, accepted: bool): int {
    if fd < 0 then 0
    else if Full(e.nread, ev.events, EV_READ) || Full(e.nwrite, ev.events, EV_WRITE) || Full(e.nclose, ev.events,
        EV_CLOSED) then -1
    else if debugMode && e.events != [] && !SameEdge(e.events[0], ev) then -1
    else if Gained(e, ev.events) == NONE then 0
    else if accepted then 1 else -1
  }

  predicate Full(n: nat, events: mask, kind: mask) {
    Has(events, kind) && n >= MAX_EVENTS
  }

  lemma AddedEntry(ctx: IoEntry, ev: Event, e: IoEntry)
    requires Counted(ctx) && e.events == [ev] + ctx.events
    requires e.nread == ctx.nread + (if Has(ev.events, EV_READ) then 1 else 0) <= MAX_EVENTS
    requires e.nwrite == ctx.nwrite + (if Has(ev.events, EV_WRITE) then 1 else 0) <= MAX_EVENTS
    requires e.nclose == ctx.nclose + (if Has(ev.events, EV_CLOSED) then 1 else 0) <= MAX_EVENTS
    ensures Counted(e) && Interest(e) == Interest(ctx).Plus(Gained(ctx, ev.events))
  {
    hide Has;
    assert e.events[1..] == ctx.events;
  }

  /** A delete of an unknown fd fails, and so does one that must leave a watch on an fd the kernel refuses. */
  function DelResult(fd: int, ev: Event, io: map<int, IoEntry>, accepted: bool): int {
    if fd < 0 then 0
    else if fd !in io then -1
    else if Lost(io[fd], ev.events) == NONE then 0
    else if accepted || Interest(io[fd]).Minus(Lost(io[fd], ev.events)) == NONE then 1
    else -1
  }

  lemma RemovedEntry(ctx: IoEntry, ev: Event, e: IoEntry)
    requires Counted(ctx) && ev in ctx.events && e.events == Without(ctx.events, ev)
    requires ctx.nread == e.nread + (if Has(ev.events, EV_READ) then 1 else 0)
    requires ctx.nwrite == e.nwrite + (if Has(ev.events, EV_WRITE) then 1 else 0)
    requires ctx.nclose == e.nclose + (if Has(ev.events, EV_CLOSED) then 1 else 0)
    ensures Counted(e) && Interest(e) == Interest(ctx).Minus(Lost(ctx, ev.events))
  {
    hide Has;
    WithoutCount(ctx.events, ev, EV_READ);
    WithoutCount(ctx.events, ev, EV_WRITE);
    WithoutCount(ctx.events, ev, EV_CLOSED);
  }

  /** What the table says, in terms of the outcome of the change */
  lemma RowMeaning(ch: Change)
    requires Sane(ch)
    ensures var row := OpTable(ch);
            && (row.events == 0 <==> !Effective(ch))
            && (Effective(ch) && Outcome(ch) == NONE ==> row.op == CTL_DEL)
            && (Effective(ch) && Outcome(ch) != NONE ==>
                  && (row.op == CTL_ADD || row.op == CTL_MOD)
                  && row.events | Pick(EdgeTriggered(ch), EPOLLET) == WatchFor(Outcome(ch), EdgeTriggered(ch)))
  {
    hide OpTable, Effective, Outcome, EdgeTriggered, Target, Sane, WatchFor, EpollOf, Pick;
    OutcomeTarget(ch);
    WatchForIs(Outcome(ch), EdgeTriggered(ch));
    if !Effective(ch) {
      TableIdle(ch);
    } else if Target(ch) == 0 {
      TableDrops(ch);
    } else {
      TableSets(ch);
    }
  }

  // ---- a history of requests on one fd, coalesced or applied one by one ----

  datatype Request = Request(add: bool, events: mask)

  /** A level-triggered request for some kinds, as evmap makes it */
  predicate Proper(q: Request) {
    q.events & (EV_ET | EV_SIGNAL) == 0 && KindsIn(q.events) != NONE
  }

  ghost predicate AllProper(h: seq<Request>) {
    forall i :: 0 <= i < |h| ==> Proper(h[i])
  }

  function Wanted(was: Kinds, q: Request): Kinds {
    if q.add then was.Plus(KindsIn(q.events)) else was.Minus(KindsIn(q.events))
  }

  function WantedAll(was: Kinds, h: seq<Request>): Kinds {
    if h == [] then was else Wanted(WantedAll(was, h[..|h| - 1]), h[|h| - 1])
  }

  /** The pending change after a history of requests */
  function Coalesced(fd: int, was: Kinds, h: seq<Request>): Change {
    if h == [] then Change(fd, MaskOf(was), 0, 0, 0)
    else
      var ch, q := Coalesced(fd, was, h[..|h| - 1]), h[|h| - 1];
      if q.add then WithAdd(ch, q.events) else WithDel(ch, q.events)
  }

  /** The kernel after each request is applied at once */
  function OneByOne(k: Kernel, fd: int, was: Kinds, h: seq<Request>): Kernel {
    if h == [] then k
    else
      var k', now, q := OneByOne(k, fd, was, h[..|h| - 1]), MaskOf(WantedAll(was, h[..|h| - 1])), h[|h| - 1];
      Applied(k', if q.add then AddNow(fd, now, q.events) else DeleteNow(fd, now, q.events)).0
  }

  /** A level-triggered watch for exactly these kinds */
  function Exactly(kinds: Kinds): Kernel {
    if kinds == NONE then Idle else Watched(EpollOf(kinds))
  }

  lemma NoEdge(events: mask, fd: int, was: mask)
    requires events & (EV_ET | EV_SIGNAL) == 0
    ensures !EdgeTriggered(AddNow(fd, was, events)) && !EdgeTriggered(DeleteNow(fd, was, events))
  {
  }

  lemma NoEdgeAdded(ch: Change, events: mask)
    requires !EdgeTriggered(ch) && events & (EV_ET | EV_SIGNAL) == 0
    ensures !EdgeTriggered(WithAdd(ch, events)) && !EdgeTriggered(WithDel(ch, events))
  {
  }

  lemma AppliedExactly(k: Kernel, ch: Change)
    requires k.Open() && !EdgeTriggered(ch)
    ensures Applied(k, ch).0 == if Effective(ch) then Exactly(Outcome(ch)) else k
  {
    hide Effective, Outcome, EpollOf, EdgeTriggered;
  }

  lemma {:induction false} OneByOneExactly(k: Kernel, fd: int, was: Kinds, h: seq<Request>)
    requires k.Open() && AllProper(h)
    ensures OneByOne(k, fd, was, h) == if h == [] then k else Exactly(WantedAll(was, h))
  {
    if h != [] {
      var h', q := h[..|h| - 1], h[|h| - 1];
      assert Proper(q);
      OneByOneExactly(k, fd, was, h');
      var now := WantedAll(was, h');
      NoEdge(q.events, fd, MaskOf(now));
      NowOutcome(fd, MaskOf(now), q.events);
      MaskRound(now, 0);
      hide Effective, Outcome, EpollOf, EdgeTriggered, MaskOf, KindsIn, AddNow, DeleteNow, Applied;
      AppliedExactly(OneByOne(k, fd, was, h'), if q.add then AddNow(fd, MaskOf(now), q.events)
          else DeleteNow(fd, MaskOf(now), q.events));
    }
  }

  /** However requests are coalesced, the change leads to the kinds that remain wanted. */
  lemma {:induction false} CoalescedOutcome(fd: int, was: Kinds, h: seq<Request>)
    requires AllProper(h)
    ensures var ch := Coalesced(fd, was, h);
            && Sane(ch) && !EdgeTriggered(ch) && ch.oldEvents == MaskOf(was) && ch.fd == fd
            && Outcome(ch) == WantedAll(was, h)
  {
    MaskRound(was, 0);
    if h == [] {
      IneffectiveOutcome(Change(fd, MaskOf(was), 0, 0, 0));
    } else {
      var h', q := h[..|h| - 1], h[|h| - 1];
      assert Proper(q);
      assert q.events & EV_SIGNAL == 0;
      CoalescedOutcome(fd, was, h');
      var ch := Coalesced(fd, was, h');
      NoEdgeAdded(ch, q.events);
      AddOutcome(ch, q.events);
      DelOutcome(ch, q.events);
      hide Outcome, EdgeTriggered, MaskOf, KindsIn, Sane;
    }
  }

  /** Over any history on an open fd, one coalesced change leaves in the kernel what applying every request at once
      leaves there, exactly unless it adds and deletes nothing and the kernel held something else to begin with. */
  lemma CoalescedIsOneByOne(k: Kernel, fd: int, was: Kinds, h: seq<Request>)
    requires k.Open() && AllProper(h) && h != []
    ensures (Applied(k, Coalesced(fd, was, h)).0 == OneByOne(k, fd, was, h))
            <==> (Effective(Coalesced(fd, was, h)) || k == Exactly(was))
  {
    var ch := Coalesced(fd, was, h);
    CoalescedOutcome(fd, was, h);
    OneByOneExactly(k, fd, was, h);
    AppliedExactly(k, ch);
    MaskRound(was, 0);
    if !Effective(ch) {
      IneffectiveOutcome(ch);
    }
    hide Outcome, EdgeTriggered, MaskOf, KindsIn, Sane, Effective, EpollOf, Applied, Coalesced, OneByOne, WantedAll;
  }

  /** A case in which they differ: an fd watched for reading was closed and opened again, and a write event is added and
      deleted before the next dispatch. One by one the kernel learns of reading again; coalesced it learns nothing. */
  lemma CoalescedDiffers()
    ensures var was, h := Kinds(true, false, false), [Request(true, EV_WRITE), Request(false, EV_WRITE)];
            && AllProper(h) && Applied(Idle, Coalesced(0, was, h)).0 == Idle
            && OneByOne(Idle, 0, was, h) == Exactly(was) && Exactly(was) != Idle
  {
    var was, add, del := Kinds(true, false, false), Request(true, EV_WRITE), Request(false, EV_WRITE);
    var h := [add, del];
    assert Proper(add) && Proper(del);
    assert h[..1] == [add] && [add][..0] == [];
    var ch0 := Coalesced(0, was, []);
    var ch1 := Coalesced(0, was, [add]);
    assert ch1 == WithAdd(ch0, EV_WRITE) && Coalesced(0, was, h) == WithDel(ch1, EV_WRITE);
    assert !Effective(WithDel(ch1, EV_WRITE));
    OneByOneExactly(Idle, 0, was, h);
    assert WantedAll(was, [add]) == Wanted(was, add) && WantedAll(was, h) == Wanted(Wanted(was, add), del) == was;
  }
}
