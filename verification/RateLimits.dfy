/** Rate limits of a bufferevent and of a group of them: who may move how much, who is suspended, and who is woken. */
module RateLimits {
  import opened Bytes
  import opened TokenBuckets

  /** Why one direction of a bufferevent is suspended: BEV_SUSPEND_* */
  datatype Reason = WM | BW | BW_GROUP | LOOKUP | FILT_READ

  /** One direction: the reasons to be suspended, whether the user enabled it, and whether the backend runs it. */
  datatype Flow = Flow(suspended: set<Reason>, enabled: bool, running: bool) {
    predicate Ok() {
      running <==> enabled && suspended == {}
    }
  }

  /** The marks still to be set on a bufferevent whose lock the thread that adds it to a group still holds */
  datatype Joining = Joining(read: bool, write: bool) {
    function Mark(w: bool): bool {
      if w then write else read
    }
  }

  const MAX_SINGLE_DEFAULT: nat := 16384

  function Max(a: int, b: int): int {
    if a < b then b else a
  }

  /** Division of the C language, which truncates toward zero */
  function Quotient(a: int, b: nat): int
    requires b > 0
  {
    if a < 0 then -(-a / b) else a / b
  }

  /** The rate-limiting part of struct bufferevent_private */
  class Bufferevent {
    var read: Flow
    var write: Flow
    var maxSingleRead: nat
    var maxSingleWrite: nat
    var cfg: Option<Cfg>
    var limit: Bucket
    var refillPending: bool
    var group: Group?
    var joining: Option<Joining>

    constructor ()
      ensures Valid() && group == null && joining == None && cfg == None && read == write == Flow({}, false, false)
    {
      read, write := Flow({}, false, false), Flow({}, false, false);
      maxSingleRead, maxSingleWrite := MAX_SINGLE_DEFAULT, MAX_SINGLE_DEFAULT;
      cfg, limit, refillPending, group, joining := None, Bucket(0, 0, 0), false, null, None;
    }

    function Side(w: bool): Flow
      reads this
    {
      if w then write else read
    }

    function MaxSingle(w: bool): nat
      reads this
    {
      if w then maxSingleWrite else maxSingleRead
    }

    ghost predicate Valid()
      reads this
    {
      Sound() && InBounds()
    }

    /** No limit is above its maximum, as after a refund it may be. */
    ghost predicate InBounds()
      reads `cfg, `limit
    {
      cfg.Some? ==> limit.Within(cfg.value)
    }

    /** An exhausted bucket suspends its direction, and a direction so suspended has a refill coming. */
    ghost predicate Sound()
      reads this
    {
      && read.Ok() && write.Ok() && maxSingleRead <= SSIZE_MAX && maxSingleWrite <= SSIZE_MAX
      && match cfg
         case None => BW !in read.suspended && BW !in write.suspended && !refillPending
         case Some(c) =>
           && c.Ok() && c.msecPerTick > 0 && limit.Held()
           && (limit.readLimit <= 0 ==> BW in read.suspended)
           && (limit.writeLimit <= 0 ==> BW in write.suspended)
           && (BW in read.suspended || BW in write.suspended ==> refillPending)
    }

    /** bufferevent_suspend_read_ and bufferevent_suspend_write_ */
    method Suspend(w: bool, what: Reason)
      requires read.Ok() && write.Ok()
      modifies `read, `write
      ensures read.Ok() && write.Ok() && Side(!w) == old(Side(!w))
      ensures Side(w).suspended == old(Side(w)).suspended + {what} && Side(w).enabled == old(Side(w)).enabled
    {
      var f := Side(w);
      if f.suspended == {} {
        f := f.(running := false);
      }
      f := f.(suspended := f.suspended + {what});
      if w {
        write := f;
      } else {
        read := f;
      }
    }

    /** bufferevent_unsuspend_read_ and bufferevent_unsuspend_write_ */
    method Unsuspend(w: bool, what: Reason)
      requires read.Ok() && write.Ok()
      modifies `read, `write
      ensures read.Ok() && write.Ok() && Side(!w) == old(Side(!w))
      ensures Side(w).suspended == old(Side(w)).suspended - {what} && Side(w).enabled == old(Side(w)).enabled
    {
      var f := Side(w);
      f := f.(suspended := f.suspended - {what});
      if f.suspended == {} && f.enabled {
        f := f.(running := true);
      }
      if w {
        write := f;
      } else {
        read := f;
      }
    }

    /** bufferevent_enable, of a bufferevent whose backend agrees */
    method Enable(r: bool, w: bool)
      requires Sound()
      modifies `read, `write
      ensures Sound() && (old(Valid()) ==> Valid())
      ensures forall d :: Side(d).suspended == old(Side(d)).suspended
      ensures forall d :: Side(d).enabled <==> old(Side(d)).enabled || (if d then w else r)
    {
      var implRead, implWrite := r && read.suspended == {}, w && write.suspended == {};
      read := read.(enabled := read.enabled || r);
      write := write.(enabled := write.enabled || w);
      if implRead {
        read := read.(running := true);
      }
      if implWrite {
        write := write.(running := true);
      }
    }

    /** bufferevent_disable */
    method Disable(r: bool, w: bool)
      requires Sound()
      modifies `read, `write
      ensures Sound() && (old(Valid()) ==> Valid())
      ensures forall d :: Side(d).suspended == old(Side(d)).suspended
      ensures forall d :: Side(d).enabled <==> old(Side(d)).enabled && !(if d then w else r)
    {
      if r {
        read := read.(enabled := false, running := false);
      }
      if w {
        write := write.(enabled := false, running := false);
      }
    }

    /** A refill takes the limit of a direction that is not suspended to zero or below, as an overrun does. */
    predicate Loses(now: Time)
      reads this
    {
      && cfg.Some? && cfg.value.msecPerTick > 0
      && var tick := GetTick(now, cfg.value);
      || (BW !in read.suspended && Overrun(limit, cfg.value, false, tick))
      || (BW !in write.suspended && Overrun(limit, cfg.value, true, tick))
    }

    /** bufferevent_update_buckets */
    method UpdateBuckets(now: Time)
      requires Sound() && cfg.Some?
      modifies `limit
      ensures limit == Refreshed(old(limit), cfg.value, GetTick(now, cfg.value))
      ensures old(Valid()) ==> Valid() && limit == Updated(old(limit), cfg.value, GetTick(now, cfg.value))
      ensures Sound() <==> !old(Loses(now))
    {
      hide Refreshed, Updated, Overrun, GetTick;
      var tick := GetTick(now, cfg.value);
      TickFits(now, cfg.value);
      RefreshedIs(limit, cfg.value, tick);
      if tick != limit.lastUpdated {
        var b, r := Update(limit, cfg.value, tick);
        limit := b;
      }
    }

    /** The marks found due when this bufferevent was put into a group's list are set. */
    method SetMarks()
      requires Sound() && joining.Some?
      modifies `read, `write, `joining
      ensures Sound() && joining.None?
      ensures forall w ::
          Side(w).suspended == old(Side(w)).suspended + if old(joining).value.Mark(w) then {BW_GROUP} else {}
      ensures forall w :: Side(w).enabled == old(Side(w)).enabled
    {
      if joining.value.read {
        Suspend(false, BW_GROUP);
      }
      if joining.value.write {
        Suspend(true, BW_GROUP);
      }
      joining := None;
    }

    /** bufferevent_get_rlim_max_, for a bufferevent in no group */
    method GetRlimMax(w: bool, now: Time) returns (r: nat)
      requires Sound() && group == null
      modifies `limit
      ensures (Sound() <==> !old(Loses(now))) && (old(Valid()) ==> Valid())
      ensures limit == if cfg.Some? then Refreshed(old(limit), cfg.value, GetTick(now, cfg.value)) else old(limit)
      ensures r == Max(0, if cfg.Some? then limit.Limit(w) else MaxSingle(w))
    {
      var maxSoFar: int := MaxSingle(w);
      if cfg.Some? {
        UpdateBuckets(now);
        maxSoFar := limit.Limit(w);
      }
      r := if maxSoFar < 0 then 0 else maxSoFar;
    }

    /** The part of bufferevent_decrement_read_buckets_ and of its twin that charges the bufferevent's own bucket */
    method ChargeOwn(w: bool, bytes: int)
      requires Sound() && (cfg.Some? ==> SSIZE_MIN <= limit.Limit(w) - bytes <= SSIZE_MAX)
      modifies `limit, `read, `write, `refillPending
      ensures Sound() && (old(Valid()) && bytes >= 0 ==> Valid())
      ensures cfg.None? ==> limit == old(limit) && read == old(read) && write == old(write)
      ensures cfg.Some? ==> limit == Charged(old(limit), w, bytes)
      ensures cfg.Some? ==> Side(w).suspended ==
                            if limit.Limit(w) <= 0 then old(Side(w)).suspended + {BW} else old(Side(w)).suspended - {BW}
      ensures Side(!w) == old(Side(!w)) && Side(w).enabled == old(Side(w)).enabled
    {
      if cfg.Some? {
        limit := if w then limit.(writeLimit := limit.writeLimit - bytes)
            else limit.(readLimit := limit.readLimit - bytes);
        if limit.Limit(w) <= 0 {
          Suspend(w, BW);
          refillPending := true;
        } else if BW in Side(w).suspended {
          if BW !in Side(!w).suspended {
            refillPending := false;
          }
          Unsuspend(w, BW);
        }
      }
    }

    /** bufferevent_decrement_read_limit and bufferevent_decrement_write_limit: a charge or a refund by the user */
    method DecrementLimit(w: bool, decr: int)
      requires Sound() && cfg.Some? && SSIZE_MIN <= limit.Limit(w) - decr <= SSIZE_MAX
      modifies `limit, `read, `write, `refillPending
      ensures Sound() && (old(Valid()) && decr >= 0 ==> Valid())
      ensures limit == Charged(old(limit), w, decr)
      ensures Side(w).suspended == (
          if limit.Limit(w) <= 0 then old(Side(w)).suspended + {BW}
          else if old(limit).Limit(w) <= 0 then old(Side(w)).suspended - {BW}
          else old(Side(w)).suspended)
      ensures Side(!w) == old(Side(!w)) && Side(w).enabled == old(Side(w)).enabled
    {
      var oldLimit := limit.Limit(w);
      limit := if w then limit.(writeLimit := limit.writeLimit - decr) else limit.(readLimit := limit.readLimit - decr);
      if oldLimit > 0 && limit.Limit(w) <= 0 {
        Suspend(w, BW);
        refillPending := true;
      } else if oldLimit <= 0 && limit.Limit(w) > 0 {
        if BW !in Side(!w).suspended {
          refillPending := false;
        }
        Unsuspend(w, BW);
      }
    }

    /** bev_refill_callback_, when the timer goes off */
    method RefillCallback(now: Time)
      requires Sound() && refillPending
      modifies `limit, `read, `write, `refillPending
      ensures (Sound() <==> !old(Loses(now))) && (old(Valid()) ==> Valid())
      ensures cfg.Some? && limit == Refreshed(old(limit), cfg.value, GetTick(now, cfg.value))
      ensures forall w :: Side(w).enabled == old(Side(w)).enabled
      ensures forall w ::
          Side(w).suspended == if limit.Limit(w) > 0 then old(Side(w)).suspended - {BW} else old(Side(w)).suspended
    {
      refillPending := false;
      hide Refreshed, Updated, Overrun, GetTick;
      TickFits(now, cfg.value);
      RefreshedIs(limit, cfg.value, GetTick(now, cfg.value));
      var b, r := Update(limit, cfg.value, GetTick(now, cfg.value));
      limit := b;
      var again1 := Wake(false);
      var again2 := Wake(true);
      if again1 || again2 {
        refillPending := true;
      }
    }

    /** A direction suspended for bandwidth is woken if there is some, or needs another refill. */
    method Wake(w: bool) returns (again: bool)
      requires read.Ok() && write.Ok()
      modifies `read, `write
      ensures read.Ok() && write.Ok() && Side(!w) == old(Side(!w)) && Side(w).enabled == old(Side(w)).enabled
      ensures Side(w).suspended == if limit.Limit(w) > 0 then old(Side(w)).suspended - {BW} else old(Side(w)).suspended
      ensures again <==> BW in Side(w).suspended
    {
      again := false;
      if BW in Side(w).suspended {
        if limit.Limit(w) > 0 {
          Unsuspend(w, BW);
        } else {
          again := true;
        }
      }
    }

    /** bufferevent_set_rate_limit; same says that the configuration is the very one in force. */
    method SetRateLimit(c: Option<Cfg>, same: bool, now: Time)
      requires Sound() && (c.Some? ==> c.value.Ok() && c.value.msecPerTick > 0) && (same ==> c == cfg)
      modifies `cfg, `limit, `read, `write, `refillPending
      ensures Sound() && (old(Valid()) || !same ==> Valid()) && cfg == c
      ensures forall w ::
          Side(w).enabled == old(Side(w)).enabled && Side(w).suspended - {BW} == old(Side(w)).suspended - {BW}
      ensures same ==>
          read.suspended == old(read).suspended && write.suspended == old(write).suspended && limit == old(limit)
      ensures !same ==> forall w :: BW in Side(w).suspended <==> c.Some? && limit.Limit(w) <= 0
      ensures c.Some? && old(cfg).Some? && !same ==>
          forall w :: limit.Limit(w) == Min(old(limit).Limit(w), c.value.Maximum(w))
      ensures c.Some? && old(cfg).None? ==> forall w :: limit.Limit(w) == c.value.Rate(w)
    {
      if c.None? {
        cfg := None;
        Unsuspend(false, BW);
        Unsuspend(true, BW);
        refillPending := false;
        return;
      }
      if same {
        return;
      }
      var reinit := cfg.Some?;
      cfg := c;
      limit := Init(limit, c.value, GetTick(now, c.value), reinit);
      refillPending := false;
      var again := false;
      if limit.readLimit > 0 {
        Unsuspend(false, BW);
      } else {
        Suspend(false, BW);
        again := true;
      }
      if limit.writeLimit > 0 {
        Unsuspend(true, BW);
      } else {
        Suspend(true, BW);
        again := true;
      }
      if again {
        refillPending := true;
      }
    }
  }

  /** struct bufferevent_rate_limit_group */
  class Group {
    var cfg: Cfg
    var limit: Bucket
    var readSuspended: bool
    var writeSuspended: bool
    var pendingRead: bool
    var pendingWrite: bool
    var totalRead: nat
    var totalWritten: nat
    var minShare: nat
    var configuredMinShare: nat
    var members: seq<Bufferevent>

    function Suspended(w: bool): bool
      reads this
    {
      if w then writeSuspended else readSuspended
    }

    function Pending(w: bool): bool
      reads this
    {
      if w then pendingWrite else pendingRead
    }

    /** A member carries the group's mark, or the thread adding it is about to set it. */
    ghost predicate Marked(b: Bufferevent, w: bool)
      reads b
    {
      BW_GROUP in b.Side(w).suspended || (b.joining.Some? && b.joining.value.Mark(w))
    }

    ghost predicate Members()
      reads `members, members
    {
      forall i :: 0 <= i < |members| ==>
        && members[i].Sound() && members[i].group == this
        && (forall j :: 0 <= j < i ==> members[j] != members[i])
    }

    /** No lost wakeup: whoever is marked, the group is suspended or will be unsuspended again at the next tick. */
    ghost predicate Covered()
      reads this, members
    {
      CoveredIn(false) && CoveredIn(true)
    }

    ghost predicate CoveredIn(w: bool)
      reads this, members
    {
      forall b :: b in members && Marked(b, w) ==> Suspended(w) || Pending(w)
    }

    ghost predicate Numbers()
      reads this
    {
      && cfg.Ok() && cfg.msecPerTick > 0 && limit.Held()
      && configuredMinShare <= SSIZE_MAX && minShare == Min(configuredMinShare, Min(cfg.readRate, cfg.writeRate))
      && !(readSuspended && pendingRead) && !(writeSuspended && pendingWrite)
    }

    /** A direction with a limit below zero is suspended. */
    ghost predicate Stopped()
      reads `limit, `readSuspended, `writeSuspended
    {
      (limit.readLimit < 0 ==> readSuspended) && (limit.writeLimit < 0 ==> writeSuspended)
    }

    ghost predicate Sound()
      reads this, members
    {
      Numbers() && Stopped() && Members() && Covered()
    }

    /** No limit is above its maximum. */
    ghost predicate InBounds()
      reads `cfg, `limit, `members, members`cfg, members`limit
    {
      limit.Within(cfg) && forall b :: b in members ==> b.InBounds()
    }

    ghost predicate Valid()
      reads this, members
    {
      Sound() && InBounds()
    }

    /** bufferevent_rate_limit_group_new */
    constructor (c: Cfg, now: Time)
      requires c.Ok() && c.msecPerTick > 0
      ensures Valid() && members == [] && cfg == c && !readSuspended && !writeSuspended
      ensures limit == Bucket(c.readRate, c.writeRate, GetTick(now, c))
    {
      cfg, limit := c, Bucket(c.readRate, c.writeRate, GetTick(now, c));
      readSuspended, writeSuspended, pendingRead, pendingWrite := false, false, false, false;
      totalRead, totalWritten, members := 0, 0, [];
      configuredMinShare, minShare := 64, Min(64, Min(c.readRate, c.writeRate));
    }

    /** Another thread that adds a member sets the marks it found due, and releases the lock of the member. */
    method FinishJoining(b: Bufferevent)
      requires b in members && Members() && b.joining.Some?
      modifies b`read, b`write, b`joining
      ensures Members() && b.joining.None?
      ensures forall w ::
          b.Side(w).suspended == old(b.Side(w)).suspended + if old(b.joining.value).Mark(w) then {BW_GROUP} else {}
      ensures forall w :: Marked(b, w) ==> old(Marked(b, w))
      ensures forall w :: b.Side(w).suspended - {BW_GROUP} == old(b.Side(w)).suspended - {BW_GROUP}
      ensures forall w :: b.Side(w).enabled == old(b.Side(w)).enabled
    {
      b.SetMarks();
      assert forall w :: b.Side(w).suspended - {BW_GROUP} == old(b.Side(w)).suspended - {BW_GROUP};
      hide Bufferevent.Valid, Bufferevent.Side;
      assert Members();
    }

    /** What other threads may do to members while this one holds the lock of the group */
    method OtherThreads()
      requires Members()
      modifies members`read, members`write, members`joining
      ensures Members()
      ensures forall b, w :: b in members && Marked(b, w) ==> old(Marked(b, w))
      ensures forall b, w :: b in members ==> b.Side(w).suspended - {BW_GROUP} == old(b.Side(w)).suspended - {BW_GROUP}
      ensures forall b, w :: b in members ==> b.Side(w).enabled == old(b.Side(w)).enabled
    {
      hide Marked, Members, Bufferevent.Side;
      var i := 0;
      while i < |members|
        invariant i <= |members|
        invariant Members()
        invariant forall b, w :: b in members && Marked(b, w) ==> old(Marked(b, w))
        invariant forall b, w :: b in members ==>
            b.Side(w).suspended - {BW_GROUP} == old(b.Side(w)).suspended - {BW_GROUP}
        invariant forall b, w :: b in members ==> b.Side(w).enabled == old(b.Side(w)).enabled
      {
        var done: bool := *;
        if done && members[i].joining.Some? {
          FinishJoining(members[i]);
        }
        i := i + 1;
      }
    }

    /** EVLOCK_TRY_LOCK_ fails on a member that another thread is adding, and may fail on any other. */
    method TryLock(b: Bufferevent) returns (ok: bool)
      ensures ok ==> b.joining.None?
    {
      ok := *;
      if b.joining.Some? {
        ok := false;
      }
    }

    /** bev_group_suspend_reading_ and bev_group_suspend_writing_ */
    method SuspendAll(w: bool)
      requires Members()
      modifies `readSuspended, `writeSuspended, `pendingRead, `pendingWrite, members`read, members`write,
          members`joining
      ensures Members() && Suspended(w) && !Pending(w)
      ensures Suspended(!w) == old(Suspended(!w)) && Pending(!w) == old(Pending(!w))
      ensures forall b :: b in members && Marked(b, !w) ==> old(Marked(b, !w))
      ensures forall b, d :: b in members ==> b.Side(d).suspended - {BW_GROUP} == old(b.Side(d)).suspended - {BW_GROUP}
      ensures forall b, d :: b in members ==> b.Side(d).enabled == old(b.Side(d)).enabled
    {
      hide Marked, Members, Bufferevent.Side;
      if w {
        writeSuspended, pendingWrite := true, false;
      } else {
        readSuspended, pendingRead := true, false;
      }
      var i := 0;
      while i < |members|
        modifies members`read, members`write, members`joining
        invariant i <= |members|
        invariant Members()
        invariant forall b :: b in members && Marked(b, !w) ==> old(Marked(b, !w))
        invariant forall b, d :: b in members ==>
            b.Side(d).suspended - {BW_GROUP} == old(b.Side(d)).suspended - {BW_GROUP}
        invariant forall b, d :: b in members ==> b.Side(d).enabled == old(b.Side(d)).enabled
      {
        OtherThreads();
        var ok := TryLock(members[i]);
        if ok {
          SetMark(members[i], w);
        }
        i := i + 1;
      }
    }

    method SetMark(b: Bufferevent, w: bool)
      requires b in members && Members()
      modifies b`read, b`write
      ensures Members() && Marked(b, w) && (Marked(b, !w) == old(Marked(b, !w)))
      ensures forall d :: b.Side(d).suspended - {BW_GROUP} == old(b.Side(d)).suspended - {BW_GROUP}
      ensures forall d :: b.Side(d).enabled == old(b.Side(d)).enabled
    {
      b.Suspend(w, BW_GROUP);
      assert b.Side(w).suspended - {BW_GROUP} == old(b.Side(w)).suspended - {BW_GROUP};
    }

    method ClearMark(b: Bufferevent, w: bool)
      requires b in members && Members() && b.joining.None?
      modifies b`read, b`write
      ensures Members() && !Marked(b, w) && (Marked(b, !w) == old(Marked(b, !w)))
      ensures forall d :: b.Side(d).suspended - {BW_GROUP} == old(b.Side(d)).suspended - {BW_GROUP}
      ensures forall d :: b.Side(d).enabled == old(b.Side(d)).enabled
    {
      b.Unsuspend(w, BW_GROUP);
      assert b.Side(w).suspended - {BW_GROUP} == old(b.Side(w)).suspended - {BW_GROUP};
    }

    /** bev_group_unsuspend_reading_ and bev_group_unsuspend_writing_: from a random member to the end, then the
        others */
    method UnsuspendAll(w: bool)
      requires Members()
      modifies `readSuspended, `writeSuspended, `pendingRead, `pendingWrite, members`read, members`write,
          members`joining
      ensures Members() && !Suspended(w)
      ensures forall b :: b in members && Marked(b, w) ==> Pending(w)
      ensures Suspended(!w) == old(Suspended(!w)) && Pending(!w) == old(Pending(!w))
      ensures forall b :: b in members && Marked(b, !w) ==> old(Marked(b, !w))
      ensures forall b, d :: b in members ==> b.Side(d).suspended - {BW_GROUP} == old(b.Side(d)).suspended - {BW_GROUP}
      ensures forall b, d :: b in members ==> b.Side(d).enabled == old(b.Side(d)).enabled
    {
      hide Marked, Members, Bufferevent.Side;
      if w {
        writeSuspended := false;
      } else {
        readSuspended := false;
      }
      var which: nat := 0;
      if members != [] {
        which :| 0 <= which < |members|;
      }
      var again := UnsuspendRange(w, which, |members|);
      label Half:
      var again' := UnsuspendRange(w, 0, which);
      if w {
        pendingWrite := again || again';
      } else {
        pendingRead := again || again';
      }
      assert forall i :: 0 <= i < |members| && Marked(members[i], w) ==> again || again' by {
        assert forall i :: which <= i < |members| && Marked(members[i], w) ==> old@Half(Marked(members[i], w));
      }
    }

    /** The block of FOREACH_RANDOM_ORDER for the members from one index up to another */
    method UnsuspendRange(w: bool, from: nat, to: nat) returns (again: bool)
      requires Members() && from <= to <= |members|
      modifies members`read, members`write, members`joining
      ensures Members()
      ensures forall i :: from <= i < to && Marked(members[i], w) ==> again
      ensures forall b, d :: b in members && Marked(b, d) ==> old(Marked(b, d))
      ensures forall b, d :: b in members ==> b.Side(d).suspended - {BW_GROUP} == old(b.Side(d)).suspended - {BW_GROUP}
      ensures forall b, d :: b in members ==> b.Side(d).enabled == old(b.Side(d)).enabled
    {
      hide Marked, Members, Bufferevent.Side;
      again := false;
      var i := from;
      while i < to
        modifies members`read, members`write, members`joining
        invariant from <= i <= to
        invariant Members()
        invariant forall k :: from <= k < i && Marked(members[k], w) ==> again
        invariant forall b, d :: b in members && Marked(b, d) ==> old(Marked(b, d))
        invariant forall b, d :: b in members ==>
            b.Side(d).suspended - {BW_GROUP} == old(b.Side(d)).suspended - {BW_GROUP}
        invariant forall b, d :: b in members ==> b.Side(d).enabled == old(b.Side(d)).enabled
      {
        OtherThreads();
        var ok := TryLock(members[i]);
        if ok {
          ClearMark(members[i], w);
        } else {
          again := true;
        }
        i := i + 1;
      }
    }

    /** Whether a refill tick unsuspends a direction: a wakeup is owed, or the limit has reached a share. */
    predicate Due(w: bool)
      reads this
    {
      Pending(w) || (Suspended(w) && limit.Limit(w) >= minShare)
    }

    /** One direction of bev_group_refill_callback_ */
    method Release(w: bool)
      requires Numbers() && Members() && Covered()
      modifies `readSuspended, `writeSuspended, `pendingRead, `pendingWrite, members`read, members`write,
          members`joining
      ensures Numbers() && Members() && Covered()
      ensures Suspended(!w) == old(Suspended(!w)) && Pending(!w) == old(Pending(!w))
      ensures if old(Due(w)) then !Suspended(w) else Suspended(w) == old(Suspended(w)) && Pending(w) == old(Pending(w))
    {
      if Pending(w) || (Suspended(w) && limit.Limit(w) >= minShare) {
        hide Marked, Members;
        UnsuspendAll(w);
      }
    }

    method UpdateBucket(now: Time)
      requires Sound()
      modifies `limit
      ensures Numbers() && Members() && Covered() && limit == Refreshed(old(limit), cfg, GetTick(now, cfg))
      ensures !old(Overruns(now)) ==> Stopped()
      ensures old(Valid()) ==> Valid() && limit == Updated(old(limit), cfg, GetTick(now, cfg))
    {
      hide Marked, Members, Refreshed, Updated, Overrun, GetTick;
      TickFits(now, cfg);
      RefreshedIs(limit, cfg, GetTick(now, cfg));
      var b, r := Update(limit, cfg, GetTick(now, cfg));
      limit := b;
    }

    /** A refill takes a limit above the maximum to zero or below. */
    predicate Overruns(now: Time)
      reads `cfg, `limit
    {
      && cfg.msecPerTick > 0 && var tick := GetTick(now, cfg);
      Overrun(limit, cfg, false, tick) || Overrun(limit, cfg, true, tick)
    }

    /** bev_group_refill_callback_ */
    method RefillCallback(now: Time)
      requires Sound()
      modifies this, members`read, members`write, members`joining
      ensures Members() && Covered() && members == old(members) && cfg == old(cfg) && minShare == old(minShare)
      ensures (Sound() <==> forall w :: limit.Limit(w) < 0 ==> old(Suspended(w))) && (!old(Overruns(now)) ==> Sound())
      ensures limit == Refreshed(old(limit), cfg, GetTick(now, cfg))
      ensures old(Valid()) ==> Valid() && limit == Updated(old(limit), cfg, GetTick(now, cfg))
      ensures forall w :: if old(Pending(w)) || (old(Suspended(w)) && limit.Limit(w) >= minShare) then !Suspended(w)
                          else Suspended(w) == old(Suspended(w)) && Pending(w) == old(Pending(w))
    {
      UpdateBucket(now);
      hide Numbers, Stopped, Members, Covered, Updated, Refreshed, Overruns, GetTick;
      StoppedIs();
      Release(false);
      Release(true);
      StoppedIs();
    }

    lemma StoppedIs()
      ensures Stopped() <==> forall w :: limit.Limit(w) < 0 ==> Suspended(w)
    {
      assert Stopped() ==> limit.Limit(false) < 0 ==> Suspended(false);
      assert (forall w :: limit.Limit(w) < 0 ==> Suspended(w)) ==>
          (limit.Limit(false) < 0 ==> Suspended(false)) && (limit.Limit(true) < 0 ==> Suspended(true));
    }

    /** A direction that is neither suspended nor owed a wakeup leaves no member marked. */
    lemma Released(b: Bufferevent, w: bool)
      requires Sound() && b in members && !Suspended(w) && !Pending(w)
      ensures BW_GROUP !in b.Side(w).suspended
    {
      assert CoveredIn(w);
      assert !Marked(b, w);
    }

    /** The part of bufferevent_decrement_read_buckets_ and of its twin that charges the group's bucket */
    method Charge(w: bool, bytes: int)
      requires Sound() && SSIZE_MIN <= limit.Limit(w) - bytes <= SSIZE_MAX
      modifies this, members`read, members`write, members`joining
      ensures Sound() && (old(Valid()) && bytes >= 0 ==> Valid())
      ensures members == old(members) && cfg == old(cfg) && minShare == old(minShare)
      ensures limit == Charged(old(limit), w, bytes)
      ensures Suspended(w) <==> limit.Limit(w) <= 0
      ensures Suspended(!w) == old(Suspended(!w)) && Pending(!w) == old(Pending(!w))
      ensures totalRead == (if w then old(totalRead) else (old(totalRead) + bytes) % TWO64)
      ensures totalWritten == (if w then (old(totalWritten) + bytes) % TWO64 else old(totalWritten))
      ensures forall b, d :: b in members ==> b.Side(d).suspended - {BW_GROUP} == old(b.Side(d)).suspended - {BW_GROUP}
    {
      hide Marked, Members, Bufferevent.Side;
      if w {
        limit := limit.(writeLimit := limit.writeLimit - bytes);
        totalWritten := (totalWritten + bytes) % TWO64;
      } else {
        limit := limit.(readLimit := limit.readLimit - bytes);
        totalRead := (totalRead + bytes) % TWO64;
      }
      if limit.Limit(w) <= 0 {
        SuspendAll(w);
      } else if Suspended(w) {
        UnsuspendAll(w);
      }
    }

    /** bufferevent_rate_limit_group_decrement_read and bufferevent_rate_limit_group_decrement_write: a charge or a
        refund by the user. A limit that is used up leaves the group suspended, unless it was zero before with the group
        running, as a minimum share of zero allows; only the passing from above zero to zero or below suspends it. */
    method DecrementLimit(w: bool, decr: int)
      requires Sound() && SSIZE_MIN <= limit.Limit(w) - decr <= SSIZE_MAX
      modifies `limit, `readSuspended, `writeSuspended, `pendingRead, `pendingWrite, members`read, members`write,
          members`joining
      ensures limit == Charged(old(limit), w, decr)
      ensures Sound() <==> !(old(limit).Limit(w) == 0 && !old(Suspended(w)) && decr > 0)
      ensures old(Valid()) && decr >= 0 && Sound() ==> Valid()
      ensures Members() && Covered()
      ensures Suspended(w) == (
          if limit.Limit(w) <= 0 then old(Suspended(w)) || old(limit).Limit(w) > 0
          else old(Suspended(w)) && old(limit).Limit(w) > 0)
      ensures Suspended(!w) == old(Suspended(!w)) && Pending(!w) == old(Pending(!w))
    {
      hide Marked, Members, Bufferevent.Side;
      var oldLimit := limit.Limit(w);
      limit := if w then limit.(writeLimit := limit.writeLimit - decr) else limit.(readLimit := limit.readLimit - decr);
      if oldLimit > 0 && limit.Limit(w) <= 0 {
        SuspendAll(w);
      } else if oldLimit <= 0 && limit.Limit(w) > 0 {
        UnsuspendAll(w);
      }
    }

    /** bufferevent_decrement_read_buckets_ and bufferevent_decrement_write_buckets_, for a member */
    method Decrement(b: Bufferevent, w: bool, bytes: int)
      requires Sound() && b in members && b.joining.None?
      requires SSIZE_MIN <= limit.Limit(w) - bytes <= SSIZE_MAX
      requires b.cfg.Some? ==> SSIZE_MIN <= b.limit.Limit(w) - bytes <= SSIZE_MAX
      modifies this, members`read, members`write, members`joining, b`limit, b`refillPending
      ensures Sound() && (old(Valid()) && bytes >= 0 ==> Valid())
      ensures members == old(members) && cfg == old(cfg) && minShare == old(minShare)
      ensures limit == Charged(old(limit), w, bytes) && (Suspended(w) <==> limit.Limit(w) <= 0)
      ensures b.cfg.Some? ==> b.limit == Charged(old(b.limit), w, bytes)
      ensures b.cfg.Some? ==> (BW in b.Side(w).suspended <==> b.limit.Limit(w) <= 0)
    {
      ChargeMember(b, w, bytes);
      label Charged:
      hide Marked, Members, Numbers, Covered;
      Charge(w, bytes);
      assert b.Side(w).suspended - {BW_GROUP} == old@Charged(b.Side(w)).suspended - {BW_GROUP};
      assert BW in b.Side(w).suspended <==> BW in b.Side(w).suspended - {BW_GROUP};
      assert BW in old@Charged(b.Side(w)).suspended <==> BW in old@Charged(b.Side(w)).suspended - {BW_GROUP};
    }

    method ChargeMember(b: Bufferevent, w: bool, bytes: int)
      requires Sound() && b in members
      requires b.cfg.Some? ==> SSIZE_MIN <= b.limit.Limit(w) - bytes <= SSIZE_MAX
      modifies b`limit, b`read, b`write, b`refillPending
      ensures Sound() && (old(Valid()) && bytes >= 0 ==> Valid())
      ensures b.cfg.Some? ==> b.limit == Charged(old(b.limit), w, bytes)
      ensures b.cfg.Some? ==> (BW in b.Side(w).suspended <==> b.limit.Limit(w) <= 0)
    {
      b.ChargeOwn(w, bytes);
      assert forall d :: BW_GROUP in b.Side(d).suspended <==> BW_GROUP in old(b.Side(d)).suspended;
      assert forall c, d :: c in members && Marked(c, d) ==> old(Marked(c, d));
    }

    /** What bufferevent_get_rlim_max_ allows a member: its own limit, or single maximum, and its share of the
        group's */
    method GetRlimMax(b: Bufferevent, w: bool, now: Time) returns (r: nat)
      requires Sound() && b in members && b.joining.None?
      modifies b`limit, b`read, b`write
      ensures (Sound() <==> !old(b.Loses(now))) && (old(Valid()) ==> Valid())
      ensures b.limit == if b.cfg.Some? then Refreshed(old(b.limit), b.cfg.value, GetTick(now, b.cfg.value))
          else old(b.limit)
      ensures r == Max(0, Min(if b.cfg.Some? then b.limit.Limit(w) else b.MaxSingle(w),
                              if Suspended(w) then 0 else Share(limit.Limit(w), |members|, minShare)))
      ensures Suspended(w) ==> r == 0 && BW_GROUP in b.Side(w).suspended
    {
      var maxSoFar := OwnMax(b, w, now);
      hide Members, Covered, Numbers, Stopped, Bufferevent.Loses, Refreshed;
      var share: int := 0;
      if Suspended(w) {
        MarkLate(b, w);
      } else {
        share := Quotient(limit.Limit(w), |members|);
        if share < minShare {
          share := minShare;
        }
      }
      if maxSoFar > share {
        maxSoFar := share;
      }
      r := if maxSoFar < 0 then 0 else maxSoFar;
    }

    /** The part that looks at the member's own limit */
    method OwnMax(b: Bufferevent, w: bool, now: Time) returns (r: int)
      requires Sound() && b in members
      modifies b`limit
      ensures Numbers() && Stopped() && Covered() && (Members() <==> !old(b.Loses(now))) && b.read.Ok() && b.write.Ok()
      ensures old(InBounds()) ==> InBounds() && Members()
      ensures b.limit == if b.cfg.Some? then Refreshed(old(b.limit), b.cfg.value, GetTick(now, b.cfg.value))
          else old(b.limit)
      ensures r == if b.cfg.Some? then b.limit.Limit(w) else b.MaxSingle(w)
    {
      assert b.Sound();
      hide Refreshed, Updated, Overrun, GetTick, Marked;
      r := b.MaxSingle(w);
      if b.cfg.Some? {
        b.UpdateBuckets(now);
        r := b.limit.Limit(w);
      }
    }

    /** A member that did not know that the group is suspended is marked. */
    method MarkLate(b: Bufferevent, w: bool)
      requires b in members && Suspended(w) && Covered() && b.read.Ok() && b.write.Ok()
      modifies b`read, b`write
      ensures Covered() && (Members() <==> old(Members())) && BW_GROUP in b.Side(w).suspended
    {
      b.Suspend(w, BW_GROUP);
      assert b.Sound() <==> old(b.Sound());
      assert forall c, d :: c in members && Marked(c, d) ==> old(Marked(c, d)) || (d == w && Suspended(w));
    }

    /** bufferevent_add_to_rate_limit_group, up to the release of the group's lock: the bufferevent is in the list, its
        own lock stays held, and the marks it will get are decided. */
    method StartJoining(b: Bufferevent)
      requires Sound() && b.Sound() && b.group == null && b.joining.None?
      requires BW_GROUP !in b.read.suspended && BW_GROUP !in b.write.suspended
      modifies `members, b`group, b`joining
      ensures Sound() && (old(Valid()) && old(b.Valid()) ==> Valid()) && members == [b] + old(members)
      ensures b.group == this && b.joining == Some(Joining(readSuspended, writeSuspended))
    {
      assert b !in members;
      b.group := this;
      members := [b] + members;
      b.joining := Some(Joining(readSuspended, writeSuspended));
      assert forall c :: c in members && c != b ==> c in old(members);
    }

    /** The rest of bufferevent_add_to_rate_limit_group: whatever happened to the group in between, the marks
        are safe. */
    method EndJoining(b: Bufferevent)
      requires Sound() && b in members && b.joining.Some?
      modifies b`read, b`write, b`joining
      ensures Sound() && (old(Valid()) ==> Valid()) && b.joining.None?
      ensures forall w ::
          b.Side(w).suspended == old(b.Side(w)).suspended + if old(b.joining.value).Mark(w) then {BW_GROUP} else {}
    {
      ghost var j := b.joining.value;
      FinishJoining(b);
      assert forall c, w :: c in members && Marked(c, w) ==> old(Marked(c, w));
    }

    method Unlink(b: Bufferevent)
      requires Sound() && b in members
      modifies `members, b`group
      ensures Sound() && (old(Valid()) ==> Valid()) && b.group == null
      ensures b !in members && |members| == |old(members)| - 1 && forall c :: c in members ==> c in old(members)
    {
      hide Marked, Bufferevent.Sound, Bufferevent.InBounds;
      ghost var was := members;
      var i :| 0 <= i < |members| && members[i] == b;
      members := members[..i] + members[i + 1..];
      b.group := null;
      assert forall k :: 0 <= k < |members| ==> members[k] == if k < i then was[k] else was[k + 1];
    }

    /** bufferevent_remove_from_rate_limit_group_internal_ */
    method Remove(b: Bufferevent, unsuspend: bool)
      requires Sound() && b in members && b.joining.None?
      modifies `members, b`group, b`read, b`write
      ensures Sound() && (old(Valid()) ==> Valid() && b.Valid()) && b.Sound() && b.group == null
      ensures b !in members && |members| == |old(members)| - 1 && forall c :: c in members ==> c in old(members)
      ensures forall w :: b.Side(w).suspended == old(b.Side(w)).suspended - if unsuspend then {BW_GROUP} else {}
    {
      assert b.Sound();
      Unlink(b);
      assert b.Sound();
      hide Marked, Members, Numbers, Covered;
      if unsuspend {
        b.Unsuspend(false, BW_GROUP);
        b.Unsuspend(true, BW_GROUP);
      }
    }

    /** bufferevent_rate_limit_group_set_min_share */
    method SetMinShare(share: nat) returns (r: int)
      requires cfg.Ok()
      modifies `minShare, `configuredMinShare
      ensures r == if share > SSIZE_MAX then -1 else 0
      ensures r == -1 ==> minShare == old(minShare) && configuredMinShare == old(configuredMinShare)
      ensures r == 0 ==> configuredMinShare == share && minShare == Min(share, Min(cfg.readRate, cfg.writeRate))
      ensures old(Valid()) ==> Valid()
    {
      if share > SSIZE_MAX {
        return -1;
      }
      configuredMinShare := share;
      var s := share;
      if s > cfg.readRate {
        s := cfg.readRate;
      }
      if s > cfg.writeRate {
        s := cfg.writeRate;
      }
      minShare := s;
      r := 0;
    }

    /** bufferevent_rate_limit_group_set_cfg */
    method SetCfg(c: Cfg)
      requires Sound() && c.Ok() && c.msecPerTick > 0
      modifies `cfg, `limit, `minShare, `configuredMinShare
      ensures Sound() && limit.Within(cfg) && (old(Valid()) ==> Valid())
      ensures cfg == c && configuredMinShare == old(configuredMinShare)
      ensures limit == Bucket(Min(old(limit).readLimit, c.readMaximum), Min(old(limit).writeLimit, c.writeMaximum),
          old(limit).lastUpdated)
    {
      hide Marked, Members;
      cfg := c;
      if limit.readLimit > c.readMaximum {
        limit := limit.(readLimit := c.readMaximum);
      }
      if limit.writeLimit > c.writeMaximum {
        limit := limit.(writeLimit := c.writeMaximum);
      }
      var r := SetMinShare(configuredMinShare);
    }

    /** Any number of refill callbacks, one after the other: a suspended direction is released exactly when they
        credit enough ticks to bring its limit to a share, and so by the time that many callbacks have each
        found a new tick. */
    method RefillCallbacks(times: seq<Time>)
      requires Valid()
      modifies this, members`read, members`write, members`joining
      ensures Valid() && members == old(members) && cfg == old(cfg) && minShare == old(minShare)
      ensures forall w :: limit == After(old(limit), cfg, w, Ticks(times, cfg))
      ensures forall w :: !old(Suspended(w)) ==> !Suspended(w)
      ensures forall w :: old(Suspended(w)) ==>
          (!Suspended(w) <==> times != [] && Enough(old(limit), w, Ticks(times, cfg)))
      ensures times != [] && Advancing(old(limit).lastUpdated, Ticks(times, cfg)) ==>
                forall w :: |times| >= TicksToReach(old(limit).Limit(w), cfg.Rate(w), minShare) ==> !Suspended(w)
    {
      hide Members, Covered, Advancing, TicksToReach;
      ghost var start, c := limit, cfg;
      var i := 0;
      while i < |times|
        invariant 0 <= i <= |times| && Valid() && members == old(members) && cfg == c && minShare == old(minShare)
        invariant forall w :: limit == After(start, c, w, Ticks(times[..i], c))
        invariant forall w :: !old(Suspended(w)) ==> !Suspended(w)
        invariant forall w :: old(Suspended(w)) ==> (!Suspended(w) <==> i > 0 && Enough(start, w, Ticks(times[..i], c)))
      {
        RefillCallback(times[i]);
        OneMoreTick(start, times, i);
        i := i + 1;
      }
      assert times[..i] == times;
      forall w | Advancing(start.lastUpdated, Ticks(times, c))
        ensures |times| >= TicksToReach(start.Limit(w), c.Rate(w), minShare) ==> Enough(start, w, Ticks(times, c))
      {
        AdvancingCredit(start, c, w, Ticks(times, c));
      }
    }

    /** The moves credit as many ticks as the limit needs to reach a share. */
    predicate Enough(start: Bucket, w: bool, moves: seq<Move>)
      reads this
      requires cfg.Ok()
    {
      Credited(start, cfg, w, moves) >= TicksToReach(start.Limit(w), cfg.Rate(w), minShare)
    }

    lemma OneMoreTick(start: Bucket, times: seq<Time>, i: nat)
      requires Numbers() && start.Within(cfg) && i < |times|
      ensures var moves, m := Ticks(times[..i], cfg), Look(GetTick(times[i], cfg));
              && Ticks(times[..i + 1], cfg) == moves + [m]
              && forall w ::
                   && After(start, cfg, w, moves + [m]) == Updated(After(start, cfg, w, moves), cfg, m.tick)
                   && (Enough(start, w, moves + [m]) <==> After(start, cfg, w, moves + [m]).Limit(w) >= minShare)
                   && (Enough(start, w, moves) ==> Enough(start, w, moves + [m]))
    {
      var moves, m := Ticks(times[..i], cfg), Look(GetTick(times[i], cfg));
      assert times[..i + 1][..i] == times[..i];
      forall w
        ensures After(start, cfg, w, moves + [m]) == Updated(After(start, cfg, w, moves), cfg, m.tick)
        ensures Enough(start, w, moves + [m]) <==> After(start, cfg, w, moves + [m]).Limit(w) >= minShare
        ensures Enough(start, w, moves) ==> Enough(start, w, moves + [m])
      {
        AfterMore(start, cfg, w, moves, m);
        RunReachesThreshold(start, cfg, w, moves + [m], minShare);
      }
    }
  }

  /** A run of a group with a minimum share of zero that ends with the limit used up and the group not suspended: its
      last byte is moved, a refill callback that finds no new tick releases it, and the user charges one byte more. */
  method Overdrawn() returns (g: Group)
    ensures fresh(g) && g.limit.readLimit == -1 && !g.readSuspended && !g.Sound()
  {
    g := new Group(Cfg(1, 1, 1, 1, 1000), Time(0, 0));
    var r := g.SetMinShare(0);
    g.Charge(false, 1);
    g.RefillCallback(Time(0, 0));
    g.DecrementLimit(false, 1);
  }

  /** The looks at a bucket that refill callbacks at these times make */
  function Ticks(times: seq<Time>, cfg: Cfg): (moves: seq<Move>)
    requires cfg.msecPerTick > 0
    ensures |moves| == |times| && OnlyLooks(moves)
  {
    if times == [] then []
    else Ticks(times[..|times| - 1], cfg) + [Look(GetTick(times[|times| - 1], cfg))]
  }

  /** A member's share of the group's limit */
  function Share(limit: int, n: nat, minShare: nat): int
    requires n > 0
  {
    Max(Quotient(limit, n), minShare)
  }

  lemma QuotientBounds(a: int, n: nat)
    requires n > 0
    ensures (a >= 0 ==> Quotient(a, n) * n <= a) && (a < 0 ==> Quotient(a, n) <= 0) && a < (Quotient(a, n) + 1) * n
  {
    if a >= 0 {
      assert a == n * (a / n) + a % n;
    } else {
      assert -a == n * (-a / n) + -a % n;
      Times(Quotient(a, n), 1, n);
    }
  }

  /** All shares together stay within the group's limit, or within the minimum shares; each is within one of its fair
      part. */
  lemma ShareBounds(limit: int, n: nat, minShare: nat)
    requires n > 0
    ensures Share(limit, n, minShare) >= minShare
    ensures Share(limit, n, minShare) * n <= Max(limit, minShare * n)
    ensures (Share(limit, n, minShare) + 1) * n > limit
  {
    var q, share := Quotient(limit, n), Share(limit, n, minShare);
    QuotientBounds(limit, n);
    hide Quotient;
    Times(share, 1, n);
    Times(share - q, q + 1, n);
    Times(minShare, 0, n);
  }
}
