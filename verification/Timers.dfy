/** The event scheduler and the handles that own its timers. */
module Timers {
  import opened Words
  import Cycles

  /** A timer of the runtime library: its address is all that its users have. */
  class Timer {
    constructor () {}
  }

  /** What a callback is registered with: which flow of which generator. */
  datatype Ctx = Ctx(gen: nat, flow: nat)

  /** A pending timer's deadline and the context of its callback. */
  datatype Entry = Entry(at: nat, ctx: Ctx)

  class EventScheduler {
    /** How long the library's timers are left alone after they were looked at: a microsecond. */
    const usecCycles: nat
    var prevCycles: nat
    var cntTimers: nat
    /** The library's pending timers. */
    var pending: map<Timer, Entry>
    /** The timers that were due at the last look and did not run yet. The library neither stops nor resets these. */
    var ready: map<Timer, Entry>
    /** Who owns the timers that were given out and not returned. */
    ghost var owners: map<EventHandle, Timer>

    ghost predicate Valid()
      reads this, owners.Keys
    {
      && cntTimers == |owners| % U32
      && (forall h :: h in owners ==> h.tmr == owners[h] && h.scheduler == this)
      && Injective(owners) && Tracked(owners, pending, ready)
    }

    constructor (hz: nat)
      ensures Valid() && owners == map[] && pending == map[] && ready == map[]
      ensures usecCycles == Cycles.FromDuration(1, 1_000_000, hz) && prevCycles == 0
      ensures usecCycles * 1_000_000 <= Wrap64(hz) < usecCycles * 1_000_000 + 1_000_000
    {
      Cycles.CyclesOfDuration(1, 1_000_000, hz);
      usecCycles, prevCycles := Cycles.FromDuration(1, 1_000_000, hz), 0;
      cntTimers, owners, pending, ready := 0, map[], map[], map[];
    }

    /** A new timer that nobody has and that is not pending. The count is a 32-bit word. */
    method GetTimer() returns (t: Timer)
      modifies this`cntTimers
      ensures fresh(t)
      ensures cntTimers == (old(cntTimers) + 1) % U32
    {
      t := new Timer();
      cntTimers := (cntTimers + 1) % U32;
    }

    /** The timer is stopped before it goes away. The code enforces that it can be: it is not about to run. */
    method RetTimer(t: Timer)
      requires t !in ready
      modifies this`cntTimers, this`pending
      ensures pending == old(pending) - {t}
      ensures cntTimers == (old(cntTimers) - 1) % U32
    {
      pending := pending - {t};
      cntTimers := (cntTimers - 1) % U32;
    }

    /** Schedules, or schedules again, relative to the current time, in wrapping cycles. The code enforces that the
        timer can be set: it is not about to run. */
    method ScheduleSingle(t: Timer, now: nat, rel: nat, ctx: Ctx)
      requires t !in ready
      modifies this`pending
      ensures pending == old(pending)[t := Entry(Wrap64(now + rel), ctx)]
    {
      pending := pending[t := Entry(Wrap64(now + rel), ctx)];
    }

    /** A look at the timers, unless the last one was less than a microsecond ago: those whose deadline has come are
        taken off, to be run. The library reads the clock again. */
    method TakeDue(now: nat, libNow: nat)
      requires Valid() && ready == map[]
      modifies this`prevCycles, this`pending, this`ready
      ensures Valid() && pending + ready == old(pending)
      ensures DueOf(ready, old(pending), Looks(old(prevCycles), usecCycles, now), libNow)
      ensures prevCycles == if Looks(old(prevCycles), usecCycles, now) then now else old(prevCycles)
      ensures forall t :: t in old(pending) ==>
                (t in ready <==> Wrap64(now - old(prevCycles)) >= usecCycles && old(pending)[t].at <= libNow)
    {
      if Wrap64(now - prevCycles) >= usecCycles {
        prevCycles := now;
        ready := map t | t in pending && pending[t].at <= libNow :: pending[t];
        pending := map t | t in pending && pending[t].at > libNow :: pending[t];
      }
    }

    /** The next timer to run: one with the earliest deadline. */
    method Next() returns (t: Timer, e: Entry)
      requires Valid() && ready != map[]
      modifies this`ready
      ensures Valid() && t in old(ready) && e == old(ready)[t] && ready == old(ready) - {t}
      ensures forall u :: u in ready ==> e.at <= ready[u].at
    {
      ghost var earliest := EarliestExists(ready);
      t :| t in ready && forall u :: u in ready ==> ready[t].at <= ready[u].at;
      e := ready[t];
      ready := ready - {t};
    }

    /** Notes that handle h now owns the new timer t. */
    ghost method Register(h: EventHandle, t: Timer)
      requires h !in owners && t !in owners.Values && h.tmr == t && h.scheduler == this
      requires cntTimers == (|owners| + 1) % U32 && Injective(owners) && Tracked(owners, pending, ready)
      requires forall g :: g in owners ==> g.tmr == owners[g] && g.scheduler == this
      modifies this`owners
      ensures Valid() && owners == old(owners)[h := t]
    {
      GrowOwners(owners, h, t);
      OwnedValues(owners, h, t);
      InjectiveGrows(owners, h, t);
      owners := owners[h := t];
    }

    /** How many timers are out. */
    method CountEvents() returns (n: nat)
      requires Valid()
      ensures n == |owners| % U32
    {
      n := cntTimers;
    }
  }

  /** Only timers that are out are pending or about to run, and none is both. */
  ghost predicate Tracked<H, T>(owners: map<H, T>, pending: map<T, Entry>, ready: map<T, Entry>) {
    pending.Keys <= owners.Values && ready.Keys <= owners.Values && pending.Keys !! ready.Keys
  }

  /** The scheduler looks at its timers at most once in a microsecond. */
  predicate Looks(prev: nat, usecCycles: nat, now: nat) {
    Wrap64(now - prev) >= usecCycles
  }

  /** In true time, for looks less than 2^64 cycles apart. */
  lemma LooksInTrueTime(usecCycles: nat, t0: nat, t: nat)
    requires t0 <= t < t0 + U64
    ensures Looks(Wrap64(t0), usecCycles, Wrap64(t)) <==> t - t0 >= usecCycles
  {
    WrappedDifference(t, t0);
  }

  /** All that was there is still there. */
  ghost predicate Grows<K, V>(was: map<K, V>, now: map<K, V>) {
    forall k :: k in was ==> k in now && now[k] == was[k]
  }

  /** The timers whose deadline has come, when it is time to look at them, and no others. */
  ghost predicate DueOf<T>(due: map<T, Entry>, pending: map<T, Entry>, looks: bool, now: nat) {
    && Grows(due, pending) && (forall t :: t in due ==> looks && pending[t].at <= now)
    && (forall t :: t in pending && looks && pending[t].at <= now ==> t in due)
  }

  lemma {:induction false} EarliestExists<T>(m: map<T, Entry>) returns (t: T)
    requires m != map[]
    ensures t in m && forall u :: u in m ==> m[t].at <= m[u].at
    decreases |m|
  {
    t :| t in m;
    var rest := m - {t};
    assert m.Keys == rest.Keys + {t};
    if rest == map[] {
      assert rest.Keys == {};
    } else {
      var v := EarliestExists(rest);
      var was := t;
      t := if m[was].at <= m[v].at then was else v;
      forall u | u in m ensures m[t].at <= m[u].at {
        if u != was { assert u in rest; }
      }
    }
  }

  class EventHandle {
    var tmr: Timer?
    var scheduler: EventScheduler?

    /** The default handle owns nothing. */
    constructor Empty()
      ensures tmr == null && scheduler == null
    {
      tmr, scheduler := null, null;
    }

    constructor (s: EventScheduler)
      requires s.Valid()
      modifies s`cntTimers, s`pending, s`owners
      ensures s.Valid() && scheduler == s && tmr != null && fresh(tmr)
      ensures s.owners == old(s.owners)[this := tmr] && s.pending == old(s.pending) && s.ready == old(s.ready)
    {
      var t := s.GetTimer();
      tmr, scheduler := t, s;
      new;
      s.Register(this, t);
    }

    /** A handle is consistent with the scheduler that the code at hand works with. */
    ghost predicate Owns(s: EventScheduler)
      reads this, s
    {
      && (tmr != null ==> scheduler == s && this in s.owners)
      && (tmr == null ==> this !in s.owners)
    }

    /** The destructor returns the timer, which is no longer pending. */
    method Destroy(s: EventScheduler)
      requires s.Valid() && Owns(s) && (tmr != null ==> tmr !in s.ready)
      modifies this, s`cntTimers, s`pending, s`owners
      ensures s.Valid() && tmr == null && Owns(s)
      ensures s.owners == old(s.owners) - {this} && s.ready == old(s.ready)
      ensures s.pending == if old(tmr) == null then old(s.pending) else old(s.pending) - {old(tmr)}
    {
      if tmr != null {
        ghost var m, p, t := s.owners, s.pending, tmr;
        TrackedAfterReturn(m, p, s.ready, this);
        ShrinkOwners(m, this);
        OneLess(|m|);
        scheduler.RetTimer(tmr);
        s.owners := m - {this};
        tmr := null;
        assert s.pending == p - {t};
      }
    }

    /** The move constructor, with the new handle given: takes what `rhs` owns and leaves it empty. */
    method TakeFrom(rhs: EventHandle, s: EventScheduler)
      requires s.Valid() && rhs.Owns(s) && this != rhs && tmr == null && this !in s.owners
      modifies this, rhs, s`owners
      ensures s.Valid() && Owns(s) && rhs.Owns(s)
      ensures tmr == old(rhs.tmr) && rhs.tmr == null && rhs.scheduler == null
      ensures s.owners == Moved(old(s.owners), rhs, this)
    {
      tmr := rhs.tmr;
      rhs.tmr := null;
      scheduler := rhs.scheduler;
      rhs.scheduler := null;
      if rhs in s.owners { MoveOwner(s.owners, rhs, this); }
      s.owners := Moved(s.owners, rhs, this);
    }

    /** Move assignment: the timer of `rhs` comes here, the one owned before is returned, once.
        Assignment to itself changes nothing. */
    method MoveAssign(rhs: EventHandle, s: EventScheduler)
      requires s.Valid() && Owns(s) && rhs.Owns(s) && (tmr != null ==> tmr !in s.ready)
      modifies this, rhs, s`cntTimers, s`pending, s`owners
      ensures s.Valid() && Owns(s) && rhs.Owns(s)
      ensures tmr == old(rhs.tmr)
      ensures rhs != this ==> rhs.tmr == null
      ensures rhs != this ==> s.owners == Moved(old(s.owners) - {this}, rhs, this)
      ensures rhs == this ==> s.owners == old(s.owners) && s.pending == old(s.pending)
      ensures s.ready == old(s.ready)
      ensures rhs != this ==> s.pending == if old(tmr) == null then old(s.pending) else old(s.pending) - {old(tmr)}
    {
      var tmp := new EventHandle.Empty();
      ghost var m0 := s.owners;
      assert tmp !in m0;
      tmp.TakeFrom(rhs, s);
      ghost var m1 := s.owners;
      tmp.Swap(this, s);
      ghost var m2 := s.owners;
      tmp.Destroy(s);
      MoveSwapDrop(m0, m1, m2, rhs, tmp, this);
    }

    /** Exchange of what two handles own. */
    method Swap(other: EventHandle, s: EventScheduler)
      requires s.Valid() && Owns(s) && other.Owns(s) && this != other
      modifies this, other, s`owners
      ensures s.Valid() && Owns(s) && other.Owns(s)
      ensures tmr == old(other.tmr) && other.tmr == old(tmr)
      ensures s.owners == Swapped(old(s.owners), this, other)
    {
      tmr, other.tmr := other.tmr, tmr;
      scheduler, other.scheduler := other.scheduler, scheduler;
      SwapOwners(s.owners, this, other);
      s.owners := Swapped(s.owners, this, other);
    }

    method ScheduleSingle(s: EventScheduler, now: nat, rel: nat, ctx: Ctx)
      requires s.Valid() && Owns(s) && tmr != null && tmr !in s.ready
      modifies s`pending
      ensures s.Valid() && s.pending == old(s.pending)[tmr := Entry(Wrap64(now + rel), ctx)]
    {
      scheduler.ScheduleSingle(tmr, now, rel, ctx);
      assert s.owners[this] in s.owners.Values;
    }
  }

  //// Ownership maps.

  ghost function Moved<H, T>(m: map<H, T>, from: H, to: H): map<H, T> {
    if from in m then (m - {from})[to := m[from]] else m
  }

  ghost function Swapped<H, T>(m: map<H, T>, a: H, b: H): map<H, T> {
    map h | h in (m.Keys + {a, b}) && (if h == a then b in m else if h == b then a in m else h in m)
      :: if h == a then m[b] else if h == b then m[a] else m[h]
  }

  ghost predicate Injective<H, T>(m: map<H, T>) {
    forall h, g :: h in m && g in m && h != g ==> m[h] != m[g]
  }

  lemma InjectiveGrows<H, T>(m: map<H, T>, h: H, t: T)
    requires Injective(m) && t !in m.Values
    ensures Injective(m[h := t])
  {
  }

  lemma GrowOwners<H, T>(m: map<H, T>, h: H, t: T)
    requires h !in m
    ensures |m[h := t]| == |m| + 1
  {
    assert m[h := t].Keys == m.Keys + {h};
  }

  lemma OwnedValues<H, T>(m: map<H, T>, h: H, t: T)
    requires h !in m
    ensures m[h := t].Values == m.Values + {t}
  {
    forall x | x in m.Values ensures x in m[h := t].Values {
      var g :| g in m && m[g] == x;
      assert m[h := t][g] == x;
    }
    assert m[h := t][h] == t;
  }

  /** The 32-bit count follows the true one. */
  lemma OneLess(n: nat)
    ensures (n % U32 - 1) % U32 == (n - 1) % U32
  {
  }

  lemma TrackedAfterReturn<H, T>(m: map<H, T>, pending: map<T, Entry>, ready: map<T, Entry>, h: H)
    requires h in m && Tracked(m, pending, ready) && m[h] !in ready
    ensures Tracked(m - {h}, pending - {m[h]}, ready)
  {
    forall t | (t in pending || t in ready) && t != m[h] ensures t in (m - {h}).Values {
      var g :| g in m && m[g] == t;
      assert (m - {h})[g] == t;
    }
  }

  lemma ShrinkOwners<H, T>(m: map<H, T>, h: H)
    requires h in m
    ensures |m - {h}| == |m| - 1
  {
    assert (m - {h}).Keys == m.Keys - {h};
  }

  lemma MoveOwner<H, T>(m: map<H, T>, from: H, to: H)
    requires Injective(m) && from in m && to !in m
    ensures Injective(Moved(m, from, to)) && |Moved(m, from, to)| == |m|
    ensures Moved(m, from, to).Values == m.Values
  {
    ShrinkOwners(m, from);
    GrowOwners(m - {from}, to, m[from]);
    var w := Moved(m, from, to);
    forall t | t in m.Values ensures t in w.Values {
      var h :| h in m && m[h] == t;
      assert (if h == from then to else h) in w && w[if h == from then to else h] == t;
    }
  }

  /** Moving out of a handle, swapping and dropping the old content, as one change of the owners. */
  lemma MoveSwapDrop<H, T>(m0: map<H, T>, m1: map<H, T>, m2: map<H, T>, from: H, tmp: H, to: H)
    requires tmp !in m0 && tmp != from && tmp != to
    requires m1 == Moved(m0, from, tmp) && m2 == Swapped(m1, tmp, to)
    ensures m2 - {tmp} == if from == to then m0 else Moved(m0 - {to}, from, to)
  {
  }

  lemma SwapOwners<H, T>(m: map<H, T>, a: H, b: H)
    requires Injective(m) && a != b
    ensures Injective(Swapped(m, a, b)) && |Swapped(m, a, b)| == |m|
    ensures Swapped(m, a, b).Values == m.Values
  {
    if a in m && b in m {
      var w := Swapped(m, a, b);
      assert w.Keys == m.Keys;
      forall t | t in m.Values ensures t in w.Values {
        var h :| h in m && m[h] == t;
        assert w[if h == a then b else if h == b then a else h] == t;
      }
    } else if a in m {
      assert Swapped(m, a, b) == Moved(m, a, b);
      MoveOwner(m, a, b);
    } else if b in m {
      assert Swapped(m, a, b) == Moved(m, b, a);
      MoveOwner(m, b, a);
    } else {
      assert Swapped(m, a, b) == m;
    }
  }
}
