/** Sequences of handles that own the timers of a scheduler, each timer once. */
module Handles {
  import opened Words
  import opened Timers

  ghost predicate Distinct<T>(s: seq<T>) {
    forall i, j :: 0 <= i < j < |s| ==> s[i] != s[j]
  }

  lemma {:induction false} DistinctCount<T>(s: seq<T>)
    requires Distinct(s)
    ensures |set x | x in s| == |s|
  {
    if s != [] {
      var front, last := s[..|s| - 1], s[|s| - 1];
      DistinctCount(front);
      assert (set x | x in s) == (set x | x in front) + {last};
    }
  }

  /** The keys are exactly these handles, each once. */
  ghost predicate Exactly<H>(keys: set<H>, hs: seq<H>) {
    Distinct(hs) && keys == (set h | h in hs)
  }

  lemma ExactlyOneMore<H>(keys: set<H>, hs: seq<H>, h: H)
    requires Exactly(keys, hs) && h !in keys
    ensures Exactly(keys + {h}, hs + [h])
  {
  }

  lemma ExactlyOneLess<H>(keys: set<H>, hs: seq<H>, h: H)
    requires Exactly(keys, hs + [h])
    ensures h in keys && Exactly(keys - {h}, hs)
  {
    var all := hs + [h];
    assert all[|hs|] == h;
    forall i, j | 0 <= i < j < |hs| ensures hs[i] != hs[j] {
      assert all[i] != all[j];
    }
    forall i | 0 <= i < |hs| ensures hs[i] != h {
      assert all[i] != all[|hs|];
    }
    assert forall x :: x in all <==> x in hs || x == h;
  }

  lemma HoldsOneMore<H, T>(owners: map<H, T>, hs: seq<H>, es: seq<H>, h: H, t: T)
    requires Exactly(owners.Keys, hs + es) && h !in owners
    ensures Exactly(owners[h := t].Keys, hs + (es + [h]))
  {
    ExactlyOneMore(owners.Keys, hs + es, h);
    assert hs + es + [h] == hs + (es + [h]);
    assert owners[h := t].Keys == owners.Keys + {h};
  }

  /** The owners of timers are exactly these handles, each once. */
  ghost predicate Holds(s: EventScheduler, hs: seq<EventHandle>)
    reads s
  {
    Exactly(s.owners.Keys, hs)
  }

  lemma TimersCounted(s: EventScheduler, hs: seq<EventHandle>)
    requires s.Valid() && Holds(s, hs)
    ensures s.cntTimers == |hs| % U32
  {
    DistinctCount(hs);
    assert |s.owners| == |s.owners.Keys|;
  }

  /** The handles of many owners. */
  function Flatten<H>(ess: seq<seq<H>>): seq<H> {
    if ess == [] then [] else Flatten(ess[..|ess| - 1]) + ess[|ess| - 1]
  }

  /** Where the handles of owner g begin among all. */
  function Offset<H>(ess: seq<seq<H>>, g: nat): (n: nat)
    requires g <= |ess|
  {
    if g == 0 then 0 else Offset(ess, g - 1) + |ess[g - 1]|
  }

  lemma {:induction false} FlattenAt<H>(ess: seq<seq<H>>, g: nat, i: nat)
    requires g < |ess| && i < |ess[g]|
    ensures Offset(ess, g) + i < Offset(ess, |ess|) == |Flatten(ess)|
    ensures Flatten(ess)[Offset(ess, g) + i] == ess[g][i]
    decreases |ess|
  {
    var front := ess[..|ess| - 1];
    SameOffset(ess, |front|);
    FlattenCount(front);
    if g < |front| {
      FlattenAt(front, g, i);
      SameOffset(ess, g);
    }
  }

  lemma {:induction false} FlattenCount<H>(ess: seq<seq<H>>)
    ensures |Flatten(ess)| == Offset(ess, |ess|)
  {
    if ess != [] {
      FlattenCount(ess[..|ess| - 1]);
      SameOffset(ess, |ess| - 1);
    }
  }

  lemma {:induction false} SameOffset<H>(ess: seq<seq<H>>, g: nat)
    requires g < |ess|
    ensures Offset(ess[..|ess| - 1], g) == Offset(ess, g)
    decreases g
  {
    if g > 0 { SameOffset(ess, g - 1); }
  }

  lemma {:induction false} OffsetsGrow<H>(ess: seq<seq<H>>, g: nat, k: nat)
    requires g < k <= |ess|
    ensures Offset(ess, g) + |ess[g]| <= Offset(ess, k)
    decreases k
  {
    if g < k - 1 { OffsetsGrow(ess, g, k - 1); }
  }

  /** No handle is in two places. */
  lemma OnePlace<H>(ess: seq<seq<H>>, g: nat, i: nat, k: nat, j: nat)
    requires Distinct(Flatten(ess)) && g < |ess| && i < |ess[g]| && k < |ess| && j < |ess[k]| && ess[g][i] == ess[k][j]
    ensures g == k && i == j
  {
    FlattenAt(ess, g, i);
    FlattenAt(ess, k, j);
    if g < k { OffsetsGrow(ess, g, k); }
    if k < g { OffsetsGrow(ess, k, g); }
  }

  /** A flow's event: the default handle is assigned a handle that owns a timer, and is scheduled. */
  method NewEvent(s: EventScheduler, now: nat, rel: nat, ctx: Ctx) returns (h: EventHandle)
    requires s.Valid() && s.ready == map[]
    modifies s`cntTimers, s`pending, s`owners
    ensures s.Valid() && s.ready == map[] && fresh(h) && h !in old(s.owners)
    ensures h.tmr != null && fresh(h.tmr) && h.tmr !in old(s.owners).Values
    ensures s.owners == old(s.owners)[h := h.tmr]
    ensures s.pending == old(s.pending)[h.tmr := Entry(Wrap64(now + rel), ctx)]
  {
    ghost var m := s.owners;
    h := new EventHandle.Empty();
    assert h !in m;
    var tmp := new EventHandle(s);
    assert tmp !in m;
    h.MoveAssign(tmp, s);
    AssignNew(m, tmp, h, h.tmr);
    tmp.Destroy(s);
    h.ScheduleSingle(s, now, rel, ctx);
  }

  lemma AssignNew<H, T>(m: map<H, T>, tmp: H, h: H, t: T)
    requires tmp != h && tmp !in m && h !in m
    ensures Moved(m[tmp := t] - {h}, tmp, h) - {tmp} == m[h := t]
  {
  }

  /** The destruction of one owner's handles returns their timers. The order makes no difference. */
  method DestroyEvents(s: EventScheduler, ghost hs: seq<EventHandle>, events: seq<EventHandle>)
    requires s.Valid() && s.ready == map[] && Holds(s, hs + events)
    modifies s`cntTimers, s`pending, s`owners, s.owners.Keys
    ensures s.Valid() && s.ready == map[] && Holds(s, hs)
  {
    var i := |events|;
    assert events[..i] == events;
    while i > 0
      invariant i <= |events| && s.Valid() && s.ready == map[] && Holds(s, hs + events[..i])
      invariant s.owners.Keys <= old(s.owners).Keys
    {
      i := i - 1;
      ghost var keys := s.owners.Keys;
      assert hs + events[..i + 1] == hs + events[..i] + [events[i]];
      ExactlyOneLess(keys, hs + events[..i], events[i]);
      events[i].Destroy(s);
      assert s.owners.Keys == keys - {events[i]};
    }
    assert hs + events[..0] == hs;
  }

  /** The destruction of all owners' handles leaves no timer out and none pending. */
  method DestroyAll(s: EventScheduler, ess: seq<seq<EventHandle>>)
    requires s.Valid() && s.ready == map[] && Holds(s, Flatten(ess))
    modifies s`cntTimers, s`pending, s`owners, s.owners.Keys
    ensures s.Valid() && s.ready == map[] && s.owners == map[] && s.pending == map[]
  {
    var i := |ess|;
    assert ess[..i] == ess;
    while i > 0
      invariant i <= |ess| && s.Valid() && s.ready == map[] && Holds(s, Flatten(ess[..i]))
      invariant s.owners.Keys <= old(s.owners).Keys
    {
      i := i - 1;
      assert ess[..i + 1][..i] == ess[..i];
      DestroyEvents(s, Flatten(ess[..i]), ess[i]);
    }
    assert ess[..0] == [];
    assert s.owners.Keys == {};
    assert s.owners == map[];
  }
}
