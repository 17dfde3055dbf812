/**
 The flows generator: flows that share one rotation of client and server addresses, under any interleaving
 of their events. What every flow must look like is defined from the history of events alone.
 */
module Flows {
  import opened Words
  import opened Wrappers
  import opened Timers
  import opened Handles
  import Cycles

  /** A packet of the capture: how long its flow waits before it, its length and its direction. */
  datatype Pkt = Pkt(relTsc: nat, len: nat, fromCln: bool)

  /** The hosts of a network, from `beg` up to but not including `end`, around the end of the 32-bit words. */
  datatype Range = Range(beg: nat, end: nat) {
    predicate Valid() { beg < U32 && end < U32 }

    /** How many addresses a cursor visits before it is back: all of them when the range is empty. */
    function Size(): (n: nat)
      requires Valid()
      ensures 0 < n <= U32
    {
      if beg == end then U32 else (end - beg) % U32
    }
  }

  /** The hosts of a network, as the library gives them: the addresses between that of the network and that of the
      broadcast, or the one address of a network that is a single host. */
  function Hosts(address: nat, prefix: nat): (r: Range)
    requires address < U32 && prefix <= 32
    ensures r.Valid()
  {
    var block := Pow2(32 - prefix);
    var network := address - address % block;
    if prefix == 32 then Range(address, (address + 1) % U32)
    else Range((network + 1) % U32, (network + block - 1) % U32)
  }

  /** An event of a flow: when it ran, whether the pool had room for the copy of the packet, and when the flow was
      scheduled again. */
  datatype Event = Event(flow: nat, now: nat, copied: bool, later: nat)

  datatype Flow = Flow(idx: nat, pktIdx: nat, cln: nat, srv: nat,
                       cntPkts: nat, cntBytes: nat, tstampBeg: nat, tstampEnd: nat)

  datatype Report = Report(tstamp: nat, flowIdx: nat, pktIdx: nat, pktLen: nat, src: nat, dst: nat, fromCln: bool,
                           ok: bool)

  datatype Sent = Sent(pktIdx: nat, src: nat, dst: nat)

  //// The reference, from the history.

  /** How many events of flow i there were. */
  function Occurrences(evs: seq<Event>, i: nat): nat {
    if evs == [] then 0
    else Occurrences(evs[..|evs| - 1], i) + if evs[|evs| - 1].flow == i then 1 else 0
  }

  /** An event restarts its flow when it is the n-th, 2n-th, ... of that flow. */
  predicate IsRestart(evs: seq<Event>, n: nat)
    requires n > 0 && evs != []
  {
    Occurrences(evs, evs[|evs| - 1].flow) % n == 0
  }

  function Restarts(evs: seq<Event>, n: nat): nat
    requires n > 0
  {
    if evs == [] then 0 else Restarts(evs[..|evs| - 1], n) + if IsRestart(evs, n) then 1 else 0
  }

  /** Which allocation of addresses flow i works with: number i of the initial ones, or that of its last restart,
      restarts being numbered after the initial ones in the order of events over all flows. */
  function Allocation(evs: seq<Event>, flows: nat, n: nat, i: nat): nat
    requires n > 0
  {
    if evs == [] then i
    else
      var front := evs[..|evs| - 1];
      if evs[|evs| - 1].flow == i && IsRestart(evs, n) then flows + Restarts(front, n)
      else Allocation(front, flows, n, i)
  }

  /** The address after a, around the range. */
  function NextAddress(r: Range, a: nat): nat {
    if (a + 1) % U32 == r.end then r.beg else (a + 1) % U32
  }

  /** Where a cursor of the range stands after k moves. */
  function Cursor(r: Range, k: nat): nat {
    if k == 0 then r.beg else NextAddress(r, Cursor(r, k - 1))
  }

  /** The host of allocation m: the same for a burst of allocations, then the next, around the range. */
  function Host(r: Range, burst: nat, m: nat): nat
    requires burst > 0
  {
    Cursor(r, m / burst)
  }

  /** Bytes of the first k packets of a flow, which sends packets 1, 2, ... around the capture. */
  function Bytes(pkts: seq<Pkt>, k: nat): nat
    requires |pkts| > 0
  {
    if k == 0 then 0 else Bytes(pkts, k - 1) + pkts[k % |pkts|].len
  }

  /** The copy failed at the last event of flow i, if it had one. */
  function LastCopied(evs: seq<Event>, i: nat): bool {
    if evs == [] then true
    else if evs[|evs| - 1].flow == i then evs[|evs| - 1].copied
    else LastCopied(evs[..|evs| - 1], i)
  }

  /** Histories that the timers allow: a flow whose copy failed is not scheduled again. */
  predicate Possible(evs: seq<Event>) {
    evs == [] || (Possible(evs[..|evs| - 1]) && LastCopied(evs[..|evs| - 1], evs[|evs| - 1].flow))
  }

  function FirstTime(evs: seq<Event>, i: nat): nat {
    if evs == [] then 0
    else if evs[|evs| - 1].flow == i && Occurrences(evs, i) == 1 then evs[|evs| - 1].now
    else FirstTime(evs[..|evs| - 1], i)
  }

  /** When flow i was scheduled again at its last event. */
  function LastLater(evs: seq<Event>, i: nat): nat {
    if evs == [] then 0
    else if evs[|evs| - 1].flow == i then evs[|evs| - 1].later
    else LastLater(evs[..|evs| - 1], i)
  }

  function LastTime(evs: seq<Event>, i: nat): nat {
    if evs == [] then 0
    else if evs[|evs| - 1].flow == i then evs[|evs| - 1].now
    else LastTime(evs[..|evs| - 1], i)
  }

  datatype Setup = Setup(pkts: seq<Pkt>, cln: Range, srv: Range, burst: nat, flows: nat) {
    ghost predicate Valid() {
      |pkts| > 0 && cln.Valid() && srv.Valid() && 1 <= burst < U32
    }

    /** The report of the last event of a history. */
    function ReportOf(evs: seq<Event>): Report
      requires Valid() && evs != []
    {
      var e := evs[|evs| - 1];
      var p := Occurrences(evs, e.flow) % |pkts|;
      var m := Allocation(evs, flows, |pkts|, e.flow);
      var c, s := Host(cln, burst, m), Host(srv, burst, m);
      Report(e.now, e.flow, p, pkts[p].len, if pkts[p].fromCln then c else s, if pkts[p].fromCln then s else c,
             pkts[p].fromCln, e.copied)
    }

    /** The packet that the last event of a history sends, unless its copy failed. */
    function PacketOf(evs: seq<Event>): Option<Sent>
      requires Valid() && evs != []
    {
      var r := ReportOf(evs);
      if r.ok then Some(Sent(r.pktIdx, r.src, r.dst)) else None
    }

    function ReportsOf(evs: seq<Event>): seq<Report>
      requires Valid()
    {
      if evs == [] then [] else ReportsOf(evs[..|evs| - 1]) + [ReportOf(evs)]
    }

    /** Flow i after a history. */
    ghost predicate FlowAfter(evs: seq<Event>, i: nat, f: Flow)
      requires Valid()
    {
      f.idx == i && PlaceAfter(evs, i, f) && CountersAfter(evs, i, f)
    }

    /** Its packet and its addresses. */
    ghost predicate PlaceAfter(evs: seq<Event>, i: nat, f: Flow)
      requires Valid()
    {
      var m := Allocation(evs, flows, |pkts|, i);
      && f.pktIdx == Occurrences(evs, i) % |pkts|
      && f.cln == Host(cln, burst, m) && f.srv == Host(srv, burst, m)
    }

    /** Its counters and times. */
    ghost predicate CountersAfter(evs: seq<Event>, i: nat, f: Flow)
      requires Valid()
    {
      var k := Occurrences(evs, i);
      && f.cntPkts == Wrap64(k) && f.cntBytes == Wrap64(Bytes(pkts, k))
      && f.tstampEnd == LastTime(evs, i) && (k < U64 ==> f.tstampBeg == FirstTime(evs, i))
    }

    /** When flow i is due after a history: at first, or the time of its packet after it was scheduled again. */
    function DueAt(evs: seq<Event>, i: nat, first: nat): nat
      requires Valid()
    {
      var k := Occurrences(evs, i);
      if k == 0 then first else Wrap64(LastLater(evs, i) + pkts[k % |pkts|].relTsc)
    }
  }

  /** The packets sent are those of the successful reports, one to one and in order. */
  function SentOf(rs: seq<Report>): seq<Sent> {
    if rs == [] then []
    else
      var r := rs[|rs| - 1];
      SentOf(rs[..|rs| - 1]) + if r.ok then [Sent(r.pktIdx, r.src, r.dst)] else []
  }

  //// Arithmetic of cyclic counters.

  lemma Successor(k: nat, n: nat)
    requires n > 0
    ensures (k + 1) % n == if k % n + 1 == n then 0 else k % n + 1
    ensures (k + 1) / n == if k % n + 1 == n then k / n + 1 else k / n
  {
    var q, r := k / n, k % n;
    assert k == q * n + r;
    if r + 1 == n {
      assert (q + 1) * n == q * n + n;
      RemainderUnique(k + 1, n, q + 1, 0);
    } else {
      RemainderUnique(k + 1, n, q, r + 1);
    }
  }

  /** The cursor that an allocation leaves behind: it moves at the end of a burst. */
  lemma NextHost(r: Range, burst: nat, m: nat)
    requires burst > 0
    ensures Host(r, burst, m + 1) == if BurstIdx(burst, m) + 1 == burst then NextAddress(r, Host(r, burst, m))
                                     else Host(r, burst, m)
    ensures BurstIdx(burst, m + 1) == if BurstIdx(burst, m) + 1 == burst then 0 else BurstIdx(burst, m) + 1
  {
    Successor(m, burst);
  }

  /** Which allocation of its burst allocation m is. */
  function BurstIdx(burst: nat, m: nat): (n: nat)
    requires burst > 0
    ensures n < burst
  {
    m % burst
  }

  /** A counter that goes around below n. */
  function Around(n: nat, k: nat): nat {
    if k == 0 then 0 else if Around(n, k - 1) + 1 == n then 0 else Around(n, k - 1) + 1
  }

  lemma {:induction false} AroundIsRemainder(n: nat, k: nat)
    requires n > 0
    ensures Around(n, k) == k % n
  {
    if k == 0 {
      RemainderUnique(0, n, 0, 0);
    } else {
      AroundIsRemainder(n, k - 1);
      Successor(k - 1, n);
    }
  }

  /** The closed form of the rotation. */
  lemma CursorInClosedForm(r: Range, k: nat)
    requires r.Valid()
    ensures Cursor(r, k) == (r.beg + k % r.Size()) % U32
  {
    AroundIsRemainder(r.Size(), k);
    CursorGoesAround(r, r.Size(), k);
  }

  lemma {:induction false} CursorGoesAround(r: Range, n: nat, k: nat)
    requires r.Valid() && n == r.Size()
    ensures Around(n, k) < n && Cursor(r, k) == (r.beg + Around(n, k)) % U32
    decreases k
  {
    if k > 0 {
      CursorGoesAround(r, n, k - 1);
      OnlyLastIsReset(r, n, Around(n, k - 1));
    }
  }

  /** Only the last of the addresses is followed by the end of the range. */
  lemma OnlyLastIsReset(r: Range, n: nat, x: nat)
    requires r.Valid() && x < n == r.Size()
    ensures NextAddress(r, (r.beg + x) % U32) == (r.beg + if x + 1 == n then 0 else x + 1) % U32
  {
    var a := Below(r.beg + x);
    assert (r.beg + x) % U32 == a && (a + 1) % U32 == Below(a + 1) && (r.beg + (x + 1)) % U32 == Below(r.beg + x + 1);
    assert n == if r.beg < r.end then r.end - r.beg else r.end - r.beg + U32;
    assert r.beg % U32 == r.beg;
  }

  /** A number below 2^33, in 32 bits. */
  function Below(x: nat): (y: nat)
    ensures x < 2 * U32 ==> y == x % U32
  {
    if x < U32 then x else x - U32
  }

  /** Increment of a 32-bit word, or reset at the end; says whether it was reset. */
  method IncReset(val: nat, beg: nat, end: nat) returns (next: nat, reset: bool)
    ensures reset == ((val + 1) % U32 == end) && next == if reset then beg else (val + 1) % U32
  {
    next := (val + 1) % U32;
    if next == end {
      return beg, true;
    }
    reset := false;
  }

  /** A network of two addresses has no hosts between its ends; the cursors then visit every address there is. */
  lemma HostsOfNetwork(address: nat, prefix: nat)
    requires address < U32 && prefix <= 32
    ensures Hosts(address, prefix).Size() ==
            if prefix == 32 then 1 else if prefix == 31 then U32 else Pow2(32 - prefix) - 2
  {
    var block, n := Pow2(32 - prefix), Pow2(prefix);
    Powers(32 - prefix);
    PowersDivide(32 - prefix, 32);
    BlockInside(address, block, n);
    HostsOfBlock(address - address % block, block, prefix);
  }

  lemma BlockInside(address: nat, block: nat, n: nat)
    requires block > 0 && address < n * block
    ensures address % block <= address && address - address % block + block <= n * block
    ensures block == 1 ==> address % block == 0
  {
    var q := address / block;
    assert address == q * block + address % block;
    MulCancel(q, n, block);
    MulMono(q + 1, n, block);
    MulAdd(q, 1, block);
  }

  lemma HostsOfBlock(network: nat, block: nat, prefix: nat)
    requires prefix <= 32 && 0 < block && network + block <= U32
    requires if prefix == 32 then block == 1 else if prefix == 31 then block == 2 else block > 2
    ensures prefix == 32 ==> Range(network, (network + 1) % U32).Size() == 1
    ensures prefix < 32 ==> Range((network + 1) % U32, (network + block - 1) % U32).Size() ==
                            if prefix == 31 then U32 else block - 2
  {
  }

  lemma {:induction false} Powers(k: nat)
    ensures if k == 0 then Pow2(k) == 1 else if k == 1 then Pow2(k) == 2 else Pow2(k) > 2
    ensures Pow2(32) == U32
  {
    if k > 1 {
      Powers(k - 1);
    } else {
      assert Pow2(8) == 256;
      assert Pow2(16) == 256 * Pow2(8);
      assert Pow2(24) == 256 * Pow2(16);
      assert Pow2(32) == 256 * Pow2(24);
    }
  }

  lemma Occurs(was: seq<Event>, e: Event, i: nat)
    ensures Occurrences(was + [e], i) == Occurrences(was, i) + if e.flow == i then 1 else 0
  {
    assert (was + [e])[..|was|] == was;
  }

  /** What a flow must look like before its first event. */
  lemma NewFlow(setup: Setup, i: nat)
    requires setup.Valid()
    ensures setup.FlowAfter([], i, Flow(i, 0, Host(setup.cln, setup.burst, i), Host(setup.srv, setup.burst, i),
                                        0, 0, 0, 0))
  {
    RemainderUnique(0, |setup.pkts|, 0, 0);
  }

  /** An event of another flow changes nothing that flow j must look like. */
  lemma OtherFlowStays(setup: Setup, was: seq<Event>, e: Event, j: nat, f: Flow)
    requires setup.Valid() && setup.FlowAfter(was, j, f) && e.flow != j
    ensures setup.FlowAfter(was + [e], j, f)
  {
    assert (was + [e])[..|was|] == was;
  }

  /** The event that makes the packet index reach the end is the restart of its flow. */
  lemma RestartAtEnd(was: seq<Event>, e: Event, n: nat)
    requires n > 0
    ensures IsRestart(was + [e], n) <==> Occurrences(was, e.flow) % n + 1 == n
    ensures Restarts(was + [e], n) == Restarts(was, n) + if Occurrences(was, e.flow) % n + 1 == n then 1 else 0
    ensures forall flows: nat :: Allocation(was + [e], flows, n, e.flow) ==
              if Occurrences(was, e.flow) % n + 1 == n then flows + Restarts(was, n)
              else Allocation(was, flows, n, e.flow)
  {
    Occurs(was, e, e.flow);
    Successor(Occurrences(was, e.flow), n);
    assert (was + [e])[..|was|] == was;
  }

  /** What the event's own flow must look like afterwards. */
  lemma OwnFlowMoves(setup: Setup, was: seq<Event>, e: Event, f: Flow, g: Flow)
    requires setup.Valid() && setup.FlowAfter(was, e.flow, f)
    requires var n, k := |setup.pkts|, Occurrences(was, e.flow);
      && g.idx == f.idx && g.pktIdx == (k + 1) % n
      && g.cln == (if k % n + 1 == n then Host(setup.cln, setup.burst, setup.flows + Restarts(was, n)) else f.cln)
      && g.srv == (if k % n + 1 == n then Host(setup.srv, setup.burst, setup.flows + Restarts(was, n)) else f.srv)
      && g.cntPkts == Wrap64(k + 1) && g.cntBytes == Wrap64(Bytes(setup.pkts, k + 1))
      && g.tstampEnd == e.now && g.tstampBeg == (if g.cntPkts == 1 then e.now else f.tstampBeg)
    ensures setup.FlowAfter(was + [e], e.flow, g)
  {
    OwnPlaceMoves(setup, was, e, f, g);
    OwnCountersMove(setup, was, e, f, g);
  }

  lemma OwnPlaceMoves(setup: Setup, was: seq<Event>, e: Event, f: Flow, g: Flow)
    requires setup.Valid() && setup.PlaceAfter(was, e.flow, f)
    requires var n, k := |setup.pkts|, Occurrences(was, e.flow);
      && g.pktIdx == (k + 1) % n
      && g.cln == (if k % n + 1 == n then Host(setup.cln, setup.burst, setup.flows + Restarts(was, n)) else f.cln)
      && g.srv == (if k % n + 1 == n then Host(setup.srv, setup.burst, setup.flows + Restarts(was, n)) else f.srv)
    ensures setup.PlaceAfter(was + [e], e.flow, g)
  {
    Occurs(was, e, e.flow);
    RestartAtEnd(was, e, |setup.pkts|);
  }

  lemma OwnCountersMove(setup: Setup, was: seq<Event>, e: Event, f: Flow, g: Flow)
    requires setup.Valid() && setup.CountersAfter(was, e.flow, f)
    requires var k := Occurrences(was, e.flow);
      && g.cntPkts == Wrap64(k + 1) && g.cntBytes == Wrap64(Bytes(setup.pkts, k + 1))
      && g.tstampEnd == e.now && g.tstampBeg == (if g.cntPkts == 1 then e.now else f.tstampBeg)
    ensures setup.CountersAfter(was + [e], e.flow, g)
  {
    hide Wrap64, Bytes;
    Occurs(was, e, e.flow);
    assert (was + [e])[..|was|] == was;
    if Occurrences(was, e.flow) + 1 < U64 { SmallWord(Occurrences(was, e.flow) + 1); }
  }

  /** How long after the others' start the code lets flow i start: a step after the one before. */
  function StartTsc(step: nat, i: nat): nat {
    if i == 0 then 0 else Wrap64(StartTsc(step, i - 1) + step)
  }

  lemma {:induction false} StartInClosedForm(step: nat, i: nat)
    ensures StartTsc(step, i) == Wrap64(i * step)
  {
    if i > 0 {
      StartInClosedForm(step, i - 1);
      MulAdd(i - 1, 1, step);
      WrappedSum((i - 1) * step, step);
    }
  }

  /** When flow i is first due, in wrapping cycles. */
  function FlowDue(now: nat, i: nat, step: nat, rel: nat): nat {
    Wrap64(now + Wrap64(StartTsc(step, i) + rel))
  }

  /** When the first n flows are first due. */
  function FirstDues(clock: nat -> nat, step: nat, rel: nat, n: nat): (ds: seq<nat>)
    ensures |ds| == n
  {
    if n == 0 then [] else FirstDues(clock, step, rel, n - 1) + [FlowDue(clock(n - 1), n - 1, step, rel)]
  }

  lemma {:induction false} FirstDueOf(clock: nat -> nat, step: nat, rel: nat, n: nat, i: nat)
    requires i < n
    ensures FirstDues(clock, step, rel, n)[i] == FlowDue(clock(i), i, step, rel)
  {
    if i < n - 1 { FirstDueOf(clock, step, rel, n - 1, i); }
  }

  //// Flows and the timers of their events.

  /** What there is to know of a generator: its setup, its history, the handles of its events and when these are
      first due. */
  datatype GenView = GenView(idx: nat, setup: Setup, evs: seq<Event>, events: seq<EventHandle>, first: seq<nat>)

  /** The handle owns a timer that waits for `due`, or runs soon if that has come, exactly when it should. */
  ghost predicate FlowArmed<H, T>(owners: map<H, T>, armed: map<T, Entry>, h: H, c: Ctx, due: nat, on: bool) {
    h in owners && (owners[h] in armed <==> on) && (on ==> armed[owners[h]] == Entry(due, c))
  }

  /** The event of every flow is pending, at the time that the history gives, unless its copy failed at last. */
  ghost predicate GenArmed(owners: map<EventHandle, Timer>, armed: map<Timer, Entry>, v: GenView) {
    && v.setup.Valid() && |v.events| == |v.first| == v.setup.flows
    && forall i :: 0 <= i < |v.events| ==>
         FlowArmed(owners, armed, v.events[i], Ctx(v.idx, i), v.setup.DueAt(v.evs, i, v.first[i]), LastCopied(v.evs, i))
  }

  /** The handles own timers that wait for their first deadlines. */
  ghost predicate Scheduled<H, T>(owners: map<H, T>, pending: map<T, Entry>, idx: nat, events: seq<H>,
                                  first: seq<nat>) {
    && |events| == |first|
    && forall i :: 0 <= i < |events| ==> FlowArmed(owners, pending, events[i], Ctx(idx, i), first[i], true)
  }

  lemma OneMoreScheduled<H, T>(owners: map<H, T>, pending: map<T, Entry>, idx: nat, events: seq<H>, first: seq<nat>,
                               h: H, t: T, due: nat)
    requires Scheduled(owners, pending, idx, events, first) && h !in owners && t !in owners.Values
    ensures Scheduled(owners[h := t], pending[t := Entry(due, Ctx(idx, |events|))], idx, events + [h], first + [due])
  {
    forall i | 0 <= i < |events| ensures events[i] in owners && owners[events[i]] != t {
      assert FlowArmed(owners, pending, events[i], Ctx(idx, i), first[i], true);
      assert owners[events[i]] in owners.Values;
    }
  }

  /** Another generator's events are armed as before when only timers that it does not have were added. */
  lemma ArmedStays(was: map<EventHandle, Timer>, pendingWas: map<Timer, Entry>, now: map<EventHandle, Timer>,
                   pendingNow: map<Timer, Entry>, v: GenView)
    requires GenArmed(was, pendingWas, v) && Grows(was, now) && Grows(pendingWas, pendingNow)
    requires forall h :: h in was && was[h] in pendingNow ==> was[h] in pendingWas
    ensures GenArmed(now, pendingNow, v)
  {
    forall i | 0 <= i < |v.events|
      ensures FlowArmed(now, pendingNow, v.events[i], Ctx(v.idx, i), v.setup.DueAt(v.evs, i, v.first[i]),
                        LastCopied(v.evs, i))
    {
      assert FlowArmed(was, pendingWas, v.events[i], Ctx(v.idx, i), v.setup.DueAt(v.evs, i, v.first[i]),
                       LastCopied(v.evs, i));
    }
  }

  /** What an event does to its flow: it is at the next packet of the capture, which counts, and with the addresses at
      which the cursors stand when it starts again. */
  predicate Moves(pkts: seq<Pkt>, f: Flow, g: Flow, clnAddr: nat, srvAddr: nat, now: nat) {
    && |pkts| > 0 && g.pktIdx == (if f.pktIdx + 1 == |pkts| then 0 else f.pktIdx + 1) && g.pktIdx < |pkts|
    && g.idx == f.idx && g.cln == (if g.pktIdx == 0 then clnAddr else f.cln)
    && g.srv == (if g.pktIdx == 0 then srvAddr else f.srv)
    && g.cntPkts == Wrap64(f.cntPkts + 1) && g.cntBytes == Wrap64(f.cntBytes + pkts[g.pktIdx].len)
    && g.tstampBeg == (if g.cntPkts == 1 then now else f.tstampBeg) && g.tstampEnd == now
  }

  lemma MovesOn(pkts: seq<Pkt>, f: Flow, on: Flow, g: Flow, clnAddr: nat, srvAddr: nat, now: nat)
    requires |pkts| > 0 && on.pktIdx < |pkts|
    requires on == if f.pktIdx + 1 == |pkts| then f.(pktIdx := 0, cln := clnAddr, srv := srvAddr)
                   else f.(pktIdx := f.pktIdx + 1)
    requires g == on.(cntPkts := Wrap64(f.cntPkts + 1), cntBytes := Wrap64(f.cntBytes + pkts[on.pktIdx].len),
                      tstampEnd := now, tstampBeg := if Wrap64(f.cntPkts + 1) == 1 then now else f.tstampBeg)
    ensures Moves(pkts, f, g, clnAddr, srvAddr, now)
  {
  }

  /** What it reports: that packet, from the flow's client to its server or back. */
  predicate Tells(pkts: seq<Pkt>, g: Flow, r: Report, now: nat, copied: bool) {
    && g.pktIdx < |pkts| && r.tstamp == now && r.flowIdx == g.idx && r.pktIdx == g.pktIdx && r.ok == copied
    && r.pktLen == pkts[g.pktIdx].len && r.fromCln == pkts[g.pktIdx].fromCln
    && (if r.fromCln then r.src else r.dst) == g.cln && (if r.fromCln then r.dst else r.src) == g.srv
  }

  /** The flow after an event says what that reports. */
  lemma ReportOfFlow(setup: Setup, was: seq<Event>, e: Event, f: Flow)
    requires setup.Valid() && setup.FlowAfter(was + [e], e.flow, f)
    ensures var n := |setup.pkts|; f.pktIdx == Occurrences(was + [e], e.flow) % n && f.pktIdx < n
    ensures var pkt := setup.pkts[f.pktIdx];
      setup.ReportOf(was + [e]) ==
      Report(e.now, f.idx, f.pktIdx, pkt.len, if pkt.fromCln then f.cln else f.srv,
             if pkt.fromCln then f.srv else f.cln, pkt.fromCln, e.copied)
    ensures Tells(setup.pkts, f, setup.ReportOf(was + [e]), e.now, e.copied)
  {
    hide Setup.CountersAfter, Allocation, Host;
  }

  lemma CountersOf(setup: Setup, evs: seq<Event>, i: nat, f: Flow)
    requires setup.Valid() && setup.FlowAfter(evs, i, f)
    ensures f.cntPkts == Wrap64(Occurrences(evs, i)) && f.cntBytes == Wrap64(Bytes(setup.pkts, Occurrences(evs, i)))
  {
  }

  lemma PossibleMore(was: seq<Event>, e: Event)
    requires Possible(was) && LastCopied(was, e.flow)
    ensures Possible(was + [e])
  {
    assert (was + [e])[..|was|] == was;
  }

  lemma DueAfterEvent(setup: Setup, was: seq<Event>, e: Event, first: nat)
    requires setup.Valid()
    ensures setup.DueAt(was + [e], e.flow, first) ==
            Wrap64(e.later + setup.pkts[Occurrences(was + [e], e.flow) % |setup.pkts|].relTsc)
  {
    Occurs(was, e, e.flow);
  }

  /** What an event changes: its own timer, which it takes and sets again unless the copy failed. */
  ghost function ArmedAfter<T>(armed: map<T, Entry>, t: T, copied: bool, e: Entry): map<T, Entry> {
    if copied then armed[t := e] else armed - {t}
  }

  /** The flow whose event ran. */
  lemma OwnGeneratorArmed(owners: map<EventHandle, Timer>, armed: map<Timer, Entry>, v: GenView, e: Event)
    requires GenArmed(owners, armed, v) && Injective(owners) && Distinct(v.events) && e.flow < |v.events|
    ensures var w := v.(evs := v.evs + [e]);
      GenArmed(owners, ArmedAfter(armed, owners[v.events[e.flow]], e.copied,
                                  Entry(w.setup.DueAt(w.evs, e.flow, w.first[e.flow]), Ctx(v.idx, e.flow))), w)
  {
    var w := v.(evs := v.evs + [e]);
    var i := e.flow;
    assert FlowArmed(owners, armed, v.events[i], Ctx(v.idx, i), v.setup.DueAt(v.evs, i, v.first[i]),
                     LastCopied(v.evs, i));
    var t := owners[v.events[i]];
    var after := ArmedAfter(armed, t, e.copied, Entry(w.setup.DueAt(w.evs, i, w.first[i]), Ctx(v.idx, i)));
    assert w.evs[..|v.evs|] == v.evs;
    forall j | 0 <= j < |v.events|
      ensures FlowArmed(owners, after, v.events[j], Ctx(v.idx, j), w.setup.DueAt(w.evs, j, w.first[j]),
                        LastCopied(w.evs, j))
    {
      if j != i {
        assert FlowArmed(owners, armed, v.events[j], Ctx(v.idx, j), v.setup.DueAt(v.evs, j, v.first[j]),
                         LastCopied(v.evs, j));
        OtherFlowDue(v.setup, v.evs, e, j, v.first[j]);
      }
    }
  }

  lemma OtherFlowDue(setup: Setup, was: seq<Event>, e: Event, j: nat, first: nat)
    requires setup.Valid() && e.flow != j
    ensures setup.DueAt(was + [e], j, first) == setup.DueAt(was, j, first)
    ensures LastCopied(was + [e], j) == LastCopied(was, j)
  {
    Occurs(was, e, j);
  }

  /** The flows of the other generators. */
  lemma OtherGeneratorArmed(owners: map<EventHandle, Timer>, armed: map<Timer, Entry>, v: GenView, h: EventHandle,
                            copied: bool, e: Entry)
    requires GenArmed(owners, armed, v) && Injective(owners) && h in owners && h !in v.events
    ensures GenArmed(owners, ArmedAfter(armed, owners[h], copied, e), v)
  {
    forall i | 0 <= i < |v.events|
      ensures FlowArmed(owners, ArmedAfter(armed, owners[h], copied, e), v.events[i], Ctx(v.idx, i),
                        v.setup.DueAt(v.evs, i, v.first[i]), LastCopied(v.evs, i))
    {
      assert FlowArmed(owners, armed, v.events[i], Ctx(v.idx, i), v.setup.DueAt(v.evs, i, v.first[i]),
                       LastCopied(v.evs, i));
    }
  }

  /** The loop over the flows: the event of each owns a timer and waits for its first deadline. */
  method ScheduleFlows(s: EventScheduler, ghost hs: seq<EventHandle>, idx: nat, flows: seq<Flow>, pkts: seq<Pkt>,
                       step: nat, clock: nat -> nat) returns (events: seq<EventHandle>, ghost first: seq<nat>)
    requires |pkts| > 0 && forall i :: 0 <= i < |flows| ==> flows[i].pktIdx == 0
    requires s.Valid() && s.ready == map[] && Holds(s, hs)
    modifies s`cntTimers, s`pending, s`owners
    ensures s.Valid() && s.ready == map[] && Holds(s, hs + events)
    ensures |events| == |flows| && Scheduled(s.owners, s.pending, idx, events, first)
    ensures first == FirstDues(clock, step, pkts[0].relTsc, |flows|)
    ensures Grows(old(s.owners), s.owners) && Grows(old(s.pending), s.pending)
    ensures forall h :: h in s.owners && h !in old(s.owners) ==> fresh(h)
    ensures forall t :: t in s.pending && t !in old(s.pending) ==> fresh(t)
  {
    var flowTsc := 0;
    events, first := [], FirstDues(clock, step, pkts[0].relTsc, |flows|);
    assert hs + events == hs;
    for i := 0 to |flows|
      invariant s.Valid() && s.ready == map[] && Holds(s, hs + events) && flowTsc == StartTsc(step, i)
      invariant |events| == i && Scheduled(s.owners, s.pending, idx, events, first[..i])
      invariant Grows(old(s.owners), s.owners) && Grows(old(s.pending), s.pending)
      invariant forall h :: h in s.owners && h !in old(s.owners) ==> fresh(h)
      invariant forall t :: t in s.pending && t !in old(s.pending) ==> fresh(t)
    {
      var h := AddFlowEvent(s, hs, idx, events, clock, flowTsc, pkts[flows[i].pktIdx].relTsc, step, |flows|, first);
      events := events + [h];
      flowTsc := NextStart(flowTsc, step, i);
    }
    assert first[..|flows|] == first;
  }

  method NextStart(flowTsc: nat, step: nat, ghost i: nat) returns (next: nat)
    requires flowTsc == StartTsc(step, i)
    ensures next == StartTsc(step, i + 1)
  {
    next := Wrap64(flowTsc + step);
  }

  /** The event of one more flow. */
  method AddFlowEvent(s: EventScheduler, ghost hs: seq<EventHandle>, idx: nat, events: seq<EventHandle>,
                      clock: nat -> nat,
                      flowTsc: nat, rel: nat, ghost step: nat, ghost n: nat, ghost dues: seq<nat>)
    returns (h: EventHandle)
    requires |events| < n && flowTsc == StartTsc(step, |events|) && dues == FirstDues(clock, step, rel, n)
    requires s.Valid() && s.ready == map[] && Holds(s, hs + events)
    requires Scheduled(s.owners, s.pending, idx, events, dues[..|events|])
    modifies s`cntTimers, s`pending, s`owners
    ensures s.Valid() && s.ready == map[] && Holds(s, hs + (events + [h])) && fresh(h)
    ensures Scheduled(s.owners, s.pending, idx, events + [h], dues[..|events| + 1])
    ensures h !in old(s.owners) && s.owners == old(s.owners)[h := h.tmr] && fresh(h.tmr)
    ensures s.pending == old(s.pending)[h.tmr := Entry(dues[|events|], Ctx(idx, |events|))]
  {
    ghost var k := |events|;
    DueOfStart(clock, step, rel, n, k, flowTsc);
    assert dues[..k + 1] == dues[..k] + [dues[k]];
    h := AddEvent(s, hs, idx, events, clock(|events|), Wrap64(flowTsc + rel), dues[..k], dues[k]);
  }

  lemma DueOfStart(clock: nat -> nat, step: nat, rel: nat, n: nat, i: nat, flowTsc: nat)
    requires i < n && flowTsc == StartTsc(step, i)
    ensures FirstDues(clock, step, rel, n)[i] == Wrap64(clock(i) + Wrap64(flowTsc + rel))
  {
    FirstDueOf(clock, step, rel, n, i);
  }

  /** One more event, due at a given time. */
  method AddEvent(s: EventScheduler, ghost hs: seq<EventHandle>, idx: nat, events: seq<EventHandle>, now: nat, rel: nat,
                  ghost first: seq<nat>, ghost due: nat) returns (h: EventHandle)
    requires due == Wrap64(now + rel)
    requires s.Valid() && s.ready == map[] && Holds(s, hs + events)
    requires Scheduled(s.owners, s.pending, idx, events, first)
    modifies s`cntTimers, s`pending, s`owners
    ensures s.Valid() && s.ready == map[] && Holds(s, hs + (events + [h])) && fresh(h)
    ensures Scheduled(s.owners, s.pending, idx, events + [h], first + [due])
    ensures h !in old(s.owners) && s.owners == old(s.owners)[h := h.tmr] && fresh(h.tmr)
    ensures s.pending == old(s.pending)[h.tmr := Entry(due, Ctx(idx, |events|))]
  {
    ghost var o, p := s.owners, s.pending;
    h := NewEvent(s, now, rel, Ctx(idx, |events|));
    OneMoreScheduled(o, p, idx, events, first, h, h.tmr, due);
    HoldsOneMore(o, hs, events, h, h.tmr);
  }

  class FlowsGenerator {
    const idx: nat
    const pkts: seq<Pkt>
    const clnAddrs: Range
    const srvAddrs: Range
    const burstCnt: nat
    const flowsPerSec: nat
    var flows: seq<Flow>
    /** The handles of the flows' events. */
    var events: seq<EventHandle>
    var clnAddr: nat
    var srvAddr: nat
    var burstIdx: nat
    /** History: the events that ran, the address pairs given out, and what was reported and sent. */
    ghost var evs: seq<Event>
    ghost var allocs: seq<(nat, nat)>
    ghost var reports: seq<Report>
    ghost var sends: seq<Sent>
    /** When the flows are first due. */
    ghost var first: seq<nat>

    ghost function TheSetup(): Setup {
      Setup(pkts, clnAddrs, srvAddrs, burstCnt, flowsPerSec)
    }

    /** The shared cursors stand at the next allocation. */
    ghost predicate CursorsAt(m: nat)
      reads this`clnAddr, this`srvAddr, this`burstIdx
      requires TheSetup().Valid()
    {
      && burstIdx == BurstIdx(burstCnt, m)
      && clnAddr == Host(clnAddrs, burstCnt, m) && srvAddr == Host(srvAddrs, burstCnt, m)
    }

    /** The closed form of the rotation. */
    ghost predicate AllocsInv()
      reads this`allocs
      requires TheSetup().Valid()
    {
      forall m :: 0 <= m < |allocs| ==> allocs[m] == (Host(clnAddrs, burstCnt, m), Host(srvAddrs, burstCnt, m))
    }

    ghost predicate Valid()
      reads `flows, `clnAddr, `srvAddr, `burstIdx, `evs, `allocs, `reports, `sends
    {
      && TheSetup().Valid() && |flows| == flowsPerSec
      && (forall e :: e in evs ==> e.flow < flowsPerSec) && Possible(evs)
      && |allocs| == flowsPerSec + Restarts(evs, |pkts|) && AllocsInv() && CursorsAt(|allocs|)
      && (forall i :: 0 <= i < flowsPerSec ==> TheSetup().FlowAfter(evs, i, flows[i]))
      && reports == TheSetup().ReportsOf(evs) && sends == SentOf(reports)
    }

    ghost function View(): GenView
      reads this
    {
      GenView(idx, TheSetup(), evs, events, first)
    }

    /** One use of the shared cursors. */
    method Allocate() returns (c: nat, s: nat)
      requires TheSetup().Valid() && CursorsAt(|allocs|) && AllocsInv()
      modifies this`clnAddr, this`srvAddr, this`burstIdx, this`allocs
      ensures c == Host(clnAddrs, burstCnt, |old(allocs)|) && s == Host(srvAddrs, burstCnt, |old(allocs)|)
      ensures allocs == old(allocs) + [(c, s)] && CursorsAt(|allocs|) && AllocsInv()
    {
      hide Host, BurstIdx;
      c, s := clnAddr, srvAddr;
      ghost var m := |allocs|;
      NextHost(clnAddrs, burstCnt, m);
      NextHost(srvAddrs, burstCnt, m);
      var reset;
      burstIdx, reset := IncReset(burstIdx, 0, burstCnt);
      if reset {
        clnAddr, reset := IncReset(clnAddr, clnAddrs.beg, clnAddrs.end);
        srvAddr, reset := IncReset(srvAddr, srvAddrs.beg, srvAddrs.end);
      }
      allocs := allocs + [(c, s)];
    }

    /** The flows with their first addresses; their events are set later. */
    constructor (idx: nat, pkts: seq<Pkt>, clnAddrs: Range, srvAddrs: Range, burstCnt: nat, flowsPerSec: nat)
      requires Setup(pkts, clnAddrs, srvAddrs, burstCnt, flowsPerSec).Valid()
      ensures this.idx == idx && TheSetup() == Setup(pkts, clnAddrs, srvAddrs, burstCnt, flowsPerSec)
      ensures Valid() && evs == [] && events == [] && sends == []
      ensures |allocs| == flowsPerSec && forall i :: 0 <= i < flowsPerSec ==>
                flows[i] == Flow(i, 0, allocs[i].0, allocs[i].1, 0, 0, 0, 0)
    {
      this.idx, this.pkts, this.clnAddrs, this.srvAddrs := idx, pkts, clnAddrs, srvAddrs;
      this.burstCnt, this.flowsPerSec := burstCnt, flowsPerSec;
      flows, events := [], [];
      clnAddr, srvAddr, burstIdx := clnAddrs.beg, srvAddrs.beg, 0;
      evs, allocs, reports, sends, first := [], [], [], [], [];
      new;
      for i := 0 to flowsPerSec
        invariant |allocs| == |flows| == i && AllocsInv() && CursorsAt(|allocs|)
        invariant evs == [] && events == [] && reports == [] && sends == []
        invariant forall j :: 0 <= j < i ==> flows[j] == Flow(j, 0, allocs[j].0, allocs[j].1, 0, 0, 0, 0)
      {
        var c, s := Allocate();
        flows := flows + [Flow(i, 0, c, s, 0, 0, 0, 0)];
      }
      forall i | 0 <= i < flowsPerSec ensures TheSetup().FlowAfter(evs, i, flows[i]) {
        NewFlow(TheSetup(), i);
      }
    }

    /** Every flow gets a timer with its first deadline, a step after the one before. Fails when the step is not even
        one cycle, and then takes no timer. */
    method SetupFlowEvents(s: EventScheduler, ghost hs: seq<EventHandle>, hz: nat, clock: nat -> nat) returns (ok: bool)
      requires Valid() && evs == [] && events == [] && flowsPerSec > 0
      requires s.Valid() && s.ready == map[] && Holds(s, hs)
      modifies s`cntTimers, s`pending, s`owners, this`events, this`first
      ensures Valid() && s.Valid() && s.ready == map[] && Holds(s, hs + events) && Injective(s.owners)
      ensures ok == (Cycles.FlowStep(flowsPerSec, hz) != 0)
      ensures !ok ==> events == [] && s.owners == old(s.owners) && s.pending == old(s.pending)
      ensures ok ==> GenArmed(s.owners, s.pending, View())
      ensures ok ==> first == FirstDues(clock, Cycles.FlowStep(flowsPerSec, hz), pkts[0].relTsc, flowsPerSec)
      ensures Grows(old(s.owners), s.owners) && Grows(old(s.pending), s.pending)
      ensures forall h :: h in s.owners && h !in old(s.owners) ==> fresh(h)
      ensures forall t :: t in s.pending && t !in old(s.pending) ==> fresh(t)
    {
      assert hs + events == hs;
      var step := Cycles.FlowStep(flowsPerSec, hz);
      if step == 0 {
        return false;
      }
      forall i | 0 <= i < flowsPerSec ensures flows[i].pktIdx == 0 {
        FirstPacket(i);
      }
      events, first := ScheduleFlows(s, hs, idx, flows, pkts, step, clock);
      ok := true;
    }

    lemma FirstPacket(i: nat)
      requires Valid() && evs == [] && i < flowsPerSec
      ensures flows[i].pktIdx == 0
    {
      assert TheSetup().FlowAfter(evs, i, flows[i]);
      RemainderUnique(0, |pkts|, 0, 0);
    }

    /** One event of flow i, whose timer is due and was taken off. `later` is the clock when the flow is scheduled
        again, which it is unless its packet could not be copied. Gives the packet to send, if there is one. */
    method OnFlowEvent(s: EventScheduler, i: nat, now: nat, copied: bool, later: nat)
      returns (sent: Option<Sent>, report: Report)
      requires Valid() && i < flowsPerSec && LastCopied(evs, i)
      requires s.Valid() && |events| == |first| == flowsPerSec && events[i] in s.owners
      requires s.owners[events[i]] !in s.ready
      modifies this, s`pending
      ensures Valid() && s.Valid() && evs == old(evs) + [Event(i, now, copied, later)]
      ensures events == old(events) && first == old(first)
      ensures s.pending == if !copied then old(s.pending) else
                old(s.pending)[s.owners[events[i]] := Entry(TheSetup().DueAt(evs, i, first[i]), Ctx(idx, i))]
      ensures report.pktIdx < |pkts| && TheSetup().DueAt(evs, i, first[i]) == Wrap64(later + pkts[report.pktIdx].relTsc)
      ensures sent == TheSetup().PacketOf(evs) && sends == old(sends) + if sent.Some? then [sent.value] else []
      ensures report == TheSetup().ReportOf(evs)
      ensures Moves(pkts, old(flows[i]), flows[i], old(clnAddr), old(srvAddr), now)
      ensures Tells(pkts, flows[i], report, now, copied)
      ensures sent == if copied then Some(Sent(report.pktIdx, report.src, report.dst)) else None
      ensures forall j :: 0 <= j < flowsPerSec && j != i ==> flows[j] == old(flows[j])
    {
      hide Moves, Tells, Setup.ReportOf, Setup.PacketOf, Setup.FlowAfter, Setup.DueAt, Occurrences, Restarts;
      ghost var was := evs;
      var pkt;
      sent, report, pkt := Fire(i, now, copied, later);
      DueAfterEvent(TheSetup(), was, Event(i, now, copied, later), first[i]);
      if copied {
        events[i].ScheduleSingle(s, later, pkt.relTsc, Ctx(idx, i));
      }
    }

    /** The event but for its timer. */
    method Fire(i: nat, now: nat, copied: bool, ghost later: nat)
      returns (sent: Option<Sent>, report: Report, pkt: Pkt)
      requires Valid() && i < flowsPerSec && LastCopied(evs, i)
      modifies `flows, `clnAddr, `srvAddr, `burstIdx, `evs, `allocs, `reports, `sends
      ensures Valid() && evs == old(evs) + [Event(i, now, copied, later)]
      ensures report.pktIdx == Occurrences(evs, i) % |pkts| && pkt == pkts[report.pktIdx]
      ensures sent == TheSetup().PacketOf(evs) && sends == old(sends) + if sent.Some? then [sent.value] else []
      ensures report == TheSetup().ReportOf(evs)
      ensures Moves(pkts, old(flows[i]), flows[i], old(clnAddr), old(srvAddr), now)
      ensures Tells(pkts, flows[i], report, now, copied)
      ensures sent == if copied then Some(Sent(report.pktIdx, report.src, report.dst)) else None
      ensures forall j :: 0 <= j < flowsPerSec && j != i ==> flows[j] == old(flows[j])
    {
      hide CursorsAt, AllocsInv, Setup.FlowAfter, Setup.ReportOf, Setup.ReportsOf, Setup.PacketOf, SentOf, Occurrences;
      hide IsRestart, Restarts, Moves, Tells, Possible, LastCopied;
      ghost var was, e := evs, Event(i, now, copied, later);
      var fl := Process(i, now, copied, later);
      ReportOfFlow(TheSetup(), was, e, fl);
      PossibleMore(was, e);
      pkt := pkts[fl.pktIdx];
      var src, dst := if pkt.fromCln then fl.cln else fl.srv, if pkt.fromCln then fl.srv else fl.cln;
      report := Report(now, fl.idx, fl.pktIdx, pkt.len, src, dst, pkt.fromCln, copied);
      sent := SendAndReport(report, e);
      StoreFlow(i, fl, was, e);
    }

    /** What the event makes of flow i, before it is stored. */
    method Process(i: nat, now: nat, ghost copied: bool, ghost later: nat) returns (fl: Flow)
      requires Valid() && i < flowsPerSec
      modifies this`clnAddr, this`srvAddr, this`burstIdx, this`allocs
      ensures TheSetup().FlowAfter(evs + [Event(i, now, copied, later)], i, fl)
      ensures Moves(pkts, flows[i], fl, old(clnAddr), old(srvAddr), now)
      ensures |allocs| == flowsPerSec + Restarts(evs + [Event(i, now, copied, later)], |pkts|) && AllocsInv()
      ensures CursorsAt(|allocs|)
    {
      hide Moves, Wrap64, Setup.FlowAfter, Bytes, Occurrences, IsRestart, Restarts, Host, AllocsInv, CursorsAt;
      ghost var e := Event(i, now, copied, later);
      CountersOf(TheSetup(), evs, i, flows[i]);
      fl := Advance(i);
      ghost var on := fl;
      fl := CountPacket(fl, pkts[fl.pktIdx], now, Occurrences(evs, i));
      MovesOn(pkts, flows[i], on, fl, old(clnAddr), old(srvAddr), now);
      OwnFlowMoves(TheSetup(), evs, e, flows[i], fl);
      RestartAtEnd(evs, e, |pkts|);
    }

    /** The next packet of flow i, with new addresses from the shared cursors when the flow starts again. */
    method Advance(i: nat) returns (fl: Flow)
      requires Valid() && i < flowsPerSec
      modifies this`clnAddr, this`srvAddr, this`burstIdx, this`allocs
      ensures var k, n, m := Occurrences(evs, i), |pkts|, |old(allocs)|;
        && fl == (if k % n + 1 == n then
                    flows[i].(pktIdx := (k + 1) % n, cln := Host(clnAddrs, burstCnt, m),
                              srv := Host(srvAddrs, burstCnt, m))
                  else flows[i].(pktIdx := (k + 1) % n))
        && fl == (if flows[i].pktIdx + 1 == n then flows[i].(pktIdx := 0, cln := old(clnAddr), srv := old(srvAddr))
                  else flows[i].(pktIdx := flows[i].pktIdx + 1))
        && fl.pktIdx < n && |allocs| == m + (if k % n + 1 == n then 1 else 0) && AllocsInv() && CursorsAt(|allocs|)
    {
      Successor(Occurrences(evs, i), |pkts|);
      fl := flows[i];
      if fl.pktIdx + 1 == |pkts| {
        var c, s := Allocate();
        fl := fl.(pktIdx := 0, cln := c, srv := s);
      } else {
        fl := fl.(pktIdx := fl.pktIdx + 1);
      }
    }

    /** The counters and times of a flow that processes its packet number k + 1. */
    method CountPacket(f: Flow, pkt: Pkt, now: nat, ghost k: nat) returns (fl: Flow)
      requires |pkts| > 0 && pkt == pkts[(k + 1) % |pkts|]
      requires f.cntPkts == Wrap64(k) && f.cntBytes == Wrap64(Bytes(pkts, k))
      ensures fl == f.(cntPkts := Wrap64(k + 1), cntBytes := Wrap64(Bytes(pkts, k + 1)), tstampEnd := now,
                       tstampBeg := if Wrap64(k + 1) == 1 then now else f.tstampBeg)
      ensures fl == f.(cntPkts := Wrap64(f.cntPkts + 1), cntBytes := Wrap64(f.cntBytes + pkt.len), tstampEnd := now,
                       tstampBeg := if Wrap64(f.cntPkts + 1) == 1 then now else f.tstampBeg)
    {
      WrappedSum(k, 1);
      WrappedSum(Bytes(pkts, k), pkt.len);
      fl := f.(cntPkts := Wrap64(f.cntPkts + 1), cntBytes := Wrap64(f.cntBytes + pkt.len), tstampEnd := now);
      if fl.cntPkts == 1 {
        fl := fl.(tstampBeg := now);
      }
    }

    method StoreFlow(i: nat, fl: Flow, ghost was: seq<Event>, ghost e: Event)
      requires TheSetup().Valid() && i < flowsPerSec == |flows| && e.flow == i && TheSetup().FlowAfter(was + [e], i, fl)
      requires forall j :: 0 <= j < flowsPerSec ==> TheSetup().FlowAfter(was, j, flows[j])
      modifies this`flows
      ensures flows == old(flows)[i := fl]
      ensures forall j :: 0 <= j < flowsPerSec ==> TheSetup().FlowAfter(was + [e], j, flows[j])
    {
      forall j | 0 <= j < flowsPerSec && j != i ensures TheSetup().FlowAfter(was + [e], j, flows[j]) {
        OtherFlowStays(TheSetup(), was, e, j, flows[j]);
      }
      flows := flows[i := fl];
    }

    /** The copied packet, if any, is sent with the flow's addresses; the event is reported in any case. */
    method SendAndReport(r: Report, ghost e: Event) returns (sent: Option<Sent>)
      requires TheSetup().Valid() && reports == TheSetup().ReportsOf(evs) && sends == SentOf(reports)
      requires r == TheSetup().ReportOf(evs + [e])
      modifies this`evs, this`reports, this`sends
      ensures evs == old(evs) + [e] && reports == TheSetup().ReportsOf(evs) && sends == SentOf(reports)
      ensures sent == TheSetup().PacketOf(evs) && sends == old(sends) + if sent.Some? then [sent.value] else []
      ensures sent == if r.ok then Some(Sent(r.pktIdx, r.src, r.dst)) else None
    {
      assert (evs + [e])[..|evs|] == evs;
      assert (reports + [r])[..|reports|] == reports;
      sent := None;
      if r.ok {
        sent := Some(Sent(r.pktIdx, r.src, r.dst));
        sends := sends + [sent.value];
      }
      evs := evs + [e];
      reports := reports + [r];
    }
  }
}
