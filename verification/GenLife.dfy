/**
 What starting, stopping and running generation comes to: the life cycle as a function of the messages and of the clock,
 an iteration as a run of the protocol, and the fate of packets.
 */
module GenLife {
  import opened Words
  import opened Wrappers
  import opened Handles
  import opened Capture
  import opened Flows
  import opened Generators
  import opened Replay
  import FlowTheorems
  import Headers
  import Cycles
  import Protocol
  import Steps = ProtocolSteps

  const CNT_BURST_PKTS := 64

  /** Packets that the device did not take, and packets that found no buffer. */
  datatype TxDrops = TxDrops(qfull: nat, nombuf: nat)

  /** What became of a packet: taken by the device, or freed because the device had no room. */
  datatype Fate = Handed(pkt: OutPkt) | Freed(pkt: OutPkt)

  //// Messages, with values that the configuration has checked.

  type Burst = n: nat | 1 <= n <= 5 witness 1
  type FlowsPerSec = n: nat | 1 <= n <= 1_000_000 witness 1

  datatype Net = Net(address: nat, prefix: nat)
  type Network = n: Net | n.address < U32 && n.prefix <= 32 witness Net(0, 0)

  datatype GenCfg = GenCfg(name: string, burst: Burst, flowsPerSec: FlowsPerSec, ipg: Option<nat>, cln: Network,
                           srv: Network, clnPort: Option<Headers.Port>)

  /** The numbers are history: they say which accepted request a message is. */
  datatype Msg =
    | StartMsg(id: nat, cfgs: seq<GenCfg>, dut: Headers.EtherAddr, millis: nat)
    | StopMsg(id: nat)
    | StatsMsg(id: nat)

  function ItemOf(m: Msg): Protocol.Item {
    match m
    case StartMsg(id, _, _, _) => Protocol.Item(Protocol.Start, id)
    case StopMsg(id) => Protocol.Item(Protocol.Stop, id)
    case StatsMsg(id) => Protocol.Item(Protocol.Stats, id)
  }

  function ItemsOf(ms: seq<Msg>): (items: seq<Protocol.Item>)
    ensures |items| == |ms|
  {
    seq(|ms|, i requires 0 <= i < |ms| => ItemOf(ms[i]))
  }

  //// What the handling of a message finds.

  /** A step of the management thread, with what a request of it asks for. */
  datatype AnyAct = AnyAct(step: Protocol.Action, cfgs: seq<GenCfg>, dut: Headers.EtherAddr, millis: nat)
  type PeerAct = a: AnyAct | !Steps.OfGenerator(a.step) witness AnyAct(Protocol.PollNothing, [], [0, 0, 0, 0, 0, 0], 0)

  /** The message of a request, the id-th that is accepted. */
  function MsgOf(a: PeerAct, id: nat): (m: Msg)
    requires a.step.Request?
    ensures ItemOf(m) == Protocol.Item(a.step.kind, id)
  {
    match a.step.kind
    case Start => StartMsg(id, a.cfgs, a.dut, a.millis)
    case Stop => StopMsg(id)
    case Stats => StatsMsg(id)
  }

  /** The files, the size of a buffer and how many the pool has, the device's address, the clock when generator g
      schedules its flow f and when the run begins, whether the device's counters could be reset, and what the
      management thread does before the message is handled. */
  datatype Env = Env(files: string -> Option<seq<Byte>>, room: nat, free: nat, mac: Headers.EtherAddr,
                     clock: (nat, nat) -> nat, began: nat, resetOk: bool, meanwhile: seq<PeerAct>)

  /** What an event finds: the clock, whether the pool has a buffer for the copy, what the device takes should the copy
      fill the burst, the clock when the flow is scheduled again, and what the management thread does before the
      report. */
  datatype Reading = Reading(tstamp: nat, copied: bool, accept: nat, later: nat, meanwhile: seq<PeerAct>)

  /** How many buffers are left for generator i, when those before it have loaded theirs. */
  function FreeAt(cfgs: seq<GenCfg>, env: Env, i: nat): (n: nat)
    requires i <= |cfgs|
    ensures n <= env.free
  {
    if i == 0 then env.free
    else FreeAfter(env.files(cfgs[i - 1].name), env.room, FreeAt(cfgs, env, i - 1), cfgs[i - 1].clnPort.Some?)
  }

  /** What generator i finds when it loads its capture: that of its file, from the buffers that are left. */
  function CaptureOf(cfgs: seq<GenCfg>, env: Env, hz: nat, i: nat): (l: Loading)
    requires i < |cfgs|
    ensures l.Packets? ==> l.pkts != []
  {
    LoadingOf(env.files(cfgs[i].name), env.room, FreeAt(cfgs, env, i), cfgs[i].ipg, hz, cfgs[i].clnPort.Some?)
  }

  //// The reference: the life cycle as a function of the messages and of the clock.

  datatype RunCycles = NotStarted | Running(begin: nat, duration: nat)

  datatype Life = Life(cycles: RunCycles, setups: seq<Setup>)

  /** A generator can be built: its capture loads, and its flows are a cycle apart at least. */
  predicate Builds(cfg: GenCfg, c: Loading, hz: nat) {
    c.Packets? && Cycles.FlowStep(cfg.flowsPerSec, hz) != 0
  }

  predicate AllBuild(cfgs: seq<GenCfg>, env: Env, hz: nat) {
    forall i :: 0 <= i < |cfgs| ==> Builds(cfgs[i], CaptureOf(cfgs, env, hz, i), hz)
  }

  /** A generator is built exactly when its file can be used and the share of a second that a flow has, in whole
      microseconds, is a cycle at least. */
  lemma BuildsIff(cfgs: seq<GenCfg>, env: Env, hz: nat, i: nat)
    requires i < |cfgs|
    ensures Builds(cfgs[i], CaptureOf(cfgs, env, hz, i), hz) <==>
            && LoadingOf(env.files(cfgs[i].name), env.room, FreeAt(cfgs, env, i), cfgs[i].ipg, hz,
                         cfgs[i].clnPort.Some?).Packets?
            && Wrap64((1_000_000 / cfgs[i].flowsPerSec) * hz) >= 1_000_000
  {
    hide LoadingOf;
    Cycles.CyclesOfDuration(1_000_000 / cfgs[i].flowsPerSec, 1_000_000, hz);
  }

  function SetupOf(cfg: GenCfg, pkts: seq<Pkt>): (s: Setup)
    requires pkts != []
    ensures s.Valid()
  {
    Setup(pkts, Hosts(cfg.cln.address, cfg.cln.prefix), Hosts(cfg.srv.address, cfg.srv.prefix), cfg.burst,
          cfg.flowsPerSec)
  }

  function SetupsOf(cfgs: seq<GenCfg>, env: Env, hz: nat): (ss: seq<Setup>)
    requires AllBuild(cfgs, env, hz)
    ensures |ss| == |cfgs|
  {
    seq(|cfgs|, i requires 0 <= i < |cfgs| => SetupOf(cfgs[i], CaptureOf(cfgs, env, hz, i).pkts))
  }

  /** What a generator that was built works with: the records of its file, each from the client if it comes from where
      the first one does, with the time since that one or a given distance, and the gap; the networks, the burst and the
      number of flows that are asked for. */
  lemma SetupOfGenerator(cfgs: seq<GenCfg>, env: Env, hz: nat, g: nat)
    requires AllBuild(cfgs, env, hz) && g < |cfgs|
    ensures var cfg, file, setup := cfgs[g], env.files(cfgs[g].name), SetupsOf(cfgs, env, hz)[g];
      && setup.burst == cfg.burst && setup.flows == cfg.flowsPerSec
      && setup.cln == Hosts(cfg.cln.address, cfg.cln.prefix) && setup.srv == Hosts(cfg.srv.address, cfg.srv.prefix)
      && file.Some? && FileHeaderOk(file.value)
      && var rs := RecordsOf(file.value, env.room, FreeAt(cfgs, env, g));
      && |setup.pkts| == |rs| > 0
      && (forall k :: 0 <= k < |rs| ==> |rs[k].payload| >= 34)
      && (forall k :: 0 <= k < |rs| ==>
            && setup.pkts[k].len == |rs[k].payload|
            && (setup.pkts[k].fromCln <==> rs[k].payload[6..12] == rs[0].payload[6..12])
            && setup.pkts[k].relTsc ==
               Cycles.FromDuration(100_000 + (if cfg.ipg.Some? then k * cfg.ipg.value
                                              else 1_000_000 * (rs[k].sec - rs[0].sec) + (rs[k].usec - rs[0].usec)),
                                   1_000_000, hz))
  {
    hide FreeAt, Hosts, LoadAll, Headers.AllAcceptable, Cycles.FromDuration;
    var cfg := cfgs[g];
    assert Builds(cfg, CaptureOf(cfgs, env, hz, g), hz);
    var rs := RecordsOf(env.files(cfg.name).value, env.room, FreeAt(cfgs, env, g));
    WithoutPorts(rs, env.room, cfg.clnPort.Some?);
    PktsOfRecords(rs, cfg.ipg, hz, env.room);
  }

  /** A generator that was built sends the records of its file, each as long after the one before as is stored with that
      one; its flows start after the gap. */
  lemma ReplayOfGenerator(cfgs: seq<GenCfg>, env: Env, hz: nat, g: nat, evs: seq<Event>, e: Event, first: nat)
    requires AllBuild(cfgs, env, hz) && g < |cfgs|
    ensures var file, setup := env.files(cfgs[g].name), SetupsOf(cfgs, env, hz)[g];
      && file.Some? && FileHeaderOk(file.value)
      && var rs := RecordsOf(file.value, env.room, FreeAt(cfgs, env, g));
      && |setup.pkts| == |rs| && setup.pkts[0].relTsc == Cycles.FromDuration(IF_GAP, Cycles.MICROS, hz)
      && (forall k :: 0 <= k < |rs| ==> setup.pkts[k].len == |rs[k].payload|)
      && var k, p := Occurrences(evs, e.flow), setup.ReportOf(evs + [e]).pktIdx;
      && p == (k + 1) % |rs|
      && (k > 0 ==>
            setup.DueAt(evs, e.flow, first) ==
            Wrap64(LastLater(evs, e.flow)
                   + Cycles.FromDuration(WaitUsec(rs, cfgs[g].ipg, p), Cycles.MICROS, hz)))
  {
    hide FreeAt, Hosts, Setup.ReportOf, Setup.DueAt, Wrap64, LoadAll, Headers.AllAcceptable;
    assert Builds(cfgs[g], CaptureOf(cfgs, env, hz, g), hz);
    var rs := RecordsOf(env.files(cfgs[g].name).value, env.room, FreeAt(cfgs, env, g));
    WithoutPorts(rs, env.room, cfgs[g].clnPort.Some?);
    DueOfNextPacket(SetupsOf(cfgs, env, hz)[g], rs, cfgs[g].ipg, hz, env.room, evs, e, first);
  }

  /** What an event of such a generator reports: the next record of the file, between a host of the clients' network and
      one of the servers', from the side that the record comes from; its flow is then due the stored time later. */
  lemma ReportOfGenerator(cfgs: seq<GenCfg>, env: Env, hz: nat, g: nat, evs: seq<Event>, e: Event, first: nat)
    requires AllBuild(cfgs, env, hz) && g < |cfgs|
    ensures var cfg, file, setup := cfgs[g], env.files(cfgs[g].name), SetupsOf(cfgs, env, hz)[g];
      && file.Some? && FileHeaderOk(file.value)
      && var rs, r := RecordsOf(file.value, env.room, FreeAt(cfgs, env, g)), setup.ReportOf(evs + [e]);
      && |setup.pkts| == |rs| > 0 && r.pktIdx == (Occurrences(evs, e.flow) + 1) % |rs|
      && r.tstamp == e.now && r.flowIdx == e.flow && r.ok == e.copied && r.pktLen == |rs[r.pktIdx].payload|
      && |rs[r.pktIdx].payload| >= 34 && |rs[0].payload| >= 34
      && (r.fromCln <==> rs[r.pktIdx].payload[6..12] == rs[0].payload[6..12])
      && (cfg.cln.prefix != 31 ==>
            FlowTheorems.IsHost(cfg.cln.address, cfg.cln.prefix, if r.fromCln then r.src else r.dst))
      && (cfg.srv.prefix != 31 ==>
            FlowTheorems.IsHost(cfg.srv.address, cfg.srv.prefix, if r.fromCln then r.dst else r.src))
      && setup.DueAt(evs + [e], e.flow, first) == Wrap64(e.later + setup.pkts[r.pktIdx].relTsc)
  {
    hide *;
    var cfg, setup := cfgs[g], SetupsOf(cfgs, env, hz)[g];
    SetupOfGenerator(cfgs, env, hz, g);
    SetupIsValid(cfgs, env, hz, g);
    var m := FlowTheorems.ReportOfLast(setup, evs, e);
    DueAfterReport(setup, evs, e, first);
    if cfg.cln.prefix != 31 { FlowTheorems.HostIsInside(cfg.cln.address, cfg.cln.prefix, setup.burst, m); }
    if cfg.srv.prefix != 31 { FlowTheorems.HostIsInside(cfg.srv.address, cfg.srv.prefix, setup.burst, m); }
  }

  lemma SetupIsValid(cfgs: seq<GenCfg>, env: Env, hz: nat, g: nat)
    requires AllBuild(cfgs, env, hz) && g < |cfgs|
    ensures SetupsOf(cfgs, env, hz)[g].Valid() && SetupsOf(cfgs, env, hz)[g].burst > 0
  {
    hide CaptureOf, Hosts, AllBuild;
  }

  lemma DueAfterReport(setup: Setup, evs: seq<Event>, e: Event, first: nat)
    requires setup.Valid()
    ensures var p := setup.ReportOf(evs + [e]).pktIdx;
      p < |setup.pkts| && setup.DueAt(evs + [e], e.flow, first) == Wrap64(e.later + setup.pkts[p].relTsc)
  {
    hide Host, Allocation, Setup.DueAt, Wrap64;
    DueAfterEvent(setup, evs, e, first);
  }

  /** The first generator that cannot be built, from i on, fails for want of a buffer. */
  predicate WantsBuffer(cfgs: seq<GenCfg>, env: Env, hz: nat, i: nat)
    decreases |cfgs| - i
  {
    && i < |cfgs|
    && var l := CaptureOf(cfgs, env, hz, i);
    if Builds(cfgs[i], l, hz) then WantsBuffer(cfgs, env, hz, i + 1) else l.NoBuffer?
  }

  lemma {:induction false} FirstFailure(cfgs: seq<GenCfg>, env: Env, hz: nat, i: nat, k: nat)
    requires i <= k < |cfgs| && !Builds(cfgs[k], CaptureOf(cfgs, env, hz, k), hz)
    requires forall j :: i <= j < k ==> Builds(cfgs[j], CaptureOf(cfgs, env, hz, j), hz)
    ensures WantsBuffer(cfgs, env, hz, i) <==> CaptureOf(cfgs, env, hz, k).NoBuffer?
    decreases k - i
  {
    hide CaptureOf;
    if i < k { FirstFailure(cfgs, env, hz, i + 1, k); }
  }

  /** Whether the handling of a message builds all generators that it asks for. */
  predicate LoadOk(m: Msg, env: Env, hz: nat) {
    m.StartMsg? && AllBuild(m.cfgs, env, hz)
  }

  function LifeAfter(l: Life, m: Msg, env: Env, hz: nat): Life {
    match m
    case StartMsg(_, cfgs, _, millis) =>
      if l.cycles.Running? || !AllBuild(cfgs, env, hz) then l
      else Life(Running(env.began, Cycles.FromDuration(millis, 1_000, hz)), SetupsOf(cfgs, env, hz))
    case StopMsg(_) => Life(NotStarted, [])
    case StatsMsg(_) => l
  }

  /** A message changes the life cycle only so: a stop ends it, and a start whose generators can all be built begins one
      when there is none, for as many cycles as its milliseconds have. */
  lemma LifeOfMessage(l: Life, m: Msg, env: Env, hz: nat)
    ensures var l' := LifeAfter(l, m, env, hz);
      match m
      case StatsMsg(_) => l' == l
      case StopMsg(_) => l'.cycles.NotStarted? && l'.setups == []
      case StartMsg(_, cfgs, _, millis) =>
        if l.cycles.Running? || !AllBuild(cfgs, env, hz) then l' == l
        else
          && l'.cycles.Running? && l'.cycles.begin == env.began && l'.setups == SetupsOf(cfgs, env, hz)
          && 1_000 * l'.cycles.duration <= Wrap64(millis * hz) < 1_000 * l'.cycles.duration + 1_000
  {
    hide AllBuild, SetupsOf;
    if m.StartMsg? { Cycles.CyclesOfDuration(m.millis, 1_000, hz); }
  }

  function LifeAfterAll(l: Life, ms: seq<Msg>, envs: nat -> Env, hz: nat): Life {
    if ms == [] then l
    else LifeAfter(LifeAfterAll(l, ms[..|ms| - 1], envs, hz), ms[|ms| - 1], envs(|ms| - 1), hz)
  }

  /** The life cycle runs exactly when the protocol's generation side does. */
  lemma LifeReacts(l: Life, m: Msg, env: Env, hz: nat)
    ensures LifeAfter(l, m, env, hz).cycles.Running? ==
            Protocol.React(l.cycles.Running?, ItemOf(m).kind, LoadOk(m, env, hz)).1
  {
  }

  /** The clock when an iteration tests for the end of the run, when it looks at the timers, and when the library runs
      them. */
  datatype Times = Times(check: nat, look: nat, manage: nat)

  /** The run is over when more than its duration passed, in wrapping cycles. */
  predicate Expired(c: RunCycles, now: nat) {
    c.Running? && Wrap64(now - c.begin) > c.duration
  }

  /** The wrapping clock measures true time for runs shorter than 2^64 cycles. */
  lemma ExpiredByTrueTime(duration: nat, t0: nat, t: nat)
    requires t0 <= t < t0 + U64
    ensures Expired(Running(Wrap64(t0), duration), Wrap64(t)) <==> t - t0 > duration
  {
    WrappedDifference(t, t0);
  }

  /** A run is stopped, or goes on, by true time, when the test comes less than 2^64 cycles after its beginning. */
  ghost predicate StopsInTime(c: RunCycles, check: nat, stopped: bool)
    requires c.Running?
  {
    forall t0: nat, t: nat ::
      c.begin == Wrap64(t0) && check == Wrap64(t) && t0 <= t < t0 + U64 ==> (stopped <==> t - t0 > c.duration)
  }

  lemma ByTheClock(c: RunCycles, check: nat)
    requires c.Running?
    ensures StopsInTime(c, check, Wrap64(check - c.begin) > c.duration)
  {
    forall t0: nat, t: nat | c.begin == Wrap64(t0) && check == Wrap64(t) && t0 <= t < t0 + U64
      ensures Wrap64(check - c.begin) > c.duration <==> t - t0 > c.duration
    {
      ExpiredByTrueTime(c.duration, t0, t);
    }
  }

  /** What the drop counters count from: the packets whose fate was known when they were last reset, and the
      buffers that could not be had since. */
  datatype Marks = Marks(mark: nat, failedAllocs: nat)

  /** A start that succeeds resets them, if the device's counters could be reset too. */
  function MarksAfter(l: Life, fates: nat, k: Marks, m: Msg, env: Env, hz: nat): Marks {
    if !m.StartMsg? || l.cycles.Running? then k
    else if !AllBuild(m.cfgs, env, hz) then
      k.(failedAllocs := k.failedAllocs + if WantsBuffer(m.cfgs, env, hz, 0) then 1 else 0)
    else if env.resetOk then Marks(fates, 0) else k
  }

  /** The counters start again exactly with a run that begins, unless the device's could not be reset; a start that
      fails for want of a buffer counts that. */
  lemma MarksOfMessage(l: Life, fates: nat, k: Marks, m: Msg, env: Env, hz: nat)
    ensures var k' := MarksAfter(l, fates, k, m, env, hz);
      if !l.cycles.Running? && LifeAfter(l, m, env, hz).cycles.Running? && env.resetOk then
        k'.mark == fates && k'.failedAllocs == 0
      else
        k'.mark == k.mark
        && k'.failedAllocs ==
           k.failedAllocs
           + if m.StartMsg? && !l.cycles.Running? && !AllBuild(m.cfgs, env, hz) && WantsBuffer(m.cfgs, env, hz, 0)
             then 1 else 0
  {
    hide AllBuild, SetupsOf, WantsBuffer;
  }

  function MarksAfterAll(l: Life, fates: nat, k: Marks, ms: seq<Msg>, envs: nat -> Env, hz: nat): Marks {
    if ms == [] then k
    else
      var front := ms[..|ms| - 1];
      MarksAfter(LifeAfterAll(l, front, envs, hz), fates, MarksAfterAll(l, fates, k, front, envs, hz), ms[|ms| - 1],
                 envs(|ms| - 1), hz)
  }

  /** The iteration of the generation thread as the protocol sees it, with what the management thread does meanwhile:
      the batch, and then nothing, the end of the run, or the events that were due, with a report of each. */
  datatype Ending = Idle | TimedOut | Generated(reports: nat)

  function Iteration(ms: seq<Msg>, envs: nat -> Env, hz: nat, e: Ending, readings: nat -> Reading): seq<Protocol.Action>
  {
    BatchOf(ms, envs, hz) + EndOf(e, readings)
  }

  function BatchOf(ms: seq<Msg>, envs: nat -> Env, hz: nat): seq<Protocol.Action> {
    [Protocol.GenDequeue(|ms|)] + Handlings(ms, envs, hz) + [Protocol.GenHandle(false)]
  }

  function Handlings(ms: seq<Msg>, envs: nat -> Env, hz: nat): seq<Protocol.Action> {
    if ms == [] then []
    else
      var i := |ms| - 1;
      Handlings(ms[..i], envs, hz) + Handling(ms[i], envs(i), hz)
  }

  function Handling(m: Msg, env: Env, hz: nat): seq<Protocol.Action> {
    StepsOf(env.meanwhile) + [Protocol.GenHandle(LoadOk(m, env, hz))]
  }

  function EndOf(e: Ending, readings: nat -> Reading): seq<Protocol.Action> {
    match e
    case Idle => [Protocol.GenDone]
    case TimedOut => [Protocol.GenTimeout]
    case Generated(n) => [Protocol.GenRun] + Reportings(n, readings) + [Protocol.GenDone]
  }

  function Reportings(n: nat, readings: nat -> Reading): seq<Protocol.Action> {
    if n == 0 then [] else Reportings(n - 1, readings) + Reporting(readings(n - 1))
  }

  function Reporting(r: Reading): seq<Protocol.Action> {
    StepsOf(r.meanwhile) + [Protocol.GenReport]
  }

  function StepsOf(acts: seq<PeerAct>): (steps: seq<Protocol.Action>)
    ensures |steps| == |acts|
  {
    seq(|acts|, i requires 0 <= i < |acts| => acts[i].step)
  }

  //// Packets.

  function PktsOf(fs: seq<Fate>): (ps: seq<OutPkt>)
    ensures |ps| == |fs|
  {
    seq(|fs|, i requires 0 <= i < |fs| => fs[i].pkt)
  }

  function FreedCount(fs: seq<Fate>): nat {
    if fs == [] then 0 else FreedCount(fs[..|fs| - 1]) + if fs[|fs| - 1].Freed? then 1 else 0
  }

  function HandedCount(fs: seq<Fate>): nat {
    if fs == [] then 0 else HandedCount(fs[..|fs| - 1]) + if fs[|fs| - 1].Handed? then 1 else 0
  }

  lemma {:induction false} FatesCounted(fs: seq<Fate>)
    ensures |fs| == HandedCount(fs) + FreedCount(fs)
  {
    if fs != [] { FatesCounted(fs[..|fs| - 1]); }
  }

  lemma {:induction false} FreedCountConcat(a: seq<Fate>, b: seq<Fate>)
    ensures FreedCount(a + b) == FreedCount(a) + FreedCount(b)
  {
    if b == [] {
      assert a + b == a;
    } else {
      assert (a + b)[..|a + b| - 1] == a + b[..|b| - 1];
      FreedCountConcat(a, b[..|b| - 1]);
    }
  }

  /** The fates of one burst of which the device took the first cnt. */
  function BurstFates(ps: seq<OutPkt>, cnt: nat): (fs: seq<Fate>)
    requires cnt <= |ps|
    ensures PktsOf(fs) == ps
  {
    seq(|ps|, i requires 0 <= i < |ps| => if i < cnt then Handed(ps[i]) else Freed(ps[i]))
  }

  lemma {:induction false} BurstFreed(ps: seq<OutPkt>, cnt: nat)
    requires cnt <= |ps|
    ensures FreedCount(BurstFates(ps, cnt)) == |ps| - cnt
    decreases |ps|
  {
    if ps != [] {
      var front := ps[..|ps| - 1];
      var c := if cnt == |ps| then cnt - 1 else cnt;
      BurstFreed(front, c);
      assert BurstFates(ps, cnt)[..|ps| - 1] == BurstFates(front, c);
    }
  }

  lemma PacketsConcat(a: seq<Fate>, b: seq<Fate>)
    ensures PktsOf(a + b) == PktsOf(a) + PktsOf(b)
  {
  }

  lemma CountBurst(fs: seq<Fate>, mark: nat, ps: seq<OutPkt>, cnt: nat)
    requires mark <= |fs| && cnt <= |ps|
    ensures PktsOf(fs + BurstFates(ps, cnt)) == PktsOf(fs) + ps
    ensures FreedCount((fs + BurstFates(ps, cnt))[mark..]) == FreedCount(fs[mark..]) + (|ps| - cnt)
  {
    var burst, x := BurstFates(ps, cnt), fs[mark..];
    PacketsConcat(fs, burst);
    BurstFreed(ps, cnt);
    FreedCountConcat(x, burst);
    assert (fs + burst)[mark..] == x + burst;
  }

  //// Lemmas about runs of messages and about generators.

  function Setups(vs: seq<GenView>): (ss: seq<Setup>)
    ensures |ss| == |vs|
  {
    seq(|vs|, g requires 0 <= g < |vs| => vs[g].setup)
  }

  lemma ItemsMore(ms: seq<Msg>, m: Msg)
    ensures ItemsOf(ms + [m]) == ItemsOf(ms) + [ItemOf(m)]
  {
  }

  lemma ItemsSplit(a: seq<Msg>, b: seq<Msg>)
    ensures ItemsOf(a + b)[..|a|] == ItemsOf(a) && ItemsOf(a + b)[|a|..] == ItemsOf(b)
  {
  }

  /** How many flows the generators have. */
  function FlowsOf(ss: seq<Setup>): nat {
    if ss == [] then 0 else FlowsOf(ss[..|ss| - 1]) + ss[|ss| - 1].flows
  }

  lemma SetupsStay(vs: seq<GenView>, ran: seq<Ran>)
    ensures Setups(AfterRuns(vs, ran)) == Setups(vs)
  {
  }

  lemma MakesOne(s: Protocol.State, a: Protocol.Action)
    ensures Steps.Makes(s, [a], Protocol.Step(s, a))
  {
    hide Protocol.Step, Steps.Makes;
    Steps.MakesNothing(s);
    Steps.MakesMore(s, [], s, a, a);
    assert [] + [a] == [a];
  }

  lemma MakesGenerated(s: Protocol.State, begun: Protocol.State, n: nat, readings: nat -> Reading, s': Protocol.State)
    requires begun == Protocol.Step(s, Protocol.GenRun) && Steps.Makes(begun, Reportings(n, readings), s')
    ensures Steps.Makes(s, EndOf(Generated(n), readings), Protocol.Step(s', Protocol.GenDone))
  {
    hide Protocol.Step, Steps.Makes, Reportings;
    MakesOne(s, Protocol.GenRun);
    Steps.MakesBoth(s, [Protocol.GenRun], begun, Reportings(n, readings), s');
    Steps.MakesMore(s, [Protocol.GenRun] + Reportings(n, readings), s', Protocol.GenDone, Protocol.GenDone);
  }

  lemma MakesBatch(s: Protocol.State, popped: Protocol.State, ms: seq<Msg>, envs: nat -> Env, hz: nat,
                   s': Protocol.State)
    requires popped == Protocol.Step(s, Protocol.GenDequeue(|ms|)) && Steps.Makes(popped, Handlings(ms, envs, hz), s')
    ensures Steps.Makes(s, BatchOf(ms, envs, hz), Protocol.Step(s', Protocol.GenHandle(false)))
  {
    hide Protocol.Step, Steps.Makes, Handlings;
    var first, last := Protocol.GenDequeue(|ms|), Protocol.GenHandle(false);
    MakesOne(s, first);
    Steps.MakesBoth(s, [first], popped, Handlings(ms, envs, hz), s');
    Steps.MakesMore(s, [first] + Handlings(ms, envs, hz), s', last, last);
  }

  /** Without steps of the other thread, a run of an iteration is the iteration. */
  lemma IterationAlone(s: Protocol.State, ms: seq<Msg>, envs: nat -> Env, hz: nat, e: Ending, readings: nat -> Reading,
                       s': Protocol.State)
    requires Steps.Makes(s, Iteration(ms, envs, hz, e, readings), s')
    requires forall i :: envs(i).meanwhile == [] && readings(i).meanwhile == []
    ensures s' == Protocol.Run(s, Iteration(ms, envs, hz, e, readings))
  {
    hide LoadOk;
    HandlingsAlone(ms, envs, hz);
    if e.Generated? { ReportingsAlone(e.reports, readings); }
    Steps.MakesItself(s, Iteration(ms, envs, hz, e, readings), s');
  }

  lemma {:induction false} HandlingsAlone(ms: seq<Msg>, envs: nat -> Env, hz: nat)
    requires forall i :: envs(i).meanwhile == []
    ensures var plan := Handlings(ms, envs, hz); |plan| == |ms| && forall i :: 0 <= i < |plan| ==> plan[i].GenHandle?
  {
    hide LoadOk;
    if ms != [] { HandlingsAlone(ms[..|ms| - 1], envs, hz); }
  }

  lemma {:induction false} ReportingsAlone(n: nat, readings: nat -> Reading)
    requires forall i :: readings(i).meanwhile == []
    ensures var plan := Reportings(n, readings); |plan| == n && forall i :: 0 <= i < |plan| ==> plan[i].GenReport?
  {
    if n > 0 { ReportingsAlone(n - 1, readings); }
  }

  lemma OneMoreMsg(life: Life, fates: nat, marks: Marks, msgs: seq<Msg>, envs: nat -> Env, hz: nat, i: nat)
    requires i < |msgs|
    ensures LifeAfterAll(life, msgs[..i + 1], envs, hz) ==
            LifeAfter(LifeAfterAll(life, msgs[..i], envs, hz), msgs[i], envs(i), hz)
    ensures MarksAfterAll(life, fates, marks, msgs[..i + 1], envs, hz) ==
            MarksAfter(LifeAfterAll(life, msgs[..i], envs, hz), fates,
                       MarksAfterAll(life, fates, marks, msgs[..i], envs, hz), msgs[i], envs(i), hz)
  {
    hide LifeAfter, MarksAfter;
    assert msgs[..i + 1][..i] == msgs[..i];
  }

  /** A run goes on while there is no stop. */
  lemma {:induction false} GoesOn(l: Life, msgs: seq<Msg>, envs: nat -> Env, hz: nat, i: nat)
    requires i <= |msgs| && l.cycles.Running? && forall j :: 0 <= j < i ==> !msgs[j].StopMsg?
    ensures LifeAfterAll(l, msgs[..i], envs, hz) == l
    decreases i
  {
    if i > 0 {
      GoesOn(l, msgs, envs, hz, i - 1);
      assert msgs[..i][..i - 1] == msgs[..i - 1];
    }
  }

  lemma {:induction false} FlowsCounted(vs: seq<GenView>)
    requires forall g :: 0 <= g < |vs| ==> |vs[g].events| == vs[g].setup.flows
    ensures |Flatten(EventSeqs(vs))| == FlowsOf(Setups(vs))
  {
    if vs != [] {
      var front := vs[..|vs| - 1];
      FlowsCounted(front);
      assert EventSeqs(vs)[..|front|] == EventSeqs(front) && Setups(vs)[..|front|] == Setups(front);
    }
  }
}
