/** The generators of a run as objects: building and destroying them, and the events of their flows. */
module GeneratorRuns {
  import opened Words
  import opened Timers
  import opened Handles
  import opened Flows
  import opened Generators
  import opened Wrappers
  import opened GenLife
  import opened Headers
  import opened Replay
  import opened CaptureLoader
  import FlowTheorems
  import Cycles
  import Protocol

  //// The generators on the heap.

  ghost function Views(gens: seq<FlowsGenerator>): (vs: seq<GenView>)
    reads gens
    ensures |vs| == |gens| && forall g :: 0 <= g < |gens| ==> vs[g] == gens[g].View()
  {
    seq(|gens|, g requires 0 <= g < |gens| reads gens => gens[g].View())
  }

  ghost predicate AllValid(gens: seq<FlowsGenerator>)
    reads gens
  {
    forall g :: 0 <= g < |gens| ==> gens[g].Valid() && gens[g].idx == g
  }

  function EventsOf(gens: seq<FlowsGenerator>): (ess: seq<seq<EventHandle>>)
    reads gens
    ensures |ess| == |gens| && forall g :: 0 <= g < |gens| ==> ess[g] == gens[g].events
  {
    seq(|gens|, g requires 0 <= g < |gens| reads gens => gens[g].events)
  }

  function EventOf(c: Ctx, r: Reading): Event {
    Event(c.flow, r.tstamp, r.copied, r.later)
  }

  /** The events that ran found these readings, in order. */
  ghost predicate AsRead(ran: seq<Ran>, readings: nat -> Reading) {
    forall k :: 0 <= k < |ran| ==> ran[k].event == EventOf(ran[k].ctx, readings(k))
  }

  lemma NothingRead(readings: nat -> Reading)
    ensures AsRead([], readings)
  {
  }

  /** The packet of the last event of generator g. */
  ghost function PacketOf(vs: seq<GenView>, g: nat): Option<Sent>
    requires g < |vs| && vs[g].setup.Valid() && vs[g].evs != []
  {
    vs[g].setup.PacketOf(vs[g].evs)
  }

  /** The report of the last event of generator g. */
  ghost function ReportOf(vs: seq<GenView>, g: nat): Report
    requires g < |vs| && vs[g].setup.Valid() && vs[g].evs != []
  {
    vs[g].setup.ReportOf(vs[g].evs)
  }

  /** The event of a flow, and what becomes of its timer t. */
  method RunEvent(gens: seq<FlowsGenerator>, s: EventScheduler, ghost t: Timer, c: Ctx, r: Reading)
    returns (sent: Option<Sent>, report: Report)
    requires AllValid(gens) && s.Valid() && c.gen < |gens| && t !in s.ready
    requires var v := Views(gens)[c.gen];
      && c.flow < |v.events| == |v.first| == v.setup.flows && v.events[c.flow] in s.owners
      && s.owners[v.events[c.flow]] == t && LastCopied(v.evs, c.flow) && v.setup.Valid()
    modifies gens, s`pending
    ensures AllValid(gens) && s.Valid() && Views(gens) == AfterEvent(old(Views(gens)), c.gen, EventOf(c, r))
    ensures s.pending == if r.copied then old(s.pending)[t := Entry(Deadline(Views(gens), c), c)] else old(s.pending)
    ensures sent == PacketOf(Views(gens), c.gen) && report == ReportOf(Views(gens), c.gen)
  {
    hide FlowsGenerator.Valid, EventScheduler.Valid, Setup.PacketOf, Setup.ReportOf;
    ghost var vs := Views(gens);
    var gen := gens[c.gen];
    sent, report := gen.OnFlowEvent(s, c.flow, r.tstamp, r.copied, r.later);
    assert forall g :: 0 <= g < |gens| && g != c.gen ==> gens[g] != gen;
    assert Views(gens) == AfterEvent(vs, c.gen, EventOf(c, r));
  }

  /** The callback of a timer that was taken off. */
  method RunFlow(gens: seq<FlowsGenerator>, s: EventScheduler, ghost t: Timer, c: Ctx, r: Reading,
                 ghost armed: map<Timer, Entry>) returns (sent: Option<Sent>, report: Report)
    requires AllValid(gens) && s.Valid() && AllArmed(s.owners, armed, Views(gens))
    requires t in armed && armed[t].ctx == c && t in s.owners.Values && t !in s.ready
    requires armed - {t} == s.pending + s.ready
    modifies gens, s`pending
    ensures AllValid(gens) && s.Valid() && AllArmed(s.owners, s.pending + s.ready, Views(gens))
    ensures c.gen < |gens| && old(Views(gens))[c.gen].setup.Valid()
    ensures Views(gens) == AfterEvent(old(Views(gens)), c.gen, EventOf(c, r))
    ensures sent == PacketOf(Views(gens), c.gen) && report == ReportOf(Views(gens), c.gen)
  {
    ghost var vs, p := Views(gens), s.pending;
    FlowOfTimer(s.owners, armed, vs, t);
    assert GenArmed(s.owners, armed, vs[c.gen]);
    hide AllArmed, FlowsGenerator.Valid, EventScheduler.Valid, Setup.PacketOf, Setup.ReportOf;
    EventKeepsArmed(s.owners, armed, vs, c.gen, EventOf(c, r));
    sent, report := RunEvent(gens, s, t, c, r);
    SetAgain(armed, p, s.ready, t, r.copied, Entry(Deadline(Views(gens), c), c));
  }

  lemma SetAgain<T>(armed: map<T, Entry>, pending: map<T, Entry>, ready: map<T, Entry>, t: T, copied: bool, e: Entry)
    requires t in armed && t !in ready && armed - {t} == pending + ready
    ensures (if copied then pending[t := e] else pending) + ready == ArmedAfter(armed, t, copied, e)
  {
    var was, now := armed - {t}, ArmedAfter(armed, t, copied, e);
    assert forall u :: u in was <==> u in pending || u in ready;
    assert forall u :: u in was ==> was[u] == armed[u];
    if copied {
      assert pending[t := e] + ready == now;
    }
  }

  /** The earliest of the timers that are due, and the callback of its flow. */
  method RunEarliest(gens: seq<FlowsGenerator>, s: EventScheduler, r: Reading)
    returns (c: Ctx, sent: Option<Sent>, report: Report, ghost t: Timer, ghost at: nat)
    requires s.ready != map[] && s.Valid() && AllValid(gens) && AllArmed(s.owners, s.pending + s.ready, Views(gens))
    modifies gens, s`pending, s`ready
    ensures s.Valid() && AllValid(gens) && AllArmed(s.owners, s.pending + s.ready, Views(gens))
    ensures t in old(s.ready) && s.ready == old(s.ready) - {t} && old(s.ready)[t] == Entry(at, c)
    ensures forall u :: u in s.ready ==> at <= s.ready[u].at
    ensures c.gen < |gens| && old(Views(gens))[c.gen].setup.Valid()
    ensures Views(gens) == AfterEvent(old(Views(gens)), c.gen, EventOf(c, r))
    ensures sent == PacketOf(Views(gens), c.gen) && report == ReportOf(Views(gens), c.gen)
  {
    ghost var armed, p, q := s.pending + s.ready, s.pending, s.ready;
    assert Tracked(s.owners, p, q);
    var tmr, e := s.Next();
    TakenOff(s.owners, p, q, tmr);
    assert s.pending == p && s.ready == q - {tmr};
    hide AllArmed, FlowsGenerator.Valid, EventScheduler.Valid, Setup.PacketOf, Setup.ReportOf;
    sent, report := RunFlow(gens, s, tmr, e.ctx, r, armed);
    c, t, at := e.ctx, tmr, e.at;
  }

  lemma TakenOff<H, T>(owners: map<H, T>, pending: map<T, Entry>, ready: map<T, Entry>, t: T)
    requires Tracked(owners, pending, ready) && t in ready
    ensures t in owners.Values && t !in ready - {t} && (pending + ready) - {t} == pending + (ready - {t})
    ensures t in pending + ready && (pending + ready)[t] == ready[t]
  {
  }

  //// What is put on the ring of responses.

  datatype FlowStats = FlowStats(genIdx: nat, flowIdx: nat, cntPkts: nat, cntBytes: nat, duration: nat)

  /** The answers to requests, and the reports of flows. The statistics of the device are left out. */
  datatype Res =
    | StartRes(id: nat, answer: Protocol.Answer)
    | StopRes(id: nat, own: TxDrops, detailed: seq<FlowStats>)
    | StatsRes(id: nat, own: TxDrops)
    | ReportRes(genIdx: nat, report: Report)

  /** What it is to the protocol. */
  function MsgOfRes(r: Res): Protocol.Msg {
    match r
    case StartRes(id, answer) => Protocol.Response(Protocol.Item(Protocol.Start, id), answer)
    case StopRes(id, _, _) => Protocol.Response(Protocol.Item(Protocol.Stop, id), Protocol.Stopped)
    case StatsRes(id, _) => Protocol.Response(Protocol.Item(Protocol.Stats, id), Protocol.StatsReport)
    case ReportRes(_, _) => Protocol.FlowReport
  }

  function MsgsOf(rs: seq<Res>): (ms: seq<Protocol.Msg>)
    ensures |ms| == |rs|
  {
    seq(|rs|, i requires 0 <= i < |rs| => MsgOfRes(rs[i]))
  }

  lemma MsgsSplit(a: seq<Res>, b: seq<Res>)
    ensures MsgsOf(a + b)[..|a|] == MsgsOf(a) && MsgsOf(a + b)[|a|..] == MsgsOf(b)
  {
  }

  lemma MsgsMore(rs: seq<Res>, r: Res)
    ensures MsgsOf(rs + [r]) == MsgsOf(rs) + [MsgOfRes(r)]
  {
  }

  /** The packets dropped since the counters were reset, as the fates of packets and the counters' marks have it. */
  function DropsOf(fates: seq<Fate>, k: Marks): TxDrops {
    TxDrops(Wrap64(FreedCount(if k.mark <= |fates| then fates[k.mark..] else [])), Wrap64(k.failedAllocs))
  }

  /** The answer to a message that finds generation running or not: its own, with the statistics of the run. */
  ghost predicate Answers(r: Res, m: Msg, running: bool, loadOk: bool, drops: TxDrops) {
    match m
    case StartMsg(id, _, _, _) => r == StartRes(id, Protocol.React(running, Protocol.Start, loadOk).0)
    case StopMsg(id) => r.StopRes? && r.id == id && r.own == drops
    case StatsMsg(id) => r == StatsRes(id, drops)
  }

  /** The answers to a batch, each as the life cycle and the counters are when its message is handled. */
  ghost predicate AnswersAll(rs: seq<Res>, l: Life, fates: seq<Fate>, k: Marks, ms: seq<Msg>, envs: nat -> Env, hz: nat)
  {
    if ms == [] then rs == []
    else
      var i := |ms| - 1;
      && |rs| == |ms| && AnswersAll(rs[..i], l, fates, k, ms[..i], envs, hz)
      && Answers(rs[i], ms[i], LifeAfterAll(l, ms[..i], envs, hz).cycles.Running?, LoadOk(ms[i], envs(i), hz),
                 DropsOf(fates, MarksAfterAll(l, |fates|, k, ms[..i], envs, hz)))
  }

  lemma AnswersMore(rs: seq<Res>, r: Res, l: Life, fates: seq<Fate>, k: Marks, ms: seq<Msg>, envs: nat -> Env, hz: nat,
                    i: nat)
    requires i < |ms| && AnswersAll(rs, l, fates, k, ms[..i], envs, hz)
    requires Answers(r, ms[i], LifeAfterAll(l, ms[..i], envs, hz).cycles.Running?, LoadOk(ms[i], envs(i), hz),
                     DropsOf(fates, MarksAfterAll(l, |fates|, k, ms[..i], envs, hz)))
    ensures AnswersAll(rs + [r], l, fates, k, ms[..i + 1], envs, hz)
  {
    hide LifeAfterAll, MarksAfterAll, DropsOf, Answers, LoadOk;
    var now := ms[..i + 1];
    assert now[..i] == ms[..i] && |rs| == i && (rs + [r])[..i] == rs;
  }

  /** What was given away: packets, buffers that were missing, and messages to the ring, put there or not. */
  datatype Given = Given(passed: seq<OutPkt>, failed: nat, offered: seq<Res>)

  /** What there was before the events of an iteration. */
  datatype Start = Start(world: Protocol.State, given: Given, fates: seq<Fate>, requests: seq<Msg>)

  /** The reports of events, in their order. */
  ghost function ReportsIn(vs: seq<GenView>, ran: seq<Ran>): seq<Res>
    requires AllSet(vs)
  {
    if ran == [] then []
    else
      var g := ran[|ran| - 1].ctx.gen;
      ReportsIn(vs, ran[..|ran| - 1])
      + if g < |vs| then [ReportRes(g, ReportOf(AfterRuns(vs, ran), g))] else []
  }

  function ReportsBy(rs: seq<Res>, g: nat): seq<Report> {
    if rs == [] then []
    else
      var r := rs[|rs| - 1];
      ReportsBy(rs[..|rs| - 1], g) + if r.ReportRes? && r.genIdx == g then [r.report] else []
  }

  /** A generator's reports are those of its history, one for each event. */
  lemma {:induction false} ReportsOfGenerator(vs: seq<GenView>, ran: seq<Ran>, g: nat)
    requires AllSet(vs) && g < |vs| && forall k :: 0 <= k < |ran| ==> ran[k].ctx.gen < |vs|
    ensures var setup := vs[g].setup;
      setup.ReportsOf(AfterRuns(vs, ran)[g].evs) == setup.ReportsOf(vs[g].evs) + ReportsBy(ReportsIn(vs, ran), g)
    ensures |ReportsIn(vs, ran)| == |ran|
  {
    hide Setup.ReportOf;
    if ran != [] {
      var front, r := ran[..|ran| - 1], ran[|ran| - 1];
      var was, ws := AfterRuns(vs, front), AfterRuns(vs, ran);
      ReportsOfGenerator(vs, front, g);
      var evs := was[r.ctx.gen].evs;
      assert ws[r.ctx.gen].evs == evs + [r.event] && (evs + [r.event])[..|evs|] == evs;
      assert ReportsIn(vs, ran)[..|front|] == ReportsIn(vs, front);
    }
  }

  //// What is known of the flows when generation stops.

  /** The statistics of flow i that its history gives. The duration is that of flows of fewer than 2^64 packets. */
  ghost predicate StatsFit(v: GenView, i: nat, st: FlowStats)
    requires v.setup.Valid()
  {
    var k := Occurrences(v.evs, i);
    && st.genIdx == v.idx && st.flowIdx == i
    && st.cntPkts == Wrap64(k) && st.cntBytes == Wrap64(Bytes(v.setup.pkts, k))
    && (k < U64 ==> st.duration == Wrap64(LastTime(v.evs, i) - FirstTime(v.evs, i)))
  }

  /** One entry for each flow of each generator, in order. */
  ghost predicate Summarizes(vs: seq<GenView>, detailed: seq<FlowStats>) {
    if vs == [] then detailed == []
    else
      var v := vs[|vs| - 1];
      var rest := |detailed| - v.setup.flows;
      rest >= 0 && Summarizes(vs[..|vs| - 1], detailed[..rest]) && StatsOf(v, detailed[rest..])
  }

  ghost predicate StatsOf(v: GenView, part: seq<FlowStats>) {
    v.setup.Valid() && |part| == v.setup.flows && forall i :: 0 <= i < |part| ==> StatsFit(v, i, part[i])
  }

  /** The statistics of a flow are those of its reports: how many, their bytes, and the time from the first to the
      last. */
  ghost predicate StatsTell(v: GenView, i: nat, st: FlowStats) {
    && v.setup.Valid() && st.genIdx == v.idx && st.flowIdx == i
    && var rs := FlowTheorems.ReportsOfFlow(v.setup.ReportsOf(v.evs), i);
    && st.cntPkts == Wrap64(|rs|) && st.cntBytes == Wrap64(FlowTheorems.LenOf(rs))
    && (|rs| < U64 ==> st.duration == if rs == [] then 0 else Wrap64(rs[|rs| - 1].tstamp - rs[0].tstamp))
  }

  lemma StatsAreReported(v: GenView, part: seq<FlowStats>, i: nat)
    requires StatsOf(v, part) && i < |part|
    ensures StatsTell(v, i, part[i])
  {
    assert StatsFit(v, i, part[i]);
    hide Setup.ReportsOf, Bytes;
    FlowTheorems.BytesAreReported(v.setup, v.evs, i);
    FlowTheorems.TimesAreReported(v.setup, v.evs, i);
  }

  /** There is an entry for each flow of each generator, in their order, and it tells what that flow reported. */
  lemma {:induction false} EntryOfFlow(vs: seq<GenView>, detailed: seq<FlowStats>, g: nat, i: nat)
    requires Summarizes(vs, detailed) && g < |vs| && i < vs[g].setup.flows
    ensures |detailed| == FlowsOf(Setups(vs)) && FlowsOf(Setups(vs[..g])) + i < |detailed|
    ensures StatsTell(vs[g], i, detailed[FlowsOf(Setups(vs[..g])) + i])
  {
    hide StatsTell, StatsFit;
    var front, v := vs[..|vs| - 1], vs[|vs| - 1];
    var rest := |detailed| - v.setup.flows;
    SummaryLength(front, detailed[..rest]);
    assert Setups(vs)[..|front|] == Setups(front);
    if g < |front| {
      EntryOfFlow(front, detailed[..rest], g, i);
      assert front[..g] == vs[..g];
    } else {
      StatsAreReported(v, detailed[rest..], i);
      assert vs[..g] == front && detailed[rest..][i] == detailed[rest + i];
    }
  }

  lemma {:induction false} SummaryLength(vs: seq<GenView>, detailed: seq<FlowStats>)
    requires Summarizes(vs, detailed)
    ensures |detailed| == FlowsOf(Setups(vs))
  {
    if vs != [] {
      var rest := |detailed| - vs[|vs| - 1].setup.flows;
      SummaryLength(vs[..|vs| - 1], detailed[..rest]);
      assert Setups(vs)[..|vs| - 1] == Setups(vs[..|vs| - 1]);
    }
  }

  method SummarizeOne(gen: FlowsGenerator) returns (part: seq<FlowStats>)
    requires gen.Valid()
    ensures StatsOf(gen.View(), part)
  {
    part := [];
    for i := 0 to |gen.flows|
      invariant |part| == i && forall j :: 0 <= j < i ==> StatsFit(gen.View(), j, part[j])
    {
      var f := gen.flows[i];
      assert gen.TheSetup().FlowAfter(gen.evs, i, f);
      part := part + [FlowStats(gen.idx, f.idx, f.cntPkts, f.cntBytes, Wrap64(f.tstampEnd - f.tstampBeg))];
    }
  }

  /** The statistics of all flows, generator by generator. */
  method Summarize(gens: seq<FlowsGenerator>) returns (detailed: seq<FlowStats>)
    requires AllValid(gens)
    ensures Summarizes(Views(gens), detailed)
  {
    hide FlowsGenerator.Valid, StatsFit;
    detailed := [];
    ghost var vs := Views(gens);
    for g := 0 to |gens|
      invariant Summarizes(vs[..g], detailed)
    {
      var part := SummarizeOne(gens[g]);
      ghost var all := detailed + part;
      assert vs[..g + 1][..g] == vs[..g] && all[..|detailed|] == detailed && all[|detailed|..] == part;
      detailed := detailed + part;
    }
    assert vs[..|gens|] == vs;
  }

  //// Building and destroying generators.

  function ClockOf(env: Env, g: nat): nat -> nat {
    f => env.clock(g, f)
  }

  /** A generator of which no event ran yet. */
  ghost predicate NewView(v: GenView, s: Setup, hz: nat, clock: nat -> nat) {
    && s.Valid() && s.flows > 0 && v.setup == s && v.evs == []
    && v.first == FirstDues(clock, Cycles.FlowStep(s.flows, hz), s.pkts[0].relTsc, s.flows)
  }

  ghost predicate NewRun(vs: seq<GenView>, ss: seq<Setup>, env: Env, hz: nat) {
    |vs| == |ss| && forall g :: 0 <= g < |vs| ==> NewView(vs[g], ss[g], hz, ClockOf(env, g))
  }

  /** When a new generator's flow i is due: i steps, of the second's share of a flow, and the first packet's time after
      its clock was read; and no event ran yet. */
  lemma FlowsStart(vs: seq<GenView>, ss: seq<Setup>, env: Env, hz: nat, g: nat, i: nat)
    requires NewRun(vs, ss, env, hz) && g < |ss| && i < ss[g].flows
    ensures |vs| == |ss| && vs[g].setup == ss[g] && vs[g].evs == [] && |vs[g].first| == ss[g].flows && |ss[g].pkts| > 0
    ensures var step := Wrap64((1_000_000 / ss[g].flows) * hz) / 1_000_000;
      vs[g].first[i] == Wrap64(env.clock(g, i) + i * step + ss[g].pkts[0].relTsc)
  {
    assert NewView(vs[g], ss[g], hz, ClockOf(env, g));
    var step := Cycles.FlowStep(ss[g].flows, hz);
    FlowTheorems.FirstDuesInTrueTime(ClockOf(env, g), step, ss[g].pkts[0].relTsc, ss[g].flows, i);
  }

  /** One more generator, unless its flows would start less than a cycle apart. */
  method BuildOne(s: EventScheduler, ghost vs: seq<GenView>, idx: nat, cfg: GenCfg, pkts: seq<Pkt>, hz: nat,
                  clock: nat -> nat) returns (ok: bool, g: FlowsGenerator)
    requires pkts != [] && s.Valid() && s.ready == map[] && AllArmed(s.owners, s.pending, vs) && idx == |vs|
    modifies s`cntTimers, s`pending, s`owners
    ensures s.Valid() && s.ready == map[] && fresh(g) && ok == (Cycles.FlowStep(cfg.flowsPerSec, hz) != 0)
    ensures !ok ==> AllArmed(s.owners, s.pending, vs)
    ensures ok ==> g.Valid() && g.idx == idx && NewView(g.View(), SetupOf(cfg, pkts), hz, clock)
    ensures ok ==> AllArmed(s.owners, s.pending, vs + [g.View()])
    ensures forall h :: h in s.owners && h !in old(s.owners) ==> fresh(h)
  {
    hide EventScheduler.Valid, FlowsGenerator.Valid, GenArmed, FirstDues, Hosts;
    ghost var o, p := s.owners, s.pending;
    g := new FlowsGenerator(idx, pkts, Hosts(cfg.cln.address, cfg.cln.prefix), Hosts(cfg.srv.address, cfg.srv.prefix),
                            cfg.burst, cfg.flowsPerSec);
    ok := g.SetupFlowEvents(s, Flatten(EventSeqs(vs)), hz, clock);
    if ok {
      ArmedOneMore(o, p, s.owners, s.pending, vs, g.View());
    }
  }

  /** The destruction of the generators returns all their timers. */
  method DestroyGenerators(s: EventScheduler, gens: seq<FlowsGenerator>)
    requires s.Valid() && s.ready == map[] && AllArmed(s.owners, s.pending, Views(gens))
    modifies s`cntTimers, s`pending, s`owners, s.owners.Keys
    ensures s.Valid() && s.owners == map[] && s.pending == map[] && s.ready == map[]
  {
    assert EventSeqs(Views(gens)) == EventsOf(gens);
    DestroyAll(s, EventsOf(gens));
  }

  /** The first generators were built. */
  ghost predicate BuiltSoFar(vs: seq<GenView>, cfgs: seq<GenCfg>, env: Env, hz: nat) {
    && |vs| <= |cfgs|
    && forall g :: 0 <= g < |vs| ==>
         var l := CaptureOf(cfgs, env, hz, g);
         Builds(cfgs[g], l, hz) && NewView(vs[g], SetupOf(cfgs[g], l.pkts), hz, ClockOf(env, g))
  }

  /** The packets of a generator: what loading its file from the pool gives. */
  method LoadCapture(pool: MbufPool, cfg: GenCfg, dut: EtherAddr, env: Env, hz: nat) returns (l: Loading)
    requires pool.room == env.room
    modifies pool
    ensures var data, ports := env.files(cfg.name), cfg.clnPort.Some?;
      && l == LoadingOf(data, env.room, old(pool.cntFree), cfg.ipg, hz, ports)
      && pool.cntFree == FreeAfter(data, env.room, old(pool.cntFree), ports)
  {
    hide LoadingOf, FreeAfter;
    var data := env.files(cfg.name);
    var file: File? := null;
    if data.Some? {
      file := new File(data.value);
    }
    var pkts;
    ghost var chains;
    l, pkts, chains := LoadForFlows(file, pool, cfg.ipg, hz, Rewrite(env.mac, dut, cfg.clnPort));
  }

  /** The loop's body: one more generator, unless it cannot be built. */
  method BuildNext(s: EventScheduler, gens: seq<FlowsGenerator>, pool: MbufPool, cfgs: seq<GenCfg>, dut: EtherAddr,
                   env: Env, hz: nat) returns (ok: bool, noBuf: bool, g: FlowsGenerator?)
    requires s.Valid() && s.ready == map[] && AllValid(gens) && AllArmed(s.owners, s.pending, Views(gens))
    requires |gens| < |cfgs| && BuiltSoFar(Views(gens), cfgs, env, hz)
    requires pool.room == env.room && pool.cntFree == FreeAt(cfgs, env, |gens|)
    modifies pool, s`cntTimers, s`pending, s`owners
    ensures s.Valid() && s.ready == map[] && pool.cntFree == FreeAt(cfgs, env, |gens| + 1)
    ensures var l := CaptureOf(cfgs, env, hz, |gens|); ok == Builds(cfgs[|gens|], l, hz) && noBuf == l.NoBuffer?
    ensures ok ==> g != null && fresh(g) && AllValid(gens + [g])
    ensures ok ==> AllArmed(s.owners, s.pending, Views(gens + [g])) && BuiltSoFar(Views(gens + [g]), cfgs, env, hz)
    ensures !ok ==> AllArmed(s.owners, s.pending, Views(gens))
    ensures forall h :: h in s.owners && h !in old(s.owners) ==> fresh(h)
  {
    hide EventScheduler.Valid, FlowsGenerator.Valid, AllArmed, NewView, SetupOf, LoadingOf, FreeAfter, FreeAt;
    hide CaptureOf, BuiltSoFar;
    ghost var vs := Views(gens);
    CaptureAt(cfgs, env, hz, |gens|);
    var l := LoadCapture(pool, cfgs[|gens|], dut, env, hz);
    ok, noBuf, g := false, l.NoBuffer?, null;
    if l.Packets? {
      ok, g := BuildOne(s, vs, |gens|, cfgs[|gens|], l.pkts, hz, ClockOf(env, |gens|));
      if ok {
        OneMoreView(gens, g);
        OneMoreBuilt(vs, g.View(), cfgs, env, hz);
      }
    }
  }

  /** All generators are built before any of them is kept. One that throws takes the built ones with it. */
  method BuildGenerators(s: EventScheduler, cfgs: seq<GenCfg>, dut: EtherAddr, env: Env, hz: nat)
    returns (ok: bool, noBuf: bool, gens: seq<FlowsGenerator>)
    requires s.Valid() && s.owners == map[] && s.pending == map[] && s.ready == map[]
    modifies s`cntTimers, s`pending, s`owners
    ensures s.Valid() && s.ready == map[] && AllValid(gens) && AllArmed(s.owners, s.pending, Views(gens))
    ensures ok == AllBuild(cfgs, env, hz) && noBuf == (!ok && WantsBuffer(cfgs, env, hz, 0))
    ensures ok ==> NewRun(Views(gens), SetupsOf(cfgs, env, hz), env, hz)
    ensures ok ==> Setups(Views(gens)) == SetupsOf(cfgs, env, hz)
    ensures !ok ==> gens == []
    ensures (forall g :: 0 <= g < |gens| ==> fresh(gens[g])) && (forall h :: h in s.owners ==> fresh(h))
  {
    hide EventScheduler.Valid, AllValid, AllArmed, Setups, SetupsOf, NewRun, WantsBuffer, AllBuild, FreeAt, CaptureOf;
    hide BuiltSoFar;
    gens := [];
    NothingBuilt(cfgs, env, hz);
    var pool := new MbufPool(env.room, env.free);
    for i := 0 to |cfgs|
      invariant fresh(pool) && pool.room == env.room && pool.cntFree == FreeAt(cfgs, env, i)
      invariant s.Valid() && s.ready == map[] && AllArmed(s.owners, s.pending, Views(gens))
      invariant AllValid(gens) && |gens| == i && BuiltSoFar(Views(gens), cfgs, env, hz)
      invariant (forall g :: 0 <= g < i ==> fresh(gens[g])) && (forall h :: h in s.owners ==> fresh(h))
    {
      var g;
      ok, noBuf, g := BuildNext(s, gens, pool, cfgs, dut, env, hz);
      if !ok {
        DestroyGenerators(s, gens);
        NotAllBuild(Views(gens), cfgs, env, hz);
        NothingBuilt(cfgs, env, hz);
        gens := [];
        return;
      }
      gens := gens + [g];
    }
    AllBuilt(Views(gens), cfgs, env, hz);
    ok, noBuf := true, false;
  }

  lemma NothingBuilt(cfgs: seq<GenCfg>, env: Env, hz: nat)
    ensures AllValid([]) && Views([]) == [] && AllArmed(map[], map[], [])
    ensures BuiltSoFar([], cfgs, env, hz) && FreeAt(cfgs, env, 0) == env.free
  {
  }

  lemma CaptureAt(cfgs: seq<GenCfg>, env: Env, hz: nat, i: nat)
    requires i < |cfgs|
    ensures var data, free, ports := env.files(cfgs[i].name), FreeAt(cfgs, env, i), cfgs[i].clnPort.Some?;
      && CaptureOf(cfgs, env, hz, i) == LoadingOf(data, env.room, free, cfgs[i].ipg, hz, ports)
      && FreeAt(cfgs, env, i + 1) == FreeAfter(data, env.room, free, ports)
  {
    hide LoadingOf, FreeAfter;
  }

  lemma OneMoreBuilt(vs: seq<GenView>, v: GenView, cfgs: seq<GenCfg>, env: Env, hz: nat)
    requires BuiltSoFar(vs, cfgs, env, hz) && |vs| < |cfgs| && Builds(cfgs[|vs|], CaptureOf(cfgs, env, hz, |vs|), hz)
    requires NewView(v, SetupOf(cfgs[|vs|], CaptureOf(cfgs, env, hz, |vs|).pkts), hz, ClockOf(env, |vs|))
    ensures BuiltSoFar(vs + [v], cfgs, env, hz)
  {
    hide NewView, CaptureOf, SetupOf, ClockOf;
  }

  lemma NotAllBuild(vs: seq<GenView>, cfgs: seq<GenCfg>, env: Env, hz: nat)
    requires BuiltSoFar(vs, cfgs, env, hz) && |vs| < |cfgs| && !Builds(cfgs[|vs|], CaptureOf(cfgs, env, hz, |vs|), hz)
    ensures !AllBuild(cfgs, env, hz)
    ensures WantsBuffer(cfgs, env, hz, 0) <==> CaptureOf(cfgs, env, hz, |vs|).NoBuffer?
  {
    hide NewView, CaptureOf, SetupOf, ClockOf;
    FirstFailure(cfgs, env, hz, 0, |vs|);
  }

  /** No event ran yet. */
  ghost predicate AllNew(vs: seq<GenView>) {
    forall g :: 0 <= g < |vs| ==> vs[g].evs == []
  }

  lemma NewRunIsNew(vs: seq<GenView>, ss: seq<Setup>, env: Env, hz: nat)
    requires NewRun(vs, ss, env, hz)
    ensures AllNew(vs)
  {
  }

  lemma AllBuilt(vs: seq<GenView>, cfgs: seq<GenCfg>, env: Env, hz: nat)
    requires BuiltSoFar(vs, cfgs, env, hz) && |vs| == |cfgs|
    ensures AllBuild(cfgs, env, hz) && NewRun(vs, SetupsOf(cfgs, env, hz), env, hz)
    ensures Setups(vs) == SetupsOf(cfgs, env, hz)
  {
    hide CaptureOf, SetupOf, ClockOf;
  }

  lemma OneMoreView(gens: seq<FlowsGenerator>, g: FlowsGenerator)
    requires AllValid(gens) && g.Valid() && g.idx == |gens|
    ensures AllValid(gens + [g]) && Views(gens + [g]) == Views(gens) + [g.View()]
  {
    hide FlowsGenerator.Valid;
    var more := gens + [g];
    assert more[..|gens|] == gens && more[|gens|] == g;
  }

  lemma NothingArmed()
    ensures AllArmed(map[], map[], [])
  {
  }

  function PktOf(g: nat, sent: Option<Sent>): seq<OutPkt> {
    if sent.Some? then [OutPkt(g, sent.value)] else []
  }

  lemma AppendOne<T>(a: seq<T>, b: seq<T>, c: seq<T>)
    ensures a + (b + c) == (a + b) + c
  {
  }

  lemma OneMoreRan(vs: seq<GenView>, ran: seq<Ran>, x: Ran)
    requires AllSet(vs) && x.ctx.gen < |vs|
    ensures var ws := AfterRuns(vs, ran + [x]);
      && ws == AfterEvent(AfterRuns(vs, ran), x.ctx.gen, x.event)
      && PktsIn(vs, ran + [x]) == PktsIn(vs, ran) + PktOf(x.ctx.gen, PacketOf(ws, x.ctx.gen))
      && (PacketOf(ws, x.ctx.gen).Some? <==> x.event.copied)
      && ReportsIn(vs, ran + [x]) == ReportsIn(vs, ran) + [ReportRes(x.ctx.gen, ReportOf(ws, x.ctx.gen))]
    ensures Copies(ran + [x]) == Copies(ran) + if x.event.copied then 1 else 0
  {
    hide Setup.ReportOf;
    assert (ran + [x])[..|ran|] == ran;
    var ws := AfterRuns(vs, ran);
    SentOfMore(ws[x.ctx.gen].setup, ws[x.ctx.gen].evs, x.event);
  }
}
