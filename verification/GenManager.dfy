/**
 The generation manager: start, stop and timeout, the run of the timers that are due, and the buffer of packets to
 transmit. Its iterations are proved to be runs of the protocol.
 */
module GenManager {
  import opened Words
  import opened Timers
  import opened Handles
  import opened Flows
  import opened Generators
  import opened GenLife
  import opened GeneratorRuns
  import opened Messages
  import opened Wrappers
  import opened Headers
  import Cycles
  import Protocol
  import ProtocolProofs
  import Steps = ProtocolSteps

  class ManagerImpl {
    const hz: nat
    const scheduler: EventScheduler
    const incQueue: MessagesQueue<Msg>
    const outQueue: MessagesQueue<Res>
    var generators: seq<FlowsGenerator>
    var genCycles: RunCycles
    var txPkts: seq<OutPkt>
    var cntTxPktsQfull: nat
    var cntTxPktsNombuf: nat
    /** History: packets given to SendPkt, what became of them, how much of that was before the counters were
        last reset, and copies that failed since; and messages to the ring of responses, whether it had room or not. */
    ghost var passed: seq<OutPkt>
    ghost var fates: seq<Fate>
    ghost var mark: nat
    ghost var failedAllocs: nat
    ghost var offered: seq<Res>
    /** The state of both threads. The fields above and the rings show this manager's part of it; what the other thread
        does depends on the rest. */
    var world: Protocol.State

    /** What holds between any two statements of the message and event handlers. */
    ghost predicate Valid()
      reads `generators, `genCycles, generators, scheduler, scheduler.owners.Keys
      reads `txPkts, `cntTxPktsQfull, `cntTxPktsNombuf, `passed, `fates, `mark, `failedAllocs
      reads `world, incQueue.impl, incQueue.impl.buff, outQueue.impl, outQueue.impl.buff
    {
      GensInv() && PacketsInv() && LinkInv() && world.running == genCycles.Running?
    }

    ghost predicate GensInv()
      reads `generators, `genCycles, generators, scheduler, scheduler.owners.Keys
    {
      TimersInv() && (genCycles.NotStarted? ==> generators == [])
    }

    /** The timers that are out are those of the generators' flows, each pending exactly when its flow's history wants
        it, for the time that the history gives. */
    ghost predicate TimersInv()
      reads `generators, generators, scheduler, scheduler.owners.Keys
    {
      && scheduler.Valid() && scheduler.ready == map[] && AllValid(generators)
      && AllArmed(scheduler.owners, scheduler.pending, Views(generators))
    }

    /** Every packet is taken by the device, freed or still waiting, in order and once; drops are counted. */
    ghost predicate PacketsInv()
      reads `txPkts, `cntTxPktsQfull, `cntTxPktsNombuf, `passed, `fates, `mark, `failedAllocs
    {
      && passed == PktsOf(fates) + txPkts
      && mark <= |fates| && cntTxPktsQfull == Wrap64(FreedCount(fates[mark..]))
      && cntTxPktsNombuf == Wrap64(failedAllocs)
      && |txPkts| < CNT_BURST_PKTS
    }

    /** The rings hold what the protocol's queues do. */
    ghost predicate LinkInv()
      reads `world, incQueue.impl, incQueue.impl.buff, outQueue.impl, outQueue.impl.buff
    {
      && incQueue.impl as object != outQueue.impl && incQueue.impl.buff as object != outQueue.impl.buff
      && incQueue.Valid() && outQueue.Valid()
      && incQueue.impl.size == Protocol.OUT_CAPACITY && outQueue.impl.size == Protocol.INC_CAPACITY
      && ItemsOf(incQueue.Content()) == world.out && MsgsOf(outQueue.Content()) == world.inc
      && ProtocolProofs.Inv(world)
    }

    ghost function TheLife(): Life
      reads `generators, `genCycles, generators
    {
      Life(genCycles, Setups(Views(generators)))
    }

    ghost function TheMarks(): Marks
      reads `mark, `failedAllocs
    {
      Marks(mark, failedAllocs)
    }

    constructor (hz: nat, inc: MessagesQueue<Msg>, out: MessagesQueue<Res>)
      requires inc.impl as object != out.impl && inc.impl.buff as object != out.impl.buff
      requires inc.Valid() && out.Valid() && inc.Content() == [] && out.Content() == []
      requires inc.impl.size == Protocol.OUT_CAPACITY && out.impl.size == Protocol.INC_CAPACITY
      ensures Valid() && world == Protocol.Init() && incQueue == inc && outQueue == out && this.hz == hz
      ensures TheLife() == Life(NotStarted, []) && txPkts == [] && passed == [] && offered == []
      ensures fresh(scheduler) && scheduler.owners == map[]
      ensures scheduler.usecCycles * 1_000_000 <= Wrap64(hz) < scheduler.usecCycles * 1_000_000 + 1_000_000
    {
      this.hz, incQueue, outQueue := hz, inc, out;
      scheduler := new EventScheduler(hz);
      generators, genCycles, txPkts := [], NotStarted, [];
      cntTxPktsQfull, cntTxPktsNombuf := 0, 0;
      passed, fates, mark, failedAllocs, offered := [], [], 0, 0, [];
      world := Protocol.Init();
      ProtocolProofs.InitInv();
      NothingArmed();
    }

    //// Packets.

    /** One burst to the device, which takes a prefix; the rest is freed and counted. */
    method TransmitTxPkts(accept: nat)
      requires passed == PktsOf(fates) + txPkts
      requires mark <= |fates| && cntTxPktsQfull == Wrap64(FreedCount(fates[mark..]))
      modifies `txPkts, `cntTxPktsQfull, `fates
      ensures txPkts == [] && passed == PktsOf(fates)
      ensures fates == old(fates) + BurstFates(old(txPkts), if accept < |old(txPkts)| then accept else |old(txPkts)|)
      ensures var taken := if accept < |old(txPkts)| then accept else |old(txPkts)|;
        && |fates| == |old(fates)| + |old(txPkts)|
        && (forall i :: 0 <= i < |old(txPkts)| ==>
              fates[|old(fates)| + i] == if i < taken then Handed(old(txPkts)[i]) else Freed(old(txPkts)[i]))
        && cntTxPktsQfull == Wrap64(old(cntTxPktsQfull) + (|old(txPkts)| - taken))
      ensures mark <= |fates| && cntTxPktsQfull == Wrap64(FreedCount(fates[mark..]))
    {
      var cntAll := |txPkts|;
      var cnt := if accept < cntAll then accept else cntAll;
      ghost var burst := BurstFates(txPkts, cnt);
      CountBurst(fates, mark, txPkts, cnt);
      WrappedSum(FreedCount(fates[mark..]), cntAll - cnt);
      if cntAll > cnt {
        cntTxPktsQfull := Wrap64(cntTxPktsQfull + (cntAll - cnt));
      }
      fates := fates + burst;
      txPkts := [];
    }

    method SendPkt(pkt: OutPkt, accept: nat)
      requires PacketsInv()
      modifies `txPkts, `cntTxPktsQfull, `fates, `passed
      ensures PacketsInv() && passed == old(passed) + [pkt]
      ensures old(fates) <= fates
      ensures txPkts == if |old(txPkts)| + 1 == 64 then [] else old(txPkts) + [pkt]
    {
      txPkts := txPkts + [pkt];
      passed := passed + [pkt];
      assert PktsOf(fates) + txPkts == passed;
      if |txPkts| == CNT_BURST_PKTS {
        TransmitTxPkts(accept);
        assert PktsOf(fates) + [] == PktsOf(fates);
      }
    }

    /** A buffer that could not be had. */
    method CountNoBuffer()
      requires PacketsInv()
      modifies `cntTxPktsNombuf, `failedAllocs
      ensures PacketsInv() && failedAllocs == old(failedAllocs) + 1
      ensures cntTxPktsNombuf == Wrap64(old(cntTxPktsNombuf) + 1)
    {
      WrappedSum(failedAllocs, 1);
      cntTxPktsNombuf := Wrap64(cntTxPktsNombuf + 1);
      failedAllocs := failedAllocs + 1;
    }

    /** Every run reports the packets of its own. */
    method ResetCounters()
      requires PacketsInv()
      modifies `cntTxPktsQfull, `cntTxPktsNombuf, `mark, `failedAllocs
      ensures PacketsInv() && TheMarks() == Marks(|fates|, 0) && cntTxPktsQfull == 0 && cntTxPktsNombuf == 0
    {
      cntTxPktsQfull, cntTxPktsNombuf := 0, 0;
      mark, failedAllocs := |fates|, 0;
      assert fates[mark..] == [];
    }

    /** What is left of a burst. */
    method Flush(accept: nat)
      requires PacketsInv()
      modifies `txPkts, `cntTxPktsQfull, `fates
      ensures PacketsInv() && txPkts == [] && old(fates) <= fates
    {
      if txPkts != [] {
        TransmitTxPkts(accept);
        assert PktsOf(fates) + [] == PktsOf(fates);
      }
    }

    //// Messages.

    /** A message to the manager, with failure ignored: the protocol's next state has it, or its ring is full. */
    method Enqueue(m: Res, next: Protocol.State)
      requires LinkInv() && ProtocolProofs.Inv(next) && next.out == world.out
      requires next.inc == Steps.Pushed(world.inc, MsgOfRes(m), Protocol.INC_CAPACITY)
      modifies `world, `offered, outQueue.impl, outQueue.impl.buff
      ensures LinkInv() && world == next && incQueue.Content() == old(incQueue.Content())
      ensures offered == old(offered) + [m]
      ensures outQueue.Content() == Steps.Pushed(old(outQueue.Content()), m, Protocol.INC_CAPACITY)
    {
      hide ProtocolProofs.Inv;
      MsgsMore(outQueue.Content(), m);
      var _ := outQueue.Enqueue(m);
      offered := offered + [m];
      world := next;
    }

    /** What the management thread does meanwhile, one step of it. */
    method PeerStep(a: PeerAct)
      requires LinkInv()
      modifies `world, incQueue.impl, incQueue.impl.buff, outQueue.impl, outQueue.impl.buff
      ensures LinkInv() && exists did :: Steps.AsPlanned(a.step, did) && world == Protocol.Step(old(world), did)
      ensures world.out != old(world).out ==> a.step.Request?
      ensures incQueue.Content() == old(incQueue.Content())
              + if world.out == old(world).out then [] else [MsgOf(a, |old(world).accepted|)]
      ensures world.gpc == old(world).gpc && world.gbatch == old(world).gbatch && world.running == old(world).running
    {
      hide ProtocolProofs.Inv, Protocol.Step;
      var did := a.step;
      Steps.ManagerStep(world, did);
      if did.MgrDequeue? && world.mpc.MDequeue? {
        var ms := outQueue.Dequeue();
        MsgsSplit(ms, outQueue.Content());
        did := Protocol.MgrDequeue(|ms|);
        Steps.PopBatch(world, |ms|);
      } else if Protocol.Step(world, did).out != world.out {
        var m := MsgOf(a, |world.accepted|);
        ItemsMore(incQueue.Content(), m);
        var _ := incQueue.Enqueue(m);
      }
      world := Protocol.Step(world, did);
    }

    /** Any number of steps of the management thread. */
    method Meanwhile(acts: seq<PeerAct>)
      requires LinkInv()
      modifies `world, incQueue.impl, incQueue.impl.buff, outQueue.impl, outQueue.impl.buff
      ensures LinkInv() && Steps.Makes(old(world), StepsOf(acts), world)
      ensures old(incQueue.Content()) <= incQueue.Content()
      ensures world.gpc == old(world).gpc && world.gbatch == old(world).gbatch && world.running == old(world).running
    {
      hide LinkInv, Protocol.Step, Steps.Makes;
      Steps.MakesNothing(world);
      assert StepsOf(acts[..0]) == [];
      for i := 0 to |acts|
        invariant LinkInv() && Steps.Makes(old(world), StepsOf(acts[..i]), world)
        invariant world.gpc == old(world).gpc && world.gbatch == old(world).gbatch
        invariant world.running == old(world).running && old(incQueue.Content()) <= incQueue.Content()
      {
        ghost var was := world;
        PeerStep(acts[i]);
        ghost var did :| Steps.AsPlanned(acts[i].step, did) && world == Protocol.Step(was, did);
        Steps.MakesMore(old(world), StepsOf(acts[..i]), was, acts[i].step, did);
        assert StepsOf(acts[..i + 1]) == StepsOf(acts[..i]) + [acts[i].step];
      }
      assert acts[..|acts|] == acts;
    }

    /** What a start does to the generators. */
    ghost predicate StartEffect(vs: seq<GenView>, running: bool, m: Msg, env: Env)
      requires m.StartMsg?
      reads `generators, generators
    {
      if running || !AllBuild(m.cfgs, env, hz) then Views(generators) == vs
      else NewRun(Views(generators), SetupsOf(m.cfgs, env, hz), env, hz)
    }

    method OnStart(m: Msg, env: Env) returns (answer: Protocol.Answer)
      requires GensInv() && PacketsInv() && m.StartMsg?
      modifies `generators, `genCycles, `cntTxPktsQfull, `cntTxPktsNombuf, `mark, `failedAllocs
      modifies scheduler`cntTimers, scheduler`pending, scheduler`owners
      ensures GensInv() && PacketsInv()
      ensures TheLife() == LifeAfter(old(TheLife()), m, env, hz)
      ensures TheMarks() == MarksAfter(old(TheLife()), |fates|, old(TheMarks()), m, env, hz)
      ensures answer == Protocol.React(old(genCycles).Running?, Protocol.Start, LoadOk(m, env, hz)).0
      ensures StartEffect(old(Views(generators)), old(genCycles).Running?, m, env)
      ensures answer == Protocol.AlreadyStarted <==> old(genCycles).Running?
      ensures answer == Protocol.StartFailed <==> old(genCycles).NotStarted? && !AllBuild(m.cfgs, env, hz)
      ensures answer == Protocol.Started ==>
                && genCycles.Running? && genCycles.begin == env.began
                && 1_000 * genCycles.duration <= Wrap64(m.millis * hz) < 1_000 * genCycles.duration + 1_000
      ensures answer != Protocol.Started ==> genCycles == old(genCycles)
      ensures answer == Protocol.Started && env.resetOk ==> cntTxPktsQfull == 0 && cntTxPktsNombuf == 0
      ensures !(answer == Protocol.Started && env.resetOk) ==> cntTxPktsQfull == old(cntTxPktsQfull)
      ensures !(answer == Protocol.Started && env.resetOk) ==>
                cntTxPktsNombuf ==
                if answer == Protocol.StartFailed && WantsBuffer(m.cfgs, env, hz, 0)
                then Wrap64(old(cntTxPktsNombuf) + 1) else old(cntTxPktsNombuf)
      ensures forall g :: 0 <= g < |generators| ==> fresh(generators[g]) || generators[g] in old(generators)
      ensures forall h :: h in scheduler.owners ==> fresh(h) || h in old(scheduler.owners)
    {
      hide TimersInv, FlowsGenerator.Valid, NewRun, PacketsInv, WantsBuffer, AllBuild, SetupsOf;
      if genCycles.Running? {
        return Protocol.AlreadyStarted;
      }
      var ok, noBuf := LoadGenerators(m.cfgs, m.dut, env);
      if !ok {
        if noBuf {
          CountNoBuffer();
        }
        return Protocol.StartFailed;
      }
      if env.resetOk {
        ResetCounters();
      }
      assert genCycles.NotStarted?;
      Cycles.CyclesOfDuration(m.millis, 1_000, hz);
      genCycles := Running(env.began, Cycles.FromDuration(m.millis, 1_000, hz));
      answer := Protocol.Started;
    }

    /** The generators of a start, which replace none. */
    method LoadGenerators(cfgs: seq<GenCfg>, dut: EtherAddr, env: Env) returns (ok: bool, noBuf: bool)
      requires GensInv() && genCycles.NotStarted?
      modifies `generators, scheduler`cntTimers, scheduler`pending, scheduler`owners
      ensures TimersInv() && ok == AllBuild(cfgs, env, hz) && noBuf == (!ok && WantsBuffer(cfgs, env, hz, 0))
      ensures !ok ==> generators == []
      ensures ok ==> NewRun(Views(generators), SetupsOf(cfgs, env, hz), env, hz)
      ensures ok ==> Setups(Views(generators)) == SetupsOf(cfgs, env, hz)
      ensures forall g :: 0 <= g < |generators| ==> fresh(generators[g])
      ensures forall h :: h in scheduler.owners ==> fresh(h)
    {
      hide GensInv, EventScheduler.Valid, AllValid, AllArmed, NewRun, WantsBuffer, Setups, SetupsOf, Views, AllBuild;
      NoTimers();
      var gens;
      ok, noBuf, gens := BuildGenerators(scheduler, cfgs, dut, env, hz);
      assert generators == [];
      generators := gens;
    }

    /** Without generation there are no timers. */
    lemma NoTimers()
      requires GensInv() && genCycles.NotStarted?
      ensures scheduler.Valid() && scheduler.owners == map[] && scheduler.pending == map[] && scheduler.ready == map[]
      ensures generators == [] && scheduler.cntTimers == 0
    {
      assert EventSeqs(Views(generators)) == [];
      assert scheduler.owners.Keys == {};
      assert scheduler.owners == map[];
    }

    method StopGeneration()
      requires GensInv()
      modifies `generators, `genCycles, scheduler`cntTimers, scheduler`pending, scheduler`owners, scheduler.owners.Keys
      ensures GensInv() && TheLife() == Life(NotStarted, []) && generators == [] && scheduler.owners == map[]
    {
      hide EventScheduler.Valid, FlowsGenerator.Valid, AllArmed;
      DestroyGenerators(scheduler, generators);
      generators := [];
      var cnt := scheduler.CountEvents();
      assert cnt == 0;
      genCycles := NotStarted;
      NothingArmed();
    }

    /** This manager's part of the statistics: packets dropped for want of room, and of buffers. */
    method OwnStats() returns (st: TxDrops)
      requires PacketsInv()
      ensures st == DropsOf(fates, TheMarks()) && st.qfull == cntTxPktsQfull && st.nombuf == cntTxPktsNombuf
    {
      st := TxDrops(cntTxPktsQfull, cntTxPktsNombuf);
    }

    /** The statistics of the run, taken before it ends. */
    method OnStop() returns (detailed: seq<FlowStats>, own: TxDrops)
      requires GensInv() && PacketsInv()
      modifies `generators, `genCycles, scheduler`cntTimers, scheduler`pending, scheduler`owners, scheduler.owners.Keys
      ensures GensInv() && TheLife() == Life(NotStarted, []) && generators == [] && scheduler.owners == map[]
      ensures Summarizes(old(Views(generators)), detailed)
      ensures own == DropsOf(fates, TheMarks()) && own.qfull == cntTxPktsQfull && own.nombuf == cntTxPktsNombuf
    {
      hide PacketsInv, Summarizes;
      assert AllValid(generators);
      hide GensInv;
      detailed := Summarize(generators);
      StopGeneration();
      own := OwnStats();
    }

    /** Handles one message but for its answer. */
    method React(m: Msg, env: Env) returns (r: Res)
      requires GensInv() && PacketsInv()
      modifies `generators, `genCycles, `cntTxPktsQfull, `cntTxPktsNombuf, `mark, `failedAllocs
      modifies scheduler`cntTimers, scheduler`pending, scheduler`owners, scheduler.owners.Keys
      ensures GensInv() && PacketsInv()
      ensures TheLife() == LifeAfter(old(TheLife()), m, env, hz)
      ensures TheMarks() == MarksAfter(old(TheLife()), |fates|, old(TheMarks()), m, env, hz)
      ensures Answers(r, m, old(genCycles).Running?, LoadOk(m, env, hz), old(DropsOf(fates, TheMarks())))
      ensures r.StopRes? ==> Summarizes(old(Views(generators)), r.detailed)
      ensures MsgEffect(old(Views(generators)), old(genCycles).Running?, m, env)
      ensures forall g :: 0 <= g < |generators| ==> fresh(generators[g]) || generators[g] in old(generators)
      ensures forall h :: h in scheduler.owners ==> fresh(h) || h in old(scheduler.owners)
    {
      hide GensInv, PacketsInv, AllBuild, DropsOf, Summarizes;
      match m
      case StartMsg(id, _, _, _) =>
        var answer := OnStart(m, env);
        r := StartRes(id, answer);
      case StopMsg(id) =>
        var detailed, own := OnStop();
        r := StopRes(id, own, detailed);
      case StatsMsg(id) =>
        var own := OwnStats();
        r := StatsRes(id, own);
    }

    /** What a message does to the generators. */
    ghost predicate MsgEffect(vs: seq<GenView>, running: bool, m: Msg, env: Env)
      reads `generators, generators
    {
      match m
      case StartMsg(_, _, _, _) => StartEffect(vs, running, m, env)
      case StopMsg(_) => generators == []
      case StatsMsg(_) => Views(generators) == vs
    }

    /** The next message of the batch: its handler and its answer are one step of the protocol. */
    method OnIncMsg(m: Msg, env: Env) returns (r: Res)
      requires Valid() && world.gpc.GHandle? && world.gbatch != [] && world.gbatch[0] == ItemOf(m)
      modifies `generators, `genCycles, `cntTxPktsQfull, `cntTxPktsNombuf, `mark, `failedAllocs
      modifies scheduler`cntTimers, scheduler`pending, scheduler`owners, scheduler.owners.Keys
      modifies `world, `offered, outQueue.impl, outQueue.impl.buff
      ensures Valid() && world == Protocol.Step(old(world), Protocol.GenHandle(LoadOk(m, env, hz)))
      ensures world.gpc.GHandle? && world.gbatch == old(world).gbatch[1..]
      ensures incQueue.Content() == old(incQueue.Content())
      ensures TheLife() == LifeAfter(old(TheLife()), m, env, hz)
      ensures TheMarks() == MarksAfter(old(TheLife()), |fates|, old(TheMarks()), m, env, hz)
      ensures MsgEffect(old(Views(generators)), old(genCycles).Running?, m, env)
      ensures offered == old(offered) + [r] && (r.StopRes? ==> Summarizes(old(Views(generators)), r.detailed))
      ensures Answers(r, m, old(genCycles).Running?, LoadOk(m, env, hz), old(DropsOf(fates, TheMarks())))
      ensures outQueue.Content() == Steps.Pushed(old(outQueue.Content()), r, Protocol.INC_CAPACITY)
      ensures forall g :: 0 <= g < |generators| ==> fresh(generators[g]) || generators[g] in old(generators)
      ensures forall h :: h in scheduler.owners ==> fresh(h) || h in old(scheduler.owners)
    {
      hide GensInv, PacketsInv, LinkInv, ProtocolProofs.Inv, Protocol.Step, LoadOk, LifeAfter, MarksAfter, MsgEffect;
      hide DropsOf, Summarizes;
      var loadOk := LoadOk(m, env, hz);
      WorldInv();
      Steps.HandleRequest(world, loadOk);
      LifeReacts(TheLife(), m, env, hz);
      r := React(m, env);
      Enqueue(r, Protocol.Step(world, Protocol.GenHandle(loadOk)));
    }

    /** The next message, with what the management thread does before it is handled. */
    method HandleOne(m: Msg, env: Env) returns (ghost r: Res)
      requires Valid() && world.gpc.GHandle? && world.gbatch != [] && world.gbatch[0] == ItemOf(m)
      modifies `generators, `genCycles, `cntTxPktsQfull, `cntTxPktsNombuf, `mark, `failedAllocs
      modifies scheduler`cntTimers, scheduler`pending, scheduler`owners, scheduler.owners.Keys
      modifies `world, `offered, incQueue.impl, incQueue.impl.buff, outQueue.impl, outQueue.impl.buff
      ensures Valid() && Steps.Makes(old(world), Handling(m, env, hz), world)
      ensures world.gpc.GHandle? && world.gbatch == old(world).gbatch[1..]
      ensures old(incQueue.Content()) <= incQueue.Content()
      ensures TheLife() == LifeAfter(old(TheLife()), m, env, hz)
      ensures TheMarks() == MarksAfter(old(TheLife()), |fates|, old(TheMarks()), m, env, hz)
      ensures MsgEffect(old(Views(generators)), old(genCycles).Running?, m, env)
      ensures offered == old(offered) + [r]
      ensures Answers(r, m, old(genCycles).Running?, LoadOk(m, env, hz), old(DropsOf(fates, TheMarks())))
      ensures forall g :: 0 <= g < |generators| ==> fresh(generators[g]) || generators[g] in old(generators)
      ensures forall h :: h in scheduler.owners ==> fresh(h) || h in old(scheduler.owners)
    {
      hide GensInv, PacketsInv, LinkInv, Steps.Makes, Protocol.Step, LoadOk, LifeAfter, MarksAfter, MsgEffect, Setups;
      hide Views, DropsOf, Summarizes, Answers;
      Meanwhile(env.meanwhile);
      var a := Protocol.GenHandle(LoadOk(m, env, hz));
      Steps.MakesMore(old(world), StepsOf(env.meanwhile), world, a, a);
      r := OnIncMsg(m, env);
    }

    lemma WorldInv()
      requires LinkInv()
      ensures ProtocolProofs.Inv(world)
    {
    }

    /** What a batch leaves of the flows: they are as they were, always so when a run has no stop, or new. */
    ghost predicate BatchEffect(vs: seq<GenView>, running: bool, msgs: seq<Msg>)
      reads `generators, generators
    {
      && (running && (forall i :: 0 <= i < |msgs| ==> !msgs[i].StopMsg?) ==> Views(generators) == vs)
      && (Views(generators) == vs || AllNew(Views(generators)))
    }

    /** The first i messages of the batch were handled. */
    ghost predicate HandledSoFar(start: Protocol.State, life: Life, marks: Marks, before: seq<Res>, msgs: seq<Msg>,
                                 envs: nat -> Env, i: nat)
      requires i <= |msgs|
      reads `generators, `genCycles, generators, `mark, `failedAllocs, `fates, `world, `offered
    {
      && before <= offered && AnswersAll(offered[|before|..], life, fates, marks, msgs[..i], envs, hz)
      && world.gpc.GHandle? && world.gbatch == ItemsOf(msgs[i..])
      && Steps.Makes(start, Handlings(msgs[..i], envs, hz), world)
      && TheLife() == LifeAfterAll(life, msgs[..i], envs, hz)
      && TheMarks() == MarksAfterAll(life, |fates|, marks, msgs[..i], envs, hz)
    }

    /** The batch of messages popped from the ring, in order. */
    method HandleBatch(msgs: seq<Msg>, envs: nat -> Env)
      requires Valid() && world.gpc.GHandle? && world.gbatch == ItemsOf(msgs)
      modifies `generators, `genCycles, `cntTxPktsQfull, `cntTxPktsNombuf, `mark, `failedAllocs
      modifies scheduler`cntTimers, scheduler`pending, scheduler`owners, scheduler.owners.Keys
      modifies `world, `offered, incQueue.impl, incQueue.impl.buff, outQueue.impl, outQueue.impl.buff
      ensures Valid() && HandledSoFar(old(world), old(TheLife()), old(TheMarks()), old(offered), msgs, envs, |msgs|)
      ensures BatchEffect(old(Views(generators)), old(genCycles).Running?, msgs)
      ensures old(incQueue.Content()) <= incQueue.Content()
      ensures forall g :: 0 <= g < |generators| ==> fresh(generators[g]) || generators[g] in old(generators)
      ensures forall h :: h in scheduler.owners ==> fresh(h) || h in old(scheduler.owners)
    {
      hide Valid;
      NothingHandled(msgs, envs);
      for i := 0 to |msgs|
        invariant Valid() && HandledSoFar(old(world), old(TheLife()), old(TheMarks()), old(offered), msgs, envs, i)
        invariant BatchEffect(old(Views(generators)), old(genCycles).Running?, msgs[..i])
        invariant old(incQueue.Content()) <= incQueue.Content()
        invariant forall g :: 0 <= g < |generators| ==> fresh(generators[g]) || generators[g] in old(generators)
        invariant forall h :: h in scheduler.owners ==> fresh(h) || h in old(scheduler.owners)
      {
        HandleNext(old(world), old(TheLife()), old(TheMarks()), old(offered), old(Views(generators)),
                   old(genCycles).Running?, msgs, envs, i);
      }
      assert msgs[..|msgs|] == msgs;
    }

    lemma AllHandled(start: Protocol.State, life: Life, marks: Marks, before: seq<Res>, msgs: seq<Msg>,
                     envs: nat -> Env)
      requires HandledSoFar(start, life, marks, before, msgs, envs, |msgs|)
      ensures world.gpc.GHandle? && world.gbatch == []
      ensures Steps.Makes(start, Handlings(msgs, envs, hz), world)
      ensures before <= offered && AnswersAll(offered[|before|..], life, fates, marks, msgs, envs, hz)
      ensures TheLife() == LifeAfterAll(life, msgs, envs, hz)
      ensures TheMarks() == MarksAfterAll(life, |fates|, marks, msgs, envs, hz)
    {
      assert msgs[|msgs|..] == [] && msgs[..|msgs|] == msgs;
    }

    lemma NothingHandled(msgs: seq<Msg>, envs: nat -> Env)
      requires world.gpc.GHandle? && world.gbatch == ItemsOf(msgs)
      ensures HandledSoFar(world, TheLife(), TheMarks(), offered, msgs, envs, 0)
    {
      assert msgs[..0] == [] && msgs[0..] == msgs;
      assert offered[|offered|..] == [];
      Steps.MakesNothing(world);
    }

    method HandleNext(ghost start: Protocol.State, ghost life: Life, ghost marks: Marks, ghost before: seq<Res>,
                      ghost vs: seq<GenView>, ghost running: bool, msgs: seq<Msg>, envs: nat -> Env, i: nat)
      requires Valid() && i < |msgs| && HandledSoFar(start, life, marks, before, msgs, envs, i)
      requires BatchEffect(vs, running, msgs[..i]) && (running == life.cycles.Running?)
      modifies `generators, `genCycles, `cntTxPktsQfull, `cntTxPktsNombuf, `mark, `failedAllocs
      modifies scheduler`cntTimers, scheduler`pending, scheduler`owners, scheduler.owners.Keys
      modifies `world, `offered, incQueue.impl, incQueue.impl.buff, outQueue.impl, outQueue.impl.buff
      ensures Valid() && HandledSoFar(start, life, marks, before, msgs, envs, i + 1)
      ensures BatchEffect(vs, running, msgs[..i + 1]) && old(incQueue.Content()) <= incQueue.Content()
      ensures forall g :: 0 <= g < |generators| ==> fresh(generators[g]) || generators[g] in old(generators)
      ensures forall h :: h in scheduler.owners ==> fresh(h) || h in old(scheduler.owners)
    {
      hide Valid, LifeAfter, LifeAfterAll, MarksAfter, MarksAfterAll, LoadOk, Handling, Steps.Makes;
      hide MsgEffect, AllNew, Views, Setups, ProtocolProofs.Inv, Protocol.Step, Answers, AnswersAll, DropsOf;
      OneMoreMsg(life, |fates|, marks, msgs, envs, hz, i);
      assert msgs[i..][1..] == msgs[i + 1..];
      assert ItemsOf(msgs[i..])[0] == ItemOf(msgs[i]) && ItemsOf(msgs[i..])[1..] == ItemsOf(msgs[i + 1..]);
      if running && forall j :: 0 <= j < i ==> !msgs[j].StopMsg? {
        GoesOn(life, msgs, envs, hz, i);
      }
      ghost var here, was, answers := Views(generators), world, offered[|before|..];
      ghost var r := HandleOne(msgs[i], envs(i));
      AnswersMore(answers, r, life, fates, marks, msgs, envs, hz, i);
      assert offered[|before|..] == answers + [r];
      assert msgs[..i + 1][..i] == msgs[..i];
      Steps.MakesBoth(start, Handlings(msgs[..i], envs, hz), was, Handling(msgs[i], envs(i), hz), world);
      MsgLeaves(here, old(genCycles).Running?, msgs[i], envs(i));
    }

    lemma MsgLeaves(vs: seq<GenView>, running: bool, m: Msg, env: Env)
      requires MsgEffect(vs, running, m, env)
      ensures Views(generators) == vs || AllNew(Views(generators))
      ensures running && !m.StopMsg? ==> Views(generators) == vs
    {
      hide NewRun;
      if m.StartMsg? && !running && AllBuild(m.cfgs, env, hz) {
        NewRunIsNew(Views(generators), SetupsOf(m.cfgs, env, hz), env, hz);
      }
    }

    //// The timers that are due.

    /** What an event gives: the copied packet goes to the buffer, or a buffer is missing, and a report is put on the
        ring. */
    method Emit(c: Ctx, sent: Option<Sent>, report: Report, accept: nat)
      requires PacketsInv() && LinkInv() && world.gpc.GEvents?
      modifies `txPkts, `cntTxPktsQfull, `cntTxPktsNombuf, `fates, `passed, `failedAllocs
      modifies `world, `offered, outQueue.impl, outQueue.impl.buff
      ensures PacketsInv() && LinkInv() && world == Protocol.Step(old(world), Protocol.GenReport)
      ensures world.gpc.GEvents? && world.running == old(world).running
      ensures incQueue.Content() == old(incQueue.Content())
      ensures passed == old(passed) + PktOf(c.gen, sent) && old(fates) <= fates
      ensures failedAllocs == old(failedAllocs) + if sent.Some? then 0 else 1
      ensures offered == old(offered) + [ReportRes(c.gen, report)]
      ensures outQueue.Content() ==
              Steps.Pushed(old(outQueue.Content()), ReportRes(c.gen, report), Protocol.INC_CAPACITY)
    {
      hide PacketsInv, LinkInv, ProtocolProofs.Inv, Protocol.Step;
      match sent {
        case Some(p) => SendPkt(OutPkt(c.gen, p), accept);
        case None => CountNoBuffer();
      }
      WorldInv();
      Steps.ReportMade(world);
      Enqueue(ReportRes(c.gen, report), Protocol.Step(world, Protocol.GenReport));
    }

    /** The events of this iteration so far: what they made of the flows and of the timers. */
    ghost predicate FlowsSoFar(vs: seq<GenView>, due: map<Timer, Entry>, done: seq<Timer>, ran: seq<Ran>)
      reads `generators, generators, scheduler, scheduler.owners.Keys
    {
      && scheduler.Valid() && AllValid(generators)
      && AllArmed(scheduler.owners, scheduler.pending + scheduler.ready, Views(generators))
      && Views(generators) == AfterRuns(vs, ran) && RunSoFar(due, scheduler.ready, done, ran)
    }

    /** The packets of events are passed on in order, and the buffers that were missing are counted. */
    ghost predicate PassedOn(vs: seq<GenView>, ran: seq<Ran>, given: Given)
      reads `passed, `failedAllocs, `offered
    {
      && AllSet(vs) && passed == given.passed + PktsIn(vs, ran) && failedAllocs == given.failed + (|ran| - Copies(ran))
      && offered == given.offered + ReportsIn(vs, ran)
    }

    ghost function TheGiven(): Given
      reads `passed, `failedAllocs, `offered
    {
      Given(passed, failedAllocs, offered)
    }

    /** What they gave: packets, or buffers that were missing, and a report of each. */
    ghost predicate GivenSoFar(vs: seq<GenView>, ran: seq<Ran>, readings: nat -> Reading, start: Start)
      reads `txPkts, `cntTxPktsQfull, `cntTxPktsNombuf, `passed, `fates, `mark, `failedAllocs
      reads `world, `offered, incQueue.impl, incQueue.impl.buff, outQueue.impl, outQueue.impl.buff
    {
      && PacketsInv() && PassedOn(vs, ran, start.given)
      && LinkInv() && Steps.Makes(start.world, Reportings(|ran|, readings), world)
      && world.gpc.GEvents? && world.running == start.world.running
      && start.fates <= fates && start.requests <= incQueue.Content()
    }

    ghost function TheStart(): Start
      reads `passed, `failedAllocs, `offered, `fates, `world, incQueue.impl
    {
      Start(world, TheGiven(), fates, incQueue.Content())
    }

    method FireNext(r: Reading, ghost vs: seq<GenView>, ghost due: map<Timer, Entry>, ghost done: seq<Timer>,
                    ghost ran: seq<Ran>)
      returns (c: Ctx, sent: Option<Sent>, report: Report, ghost t: Timer, ghost x: Ran)
      requires scheduler.ready != map[] && FlowsSoFar(vs, due, done, ran) && AllSet(vs)
      modifies generators, scheduler`pending, scheduler`ready
      ensures FlowsSoFar(vs, due, done + [t], ran + [x]) && x.ctx == c && x.event == EventOf(c, r) && c.gen < |vs|
      ensures var ws := AfterRuns(vs, ran + [x]); sent == PacketOf(ws, c.gen) && report == ReportOf(ws, c.gen)
      ensures |scheduler.ready| < |old(scheduler.ready)|
    {
      hide AllValid, EventScheduler.Valid, AllArmed, RunSoFar, Views, Setup.PacketOf, Setup.ReportOf, AfterRuns;
      hide PktsIn, ReportsIn, Copies;
      ghost var ready, at := scheduler.ready, 0;
      c, sent, report, t, at := RunEarliest(generators, scheduler, r);
      x := Ran(c, at, EventOf(c, r));
      RunOneMore(due, ready, done, ran, t, x.event);
      OneMoreRan(vs, ran, x);
      assert ready.Keys == (ready - {t}).Keys + {t};
    }

    method GiveNext(c: Ctx, sent: Option<Sent>, report: Report, readings: nat -> Reading, k: nat,
                    ghost vs: seq<GenView>, ghost ran: seq<Ran>, ghost x: Ran, ghost start: Start)
      requires GivenSoFar(vs, ran, readings, start) && x.ctx == c && c.gen < |vs| && k == |ran|
      requires var ws := AfterRuns(vs, ran + [x]); sent == PacketOf(ws, c.gen) && report == ReportOf(ws, c.gen)
      modifies `txPkts, `cntTxPktsQfull, `cntTxPktsNombuf, `fates, `passed, `failedAllocs
      modifies `world, `offered, incQueue.impl, incQueue.impl.buff, outQueue.impl, outQueue.impl.buff
      ensures GivenSoFar(vs, ran + [x], readings, start)
    {
      hide PacketsInv, LinkInv, ProtocolProofs.Inv, Protocol.Step, PktsIn, Setup.PacketOf, Setup.ReportOf, AfterRuns;
      hide Copies, Steps.Makes, ReportsIn;
      OneMoreRan(vs, ran, x);
      AppendOne(start.given.passed, PktsIn(vs, ran), PktOf(c.gen, sent));
      AppendOne(start.given.offered, ReportsIn(vs, ran), [ReportRes(c.gen, report)]);
      ghost var was := world;
      Meanwhile(readings(k).meanwhile);
      Steps.MakesMore(was, StepsOf(readings(k).meanwhile), world, Protocol.GenReport, Protocol.GenReport);
      Steps.MakesBoth(start.world, Reportings(k, readings), was, Reporting(readings(k)),
                      Protocol.Step(world, Protocol.GenReport));
      Emit(c, sent, report, readings(k).accept);
    }

    /** The timers that are due are taken off, if it is time to look. */
    method LookAtTimers(now: Times) returns (ghost due: map<Timer, Entry>)
      requires TimersInv()
      modifies scheduler`prevCycles, scheduler`pending, scheduler`ready
      ensures FlowsSoFar(Views(generators), due, [], [])
      ensures DueOf(due, old(scheduler.pending), Looks(old(scheduler.prevCycles), scheduler.usecCycles, now.look),
                    now.manage)
      ensures scheduler.prevCycles ==
              if Looks(old(scheduler.prevCycles), scheduler.usecCycles, now.look) then now.look
              else old(scheduler.prevCycles)
    {
      hide AllValid, EventScheduler.Valid, AllArmed, Views, Looks, DueOf, RunSoFar;
      scheduler.TakeDue(now.look, now.manage);
      due := scheduler.ready;
      NothingRan(due);
    }

    lemma NothingGiven(readings: nat -> Reading)
      requires PacketsInv() && LinkInv() && world.gpc.GEvents? && TimersInv()
      ensures GivenSoFar(Views(generators), [], readings, TheStart()) && AllSet(Views(generators))
    {
      hide PacketsInv, LinkInv;
      assert passed + [] == passed && offered + [] == offered;
      Steps.MakesNothing(world);
    }

    lemma AllRun(vs: seq<GenView>, pending: map<Timer, Entry>, looks: bool, now: nat, due: map<Timer, Entry>,
                 done: seq<Timer>, ran: seq<Ran>)
      requires FlowsSoFar(vs, due, done, ran) && scheduler.ready == map[]
      requires AllArmed(scheduler.owners, pending, vs) && pending.Keys <= scheduler.owners.Values
      requires DueOf(due, pending, looks, now)
      ensures TimersInv() && RanAllDue(vs, looks, now, ran) && Views(generators) == AfterRuns(vs, ran)
    {
      hide AllValid, EventScheduler.Valid, AllArmed, RunSoFar, RanAllDue, DueOf;
      assert scheduler.pending + scheduler.ready == scheduler.pending;
      AllDueRan(scheduler.owners, pending, vs, looks, now, due, done, ran);
    }

    lemma OnlyOwnedPending()
      requires TimersInv()
      ensures scheduler.pending.Keys <= scheduler.owners.Values
      ensures AllArmed(scheduler.owners, scheduler.pending, Views(generators))
    {
    }

    /** The loop over the timers that were taken off. */
    method RunDue(readings: nat -> Reading, ghost vs: seq<GenView>, ghost due: map<Timer, Entry>, ghost start: Start)
      returns (ghost done: seq<Timer>, ghost ran: seq<Ran>)
      requires FlowsSoFar(vs, due, [], []) && GivenSoFar(vs, [], readings, start) && AllSet(vs)
      modifies generators, scheduler`pending, scheduler`ready
      modifies `txPkts, `cntTxPktsQfull, `cntTxPktsNombuf, `fates, `passed, `failedAllocs
      modifies `world, `offered, incQueue.impl, incQueue.impl.buff, outQueue.impl, outQueue.impl.buff
      ensures scheduler.ready == map[] && FlowsSoFar(vs, due, done, ran)
      ensures GivenSoFar(vs, ran, readings, start) && AsRead(ran, readings)
    {
      hide *;
      NothingRead(readings);
      done, ran := [], [];
      var k := 0;
      while scheduler.ready != map[]
        invariant k == |ran| && FlowsSoFar(vs, due, done, ran)
        invariant GivenSoFar(vs, ran, readings, start) && AsRead(ran, readings)
        decreases |scheduler.ready|
      {
        done, ran := RunNext(readings, k, vs, due, done, ran, start);
        k := k + 1;
      }
    }

    /** The timers that are due, if it is time to look: their flows' events run in the order of the deadlines. */
    method RunScheduler(now: Times, readings: nat -> Reading) returns (ghost ran: seq<Ran>)
      requires Valid() && world.gpc.GEvents?
      modifies generators, scheduler`prevCycles, scheduler`pending, scheduler`ready
      modifies `txPkts, `cntTxPktsQfull, `cntTxPktsNombuf, `fates, `passed, `failedAllocs
      modifies `world, `offered, incQueue.impl, incQueue.impl.buff, outQueue.impl, outQueue.impl.buff
      ensures Valid() && GivenSoFar(old(Views(generators)), ran, readings, old(TheStart()))
      ensures Views(generators) == AfterRuns(old(Views(generators)), ran) && old(fates) <= fates
      ensures old(incQueue.Content()) <= incQueue.Content()
      ensures RanAllDue(old(Views(generators)), Looks(old(scheduler.prevCycles), scheduler.usecCycles, now.look),
                        now.manage, ran)
      ensures scheduler.prevCycles ==
              if Looks(old(scheduler.prevCycles), scheduler.usecCycles, now.look) then now.look
              else old(scheduler.prevCycles)
      ensures AsRead(ran, readings)
    {
      hide PacketsInv, LinkInv, TimersInv, Views, AllArmed, AllSet, FlowsSoFar, GivenSoFar, RanAllDue, DueOf, Looks;
      hide AsRead;
      ghost var vs, pending, start := Views(generators), scheduler.pending, TheStart();
      OnlyOwnedPending();
      NothingGiven(readings);
      ghost var due := LookAtTimers(now);
      ghost var done;
      done, ran := RunDue(readings, vs, due, start);
      AllRun(vs, pending, Looks(old(scheduler.prevCycles), scheduler.usecCycles, now.look), now.manage, due, done, ran);
      AllGiven(vs, ran, readings, start);
    }

    lemma AllGiven(vs: seq<GenView>, ran: seq<Ran>, readings: nat -> Reading, start: Start)
      requires GivenSoFar(vs, ran, readings, start)
      ensures PacketsInv() && LinkInv() && world.running == start.world.running && world.gpc.GEvents?
      ensures PassedOn(vs, ran, start.given) && Steps.Makes(start.world, Reportings(|ran|, readings), world)
      ensures start.fates <= fates && start.requests <= incQueue.Content()
    {
      hide PacketsInv, LinkInv, PassedOn;
    }

    method RunNext(readings: nat -> Reading, k: nat, ghost vs: seq<GenView>, ghost due: map<Timer, Entry>,
                   ghost done: seq<Timer>, ghost ran: seq<Ran>, ghost start: Start)
      returns (ghost done': seq<Timer>, ghost ran': seq<Ran>)
      requires scheduler.ready != map[] && FlowsSoFar(vs, due, done, ran) && GivenSoFar(vs, ran, readings, start)
      requires AllSet(vs) && k == |ran| && AsRead(ran, readings)
      modifies generators, scheduler`pending, scheduler`ready
      modifies `txPkts, `cntTxPktsQfull, `cntTxPktsNombuf, `fates, `passed, `failedAllocs
      modifies `world, `offered, incQueue.impl, incQueue.impl.buff, outQueue.impl, outQueue.impl.buff
      ensures FlowsSoFar(vs, due, done', ran') && GivenSoFar(vs, ran', readings, start)
      ensures |ran'| == k + 1 && AsRead(ran', readings)
      ensures |scheduler.ready| < |old(scheduler.ready)|
    {
      hide FlowsSoFar, GivenSoFar, AllSet, Setup.PacketOf, Setup.ReportOf, AfterRuns;
      var c, sent, report;
      ghost var t, x;
      c, sent, report, t, x := FireNext(readings(k), vs, due, done, ran);
      GiveNext(c, sent, report, readings, k, vs, ran, x, start);
      done', ran' := done + [t], ran + [x];
    }

    //// One iteration.

    /** A step that leaves the rings alone. */
    method Advance(next: Protocol.State)
      requires LinkInv() && ProtocolProofs.Inv(next) && next.out == world.out && next.inc == world.inc
      modifies `world
      ensures LinkInv() && world == next
    {
      hide ProtocolProofs.Inv;
      world := next;
    }

    /** The batch that is popped from the ring of requests. */
    method PopRequests() returns (msgs: seq<Msg>)
      requires LinkInv() && world.gpc.GDequeue?
      modifies `world, incQueue.impl, incQueue.impl.buff
      ensures LinkInv() && world == Protocol.Step(old(world), Protocol.GenDequeue(|msgs|))
      ensures world.gpc.GHandle? && world.gbatch == ItemsOf(msgs) && world.running == old(world).running
      ensures msgs + incQueue.Content() == old(incQueue.Content())
      ensures |msgs| <= Protocol.MAX_BATCH && (msgs == [] <==> old(incQueue.Content()) == [])
    {
      hide ProtocolProofs.Inv, Protocol.Step;
      msgs := incQueue.Dequeue();
      ItemsSplit(msgs, incQueue.Content());
      Steps.PopRequests(world, |msgs|);
      world := Protocol.Step(world, Protocol.GenDequeue(|msgs|));
    }

    /** Without generation there is nothing to do, and nothing is left from before. */
    method Rest()
      requires Valid() && txPkts == [] && world.gpc.GCheck? && genCycles.NotStarted?
      modifies `world
      ensures Valid() && world == Protocol.Step(old(world), Protocol.GenDone) && world.gpc.GDequeue?
      ensures scheduler.owners == map[] && scheduler.pending == map[] && scheduler.cntTimers == 0
    {
      hide PacketsInv, LinkInv, TimersInv, ProtocolProofs.Inv, Protocol.Step;
      assert txPkts == [];
      NoTimers();
      var cnt := scheduler.CountEvents();
      assert cnt == 0;
      WorldInv();
      Steps.IterationEnds(world);
      Advance(Protocol.Step(world, Protocol.GenDone));
    }

    /** The time of the run is over. There is nothing left to transmit. */
    method TimeOut()
      requires Valid() && txPkts == [] && world.gpc.GCheck? && genCycles.Running?
      modifies `generators, `genCycles, scheduler`cntTimers, scheduler`pending, scheduler`owners, scheduler.owners.Keys
      modifies `world
      ensures Valid() && world == Protocol.Step(old(world), Protocol.GenTimeout) && world.gpc.GDequeue?
      ensures TheLife() == Life(NotStarted, []) && scheduler.owners == map[] && scheduler.cntTimers == 0
    {
      hide PacketsInv, LinkInv, TimersInv, ProtocolProofs.Inv, Protocol.Step;
      StopGeneration();
      NoTimers();
      assert txPkts == [];
      WorldInv();
      Steps.TimeIsOver(world);
      Advance(Protocol.Step(world, Protocol.GenTimeout));
    }

    /** The events that are due, and the transmission of what they left in the buffer. */
    method RunAndFlush(now: Times, readings: nat -> Reading, flush: nat) returns (ghost ran: seq<Ran>)
      requires Valid() && world.gpc.GEvents?
      modifies generators, scheduler`prevCycles, scheduler`pending, scheduler`ready
      modifies `txPkts, `cntTxPktsQfull, `cntTxPktsNombuf, `fates, `passed, `failedAllocs
      modifies `world, `offered, incQueue.impl, incQueue.impl.buff, outQueue.impl, outQueue.impl.buff
      ensures Valid() && Steps.Makes(old(world), Reportings(|ran|, readings), world) && world.gpc.GEvents?
      ensures txPkts == [] && old(fates) <= fates && old(incQueue.Content()) <= incQueue.Content()
      ensures PassedOn(old(Views(generators)), ran, old(TheGiven()))
      ensures Views(generators) == AfterRuns(old(Views(generators)), ran)
      ensures RanAllDue(old(Views(generators)), Looks(old(scheduler.prevCycles), scheduler.usecCycles, now.look),
                        now.manage, ran)
      ensures scheduler.prevCycles ==
              if Looks(old(scheduler.prevCycles), scheduler.usecCycles, now.look) then now.look
              else old(scheduler.prevCycles)
      ensures AsRead(ran, readings)
    {
      hide LinkInv, GensInv, PacketsInv, PassedOn, RanAllDue, AsRead, Looks, Views, AfterRuns, GivenSoFar;
      ran := RunScheduler(now, readings);
      AllGiven(old(Views(generators)), ran, readings, old(TheStart()));
      Flush(flush);
    }

    /** The generation of an iteration, as steps of the protocol. */
    method Generate(now: Times, readings: nat -> Reading, flush: nat) returns (ghost ran: seq<Ran>)
      requires Valid() && world.gpc.GCheck? && genCycles.Running?
      modifies generators, scheduler`prevCycles, scheduler`pending, scheduler`ready
      modifies `txPkts, `cntTxPktsQfull, `cntTxPktsNombuf, `fates, `passed, `failedAllocs
      modifies `world, `offered, incQueue.impl, incQueue.impl.buff, outQueue.impl, outQueue.impl.buff
      ensures Valid() && Steps.Makes(old(world), EndOf(Generated(|ran|), readings), world) && world.gpc.GDequeue?
      ensures txPkts == [] && old(fates) <= fates && old(incQueue.Content()) <= incQueue.Content()
      ensures PassedOn(old(Views(generators)), ran, old(TheGiven()))
      ensures Views(generators) == AfterRuns(old(Views(generators)), ran)
      ensures RanAllDue(old(Views(generators)), Looks(old(scheduler.prevCycles), scheduler.usecCycles, now.look),
                        now.manage, ran)
      ensures scheduler.prevCycles ==
              if Looks(old(scheduler.prevCycles), scheduler.usecCycles, now.look) then now.look
              else old(scheduler.prevCycles)
      ensures AsRead(ran, readings)
    {
      hide LinkInv, GensInv, PacketsInv, PassedOn, RanAllDue, AsRead, Looks, Views, AfterRuns;
      hide ProtocolProofs.Inv, Protocol.Step, Steps.Makes;
      ghost var start := world;
      WorldInv();
      Steps.RunBegins(world);
      Advance(Protocol.Step(world, Protocol.GenRun));
      ghost var begun := world;
      ran := RunAndFlush(now, readings, flush);
      WorldInv();
      Steps.IterationEnds(world);
      MakesGenerated(start, begun, |ran|, readings, world);
      Advance(Protocol.Step(world, Protocol.GenDone));
    }

    /** How an iteration ends for a life cycle at a time, with so many events. */
    ghost function EndingOf(c: RunCycles, now: Times, events: nat): Ending {
      if c.NotStarted? then Idle else if Expired(c, now.check) then TimedOut else Generated(events)
    }

    /** What an iteration does after its batch, which left the flows vs. */
    ghost predicate Ended(e: Ending, vs: seq<GenView>, l: Life, prevCycles: nat, now: Times, ran: seq<Ran>,
                          readings: nat -> Reading, given: Given)
      reads `generators, `genCycles, generators, `passed, `failedAllocs, `offered, scheduler
    {
      && e == EndingOf(l.cycles, now, |ran|) && TheLife() == (if e.TimedOut? then Life(NotStarted, []) else l)
      && PassedOn(vs, ran, given)
      && (!e.Generated? ==> ran == [])
      && (e.Generated? ==> RanAllDue(vs, Looks(prevCycles, scheduler.usecCycles, now.look), now.manage, ran)
                           && AsRead(ran, readings))
      && Views(generators) == (if e.TimedOut? then [] else AfterRuns(vs, ran))
      && (genCycles.NotStarted? ==> scheduler.owners == map[] && scheduler.cntTimers == 0)
      && scheduler.prevCycles == (if e.Generated? && Looks(prevCycles, scheduler.usecCycles, now.look) then now.look
                                  else prevCycles)
    }

    /** What that means: a run that the batch left going is stopped if and only if its time is over, and otherwise the
        events of exactly those flows ran that are due. */
    lemma EndedMeans(e: Ending, vs: seq<GenView>, l: Life, prevCycles: nat, now: Times, ran: seq<Ran>,
                     readings: nat -> Reading, given: Given)
      requires Ended(e, vs, l, prevCycles, now, ran, readings, given) && AllShaped(vs)
      ensures l.cycles.Running? ==> StopsInTime(l.cycles, now.check, genCycles.NotStarted?)
      ensures genCycles.Running? ==> genCycles == l.cycles && Views(generators) == AfterRuns(vs, ran)
      ensures genCycles.Running? ==> RanWhenDue(vs, prevCycles, scheduler.usecCycles, now.look, now.manage, ran)
      ensures forall k :: 0 <= k < |ran| ==>
                var r := readings(k);
                ran[k].event == Event(ran[k].ctx.flow, r.tstamp, r.copied, r.later)
      ensures genCycles.NotStarted? ==> ran == []
    {
      hide RanAllDue, RanWhenDue, Looks, PassedOn, AfterRuns, Wrap64, Setups, StopsInTime;
      if l.cycles.Running? { ByTheClock(l.cycles, now.check); }
      if e.Generated? { AllDueAreThese(vs, prevCycles, scheduler.usecCycles, now.look, now.manage, ran); }
    }

    lemma NothingPassed(vs: seq<GenView>)
      requires AllSet(vs)
      ensures PassedOn(vs, [], TheGiven()) && AfterRuns(vs, []) == vs
    {
      assert passed + [] == passed && offered + [] == offered;
    }

    /** The iteration after its batch. */
    method RunUntil(now: Times, readings: nat -> Reading, flush: nat) returns (ghost e: Ending, ghost ran: seq<Ran>)
      requires Valid() && txPkts == [] && world.gpc.GCheck?
      modifies `generators, `genCycles, generators
      modifies scheduler`prevCycles, scheduler`pending, scheduler`ready, scheduler`cntTimers, scheduler`owners
      modifies scheduler.owners.Keys
      modifies `txPkts, `cntTxPktsQfull, `cntTxPktsNombuf, `fates, `passed, `failedAllocs
      modifies `world, `offered, incQueue.impl, incQueue.impl.buff, outQueue.impl, outQueue.impl.buff
      ensures Valid() && Steps.Makes(old(world), EndOf(e, readings), world) && world.gpc.GDequeue?
      ensures txPkts == [] && old(fates) <= fates && old(incQueue.Content()) <= incQueue.Content()
      ensures Ended(e, old(Views(generators)), old(TheLife()), old(scheduler.prevCycles), now, ran, readings,
                    old(TheGiven()))
      ensures AllSet(old(Views(generators))) && AllShaped(old(Views(generators)))
    {
      hide PacketsInv, LinkInv, GensInv, RanAllDue, AsRead, Looks, AllSet, AllShaped, Steps.Makes, Protocol.Step;
      hide PassedOn, AfterRuns, Wrap64;
      ghost var vs := Views(generators);
      SetupsStay(vs, []);
      AllAreSet();
      NothingPassed(vs);
      ran := [];
      e := EndingOf(genCycles, now, 0);
      if genCycles.NotStarted? {
        MakesOne(world, Protocol.GenDone);
        Rest();
      } else if Wrap64(now.check - genCycles.begin) > genCycles.duration {
        MakesOne(world, Protocol.GenTimeout);
        TimeOut();
      } else {
        ran := Generate(now, readings, flush);
        SetupsStay(vs, ran);
        e := Generated(|ran|);
      }
    }

    /** One iteration of the generation thread: a batch of requests, and then nothing, the end of the run, or the events
        of the flows that are due. It is a run of the protocol. The transmit buffer is empty at both ends, and all that
        the code enforces holds: without generation there is nothing to transmit and there are no timers, and the flush
        that follows a timeout has nothing to send. */
    method ProcessEvents(now: Times, envs: nat -> Env, readings: nat -> Reading, flush: nat)
      returns (msgs: seq<Msg>, ghost answers: seq<Res>, ghost vs: seq<GenView>, ghost e: Ending, ghost ran: seq<Ran>)
      requires Valid() && txPkts == [] && world.gpc.GDequeue?
      modifies `generators, `genCycles, generators
      modifies scheduler`prevCycles, scheduler`pending, scheduler`ready, scheduler`cntTimers, scheduler`owners
      modifies scheduler.owners.Keys
      modifies `txPkts, `cntTxPktsQfull, `cntTxPktsNombuf, `fates, `passed, `mark, `failedAllocs
      modifies `world, `offered, incQueue.impl, incQueue.impl.buff, outQueue.impl, outQueue.impl.buff
      ensures Valid() && txPkts == [] && world.gpc.GDequeue? && old(fates) <= fates
      ensures Steps.Makes(old(world), Iteration(msgs, envs, hz, e, readings), world)
      ensures msgs <= old(incQueue.Content()) && old(incQueue.Content())[|msgs|..] <= incQueue.Content()
      ensures |msgs| <= Protocol.MAX_BATCH && (msgs == [] <==> old(incQueue.Content()) == [])
      ensures old(genCycles).Running? && (forall i :: 0 <= i < |msgs| ==> !msgs[i].StopMsg?) ==>
                vs == old(Views(generators))
      ensures vs == old(Views(generators)) || AllNew(vs)
      ensures var l := LifeAfterAll(old(TheLife()), msgs, envs, hz);
        var k := MarksAfterAll(old(TheLife()), |old(fates)|, old(TheMarks()), msgs, envs, hz);
        && Setups(vs) == l.setups && mark == k.mark
        && AnswersAll(answers, old(TheLife()), old(fates), old(TheMarks()), msgs, envs, hz)
        && Ended(e, vs, l, old(scheduler.prevCycles), now, ran, readings,
                 Given(old(passed), k.failedAllocs, old(offered) + answers))
      ensures var c := LifeAfterAll(old(TheLife()), msgs, envs, hz).cycles;
        c.Running? ==> StopsInTime(c, now.check, genCycles.NotStarted?)
      ensures old(genCycles).Running? && (forall i :: 0 <= i < |msgs| ==> !msgs[i].StopMsg?) ==>
                StopsInTime(old(genCycles), now.check, genCycles.NotStarted?)
      ensures AllSet(vs) && AllShaped(vs)
      ensures genCycles.Running? ==>
                && Views(generators) == AfterRuns(vs, ran)
                && RanWhenDue(vs, old(scheduler.prevCycles), scheduler.usecCycles, now.look, now.manage, ran)
      ensures forall k :: 0 <= k < |ran| ==>
                var r := readings(k);
                ran[k].event == Event(ran[k].ctx.flow, r.tstamp, r.copied, r.later)
      ensures genCycles.NotStarted? ==> ran == []
    {
      hide Valid, Ended, Protocol.Step, Views, LifeAfterAll, MarksAfterAll, BatchOf, EndOf, Steps.Makes, AnswersAll;
      hide StopsInTime, RanWhenDue, AllSet, AllShaped, AfterRuns;
      msgs, answers := Batch(envs);
      vs := Views(generators);
      ghost var handled := world;
      e, ran := RunUntil(now, readings, flush);
      Steps.MakesBoth(old(world), BatchOf(msgs, envs, hz), handled, EndOf(e, readings), world);
      ghost var k := MarksAfterAll(old(TheLife()), |old(fates)|, old(TheMarks()), msgs, envs, hz);
      EndedMeans(e, vs, LifeAfterAll(old(TheLife()), msgs, envs, hz), old(scheduler.prevCycles), now, ran, readings,
                 Given(old(passed), k.failedAllocs, old(offered) + answers));
      if old(genCycles).Running? && forall i :: 0 <= i < |msgs| ==> !msgs[i].StopMsg? {
        GoesOn(old(TheLife()), msgs, envs, hz, |msgs|);
        assert msgs[..|msgs|] == msgs;
      }
    }

    /** The first part of an iteration: the batch. */
    method Batch(envs: nat -> Env) returns (msgs: seq<Msg>, ghost answers: seq<Res>)
      requires Valid() && txPkts == [] && world.gpc.GDequeue?
      modifies `generators, `genCycles, `cntTxPktsQfull, `cntTxPktsNombuf, `mark, `failedAllocs
      modifies scheduler`cntTimers, scheduler`pending, scheduler`owners, scheduler.owners.Keys
      modifies `world, `offered, incQueue.impl, incQueue.impl.buff, outQueue.impl, outQueue.impl.buff
      ensures Valid() && world.gpc.GCheck?
      ensures Steps.Makes(old(world), BatchOf(msgs, envs, hz), world)
      ensures msgs <= old(incQueue.Content()) && old(incQueue.Content())[|msgs|..] <= incQueue.Content()
      ensures |msgs| <= Protocol.MAX_BATCH && (msgs == [] <==> old(incQueue.Content()) == [])
      ensures TheLife() == LifeAfterAll(old(TheLife()), msgs, envs, hz)
      ensures TheMarks() == MarksAfterAll(old(TheLife()), |fates|, old(TheMarks()), msgs, envs, hz)
      ensures BatchEffect(old(Views(generators)), old(genCycles).Running?, msgs)
      ensures offered == old(offered) + answers
      ensures AnswersAll(answers, old(TheLife()), fates, old(TheMarks()), msgs, envs, hz)
      ensures forall g :: 0 <= g < |generators| ==> fresh(generators[g]) || generators[g] in old(generators)
      ensures forall h :: h in scheduler.owners ==> fresh(h) || h in old(scheduler.owners)
    {
      hide GensInv, PacketsInv, LinkInv, ProtocolProofs.Inv, Protocol.Step, Views, LifeAfterAll, MarksAfterAll;
      hide BatchEffect;
      hide Handlings, HandledSoFar, TheLife, TheMarks, Steps.Makes, AnswersAll;
      msgs := PopRequests();
      ghost var popped := world;
      HandleBatch(msgs, envs);
      AllHandled(popped, old(TheLife()), old(TheMarks()), old(offered), msgs, envs);
      answers := offered[|old(offered)|..];
      WorldInv();
      Steps.RequestsHandled(world);
      MakesBatch(old(world), popped, msgs, envs, hz, world);
      Advance(Protocol.Step(world, Protocol.GenHandle(false)));
    }

    lemma AllAreSet()
      requires Valid()
      ensures AllSet(Views(generators)) && AllShaped(Views(generators))
    {
      hide PacketsInv, LinkInv;
    }

    /** Destruction: the generators go before the scheduler, which enforces that it got all its timers back. */
    method Destroy()
      requires Valid()
      modifies `generators, scheduler`cntTimers, scheduler`pending, scheduler`owners, scheduler.owners.Keys
      ensures scheduler.owners == map[] && scheduler.cntTimers == 0 && scheduler.pending == map[]
    {
      hide PacketsInv, LinkInv, EventScheduler.Valid, AllArmed, AllValid;
      DestroyGenerators(scheduler, generators);
      generators := [];
      var cnt := scheduler.CountEvents();
      assert cnt == 0;
    }

    /** The timer of a flow is pending exactly when the flow's last copy did not fail, and then for the time that the
        flow's history gives. */
    lemma FlowIsPendingIffCopied(g: nat, i: nat)
      requires Valid() && g < |generators| && i < generators[g].flowsPerSec
      ensures i < |generators[g].events| == |generators[g].first| && generators[g].events[i] in scheduler.owners
      ensures var gen := generators[g];
        var t := scheduler.owners[gen.events[i]];
        && (t in scheduler.pending <==> LastCopied(gen.evs, i))
        && (t in scheduler.pending ==>
              scheduler.pending[t] == Entry(gen.TheSetup().DueAt(gen.evs, i, gen.first[i]), Ctx(g, i)))
    {
      hide PacketsInv, LinkInv, EventScheduler.Valid;
      var v := Views(generators)[g];
      assert FlowArmed(scheduler.owners, scheduler.pending, v.events[i], Ctx(g, i), v.setup.DueAt(v.evs, i, v.first[i]),
                       LastCopied(v.evs, i));
    }

    /** The count that the scheduler keeps is the number of flows of all generators, up to its 32 bits, and that is how
        many handles own a timer. */
    lemma CountEventsIsFlows()
      requires Valid()
      ensures |scheduler.owners| == FlowsOf(Setups(Views(generators)))
      ensures scheduler.cntTimers == FlowsOf(Setups(Views(generators))) % U32
    {
      hide PacketsInv, LinkInv;
      var vs := Views(generators);
      TimersCounted(scheduler, Flatten(EventSeqs(vs)));
      FlowsCounted(vs);
      DistinctCount(Flatten(EventSeqs(vs)));
      assert |scheduler.owners| == |scheduler.owners.Keys|;
    }

    /** Packets since the counters were reset: taken by the device, counted as dropped, or waiting. */
    lemma PacketsBalance()
      requires Valid()
      ensures |passed| - mark == HandedCount(fates[mark..]) + FreedCount(fates[mark..]) + |txPkts|
    {
      hide GensInv, LinkInv;
      FatesCounted(fates[mark..]);
    }
  }
}
