/** The management manager: its callback slots and its rings. Every method is proved to be the protocol's steps. */
module MgmtManager {
  import opened Wrappers
  import opened Messages
  import opened Protocol
  import opened ProtocolProofs
  import opened ProtocolTheorems
  import opened ProtocolSteps

  datatype Status = Ok | PreconditionFailed | BadRequest | InternalServerError

  /** A request of a client: its callback, and whether its body is a valid generation configuration. */
  datatype HttpRequest = HttpRequest(cb: Item, cfgOk: bool)

  function Lookup<K, V>(m: map<K, V>, k: K): Option<V> {
    if k in m then Some(m[k]) else None
  }

  /** Messages are told apart by their type only: the kind of request that such a response answers. */
  function AnsweredKind(a: Answer): Kind {
    match a
    case Started => Start case AlreadyStarted => Start case StartFailed => Start
    case Stopped => Stop
    case StatsReport => Stats
  }

  /** A callback that is called, and the status that its client gets. */
  datatype Call = Call(cb: Item, status: Status)

  /** It is called for that response. */
  predicate CalledFor(c: Call, f: Fire) {
    && c.cb == f.cb && f.msg.Response? && (c.status == Ok || c.status == PreconditionFailed)
    && (c.status == Ok <==> f.msg.answer == Started || f.msg.answer == Stopped || f.msg.answer == StatsReport)
  }

  /** The callbacks that were called since there were `fired`, for their responses and in order. */
  ghost predicate CallsSince(fired: seq<Fire>, calls: seq<Call>, now: seq<Fire>) {
    && |now| == |fired| + |calls| && fired <= now
    && forall i :: 0 <= i < |calls| ==> CalledFor(calls[i], now[|fired| + i])
  }

  lemma OneCall(fired: seq<Fire>, m: Msg, c: Call)
    requires m.Response? && c.cb == m.item
    requires c.status == if m.answer == AlreadyStarted || m.answer == StartFailed then PreconditionFailed else Ok
    ensures CallsSince(fired, [c], fired + [Fire(m.item, m)])
  {
  }

  lemma MoreCalls(fired: seq<Fire>, calls: seq<Call>, before: seq<Fire>, c: Call, now: seq<Fire>)
    requires CallsSince(fired, calls, before) && CallsSince(before, [c], now)
    ensures CallsSince(fired, calls + [c], now)
  {
    hide CalledFor;
    assert CalledFor([c][0], now[|before| + 0]);
  }

  /** What the status tells: all is well with every request but a start that finds generation running, or finds that its
      generators cannot be built, when the generation thread handles it. */
  ghost predicate Truthful(c: Call, h: seq<Event>) {
    && (exists q :: 0 <= q < |h| && h[q].Handled? && h[q].item == c.cb)
    && (forall q :: 0 <= q < |h| && h[q].Handled? && h[q].item == c.cb ==>
          c.status == if c.cb.kind.Start? && (!h[q].loadOk || exists p :: StartedAt(h[..q], p))
                      then PreconditionFailed else Ok)
  }

  lemma CallsAreTruthful(s: State, fired: seq<Fire>, calls: seq<Call>, i: nat)
    requires Inv(s) && CallsSince(fired, calls, s.fired) && i < |calls|
    ensures Truthful(calls[i], s.history)
  {
    var f := s.fired[|fired| + i];
    assert CalledFor(calls[i], f);
    var k := f.msg.item.kind;
    assert AnswersKept(s, k);
    InResponses(Protocol.Messages(s.fired), |fired| + i);
    assert ResponsesOf(Protocol.Messages(s.fired), k) <= ResponsesOf(s.answers, k);
    ResponsesComeFrom(s.answers, k, f.msg);
    var q := ResponseTells(s, f.msg);
  }

  /** One iteration, with what the generation thread does between the poll and the pop. */
  function Iteration(req: Option<HttpRequest>, meanwhile: seq<Action>, n: nat): seq<Action> {
    Polled(req) + meanwhile + [MgrDequeue(n)] + Handles(n + 1)
  }

  function Polled(req: Option<HttpRequest>): seq<Action> {
    [PolledStep(req), StoreCallback]
  }

  /** The requests that responses answer, in order. */
  function Callees(ms: seq<Msg>): seq<Item> {
    if ms == [] then []
    else Callees(ms[..|ms| - 1]) + if ms[|ms| - 1].Response? then [ms[|ms| - 1].item] else []
  }

  function Cbs(calls: seq<Call>): (cbs: seq<Item>)
    ensures |cbs| == |calls|
  {
    seq(|calls|, i requires 0 <= i < |calls| => calls[i].cb)
  }

  lemma MoreCallees(ms: seq<Msg>, i: nat)
    requires i < |ms|
    ensures Callees(ms[..i + 1]) == Callees(ms[..i]) + if ms[i].Response? then [ms[i].item] else []
  {
    assert ms[..i + 1][..i] == ms[..i];
  }

  function PolledStep(req: Option<HttpRequest>): Action {
    if req.None? then PollNothing else Request(req.value.cb.kind, req.value.cfgOk)
  }

  function Handles(n: nat): seq<Action> {
    seq(n, _ => MgrHandle)
  }

  lemma MoreHandles(s: State, n: nat)
    ensures Run(s, Handles(n + 1)) == Step(Run(s, Handles(n)), MgrHandle)
  {
    RunMore(s, Handles(n), MgrHandle);
    assert Handles(n) + [MgrHandle] == Handles(n + 1);
  }

  //// The manager's steps as the protocol sees them.

  lemma {:induction false} AnswersFitTheirRequests(h: seq<Event>, m: Msg)
    requires m in AnswersTo(h)
    ensures m.Response? && AnsweredKind(m.answer) == m.item.kind
  {
    var front := h[..|h| - 1];
    if m in AnswersTo(front) {
      AnswersFitTheirRequests(front, m);
    }
  }

  /** The type of a response that arrives leads to the slot of the request that it answers. */
  lemma TypeIsKind(s: State)
    requires Inv(s) && s.batch != [] && s.batch[0].Response?
    ensures AnsweredKind(s.batch[0].answer) == s.batch[0].item.kind
  {
    var m := s.batch[0];
    var k := m.item.kind;
    assert AnswersKept(s, k);
    InResponses(s.batch, 0);
    assert m in ResponsesOf(s.answers, k);
    ResponsesComeFrom(s.answers, k, m);
    AnswersFitTheirRequests(s.history, m);
  }

  /** The manager's part of the state that the generation thread has nothing to do with. */
  datatype Part = Part(batch: seq<Msg>, callbacks: map<Kind, Item>, fired: seq<Fire>, mpc: MgrPc)

  function PartOf(s: State): Part {
    Part(s.batch, s.callbacks, s.fired, s.mpc)
  }

  function With(s: State, p: Part): State {
    s.(batch := p.batch, callbacks := p.callbacks, fired := p.fired, mpc := p.mpc)
  }

  /** A step neither looks at that part nor changes it. */
  predicate Ignores(s: State, g: Action, p: Part) {
    Step(With(s, p), g) == With(Step(s, g), p) && PartOf(Step(s, g)) == PartOf(s) && !Step(s, g).aborted
  }

  lemma GeneratorIgnores(s: State, g: Action, p: Part)
    requires !s.aborted && OfGenerator(g)
    ensures Ignores(s, g, p)
  {
    hide Ignores;
    match g
    case GenDequeue(k) => DequeueIgnores(s, k, p);
    case GenHandle(loadOk) => HandleIgnores(s, loadOk, p);
    case GenReport => ReportIgnores(s, p);
    case _ => LocalIgnores(s, g, p);
  }

  lemma DequeueIgnores(s: State, k: nat, p: Part)
    requires !s.aborted
    ensures Ignores(s, GenDequeue(k), p)
  {
    hide PopCount;
  }

  lemma HandleIgnores(s: State, loadOk: bool, p: Part)
    requires !s.aborted
    ensures Ignores(s, GenHandle(loadOk), p)
  {
    hide OnItem;
    if s.gbatch != [] {
      ItemEffect(s, loadOk);
      ItemEffect(With(s, p), loadOk);
    }
  }

  lemma ReportIgnores(s: State, p: Part)
    requires !s.aborted
    ensures Ignores(s, GenReport, p)
  {
  }

  lemma LocalIgnores(s: State, g: Action, p: Part)
    requires !s.aborted && (g.GenTimeout? || g.GenRun? || g.GenDone?)
    ensures Ignores(s, g, p)
  {
  }

  /** What the local steps make of the manager's part: storing a callback, and handling a response whose callback is
      there. */
  function Stored(p: Part): Part {
    if p.mpc.MStore? then p.(callbacks := p.callbacks[p.mpc.item.kind := p.mpc.item], mpc := MDequeue) else p
  }

  function Handled(p: Part): Part
    requires p.mpc.MHandle? && p.batch != [] && p.batch[0].Response? ==> p.batch[0].item.kind in p.callbacks
  {
    if !p.mpc.MHandle? then p
    else if p.batch == [] then p.(mpc := MPoll)
    else
      var m, rest := p.batch[0], p.batch[1..];
      if m.FlowReport? then p.(batch := rest)
      else p.(batch := rest, fired := p.fired + [Fire(p.callbacks[m.item.kind], m)],
              callbacks := p.callbacks - {m.item.kind})
  }

  lemma StoreIsLocal(s: State)
    requires !s.aborted
    ensures Step(s, StoreCallback) == With(s, Stored(PartOf(s)))
  {
  }

  lemma HandleIsLocal(s: State)
    requires !s.aborted
    requires s.mpc.MHandle? && s.batch != [] && s.batch[0].Response? ==> s.batch[0].item.kind in s.callbacks
    ensures Step(s, MgrHandle) == With(s, Handled(PartOf(s)))
  {
  }

  lemma StoreCommutes(s: State, g: Action)
    requires Inv(s) && OfGenerator(g)
    ensures Step(Step(s, StoreCallback), g) == Step(Step(s, g), StoreCallback)
  {
    assert !s.aborted;
    hide Inv, Step, Stored;
    GeneratorIgnores(s, g, Stored(PartOf(s)));
    StoreIsLocal(s);
    StoreIsLocal(Step(s, g));
  }

  lemma HandleCommutes(s: State, g: Action)
    requires Inv(s) && OfGenerator(g)
    ensures Step(Step(s, MgrHandle), g) == Step(Step(s, g), MgrHandle)
  {
    if s.mpc.MHandle? && s.batch != [] && s.batch[0].Response? { Delivered(s); }
    assert !s.aborted;
    hide Inv, Step, Handled;
    GeneratorIgnores(s, g, Handled(PartOf(s)));
    HandleIsLocal(s);
    HandleIsLocal(Step(s, g));
  }

  /** Storing a callback after the enqueue, and handling a popped response, are as good as done before anything else:
      whatever the generation thread does in between, the outcome is the same. */
  lemma {:induction false} LocalStepsAreAtomic(s: State, local: Action, gs: seq<Action>)
    requires Inv(s) && (local.StoreCallback? || local.MgrHandle?) && (forall i :: 0 <= i < |gs| ==> OfGenerator(gs[i]))
    ensures Step(Run(s, gs), local) == Run(Step(s, local), gs)
    decreases |gs|
  {
    if gs != [] {
      var front, g := gs[..|gs| - 1], gs[|gs| - 1];
      LocalStepsAreAtomic(s, local, front);
      RunKeepsInv(s, front);
      if local.StoreCallback? { StoreCommutes(Run(s, front), g); } else { HandleCommutes(Run(s, front), g); }
    }
  }

  class ManagerImpl {
    const incQueue: MessagesQueue<Msg>
    const outQueue: MessagesQueue<Item>
    var startCb: Option<Item>
    var stopCb: Option<Item>
    var statsCb: Option<Item>
    /** The state of both threads. The fields above and the rings show this manager's part of it. */
    ghost var world: State

    ghost predicate Valid()
      reads this, incQueue.impl, incQueue.impl.buff, outQueue.impl, outQueue.impl.buff
    {
      && Queues()
      && incQueue.Content() == world.inc && outQueue.Content() == world.out
      && Slots() && Inv(world)
    }

    ghost predicate Queues()
      reads incQueue.impl, incQueue.impl.buff, outQueue.impl, outQueue.impl.buff
    {
      && incQueue.impl as object != outQueue.impl && incQueue.impl.buff as object != outQueue.impl.buff
      && incQueue.Valid() && outQueue.Valid()
      && incQueue.impl.size == INC_CAPACITY && outQueue.impl.size == OUT_CAPACITY
    }

    /** Callbacks are named by the number of requests accepted before. Only a start request has a body to check. */
    ghost predicate FitRequest(req: HttpRequest)
      reads this
    {
      req.cb.id == |world.accepted| && (req.cb.kind.Start? || req.cfgOk)
    }

    ghost predicate Slots()
      reads this
    {
      && startCb == Lookup(world.callbacks, Start)
      && stopCb == Lookup(world.callbacks, Stop)
      && statsCb == Lookup(world.callbacks, Stats)
    }

    constructor (inc: MessagesQueue<Msg>, out: MessagesQueue<Item>)
      requires inc.impl as object != out.impl && inc.impl.buff as object != out.impl.buff
      requires inc.Valid() && out.Valid() && inc.Content() == [] && out.Content() == []
      requires inc.impl.size == INC_CAPACITY && out.impl.size == OUT_CAPACITY
      ensures Valid() && world == Init() && incQueue == inc && outQueue == out
    {
      incQueue, outQueue := inc, out;
      startCb, stopCb, statsCb := None, None, None;
      world := Init();
      InitInv();
    }

    method OnReqStartGen(cfgOk: bool, cb: Item) returns (reply: Option<Status>)
      requires Valid() && world.mpc.MPoll? && cb == Item(Start, |world.accepted|)
      modifies this, outQueue.impl, outQueue.impl.buff
      ensures Valid() && world == Two(old(world), Request(Start, cfgOk), StoreCallback)
      ensures world.mpc.MDequeue? && world.inc == old(world).inc && world.fired == old(world).fired
      ensures reply == if Open(old(world), Start).Count() > 0 then Some(PreconditionFailed)
                       else if !cfgOk then Some(BadRequest) else None
      ensures reply.None? <==> world.accepted == old(world).accepted + [cb]
    {
      if startCb.Some? {
        Refused(world, Start, cfgOk);
        world := world.(mpc := MDequeue);
        return Some(PreconditionFailed);
      }
      if !cfgOk {
        Refused(world, Start, cfgOk);
        world := world.(mpc := MDequeue);
        return Some(BadRequest);
      }
      Accepted(world, Start);
      var ok := outQueue.Enqueue(cb);
      if ok {
        startCb := Some(cb);
        world := Two(world, Request(Start, true), StoreCallback);
        return None;
      } else {
        assert false;
        return Some(InternalServerError);
      }
    }

    method OnReqStopGen(cb: Item) returns (reply: Option<Status>)
      requires Valid() && world.mpc.MPoll? && cb == Item(Stop, |world.accepted|)
      modifies this, outQueue.impl, outQueue.impl.buff
      ensures Valid() && world == Two(old(world), Request(Stop, true), StoreCallback)
      ensures world.mpc.MDequeue? && world.inc == old(world).inc && world.fired == old(world).fired
      ensures reply == if Open(old(world), Stop).Count() > 0 then Some(PreconditionFailed)
                       else None
      ensures reply.None? <==> world.accepted == old(world).accepted + [cb]
    {
      if stopCb.Some? {
        Refused(world, Stop, true);
        world := world.(mpc := MDequeue);
        return Some(PreconditionFailed);
      }
      Accepted(world, Stop);
      var ok := outQueue.Enqueue(cb);
      if ok {
        stopCb := Some(cb);
        world := Two(world, Request(Stop, true), StoreCallback);
        return None;
      } else {
        assert false;
        return Some(InternalServerError);
      }
    }

    method OnReqGetStats(cb: Item) returns (reply: Option<Status>)
      requires Valid() && world.mpc.MPoll? && cb == Item(Stats, |world.accepted|)
      modifies this, outQueue.impl, outQueue.impl.buff
      ensures Valid() && world == Two(old(world), Request(Stats, true), StoreCallback)
      ensures world.mpc.MDequeue? && world.inc == old(world).inc && world.fired == old(world).fired
      ensures reply == if Open(old(world), Stats).Count() > 0 then Some(PreconditionFailed)
                       else None
      ensures reply.None? <==> world.accepted == old(world).accepted + [cb]
    {
      if statsCb.Some? {
        Refused(world, Stats, true);
        world := world.(mpc := MDequeue);
        return Some(PreconditionFailed);
      }
      Accepted(world, Stats);
      var ok := outQueue.Enqueue(cb);
      if ok {
        statsCb := Some(cb);
        world := Two(world, Request(Stats, true), StoreCallback);
        return None;
      } else {
        assert false;
        return Some(InternalServerError);
      }
    }

    /** The next popped response. The callback that its type asks for is set, and is the one of its request. */
    method OnIncMsg(m: Msg) returns (call: Option<Call>)
      requires Valid() && world.mpc.MHandle? && world.batch != [] && m == world.batch[0]
      modifies this
      ensures Valid() && world == Step(old(world), MgrHandle)
      ensures world.batch == old(world).batch[1..] && world.inc == old(world).inc && world.mpc == MHandle
      ensures m.FlowReport? ==> call == None && world.fired == old(world).fired
      ensures m.Response? ==> call.Some? && call.value.cb == m.item
      ensures m.Response? ==> CallsSince(old(world).fired, [call.value], world.fired)
    {
      hide Inv, Step, CallsSince, Queues;
      call := None;
      ghost var next := Step(world, MgrHandle);
      if m.FlowReport? {
        ReportIgnored(world);
        world := next;
        return;
      }
      TypeIsKind(world);
      Delivered(world);
      match m.answer {
        case Stopped =>
          assert stopCb.Some?;
          call, stopCb := Some(Call(stopCb.value, Ok)), None;
          OneCall(world.fired, m, call.value);
        case StatsReport =>
          assert statsCb.Some?;
          call, statsCb := Some(Call(statsCb.value, Ok)), None;
          OneCall(world.fired, m, call.value);
        case _ =>
          assert startCb.Some?;
          call := Some(Call(startCb.value, if m.answer.Started? then Ok else PreconditionFailed));
          startCb := None;
          OneCall(world.fired, m, call.value);
      }
      world := next;
    }

    method Poll(req: Option<HttpRequest>) returns (reply: Option<Status>)
      requires Valid() && world.mpc.MPoll? && (req.Some? ==> FitRequest(req.value))
      modifies this, outQueue.impl, outQueue.impl.buff
      ensures Valid() && world == Two(old(world), PolledStep(req), StoreCallback) && world.mpc.MDequeue?
      ensures world.inc == old(world).inc && world.fired == old(world).fired
      ensures reply == if req.None? then None
                       else if Open(old(world), req.value.cb.kind).Count() > 0 then Some(PreconditionFailed)
                       else if req.value.cb.kind.Start? && !req.value.cfgOk then Some(BadRequest)
                       else None
    {
      match req
      case None =>
        NothingPolled(world);
        world := world.(mpc := MDequeue);
        reply := None;
      case Some(HttpRequest(Item(Start, _), cfgOk)) => reply := OnReqStartGen(cfgOk, req.value.cb);
      case Some(HttpRequest(Item(Stop, _), _)) => reply := OnReqStopGen(req.value.cb);
      case Some(HttpRequest(Item(Stats, _), _)) => reply := OnReqGetStats(req.value.cb);
    }

    /** The first i of the popped responses are handled. */
    ghost predicate HandledSoFar(start: State, msgs: seq<Msg>, i: nat, calls: seq<Call>)
      requires i <= |msgs|
      reads this
    {
      && world.mpc.MHandle? && world.batch == msgs[i..] && world.inc == start.inc
      && Cbs(calls) == Callees(msgs[..i]) && CallsSince(start.fired, calls, world.fired)
      && world == Run(start, Handles(i))
    }

    method HandleNext(ghost start: State, msgs: seq<Msg>, i: nat, calls: seq<Call>) returns (more: seq<Call>)
      requires Valid() && i < |msgs| && HandledSoFar(start, msgs, i, calls)
      modifies this
      ensures Valid() && HandledSoFar(start, msgs, i + 1, more)
    {
      hide Valid, Step, Callees, Handles, CallsSince;
      MoreHandles(start, i);
      MoreCallees(msgs, i);
      var call := OnIncMsg(msgs[i]);
      more := if call.Some? then calls + [call.value] else calls;
      if call.Some? { MoreCalls(start.fired, calls, old(world).fired, call.value, world.fired); }
    }

    /** The popped responses, in order. */
    method HandleAll(msgs: seq<Msg>) returns (calls: seq<Call>)
      requires Valid() && world.mpc.MHandle? && world.batch == msgs
      modifies this
      ensures Valid() && world.mpc.MPoll? && world == Run(old(world), Handles(|msgs| + 1))
      ensures world.inc == old(world).inc && Cbs(calls) == Callees(msgs)
      ensures CallsSince(old(world).fired, calls, world.fired)
    {
      calls := [];
      assert msgs[..0] == [] && Handles(0) == [];
      for i := 0 to |msgs|
        invariant Valid() && HandledSoFar(old(world), msgs, i, calls)
      {
        calls := HandleNext(old(world), msgs, i, calls);
      }
      MoreHandles(old(world), |msgs|);
      assert msgs[..|msgs|] == msgs;
      BatchDone(world);
      world := world.(mpc := MPoll);
    }

    /** What the generation thread does meanwhile, one step of it. `w` is the state. */
    method PeerStep(w: State, g: Action) returns (did: Action)
      requires Valid() && w == world && OfGenerator(g)
      modifies this`world, incQueue.impl, incQueue.impl.buff, outQueue.impl, outQueue.impl.buff
      ensures Valid() && world == Step(old(world), did) && (did == g || (g.GenDequeue? && did.GenDequeue?))
      ensures world.mpc == old(world).mpc && world.accepted == old(world).accepted && world.fired == old(world).fired
    {
      hide Inv, Step;
      GeneratorStep(w, g);
      did := g;
      var next := Step(w, g);
      if g.GenDequeue? && w.gpc.GDequeue? {
        var ms := outQueue.Dequeue();
        did := GenDequeue(|ms|);
        PopRequests(w, |ms|);
      } else if next.inc != w.inc {
        var _ := incQueue.Enqueue(next.inc[|next.inc| - 1]);
      }
      world := Step(w, did);
    }

    /** Any number of steps of the generation thread. */
    method PeerRun(w: State, gs: seq<Action>) returns (did: seq<Action>)
      requires Valid() && w == world && forall i :: 0 <= i < |gs| ==> OfGenerator(gs[i])
      modifies this`world, incQueue.impl, incQueue.impl.buff, outQueue.impl, outQueue.impl.buff
      ensures Valid() && world == Run(old(world), did) && SameSteps(gs, did)
      ensures world.mpc == old(world).mpc && world.accepted == old(world).accepted && world.fired == old(world).fired
    {
      hide Valid, Step, OfGenerator;
      did := [];
      var now := w;
      for i := 0 to |gs|
        invariant Valid() && now == world == Run(old(world), did) && SameSteps(gs[..i], did)
        invariant world.mpc == old(world).mpc && world.accepted == old(world).accepted
        invariant world.fired == old(world).fired
      {
        RunMoreThan(old(world), did);
        var g := PeerStep(now, gs[i]);
        now := Step(now, g);
        did := did + [g];
      }
      assert gs[..|gs|] == gs;
    }

    /** A batch of responses is popped and handled. */
    method HandleResponses() returns (calls: seq<Call>, ghost n: nat)
      requires Valid() && world.mpc.MDequeue?
      modifies this, incQueue.impl, incQueue.impl.buff
      ensures Valid() && world.mpc.MPoll? && world == Run(Step(old(world), MgrDequeue(n)), Handles(n + 1))
      ensures n <= |old(world).inc| && (n == 0 <==> old(world).inc == []) && world.inc == old(world).inc[n..]
      ensures Cbs(calls) == Callees(old(world).inc[..n]) && CallsSince(old(world).fired, calls, world.fired)
    {
      hide Inv, Step;
      ghost var was := world;
      var msgs := incQueue.Dequeue();
      n := |msgs|;
      PopBatch(was, n);
      world := was.(batch := was.inc[..n], inc := was.inc[n..], mpc := MHandle);
      calls := HandleAll(msgs);
    }

    lemma AllTruthful(fired: seq<Fire>, calls: seq<Call>)
      requires Valid() && CallsSince(fired, calls, world.fired)
      ensures forall i :: 0 <= i < |calls| ==> Truthful(calls[i], world.history)
    {
      hide CallsSince, Truthful;
      forall i | 0 <= i < |calls| ensures Truthful(calls[i], world.history) {
        CallsAreTruthful(world, fired, calls, i);
      }
    }

    /** One iteration of the management thread, with the request that the poll ran, if any, while the generation thread
        makes the steps gs after the poll and before the pop. By LocalStepsAreAtomic this is as good as any place for
        the steps that it makes during the iteration. */
    method ProcessEvents(w: State, req: Option<HttpRequest>, gs: seq<Action>)
      returns (reply: Option<Status>, calls: seq<Call>, did: seq<Action>, ghost n: nat)
      requires Valid() && w == world && world.mpc.MPoll? && (req.Some? ==> FitRequest(req.value))
      requires forall i :: 0 <= i < |gs| ==> OfGenerator(gs[i])
      modifies this, incQueue.impl, incQueue.impl.buff, outQueue.impl, outQueue.impl.buff
      ensures Valid() && world.mpc.MPoll? && SameSteps(gs, did)
      ensures world == Run(old(world), Iteration(req, did, n))
      ensures reply == if req.None? then None
                       else if Open(old(world), req.value.cb.kind).Count() > 0 then Some(PreconditionFailed)
                       else if req.value.cb.kind.Start? && !req.value.cfgOk then Some(BadRequest)
                       else None
      ensures var s := Run(old(world), Polled(req) + did);
        n <= |s.inc| && (n == 0 <==> s.inc == []) && world.inc == s.inc[n..] && Cbs(calls) == Callees(s.inc[..n])
      ensures CallsSince(old(world).fired, calls, world.fired)
      ensures forall i :: 0 <= i < |calls| ==> Truthful(calls[i], world.history)
    {
      hide Valid, Step, Callees, OfGenerator, Handles;
      reply := Poll(req);
      did := PeerRun(Two(w, PolledStep(req), StoreCallback), gs);
      ghost var s := world;
      calls, n := HandleResponses();
      RunMeanwhile(old(world), req, did, n);
      AllTruthful(old(world).fired, calls);
    }
  }

  /** The same steps, but for how many messages a pop took. */
  predicate SameSteps(gs: seq<Action>, did: seq<Action>) {
    |gs| == |did| && forall i :: 0 <= i < |gs| ==> did[i] == gs[i] || (gs[i].GenDequeue? && did[i].GenDequeue?)
  }

  lemma RunMoreThan(s: State, acts: seq<Action>)
    ensures forall a :: Run(s, acts + [a]) == Step(Run(s, acts), a)
  {
    forall a ensures Run(s, acts + [a]) == Step(Run(s, acts), a) {
      RunMore(s, acts, a);
    }
  }

  lemma RunMeanwhile(s: State, req: Option<HttpRequest>, did: seq<Action>, n: nat)
    ensures var s' := Run(Two(s, PolledStep(req), StoreCallback), did);
      && Run(s, Polled(req) + did) == s'
      && Run(s, Polled(req) + did + [MgrDequeue(n)] + Handles(n + 1)) == Run(Step(s', MgrDequeue(n)), Handles(n + 1))
  {
    hide Step;
    RunTwo(s, PolledStep(req), StoreCallback);
    RunConcat(s, Polled(req), did);
    RunMore(s, Polled(req) + did, MgrDequeue(n));
    RunConcat(s, Polled(req) + did + [MgrDequeue(n)], Handles(n + 1));
  }
}
