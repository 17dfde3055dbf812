/**
 The request/response protocol between the management thread and the generation thread.
 The two rings are the bounded FIFO queues that the ring proofs justify: a push takes effect when it
 publishes and fails only on a full ring, a pop takes some of what is there and nothing only from an empty ring.
 Every action is one step of one thread, so a run is an interleaving of both.
 */
module Protocol {

  datatype Kind = Start | Stop | Stats

  /** A request, numbered by acceptance. The number is history only: the messages do not carry it. */
  datatype Item = Item(kind: Kind, id: nat)

  datatype Answer = Started | AlreadyStarted | StartFailed | Stopped | StatsReport

  datatype Msg = Response(item: Item, answer: Answer) | FlowReport

  /** What the generation thread did, in order. `loadOk` says whether all flow generators could be built. */
  datatype Event = Handled(item: Item, loadOk: bool) | Timeout

  /** A callback that was called, with the response it was called for. */
  datatype Fire = Fire(cb: Item, msg: Msg)

  datatype MgrPc = MPoll | MStore(item: Item) | MDequeue | MHandle
  datatype GenPc = GDequeue | GHandle | GCheck | GEvents

  const OUT_CAPACITY := 32
  const INC_CAPACITY := 256
  const MAX_BATCH := 8

  datatype State = State(
    out: seq<Item>, inc: seq<Msg>,
    mpc: MgrPc, batch: seq<Msg>, callbacks: map<Kind, Item>, aborted: bool,
    gpc: GenPc, gbatch: seq<Item>, running: bool,
    accepted: seq<Item>, enqueueFailed: bool, history: seq<Event>, answers: seq<Msg>,
    lost: seq<Msg>, fired: seq<Fire>)

  datatype Action =
    | Request(kind: Kind, cfgOk: bool)  // poll_one runs the handler of a request
    | PollNothing                       // poll_one runs nothing of interest
    | StoreCallback                     // the handler keeps the callback after the enqueue
    | MgrDequeue(k: nat)                // a batch of responses is popped
    | MgrHandle                         // the next response of the batch is handled
    | GenDequeue(k: nat)                // a batch of requests is popped
    | GenHandle(loadOk: bool)           // the next request of the batch is handled and answered
    | GenTimeout                        // the run's time is over
    | GenRun                            // flow events may be processed
    | GenReport                         // a flow event enqueues its report
    | GenDone

  function Init(): State {
    State([], [], MPoll, [], map[], false, GDequeue, [], false, [], false, [], [], [], [])
  }

  /** How many messages a pop of at most MAX_BATCH gives: the scheduler's choice, but none only when there are none. */
  function PopCount(avail: nat, k: nat): (n: nat)
    ensures n <= avail && n <= MAX_BATCH && (n == 0 <==> avail == 0)
  {
    var m := if k < MAX_BATCH then k else MAX_BATCH;
    if avail == 0 then 0 else if m == 0 then 1 else if m < avail then m else avail
  }

  /** Push to the ring of responses, with the failure ignored. */
  function Respond(s: State, m: Msg): State {
    if |s.inc| < INC_CAPACITY then s.(inc := s.inc + [m])
    else if m.Response? then s.(lost := s.lost + [m]) else s
  }

  function OnRequest(s: State, kind: Kind, cfgOk: bool): State {
    if kind in s.callbacks then s.(mpc := MDequeue)
    else if kind == Start && !cfgOk then s.(mpc := MDequeue)
    else
      var item := Item(kind, |s.accepted|);
      if |s.out| < OUT_CAPACITY then s.(out := s.out + [item], accepted := s.accepted + [item], mpc := MStore(item))
      else s.(enqueueFailed := true, mpc := MDequeue)
  }

  /** The handlers of responses. The one that finds no callback aborts the process. */
  function OnResponse(s: State): State
    requires s.batch != []
  {
    var m, s' := s.batch[0], s.(batch := s.batch[1..]);
    if m.FlowReport? then s'
    else if m.item.kind !in s.callbacks then s'.(aborted := true)
    else s'.(fired := s.fired + [Fire(s.callbacks[m.item.kind], m)], callbacks := s.callbacks - {m.item.kind})
  }

  /** What the handler of a request answers, and whether generation runs afterwards. */
  function React(running: bool, kind: Kind, loadOk: bool): (Answer, bool) {
    match kind
    case Start => if running then (AlreadyStarted, true) else if loadOk then (Started, true) else (StartFailed, false)
    case Stop => (Stopped, false)
    case Stats => (StatsReport, running)
  }

  /** The handlers of requests. */
  function OnItem(s: State, loadOk: bool): State
    requires s.gbatch != []
  {
    var item := s.gbatch[0];
    var (answer, running) := React(s.running, item.kind, loadOk);
    var m := Response(item, answer);
    Respond(s.(gbatch := s.gbatch[1..], running := running,
               history := s.history + [Handled(item, loadOk)], answers := s.answers + [m]), m)
  }

  /** One step of one thread; an action whose thread is elsewhere, or of an aborted process, changes nothing. */
  function Step(s: State, a: Action): State {
    if s.aborted then s else
    match a
    case Request(kind, cfgOk) => if s.mpc.MPoll? then OnRequest(s, kind, cfgOk) else s
    case PollNothing => if s.mpc.MPoll? then s.(mpc := MDequeue) else s
    case StoreCallback =>
      if s.mpc.MStore? then s.(callbacks := s.callbacks[s.mpc.item.kind := s.mpc.item], mpc := MDequeue) else s
    case MgrDequeue(k) =>
      if s.mpc.MDequeue? then
        var n := PopCount(|s.inc|, k);
        s.(batch := s.inc[..n], inc := s.inc[n..], mpc := MHandle)
      else s
    case MgrHandle =>
      if !s.mpc.MHandle? then s else if s.batch == [] then s.(mpc := MPoll) else OnResponse(s)
    case GenDequeue(k) =>
      if s.gpc.GDequeue? then
        var n := PopCount(|s.out|, k);
        s.(gbatch := s.out[..n], out := s.out[n..], gpc := GHandle)
      else s
    case GenHandle(loadOk) =>
      if !s.gpc.GHandle? then s else if s.gbatch == [] then s.(gpc := GCheck) else OnItem(s, loadOk)
    case GenTimeout =>
      if s.gpc.GCheck? && s.running then s.(running := false, history := s.history + [Timeout], gpc := GDequeue) else s
    case GenRun => if s.gpc.GCheck? && s.running then s.(gpc := GEvents) else s
    case GenReport => if s.gpc.GEvents? then Respond(s, FlowReport) else s
    case GenDone => if s.gpc.GEvents? || (s.gpc.GCheck? && !s.running) then s.(gpc := GDequeue) else s
  }

  function Run(s: State, acts: seq<Action>): State
    decreases |acts|
  {
    if acts == [] then s else Step(Run(s, acts[..|acts| - 1]), acts[|acts| - 1])
  }

  //// The reference: a two-state machine folded over what the generation thread did.

  function RunningAfter(h: seq<Event>): bool {
    if h == [] then false
    else
      var before := RunningAfter(h[..|h| - 1]);
      match h[|h| - 1]
      case Timeout => false
      case Handled(item, loadOk) =>
        match item.kind case Start => before || loadOk case Stop => false case Stats => before
  }

  /** A start succeeds exactly when it finds generation idle and the generators can be built. */
  function AnswerTo(running: bool, item: Item, loadOk: bool): Answer {
    match item.kind
    case Start => if running then AlreadyStarted else if loadOk then Started else StartFailed
    case Stop => Stopped
    case Stats => StatsReport
  }

  function AnswersTo(h: seq<Event>): seq<Msg> {
    if h == [] then []
    else
      var front, e := h[..|h| - 1], h[|h| - 1];
      AnswersTo(front) +
      if e.Timeout? then [] else [Response(e.item, AnswerTo(RunningAfter(front), e.item, e.loadOk))]
  }

  function HandledItems(h: seq<Event>): seq<Item> {
    if h == [] then []
    else
      HandledItems(h[..|h| - 1]) + if h[|h| - 1].Timeout? then [] else [h[|h| - 1].item]
  }

  function ItemsOf(ms: seq<Msg>, k: Kind): seq<Item> {
    if ms == [] then []
    else (if ms[0].Response? && ms[0].item.kind == k then [ms[0].item] else []) + ItemsOf(ms[1..], k)
  }

  function OfKind(items: seq<Item>, k: Kind): seq<Item> {
    if items == [] then [] else (if items[0].kind == k then [items[0]] else []) + OfKind(items[1..], k)
  }

  function ResponsesOf(ms: seq<Msg>, k: Kind): seq<Msg> {
    if ms == [] then []
    else (if ms[0].Response? && ms[0].item.kind == k then [ms[0]] else []) + ResponsesOf(ms[1..], k)
  }

  function Messages(fs: seq<Fire>): (ms: seq<Msg>)
    ensures |ms| == |fs| && forall i :: 0 <= i < |fs| ==> ms[i] == fs[i].msg
  {
    seq(|fs|, i requires 0 <= i < |fs| => fs[i].msg)
  }

  /** The callback that waits: in its slot, or not stored yet while its request is already visible. */
  function Waiting(s: State, k: Kind): seq<Item> {
    if k in s.callbacks then [s.callbacks[k]]
    else if s.mpc.MStore? && s.mpc.item.kind == k then [s.mpc.item]
    else []
  }
}
