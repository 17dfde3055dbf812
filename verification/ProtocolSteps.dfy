/** Single steps of the protocol as the two managers take them. */
module ProtocolSteps {
  import opened Protocol
  import opened ProtocolProofs
  import opened ProtocolTheorems

  lemma RunMore(s: State, acts: seq<Action>, a: Action)
    ensures Run(s, acts + [a]) == Step(Run(s, acts), a)
  {
    assert (acts + [a])[..|acts|] == acts;
  }

  /** A pop from a ring takes a number of messages that the protocol allows. */
  lemma PopIsAllowed(avail: nat, n: nat)
    requires n <= avail && n <= MAX_BATCH && (n == 0 <==> avail == 0)
    ensures Protocol.PopCount(avail, n) == n
  {
  }

  /** A ring after a push that may fail. */
  function Pushed<M>(q: seq<M>, m: M, capacity: nat): seq<M> {
    if |q| < capacity then q + [m] else q
  }

  //// The management thread.

  lemma NothingPolled(s: State)
    requires Inv(s) && s.mpc.MPoll?
    ensures Two(s, PollNothing, StoreCallback) == s.(mpc := MDequeue) && Inv(s.(mpc := MDequeue))
  {
    QuietKeepsInv(s, s.(mpc := MDequeue));
  }

  lemma Accepted(s: State, kind: Kind)
    requires Inv(s) && s.mpc.MPoll? && kind !in s.callbacks
    ensures var item := Item(kind, |s.accepted|);
      var s' := s.(out := s.out + [item], accepted := s.accepted + [item], callbacks := s.callbacks[kind := item],
                   mpc := MDequeue);
      && |s.out| < OUT_CAPACITY && Open(s, kind).Count() == 0
      && Two(s, Request(kind, true), StoreCallback) == s' && Inv(s')
  {
    hide Inv;
    AcceptedOpensOne(s, kind);
    RequestKeepsInv(s, kind, true);
    StepKeepsInv(OnRequest(s, kind, true), StoreCallback);
  }

  lemma AcceptedOpensOne(s: State, kind: Kind)
    requires Inv(s) && s.mpc.MPoll? && kind !in s.callbacks
    ensures |s.out| < OUT_CAPACITY && Open(s, kind).Count() == 0 && !s.aborted
  {
    OutIsShort(s);
    assert OneOpen(s, kind);
  }

  lemma Refused(s: State, kind: Kind, cfgOk: bool)
    requires Inv(s) && s.mpc.MPoll? && (kind in s.callbacks || (kind == Start && !cfgOk))
    ensures Two(s, Request(kind, cfgOk), StoreCallback) == s.(mpc := MDequeue) && Inv(s.(mpc := MDequeue))
    ensures kind in s.callbacks <==> Open(s, kind).Count() > 0
  {
    assert OneOpen(s, kind);
    RequestKeepsInv(s, kind, cfgOk);
  }

  lemma PopBatch(s: State, n: nat)
    requires Inv(s) && s.mpc.MDequeue? && n <= |s.inc| && n <= MAX_BATCH && (n == 0 <==> s.inc == [])
    ensures var s' := s.(batch := s.inc[..n], inc := s.inc[n..], mpc := MHandle);
      Step(s, MgrDequeue(n)) == s' && Inv(s')
  {
    PopIsAllowed(|s.inc|, n);
    MgrDequeueKeepsInv(s, n);
  }

  /** The loop over a batch ends. */
  lemma BatchDone(s: State)
    requires Inv(s) && s.mpc.MHandle? && s.batch == []
    ensures Step(s, MgrHandle) == s.(mpc := MPoll) && Inv(s.(mpc := MPoll))
  {
    QuietKeepsInv(s, s.(mpc := MPoll));
  }

  lemma Delivered(s: State)
    requires Inv(s) && s.mpc.MHandle? && s.batch != [] && s.batch[0].Response?
    ensures var m := s.batch[0];
      var s' := s.(batch := s.batch[1..], fired := s.fired + [Fire(m.item, m)],
                   callbacks := s.callbacks - {m.item.kind});
      && m.item.kind in s.callbacks && s.callbacks[m.item.kind] == m.item
      && Step(s, MgrHandle) == s' && Inv(s')
  {
    CallbackIsThere(s);
    ResponseKeepsInv(s);
  }

  lemma ReportIgnored(s: State)
    requires Inv(s) && s.mpc.MHandle? && s.batch != [] && s.batch[0].FlowReport?
    ensures Step(s, MgrHandle) == s.(batch := s.batch[1..]) && Inv(s.(batch := s.batch[1..]))
  {
    ResponseKeepsInv(s);
  }

  //// The generation thread.

  predicate OfGenerator(a: Action) {
    a.GenDequeue? || a.GenHandle? || a.GenTimeout? || a.GenRun? || a.GenReport? || a.GenDone?
  }

  lemma PopRequests(s: State, n: nat)
    requires Inv(s) && s.gpc.GDequeue? && n <= |s.out| && n <= MAX_BATCH && (n == 0 <==> s.out == [])
    ensures var s' := s.(gbatch := s.out[..n], out := s.out[n..], gpc := GHandle);
      Step(s, GenDequeue(n)) == s' && Inv(s')
  {
    PopIsAllowed(|s.out|, n);
    GenDequeueKeepsInv(s, n);
  }

  lemma HandleRequest(s: State, loadOk: bool)
    requires Inv(s) && s.gpc.GHandle? && s.gbatch != []
    ensures var s', r := Step(s, GenHandle(loadOk)), React(s.running, s.gbatch[0].kind, loadOk);
      && Inv(s') && s'.gpc.GHandle? && s'.gbatch == s.gbatch[1..] && s'.out == s.out && s'.running == r.1
      && s'.inc == Pushed(s.inc, Response(s.gbatch[0], r.0), INC_CAPACITY)
  {
    ItemKeepsInv(s, loadOk);
    ItemEffect(s, loadOk);
  }

  lemma RequestsHandled(s: State)
    requires Inv(s) && s.gpc.GHandle? && s.gbatch == []
    ensures Step(s, GenHandle(false)) == s.(gpc := GCheck) && Inv(s.(gpc := GCheck))
  {
    StepKeepsInv(s, GenHandle(false));
  }

  lemma TimeIsOver(s: State)
    requires Inv(s) && s.gpc.GCheck? && s.running
    ensures var s' := s.(running := false, history := s.history + [Timeout], gpc := GDequeue);
      Step(s, GenTimeout) == s' && Inv(s')
  {
    TimeoutKeepsInv(s);
  }

  lemma RunBegins(s: State)
    requires Inv(s) && s.gpc.GCheck? && s.running
    ensures Step(s, GenRun) == s.(gpc := GEvents) && Inv(s.(gpc := GEvents))
  {
    StepKeepsInv(s, GenRun);
  }

  lemma ReportMade(s: State)
    requires Inv(s) && s.gpc.GEvents?
    ensures var s' := s.(inc := Pushed(s.inc, FlowReport, INC_CAPACITY));
      Step(s, GenReport) == s' && Inv(s')
  {
    ReportKeepsInv(s);
  }

  lemma IterationEnds(s: State)
    requires Inv(s) && (s.gpc.GEvents? || (s.gpc.GCheck? && !s.running))
    ensures Step(s, GenDone) == s.(gpc := GDequeue) && Inv(s.(gpc := GDequeue))
  {
    StepKeepsInv(s, GenDone);
  }

  //// What one thread's steps leave to the other.

  /** The generation thread takes requests from their ring and puts messages on the other. */
  lemma GeneratorStep(s: State, g: Action)
    requires Inv(s) && OfGenerator(g)
    ensures var s' := Step(s, g);
      && Inv(s') && s'.mpc == s.mpc && s'.batch == s.batch && s'.callbacks == s.callbacks && s'.accepted == s.accepted
      && s'.fired == s.fired
      && (s'.inc == s.inc || (|s.inc| < INC_CAPACITY && s'.inc != [] && s'.inc == s.inc + [s'.inc[|s'.inc| - 1]]))
      && (!(g.GenDequeue? && s.gpc.GDequeue?) ==> s'.out == s.out)
  {
    assert !s.aborted;
    hide Inv;
    StepKeepsInv(s, g);
    if g.GenHandle? && s.gpc.GHandle? && s.gbatch != [] { ItemEffect(s, g.loadOk); }
  }

  /** The management thread takes messages from their ring and puts requests on the other. */
  lemma ManagerStep(s: State, a: Action)
    requires Inv(s) && !OfGenerator(a)
    ensures var s' := Step(s, a);
      && Inv(s') && s'.gpc == s.gpc && s'.gbatch == s.gbatch && s'.running == s.running
      && (s'.out == s.out || (a.Request? && |s.out| < OUT_CAPACITY && s'.out == s.out + [Item(a.kind, |s.accepted|)]))
      && (!(a.MgrDequeue? && s.mpc.MDequeue?) ==> s'.inc == s.inc)
  {
    assert !s.aborted;
    hide Inv, Step;
    StepKeepsInv(s, a);
    match a {
      case Request(_, _) => RequestEffect(s, a);
      case _ => OtherManagerStep(s, a);
    }
  }

  lemma RequestEffect(s: State, a: Action)
    requires !s.aborted && a.Request?
    ensures var s' := Step(s, a);
      && s'.gpc == s.gpc && s'.gbatch == s.gbatch && s'.running == s.running && s'.inc == s.inc
      && (s'.out == s.out || (|s.out| < OUT_CAPACITY && s'.out == s.out + [Item(a.kind, |s.accepted|)]))
  {
  }

  lemma OtherManagerStep(s: State, a: Action)
    requires !s.aborted && !a.Request? && !OfGenerator(a)
    ensures var s' := Step(s, a);
      && s'.gpc == s.gpc && s'.gbatch == s.gbatch && s'.running == s.running && s'.out == s.out
      && (!(a.MgrDequeue? && s.mpc.MDequeue?) ==> s'.inc == s.inc)
  {
  }

  //// Steps of the generation thread with those of the other thread between them.

  /** The same step, but for how many messages the management thread's pop took. */
  predicate AsPlanned(a: Action, b: Action) {
    a == b || (a.MgrDequeue? && b.MgrDequeue?)
  }

  predicate AllAsPlanned(plan: seq<Action>, acts: seq<Action>) {
    |plan| == |acts| && forall i :: 0 <= i < |plan| ==> AsPlanned(plan[i], acts[i])
  }

  /** A run from s to s' takes the planned steps. */
  ghost predicate Makes(s: State, plan: seq<Action>, s': State) {
    exists acts :: AllAsPlanned(plan, acts) && s' == Run(s, acts)
  }

  lemma MakesNothing(s: State)
    ensures Makes(s, [], s)
  {
    assert AllAsPlanned([], []) && Run(s, []) == s;
  }

  lemma MakesMore(s: State, plan: seq<Action>, s': State, a: Action, b: Action)
    requires Makes(s, plan, s') && AsPlanned(a, b)
    ensures Makes(s, plan + [a], Step(s', b))
  {
    var acts :| AllAsPlanned(plan, acts) && s' == Run(s, acts);
    RunMore(s, acts, b);
    assert AllAsPlanned(plan + [a], acts + [b]);
  }

  lemma MakesBoth(s: State, p: seq<Action>, s': State, q: seq<Action>, s'': State)
    requires Makes(s, p, s') && Makes(s', q, s'')
    ensures Makes(s, p + q, s'')
  {
    var a :| AllAsPlanned(p, a) && s' == Run(s, a);
    var b :| AllAsPlanned(q, b) && s'' == Run(s', b);
    RunConcat(s, a, b);
    assert AllAsPlanned(p + q, a + b);
  }

  /** Without pops of the other thread it is the run of the plan itself. */
  lemma MakesItself(s: State, plan: seq<Action>, s': State)
    requires Makes(s, plan, s') && forall i :: 0 <= i < |plan| ==> !plan[i].MgrDequeue?
    ensures s' == Run(s, plan)
  {
    var acts :| AllAsPlanned(plan, acts) && s' == Run(s, acts);
    assert acts == plan by {
      assert forall i :: 0 <= i < |plan| ==> AsPlanned(plan[i], acts[i]);
    }
  }
}
