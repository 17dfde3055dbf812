/** What the protocol promises to the two managers and to the clients, for every interleaving. */
module ProtocolTheorems {
  import opened Protocol
  import opened ProtocolProofs

  lemma RunInv(acts: seq<Action>)
    ensures Inv(Run(Init(), acts))
  {
    InitInv();
    RunKeepsInv(Init(), acts);
  }

  /** No enforced callback is ever missing, no request is ever refused by the ring, and that ring stays almost empty. */
  lemma ProtocolIsSafe(acts: seq<Action>)
    ensures var s := Run(Init(), acts);
      && !s.aborted && !s.enqueueFailed && |s.out| <= 3
      && (forall k :: Match(Open(s, k), Waiting(s, k)))
  {
    RunInv(acts);
    var s := Run(Init(), acts);
    OutIsShort(s);
    forall k ensures Match(Open(s, k), Waiting(s, k)) {
      assert OneOpen(s, k);
    }
  }

  /** A well-formed request is accepted exactly when no request of its kind is open anywhere. */
  lemma AcceptedIffNoneOpen(acts: seq<Action>, kind: Kind, cfgOk: bool)
    requires var s := Run(Init(), acts); s.mpc.MPoll?
    ensures var s, s' := Run(Init(), acts), Step(Run(Init(), acts), Request(kind, cfgOk));
      && (s'.accepted == s.accepted + [Item(kind, |s.accepted|)] || s'.accepted == s.accepted)
      && (s'.accepted != s.accepted <==> Open(s, kind).Count() == 0 && (kind == Start ==> cfgOk))
  {
    RunInv(acts);
    var s := Run(Init(), acts);
    OutIsShort(s);
    assert OneOpen(s, kind);
  }

  /** Requests are handled in the order of acceptance, and answered as the two-state machine answers them. */
  lemma RequestsAnsweredInOrder(acts: seq<Action>)
    ensures var s := Run(Init(), acts);
      && s.accepted == HandledItems(s.history) + s.gbatch + s.out
      && s.answers == AnswersTo(s.history)
      && |s.answers| == |HandledItems(s.history)| <= |s.accepted|
      && (forall i :: 0 <= i < |s.answers| ==> s.answers[i].Response? && s.answers[i].item == s.accepted[i])
      && s.running == RunningAfter(s.history)
  {
    RunInv(acts);
    AnswersMatchItems(Run(Init(), acts).history);
  }

  lemma {:induction false} AnswersMatchItems(h: seq<Event>)
    ensures |AnswersTo(h)| == |HandledItems(h)|
    ensures forall i :: 0 <= i < |AnswersTo(h)| ==>
              AnswersTo(h)[i].Response? && AnswersTo(h)[i].item == HandledItems(h)[i]
  {
    if h != [] {
      AnswersMatchItems(h[..|h| - 1]);
    }
  }

  /** The answer the reference machine gives at position p of a history. */
  function AnswerAt(h: seq<Event>, p: nat): Answer
    requires p < |h| && h[p].Handled?
  {
    AnswerTo(RunningAfter(h[..p]), h[p].item, h[p].loadOk)
  }

  ghost predicate Ends(e: Event) {
    e.Timeout? || e.item.kind.Stop?
  }

  /** Where in the history the answer to request number i was given. */
  function PlaceOfAnswer(h: seq<Event>, i: nat): (p: nat)
    requires i < |AnswersTo(h)|
    ensures p < |h| && h[p].Handled? && |AnswersTo(h[..p])| == i
    ensures AnswersTo(h)[i] == Response(h[p].item, AnswerAt(h, p))
  {
    var front := h[..|h| - 1];
    if i < |AnswersTo(front)| then
      var p := PlaceOfAnswer(front, i);
      assert front[..p] == h[..p];
      p
    else |h| - 1
  }

  lemma {:induction false} MoreAnswersLater(h: seq<Event>, p: nat, q: nat)
    requires p <= q <= |h|
    ensures |AnswersTo(h[..p])| <= |AnswersTo(h[..q])|
    decreases q
  {
    if p < q {
      MoreAnswersLater(h, p, q - 1);
      assert h[..q][..q - 1] == h[..q - 1];
    }
  }

  /** Between the answers to two starts that succeeded, generation was stopped or timed out. */
  lemma StartsAlternate(acts: seq<Action>, i: nat, j: nat)
    requires i < j < |Run(Init(), acts).answers|
    requires Run(Init(), acts).answers[i].Response? && Run(Init(), acts).answers[j].Response?
    requires Run(Init(), acts).answers[i].answer == Started && Run(Init(), acts).answers[j].answer == Started
    ensures var h := Run(Init(), acts).history;
      && |AnswersTo(h)| == |Run(Init(), acts).answers|
      && exists r :: PlaceOfAnswer(h, i) < r < PlaceOfAnswer(h, j) && Ends(h[r])
  {
    RunInv(acts);
    var h := Run(Init(), acts).history;
    var p, q := PlaceOfAnswer(h, i), PlaceOfAnswer(h, j);
    if q <= p { MoreAnswersLater(h, q, p); }
    StartsAlternateInHistory(h, p, q);
  }

  lemma {:induction false} StartsAlternateInHistory(h: seq<Event>, p: nat, q: nat)
    requires p < q < |h| && h[p].Handled? && h[q].Handled?
    requires AnswerAt(h, p) == Started && AnswerAt(h, q) == Started
    ensures exists r :: p < r < q && Ends(h[r])
  {
    if forall r :: p < r < q ==> !Ends(h[r]) {
      assert h[..p + 1][..p] == h[..p];
      StaysRunning(h, p + 1, q);
    }
  }

  lemma {:induction false} StaysRunning(h: seq<Event>, p: nat, q: nat)
    requires p <= q <= |h| && RunningAfter(h[..p])
    requires forall r :: p <= r < q ==> !Ends(h[r])
    ensures RunningAfter(h[..q])
    decreases q
  {
    if p < q {
      StaysRunning(h, p, q - 1);
      assert h[..q][..q - 1] == h[..q - 1];
    }
  }

  //// What an answer tells.

  /** A start at place p of a history found all its generators, and nothing ended the run since. */
  ghost predicate StartedAt(h: seq<Event>, p: nat) {
    && p < |h| && h[p].Handled? && h[p].item.kind.Start? && h[p].loadOk
    && forall r :: p < r < |h| ==> h[r].Handled? && !h[r].item.kind.Stop?
  }

  /** Generation runs exactly after such a start. */
  lemma {:induction false} RunningIff(h: seq<Event>)
    ensures RunningAfter(h) <==> exists p :: StartedAt(h, p)
  {
    if h != [] {
      var front := h[..|h| - 1];
      RunningIff(front);
      if p :| StartedAt(front, p) {
        assert StartedAt(h, p) || Ends(h[|front|]);
      }
      if p :| StartedAt(h, p) {
        assert p == |front| || StartedAt(front, p);
      }
      assert RunningAfter(h) && !RunningAfter(front) ==> StartedAt(h, |front|);
    }
  }

  lemma {:induction false} PlaceOfHandled(h: seq<Event>, q: nat)
    requires q < |h| && h[q].Handled?
    ensures |HandledItems(h[..q])| < |HandledItems(h)| && HandledItems(h)[|HandledItems(h[..q])|] == h[q].item
  {
    var front := h[..|h| - 1];
    if q < |front| {
      PlaceOfHandled(front, q);
      assert front[..q] == h[..q];
    }
  }

  /** No request is handled twice. */
  lemma HandledOnce(h: seq<Event>, p: nat, q: nat)
    requires forall i :: 0 <= i < |HandledItems(h)| ==> HandledItems(h)[i].id == i
    requires p < q < |h| && h[p].Handled? && h[q].Handled?
    ensures h[p].item != h[q].item
  {
    PlaceOfHandled(h, p);
    PlaceOfHandled(h, q);
    PlaceOfHandled(h[..q], p);
    assert h[..q][..p] == h[..p];
  }

  /** Request `item` was handled at place q, with this answer: a start succeeds exactly when it finds all generators and
      generation idle. */
  ghost predicate AnsweredAt(h: seq<Event>, q: nat, item: Item, answer: Answer) {
    && q < |h| && h[q].Handled? && h[q].item == item
    && (item.kind.Stop? ==> answer == Stopped) && (item.kind.Stats? ==> answer == StatsReport)
    && (item.kind.Start? ==>
          (answer == Started <==> h[q].loadOk && !exists p :: StartedAt(h[..q], p))
          && (answer == AlreadyStarted <==> exists p :: StartedAt(h[..q], p))
          && (answer == StartFailed <==> !h[q].loadOk && !exists p :: StartedAt(h[..q], p)))
  }

  /** A response that was given is that to its own request, at the only place where that was handled. */
  lemma ResponseTells(s: State, m: Msg) returns (q: nat)
    requires Inv(s) && m.Response? && m in s.answers
    ensures AnsweredAt(s.history, q, m.item, m.answer)
    ensures forall p :: 0 <= p < |s.history| && s.history[p].Handled? && s.history[p].item == m.item ==> p == q
  {
    var h := s.history;
    var i :| 0 <= i < |s.answers| && s.answers[i] == m;
    q := PlaceOfAnswer(h, i);
    RunningIff(h[..q]);
    forall p | 0 <= p < |h| && h[p].Handled? && h[p].item == m.item ensures p == q {
      assert forall j :: 0 <= j < |HandledItems(h)| ==> s.accepted[j] == HandledItems(h)[j];
      if p < q { HandledOnce(h, p, q); } else if q < p { HandledOnce(h, q, p); }
    }
  }

  //// Delivery.

  function Items(ms: seq<Msg>): seq<Item>
    requires forall i :: 0 <= i < |ms| ==> ms[i].Response?
  {
    seq(|ms|, i requires 0 <= i < |ms| => ms[i].item)
  }

  lemma ItemsAreThoseOfResponses(ms: seq<Msg>, k: Kind)
    ensures forall i :: 0 <= i < |ResponsesOf(ms, k)| ==> ResponsesOf(ms, k)[i].Response?
    ensures Items(ResponsesOf(ms, k)) == ItemsOf(ms, k)
  {
    NoItemsNoResponses(ms, k);
  }

  lemma {:induction false} AnsweredItemsOfKind(h: seq<Event>, k: Kind)
    ensures ItemsOf(AnswersTo(h), k) == OfKind(HandledItems(h), k)
  {
    if h != [] {
      var front, e := h[..|h| - 1], h[|h| - 1];
      AnsweredItemsOfKind(front, k);
      if e.Handled? {
        LastResponse(AnswersTo(front), e.item, AnswerTo(RunningAfter(front), e.item, e.loadOk), k);
        OfKindConcat(HandledItems(front), [e.item], k);
      } else {
        assert AnswersTo(h) == AnswersTo(front) && HandledItems(h) == HandledItems(front);
      }
    }
  }

  /** Conservation, in order, for each kind: an accepted request was answered at its callback, or its answer was lost,
      or it is in exactly one of the batches and rings. The numbers show that no two accepted requests are the same. */
  lemma AcceptedRequestsConserved(acts: seq<Action>, k: Kind)
    ensures var s := Run(Init(), acts);
      && OfKind(s.accepted, k) == ItemsOf(Messages(s.fired), k) + ItemsOf(s.lost, k) + ItemsOf(s.batch, k)
                                  + ItemsOf(s.inc, k) + OfKind(s.gbatch, k) + OfKind(s.out, k)
      && (forall i, j :: 0 <= i < j < |s.accepted| ==> s.accepted[i] != s.accepted[j])
  {
    RunInv(acts);
    var s := Run(Init(), acts);
    assert AnswersKept(s, k);
    AnsweredItemsOfKind(s.history, k);
    OfKindConcat(HandledItems(s.history) + s.gbatch, s.out, k);
    OfKindConcat(HandledItems(s.history), s.gbatch, k);
    ItemsAreThoseOfResponses(s.answers, k);
    ItemsAreThoseOfResponses(Messages(s.fired), k);
    ItemsAreThoseOfResponses(s.lost, k);
    ItemsAreThoseOfResponses(s.batch, k);
    ItemsAreThoseOfResponses(s.inc, k);
    ItemsOfSplit(ResponsesOf(Messages(s.fired), k), ResponsesOf(s.lost, k), ResponsesOf(s.batch, k),
                 ResponsesOf(s.inc, k));
  }

  lemma ItemsOfSplit(f: seq<Msg>, l: seq<Msg>, b: seq<Msg>, i: seq<Msg>)
    requires forall m :: m in f || m in l || m in b || m in i ==> m.Response?
    ensures forall j :: 0 <= j < |f + (l + (b + i))| ==> (f + (l + (b + i)))[j].Response?
    ensures Items(f + (l + (b + i))) == Items(f) + Items(l) + Items(b) + Items(i)
  {
  }

  lemma {:induction false} DistinctOfKind(items: seq<Item>, k: Kind)
    requires forall i, j :: 0 <= i < j < |items| ==> items[i] != items[j]
    ensures forall x :: x in OfKind(items, k) ==> x in items
    ensures forall i, j :: 0 <= i < j < |OfKind(items, k)| ==> OfKind(items, k)[i] != OfKind(items, k)[j]
  {
    if items != [] {
      var rest := items[1..];
      DistinctOfKind(rest, k);
      forall x | x in OfKind(rest, k) ensures x != items[0] {
        var j :| 0 <= j < |rest| && rest[j] == x;
        assert items[j + 1] == x;
      }
      var o, all := OfKind(rest, k), OfKind(items, k);
      if items[0].kind == k {
        assert all == [items[0]] + o;
        forall i, j | 0 <= i < j < |all| ensures all[i] != all[j] {
          assert all[j] == o[j - 1] && o[j - 1] in o && (i > 0 ==> all[i] == o[i - 1]);
        }
      } else {
        assert all == o;
      }
    }
  }

  /** A callback is called with the answer to its own request, and no callback is called twice. */
  lemma CallbacksFireOnce(acts: seq<Action>, i: nat, j: nat)
    requires i < j < |Run(Init(), acts).fired|
    ensures var f := Run(Init(), acts).fired;
      && f[i].msg.Response? && f[i].cb == f[i].msg.item && f[i].msg in Run(Init(), acts).answers
      && f[i].cb != f[j].cb
  {
    RunInv(acts);
    var s := Run(Init(), acts);
    var k := s.fired[i].cb.kind;
    AcceptedRequestsConserved(acts, k);
    DistinctOfKind(s.accepted, k);
    ItemsAreThoseOfResponses(Messages(s.fired), k);
    assert AnswersKept(s, k);
    InResponses(Messages(s.fired), i);
    assert ResponsesOf(Messages(s.fired), k) <= ResponsesOf(s.answers, k);
    ResponsesComeFrom(s.answers, k, s.fired[i].msg);
    if s.fired[j].cb.kind == k {
      var x, y := TwoPlaces(Messages(s.fired), k, i, j);
      assert OfKind(s.accepted, k)[x] == s.fired[i].cb && OfKind(s.accepted, k)[y] == s.fired[j].cb;
    }
  }

  lemma {:induction false} InResponses(ms: seq<Msg>, i: nat)
    requires i < |ms| && ms[i].Response?
    ensures ms[i] in ResponsesOf(ms, ms[i].item.kind)
  {
    if i > 0 {
      InResponses(ms[1..], i - 1);
    }
  }

  lemma {:induction false} ResponsesComeFrom(ms: seq<Msg>, k: Kind, m: Msg)
    requires m in ResponsesOf(ms, k)
    ensures m in ms
  {
    if m != ms[0] {
      ResponsesComeFrom(ms[1..], k, m);
    }
  }

  /** Two messages of one kind keep their order among the messages of that kind. */
  lemma {:induction false} TwoPlaces(ms: seq<Msg>, k: Kind, i: nat, j: nat) returns (x: nat, y: nat)
    requires i < j < |ms| && ms[i].Response? && ms[j].Response? && ms[i].item.kind == k && ms[j].item.kind == k
    ensures x < y < |ItemsOf(ms, k)| && ItemsOf(ms, k)[x] == ms[i].item && ItemsOf(ms, k)[y] == ms[j].item
  {
    if i > 0 {
      x, y := TwoPlaces(ms[1..], k, i - 1, j - 1);
      if ms[0].Response? && ms[0].item.kind == k { x, y := x + 1, y + 1; }
    } else {
      x := 0;
      y := OnePlace(ms[1..], k, j - 1);
      y := y + 1;
    }
  }

  lemma {:induction false} OnePlace(ms: seq<Msg>, k: Kind, j: nat) returns (y: nat)
    requires j < |ms| && ms[j].Response? && ms[j].item.kind == k
    ensures y < |ItemsOf(ms, k)| && ItemsOf(ms, k)[y] == ms[j].item
  {
    if j > 0 {
      y := OnePlace(ms[1..], k, j - 1);
      if ms[0].Response? && ms[0].item.kind == k { y := y + 1; }
    } else {
      y := 0;
    }
  }

  /** A request of kind k is handled while the ring of responses is full. */
  ghost predicate HandledWhileFull(s: State, a: Action, k: Kind) {
    a.GenHandle? && s.gpc.GHandle? && s.gbatch != [] && s.gbatch[0].kind == k && |s.inc| == INC_CAPACITY
  }

  /** That happens at action p of a run. */
  ghost predicate FindsRingFull(acts: seq<Action>, k: Kind, p: nat) {
    p < |acts| && HandledWhileFull(Run(Init(), acts[..p]), acts[p], k)
  }

  lemma FoundEarlier(acts: seq<Action>, k: Kind, p: nat)
    requires p + 1 < |acts|
    ensures FindsRingFull(acts, k, p) <==> FindsRingFull(acts[..|acts| - 1], k, p)
  {
    assert acts[..|acts| - 1][..p] == acts[..p];
  }

  /** An answer is lost exactly when its request is handled while the ring of responses is full. */
  lemma {:induction false} LostIffRingFull(acts: seq<Action>, k: Kind)
    ensures ItemsOf(Run(Init(), acts).lost, k) != [] <==> exists p :: FindsRingFull(acts, k, p)
  {
    if acts != [] {
      var front, a := acts[..|acts| - 1], acts[|acts| - 1];
      LostIffRingFull(front, k);
      LostSoFar(acts, k);
      if p: nat :| FindsRingFull(front, k, p) {
        FoundEarlier(acts, k, p);
      }
      if p: nat :| FindsRingFull(acts, k, p) && p != |front| {
        FoundEarlier(acts, k, p);
      }
    }
  }

  lemma LostSoFar(acts: seq<Action>, k: Kind)
    requires acts != []
    ensures ItemsOf(Run(Init(), acts).lost, k) != [] <==>
            ItemsOf(Run(Init(), acts[..|acts| - 1]).lost, k) != [] || FindsRingFull(acts, k, |acts| - 1)
  {
    RunInv(acts[..|acts| - 1]);
    LossOfStep(Run(Init(), acts[..|acts| - 1]), acts[|acts| - 1], k);
  }

  /** What one step adds to the lost answers of a kind. */
  lemma LossOfStep(s: State, a: Action, k: Kind)
    requires Inv(s)
    ensures ItemsOf(Step(s, a).lost, k) ==
            ItemsOf(s.lost, k) + if HandledWhileFull(s, a, k) then [s.gbatch[0]] else []
  {
    if a.GenHandle? && s.gpc.GHandle? && s.gbatch != [] {
      ItemEffect(s, a.loadOk);
      LastResponse(s.lost, s.gbatch[0], React(s.running, s.gbatch[0].kind, a.loadOk).0, k);
    } else {
      StepLosesNothing(s, a);
    }
  }

  lemma StepLosesNothing(s: State, a: Action)
    requires Inv(s) && (a.GenHandle? ==> !s.gpc.GHandle? || s.gbatch == [])
    ensures Step(s, a).lost == s.lost
  {
    if !a.Request? { OtherStep(s, a); }
  }

  /** Once nothing is in flight: every accepted request of a kind was answered at its callback, in order, if and only if
      none was handled while the ring of responses was full; if one was, it is the only one without an answer. */
  lemma EveryAnswerDeliveredIffNeverFull(acts: seq<Action>, k: Kind)
    requires var s := Run(Init(), acts); s.batch == [] && s.inc == [] && s.gbatch == [] && s.out == []
    ensures var s := Run(Init(), acts);
      && (OfKind(s.accepted, k) == ItemsOf(Messages(s.fired), k) <==> !exists p :: FindsRingFull(acts, k, p))
      && OfKind(s.accepted, k) == ItemsOf(Messages(s.fired), k) + ItemsOf(s.lost, k)
      && |ItemsOf(s.lost, k)| <= 1
  {
    AcceptedRequestsConserved(acts, k);
    ProtocolIsSafe(acts);
    LostIffRingFull(acts, k);
    var s := Run(Init(), acts);
    assert Match(Open(s, k), Waiting(s, k));
    assert ItemsOf(Messages(s.fired), k) + [] == ItemsOf(Messages(s.fired), k);
  }

  function CountReports(ms: seq<Msg>): nat {
    if ms == [] then 0 else (if ms[0].FlowReport? then 1 else 0) + CountReports(ms[1..])
  }

  lemma {:induction false} ReportsAndResponses(ms: seq<Msg>)
    ensures |ms| == CountReports(ms) + |ItemsOf(ms, Start)| + |ItemsOf(ms, Stop)| + |ItemsOf(ms, Stats)|
  {
    if ms != [] {
      ReportsAndResponses(ms[1..]);
    }
  }

  /** No answer is lost while fewer than 254 reports wait in the ring of responses. */
  lemma FewReportsNoLoss(acts: seq<Action>, a: Action)
    requires CountReports(Run(Init(), acts).inc) < 254
    ensures Run(Init(), acts + [a]).lost == Run(Init(), acts).lost
  {
    RunInv(acts);
    var s := Run(Init(), acts);
    assert (acts + [a])[..|acts|] == acts;
    if a.GenHandle? && s.gpc.GHandle? && s.gbatch != [] {
      ReportsAndResponses(s.inc);
      FewResponses(s, Start);
      FewResponses(s, Stop);
      FewResponses(s, Stats);
      ItemEffect(s, a.loadOk);
    } else {
      StepLosesNothing(s, a);
    }
  }

  /** The ring holds one response of a kind at most, and none of the kind of the request that is handled. */
  lemma FewResponses(s: State, k: Kind)
    requires Inv(s) && s.gbatch != []
    ensures |ItemsOf(s.inc, k)| <= if s.gbatch[0].kind == k then 0 else 1
  {
    assert OneOpen(s, k);
    if s.gbatch[0].kind == k {
      assert OfKind(s.gbatch, k) == [s.gbatch[0]] + OfKind(s.gbatch[1..], k);
    }
  }

  //// A lost answer.

  /** After the answer to a request of some kind is lost, no request of that kind is ever accepted or answered again. */
  lemma {:induction false} LostAnswerBlocksItsKind(acts: seq<Action>, more: seq<Action>, k: Kind)
    requires ItemsOf(Run(Init(), acts).lost, k) != []
    ensures var s, s' := Run(Init(), acts), Run(Run(Init(), acts), more);
      && OfKind(s'.accepted, k) == OfKind(s.accepted, k) && ItemsOf(s'.lost, k) == ItemsOf(s.lost, k)
      && Waiting(s', k) == ItemsOf(s.lost, k)
    decreases |more|
  {
    RunInv(acts);
    var s := Run(Init(), acts);
    if more == [] {
      assert OneOpen(s, k);
      SingleLost(s, k);
    } else {
      var front, a := more[..|more| - 1], more[|more| - 1];
      LostAnswerBlocksItsKind(acts, front, k);
      RunKeepsInv(s, front);
      BlockedStep(Run(s, front), a, k);
    }
  }

  lemma SingleLost(s: State, k: Kind)
    requires OneOpen(s, k) && ItemsOf(s.lost, k) != []
    ensures Waiting(s, k) == ItemsOf(s.lost, k)
    ensures ItemsOf(s.batch, k) == ItemsOf(s.inc, k) == OfKind(s.gbatch, k) == OfKind(s.out, k) == []
  {
    assert ItemsOf(s.lost, k)[0] in Open(s, k).lost;
  }

  lemma BlockedStep(s: State, a: Action, k: Kind)
    requires Inv(s) && ItemsOf(s.lost, k) != []
    ensures var s' := Step(s, a);
      && OfKind(s'.accepted, k) == OfKind(s.accepted, k) && ItemsOf(s'.lost, k) == ItemsOf(s.lost, k)
      && Waiting(s', k) == ItemsOf(s'.lost, k)
  {
    assert OneOpen(s, k);
    SingleLost(s, k);
    if a.Request? {
      BlockedRequest(s, a.kind, a.cfgOk, k);
    } else if a.GenHandle? && s.gpc.GHandle? && s.gbatch != [] {
      BlockedHandle(s, a.loadOk, k);
    } else {
      OtherStep(s, a);
    }
    StepKeepsInv(s, a);
    var s' := Step(s, a);
    assert OneOpen(s', k);
    SingleLost(s', k);
  }

  lemma OtherStep(s: State, a: Action)
    requires Inv(s) && !a.Request? && (a.GenHandle? ==> !s.gpc.GHandle? || s.gbatch == [])
    ensures Step(s, a).accepted == s.accepted && Step(s, a).lost == s.lost
  {
  }

  lemma BlockedRequest(s: State, kind: Kind, cfgOk: bool, k: Kind)
    requires Waiting(s, k) != []
    ensures OfKind(Step(s, Request(kind, cfgOk)).accepted, k) == OfKind(s.accepted, k)
    ensures Step(s, Request(kind, cfgOk)).lost == s.lost
  {
    var item := Item(kind, |s.accepted|);
    OfKindConcat(s.accepted, [item], k);
    assert OfKind([item], k) == if kind == k then [item] else [];
    hide OfKind;
    assert kind == k && s.mpc.MPoll? ==> kind in s.callbacks;
  }

  lemma BlockedHandle(s: State, loadOk: bool, k: Kind)
    requires s.gbatch != [] && OfKind(s.gbatch, k) == []
    ensures OnItem(s, loadOk).accepted == s.accepted && ItemsOf(OnItem(s, loadOk).lost, k) == ItemsOf(s.lost, k)
  {
    ItemEffect(s, loadOk);
    LastResponse(s.lost, s.gbatch[0], React(s.running, s.gbatch[0].kind, loadOk).0, k);
  }

  function Reports(n: nat): seq<Action> {
    if n == 0 then [] else Reports(n - 1) + [GenReport]
  }

  lemma {:induction false} RunConcat(s: State, a: seq<Action>, b: seq<Action>)
    ensures Run(s, a + b) == Run(Run(s, a), b)
    decreases |b|
  {
    if b == [] {
      assert a + b == a;
    } else {
      assert (a + b)[..|a + b| - 1] == a + b[..|b| - 1];
      RunConcat(s, a, b[..|b| - 1]);
    }
  }

  lemma {:induction false} ManyReports(m: nat, n: nat)
    requires m + n <= 254
    ensures Run(Flooded(m), Reports(n)) == Flooded(m + n)
    decreases n
  {
    if n > 0 {
      ManyReports(m, n - 1);
      assert Reports(n)[..|Reports(n)| - 1] == Reports(n - 1);
      assert Flooded(m + n - 1).inc + [FlowReport] == Flooded(m + n).inc;
    } else {
      assert Reports(0) == [];
    }
  }

  /** One step from a known state. */
  function Two(s: State, a: Action, b: Action): State {
    Step(Step(s, a), b)
  }

  lemma RunTwo(s: State, a: Action, b: Action)
    ensures Run(s, [a, b]) == Two(s, a, b)
  {
    assert [a, b][..1] == [a] && [a][..0] == [];
    assert Run(s, [a]) == Step(s, a);
  }

  /** Generation runs, a start and a request for statistics were answered to a manager that does not look,
      and n reports followed. */
  function Flooded(n: nat): State {
    var a, b := Item(Start, 0), Item(Stats, 1);
    State([], [Response(a, Started), Response(b, StatsReport)] + seq(n, _ => FlowReport), MPoll, [],
          map[Start := a, Stats := b], false, GEvents, [], true, [a, b], false, [Handled(a, true), Handled(b, true)],
          [Response(a, Started), Response(b, StatsReport)], [], [])
  }

  /** Both requests were accepted and their callbacks stored. */
  function Asked(): State {
    var a, b := Item(Start, 0), Item(Stats, 1);
    Init().(out := [a, b], callbacks := map[Start := a, Stats := b], accepted := [a, b])
  }

  lemma Ask() returns (acts: seq<Action>)
    ensures Run(Init(), acts) == Asked()
  {
    var s, a := Init(), Item(Start, 0);
    acts, s := Then([], s, Request(Start, true), StoreCallback);
    acts, s := Then(acts, s, MgrDequeue(8), MgrHandle);
    assert s == Init().(out := [a], callbacks := map[Start := a], accepted := [a]);
    acts, s := Then(acts, s, Request(Stats, true), StoreCallback);
    assert s == Asked().(mpc := MDequeue);
    acts, s := Then(acts, s, MgrDequeue(8), MgrHandle);
  }

  /** After the generator popped both requests and handled the first. */
  function OneAnswered(): State {
    var a, b := Item(Start, 0), Item(Stats, 1);
    Asked().(out := [], gbatch := [b], gpc := GHandle, running := true, history := [Handled(a, true)],
             answers := [Response(a, Started)], inc := [Response(a, Started)])
  }

  lemma Answered()
    ensures Two(Asked(), GenDequeue(8), GenHandle(true)) == OneAnswered()
    ensures Two(OneAnswered(), GenHandle(true), GenHandle(true)) == Flooded(0).(gpc := GCheck)
  {
    var a, b := Item(Start, 0), Item(Stats, 1);
    assert Step(Asked(), GenDequeue(8)) == Asked().(out := [], gbatch := [a, b], gpc := GHandle);
    var s := Step(OneAnswered(), GenHandle(true));
    assert s.inc == Flooded(0).inc && s.gbatch == [] && s.history == Flooded(0).history;
  }

  lemma Flood() returns (acts: seq<Action>)
    ensures Run(Init(), acts) == Flooded(254)
  {
    acts := Ask();
    var s := Asked();
    Answered();
    acts, s := Then(acts, s, GenDequeue(8), GenHandle(true));
    acts, s := Then(acts, s, GenHandle(true), GenHandle(true));
    acts := StartRun(acts, s);
    ManyReports(0, 254);
    RunConcat(Init(), acts, Reports(254));
    acts := acts + Reports(254);
  }

  lemma StartRun(acts: seq<Action>, s: State) returns (more: seq<Action>)
    requires s == Run(Init(), acts) && s == Flooded(0).(gpc := GCheck)
    ensures Run(Init(), more) == Flooded(0)
  {
    var s';
    more, s' := Then(acts, s, GenRun, StoreCallback);
  }

  lemma {:induction false} CountOnlyReports(n: nat)
    ensures CountReports(seq(n, _ => FlowReport)) == n
  {
    if n > 0 {
      CountOnlyReports(n - 1);
      assert seq(n, _ => FlowReport)[1..] == seq(n - 1, _ => FlowReport);
    }
  }

  lemma CountFlooded(n: nat)
    ensures CountReports(Flooded(n).inc) == n
  {
    CountOnlyReports(n);
    var ms := Flooded(n).inc;
    assert ms[1..] == [Response(Item(Stats, 1), StatsReport)] + seq(n, _ => FlowReport);
    assert ms[1..][1..] == seq(n, _ => FlowReport);
  }

  /** Loss is possible, and 254 reports are enough for it: while the manager does not look, the answers to a start and
      to a request for statistics and the reports of the running generation fill the ring, and the answer to a stop
      finds no room. */
  lemma AnAnswerCanBeLost() returns (acts: seq<Action>, a: Action)
    ensures CountReports(Run(Init(), acts).inc) == 254 && Run(Init(), acts).lost == []
    ensures Run(Init(), acts + [a]).lost == [Response(Item(Stop, 2), Stopped)]
  {
    hide Step, Flooded, CountReports, Two;
    acts := Flood();
    CountFlooded(254);
    var s := Flooded(254);
    FloodedStands(254);
    StopIsPopped(s);
    acts, s := Then(acts, s, Request(Stop, true), StoreCallback);
    acts, s := Then(acts, s, GenDone, GenDequeue(8));
    a := GenHandle(true);
    LoseOne(s, Item(Stop, 2));
    assert (acts + [a])[..|acts|] == acts;
  }

  lemma FloodedStands(n: nat)
    ensures var s := Flooded(n);
      && s.mpc.MPoll? && s.gpc.GEvents? && Stop !in s.callbacks && s.out == [] && !s.aborted && s.lost == []
      && |s.accepted| == 2 && |s.inc| == n + 2
  {
  }

  lemma StopIsPopped(s: State)
    requires s.mpc.MPoll? && s.gpc.GEvents? && Stop !in s.callbacks && s.out == [] && !s.aborted
    ensures var item := Item(Stop, |s.accepted|);
      Two(Two(s, Request(Stop, true), StoreCallback), GenDone, GenDequeue(8)) ==
      s.(gbatch := [item], accepted := s.accepted + [item], callbacks := s.callbacks[Stop := item],
         mpc := MDequeue, gpc := GHandle)
  {
    var item := Item(Stop, |s.accepted|);
    assert Two(s, Request(Stop, true), StoreCallback) ==
           s.(out := [item], accepted := s.accepted + [item], callbacks := s.callbacks[Stop := item], mpc := MDequeue);
  }

  lemma LoseOne(s: State, item: Item)
    requires s.gbatch == [item] && item.kind.Stop? && s.gpc.GHandle? && !s.aborted
    requires |s.inc| == INC_CAPACITY && s.lost == []
    ensures Step(s, GenHandle(true)).lost == [Response(item, Stopped)]
  {
  }

  lemma Then(acts: seq<Action>, s: State, a: Action, b: Action) returns (acts': seq<Action>, s': State)
    requires s == Run(Init(), acts)
    ensures acts' == acts + [a, b] && s' == Two(s, a, b) && s' == Run(Init(), acts')
  {
    acts', s' := acts + [a, b], Two(s, a, b);
    RunConcat(Init(), acts, [a, b]);
    RunTwo(s, a, b);
  }
}
