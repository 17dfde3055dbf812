/** What every interleaving of the two threads keeps, and what follows for requests and callbacks. */
module ProtocolProofs {
  import opened Protocol

  //// Facts about the filters.

  lemma {:induction false} ItemsOfConcat(a: seq<Msg>, b: seq<Msg>, k: Kind)
    ensures ItemsOf(a + b, k) == ItemsOf(a, k) + ItemsOf(b, k)
  {
    if a == [] {
      assert a + b == b;
    } else {
      assert (a + b)[1..] == a[1..] + b;
      ItemsOfConcat(a[1..], b, k);
      var first := if a[0].Response? && a[0].item.kind == k then [a[0].item] else [];
      assert ItemsOf(a + b, k) == first + (ItemsOf(a[1..], k) + ItemsOf(b, k));
    }
  }

  lemma {:induction false} OfKindConcat(a: seq<Item>, b: seq<Item>, k: Kind)
    ensures OfKind(a + b, k) == OfKind(a, k) + OfKind(b, k)
  {
    if a == [] {
      assert a + b == b;
    } else {
      assert (a + b)[1..] == a[1..] + b;
      OfKindConcat(a[1..], b, k);
      var first := if a[0].kind == k then [a[0]] else [];
      assert OfKind(a + b, k) == first + (OfKind(a[1..], k) + OfKind(b, k));
    }
  }

  lemma {:induction false} ResponsesOfConcat(a: seq<Msg>, b: seq<Msg>, k: Kind)
    ensures ResponsesOf(a + b, k) == ResponsesOf(a, k) + ResponsesOf(b, k)
  {
    if a == [] {
      assert a + b == b;
    } else {
      assert (a + b)[1..] == a[1..] + b;
      ResponsesOfConcat(a[1..], b, k);
      var first := if a[0].Response? && a[0].item.kind == k then [a[0]] else [];
      assert ResponsesOf(a + b, k) == first + (ResponsesOf(a[1..], k) + ResponsesOf(b, k));
    }
  }

  lemma {:induction false} NoItemsNoResponses(ms: seq<Msg>, k: Kind)
    ensures |ItemsOf(ms, k)| == |ResponsesOf(ms, k)|
    ensures forall i :: 0 <= i < |ItemsOf(ms, k)| ==>
              ResponsesOf(ms, k)[i].Response? && ResponsesOf(ms, k)[i].item == ItemsOf(ms, k)[i]
  {
    if ms != [] {
      NoItemsNoResponses(ms[1..], k);
    }
  }

  lemma {:induction false} KindsCount(items: seq<Item>)
    ensures |items| == |OfKind(items, Start)| + |OfKind(items, Stop)| + |OfKind(items, Stats)|
  {
    if items != [] {
      KindsCount(items[1..]);
    }
  }

  //// The invariant.

  ghost predicate SlotsInv(s: State) {
    && (forall k :: k in s.callbacks ==> s.callbacks[k].kind == k)
    && (s.mpc.MStore? ==> s.mpc.item.kind !in s.callbacks)
    && (!s.mpc.MHandle? ==> s.batch == []) && (!s.gpc.GHandle? ==> s.gbatch == [])
    && (s.gpc.GEvents? ==> s.running)
    && |s.batch| <= MAX_BATCH && |s.gbatch| <= MAX_BATCH && |s.inc| <= INC_CAPACITY
  }

  /** The requests of one kind that are not answered at their callback, by place: answers lost to a full ring,
      in the manager's batch and in the ring of responses, requests in the generator's batch and in the ring of
      requests. */
  datatype Places = Places(lost: seq<Item>, batch: seq<Item>, inc: seq<Item>, gbatch: seq<Item>, out: seq<Item>) {
    function Count(): nat {
      |lost| + |batch| + |inc| + |gbatch| + |out|
    }
  }

  function Open(s: State, k: Kind): Places {
    Places(ItemsOf(s.lost, k), ItemsOf(s.batch, k), ItemsOf(s.inc, k), OfKind(s.gbatch, k), OfKind(s.out, k))
  }

  /** As many requests are open as callbacks wait, and the open one is the one waited for. */
  ghost predicate Match(p: Places, waiting: seq<Item>) {
    && p.Count() == |waiting|
    && forall x :: x in p.lost || x in p.batch || x in p.inc || x in p.gbatch || x in p.out ==> x in waiting
  }

  /** For each kind: at most one request is open, and exactly when a callback waits for it. */
  ghost predicate OneOpen(s: State, k: Kind) {
    Match(Open(s, k), Waiting(s, k))
  }

  /** For each kind: every answer given was delivered, lost, or is on its way, in this order. */
  ghost predicate AnswersKept(s: State, k: Kind) {
    Split(ResponsesOf(s.answers, k), ResponsesOf(Messages(s.fired), k),
          ResponsesOf(s.lost, k), ResponsesOf(s.batch, k), ResponsesOf(s.inc, k))
  }

  ghost predicate Split<T>(all: seq<T>, fired: seq<T>, lost: seq<T>, batch: seq<T>, inc: seq<T>) {
    all == fired + (lost + (batch + inc))
  }

  ghost predicate HistoryInv(s: State) {
    && s.running == RunningAfter(s.history)
    && s.answers == AnswersTo(s.history)
    && s.accepted == HandledItems(s.history) + s.gbatch + s.out
    && (forall i :: 0 <= i < |s.accepted| ==> s.accepted[i].id == i)
    && (forall i :: 0 <= i < |s.fired| ==> s.fired[i].msg.Response? && s.fired[i].cb == s.fired[i].msg.item)
  }

  ghost predicate Inv(s: State) {
    && !s.aborted && !s.enqueueFailed
    && SlotsInv(s) && HistoryInv(s)
    && (forall k :: OneOpen(s, k)) && (forall k :: AnswersKept(s, k))
  }

  lemma OutIsShort(s: State)
    requires Inv(s)
    ensures |s.out| <= 3
  {
    KindsCount(s.out);
    forall k ensures |OfKind(s.out, k)| <= 1 {
      assert OneOpen(s, k);
    }
  }

  lemma AcceptKeepsKind(s: State, s': State, item: Item, k: Kind)
    requires OneOpen(s, k) && AnswersKept(s, k) && s.mpc.MPoll? && item.kind !in s.callbacks
    requires s' == s.(out := s.out + [item], accepted := s.accepted + [item], mpc := MStore(item))
    ensures OneOpen(s', k) && AnswersKept(s', k)
  {
    OfKindConcat(s.out, [item], k);
    assert OfKind([item], k) == if item.kind == k then [item] else [];
  }

  lemma RequestKeepsInv(s: State, kind: Kind, cfgOk: bool)
    requires Inv(s) && s.mpc.MPoll?
    ensures Inv(OnRequest(s, kind, cfgOk))
  {
    OutIsShort(s);
    var s' := OnRequest(s, kind, cfgOk);
    if s'.mpc.MStore? {
      forall k ensures OneOpen(s', k) && AnswersKept(s', k) {
        assert OneOpen(s, k) && AnswersKept(s, k);
        AcceptKeepsKind(s, s', Item(kind, |s.accepted|), k);
      }
      assert s'.accepted == HandledItems(s.history) + s.gbatch + s'.out;
    } else {
      QuietKeepsInv(s, s');
    }
  }

  lemma StoreKeepsKind(s: State, s': State, k: Kind)
    requires OneOpen(s, k) && AnswersKept(s, k) && s.mpc.MStore? && s.mpc.item.kind !in s.callbacks
    requires s' == s.(callbacks := s.callbacks[s.mpc.item.kind := s.mpc.item], mpc := MDequeue)
    ensures OneOpen(s', k) && AnswersKept(s', k)
  {
    hide Match, Split;
    assert Waiting(s', k) == Waiting(s, k);
  }

  lemma StoreKeepsInv(s: State)
    requires Inv(s) && s.mpc.MStore?
    ensures Inv(Step(s, StoreCallback))
  {
    hide OneOpen, AnswersKept;
    var s' := Step(s, StoreCallback);
    forall k ensures OneOpen(s', k) && AnswersKept(s', k) {
      StoreKeepsKind(s, s', k);
    }
  }

  lemma MgrDequeueKeepsKind(s: State, s': State, k: Kind)
    requires OneOpen(s, k) && AnswersKept(s, k) && s.batch == [] && s.inc == s'.batch + s'.inc
    requires s' == s.(batch := s'.batch, inc := s'.inc, mpc := s'.mpc) && !s.mpc.MStore? && !s'.mpc.MStore?
    ensures OneOpen(s', k) && AnswersKept(s', k)
  {
    hide ItemsOf, ResponsesOf, OfKind, Match;
    ItemsOfConcat(s'.batch, s'.inc, k);
    ResponsesOfConcat(s'.batch, s'.inc, k);
    assert ItemsOf([], k) == [] && ResponsesOf([], k) == [] by { EmptyKinds(k); }
    MatchMoves(Open(s, k), Open(s', k), Waiting(s, k));
    assert Waiting(s', k) == Waiting(s, k);
    assert ResponsesOf(s.batch, k) + ResponsesOf(s.inc, k) == ResponsesOf(s'.batch, k) + ResponsesOf(s'.inc, k);
  }

  lemma EmptyKinds(k: Kind)
    ensures ItemsOf([], k) == [] && ResponsesOf([], k) == []
  {
  }

  lemma MatchMoves(p: Places, q: Places, w: seq<Item>)
    requires Match(p, w) && p.batch == [] && p.inc == q.batch + q.inc && q == p.(batch := q.batch, inc := q.inc)
    ensures Match(q, w)
  {
    assert forall x :: x in q.batch || x in q.inc ==> x in p.inc;
  }

  lemma MgrDequeueKeepsInv(s: State, c: nat)
    requires Inv(s) && s.mpc.MDequeue?
    ensures Inv(Step(s, MgrDequeue(c)))
  {
    hide OneOpen, AnswersKept;
    var s' := Step(s, MgrDequeue(c));
    assert s.inc == s'.batch + s'.inc;
    forall k ensures OneOpen(s', k) && AnswersKept(s', k) {
      MgrDequeueKeepsKind(s, s', k);
    }
  }

  lemma GenDequeueKeepsKind(s: State, s': State, k: Kind)
    requires OneOpen(s, k) && AnswersKept(s, k) && s.gbatch == [] && s.out == s'.gbatch + s'.out
    requires s' == s.(gbatch := s'.gbatch, out := s'.out, gpc := s'.gpc)
    ensures OneOpen(s', k) && AnswersKept(s', k)
  {
    OfKindConcat(s'.gbatch, s'.out, k);
  }

  lemma GenDequeueKeepsInv(s: State, c: nat)
    requires Inv(s) && s.gpc.GDequeue?
    ensures Inv(Step(s, GenDequeue(c)))
  {
    hide OneOpen, AnswersKept;
    var s' := Step(s, GenDequeue(c));
    assert s.out == s'.gbatch + s'.out && s.gbatch == [];
    assert HandledItems(s.history) + [] + s.out == HandledItems(s.history) + s'.gbatch + s'.out;
    forall k ensures OneOpen(s', k) && AnswersKept(s', k) {
      GenDequeueKeepsKind(s, s', k);
    }
  }

  /** The response that arrives finds its own callback: nothing else of its kind can be open. */
  lemma CallbackIsThere(s: State)
    requires Inv(s) && s.mpc.MHandle? && s.batch != [] && s.batch[0].Response?
    ensures var item := s.batch[0].item;
      item.kind in s.callbacks && s.callbacks[item.kind] == item
  {
    var item := s.batch[0].item;
    assert OneOpen(s, item.kind);
    assert ItemsOf(s.batch, item.kind)[0] == item;
    assert item in Open(s, item.kind).batch;
  }

  lemma ResponseKeepsOpen(s: State, k: Kind)
    requires OneOpen(s, k) && s.mpc.MHandle? && s.batch != [] && s.batch[0].Response?
    requires s.batch[0].item.kind in s.callbacks
    ensures OneOpen(OnResponse(s), k)
  {
    var item, s' := s.batch[0].item, OnResponse(s);
    assert ItemsOf(s.batch, k) == (if k == item.kind then [item] else []) + ItemsOf(s'.batch, k);
  }

  lemma DeliverOne<T>(f: seq<T>, m: T, l: seq<T>, b: seq<T>, i: seq<T>)
    requires l == []
    ensures f + (l + (([m] + b) + i)) == (f + [m]) + (l + (b + i))
  {
  }

  lemma GiveOne<T>(a: seq<T>, f: seq<T>, m: T)
    requires Split(a, f, [], [], [])
    ensures Split(a + [m], f, [], [], [m]) && Split(a + [m], f, [m], [], [])
  {
  }

  lemma ResponseKeepsAnswers(s: State, k: Kind)
    requires OneOpen(s, k) && AnswersKept(s, k) && s.mpc.MHandle? && s.batch != [] && s.batch[0].Response?
    requires s.batch[0].item.kind in s.callbacks
    ensures AnswersKept(OnResponse(s), k)
  {
    var m, s' := s.batch[0], OnResponse(s);
    var f, l, b, i := ResponsesOf(Messages(s.fired), k), ResponsesOf(s.lost, k), ResponsesOf(s'.batch, k),
      ResponsesOf(s.inc, k);
    DeliveredSoFar(s.fired, Fire(s.callbacks[m.item.kind], m), k);
    assert s' == s.(batch := s.batch[1..], fired := s'.fired, callbacks := s'.callbacks);
    assert ResponsesOf(s.batch, k) == (if k == m.item.kind then [m] else []) + b;
    if k == m.item.kind {
      NothingLost(s, k);
      DeliverOne(f, m, l, b, i);
    } else {
      assert [] + b == b && f + [] == f;
    }
  }

  lemma NothingLost(s: State, k: Kind)
    requires OneOpen(s, k) && s.batch != [] && s.batch[0].Response? && s.batch[0].item.kind == k
    ensures ResponsesOf(s.lost, k) == []
  {
    assert ItemsOf(s.batch, k) == [s.batch[0].item] + ItemsOf(s.batch[1..], k);
    NoItemsNoResponses(s.lost, k);
  }

  lemma DeliveredSoFar(fs: seq<Fire>, f: Fire, k: Kind)
    ensures ResponsesOf(Messages(fs + [f]), k) ==
            ResponsesOf(Messages(fs), k) + if f.msg.Response? && f.msg.item.kind == k then [f.msg] else []
  {
    assert Messages(fs + [f]) == Messages(fs) + [f.msg];
    ResponsesOfConcat(Messages(fs), [f.msg], k);
  }

  lemma ResponseKeepsInv(s: State)
    requires Inv(s) && s.mpc.MHandle? && s.batch != []
    ensures Inv(OnResponse(s))
  {
    var m, s' := s.batch[0], OnResponse(s);
    if m.Response? {
      CallbackIsThere(s);
      forall k ensures OneOpen(s', k) && AnswersKept(s', k) {
        assert OneOpen(s, k) && AnswersKept(s, k);
        ResponseKeepsOpen(s, k);
        ResponseKeepsAnswers(s, k);
      }
    } else {
      forall k ensures OneOpen(s', k) && AnswersKept(s', k) {
        assert OneOpen(s, k) && AnswersKept(s, k);
        assert ItemsOf(s.batch, k) == ItemsOf(s'.batch, k) && ResponsesOf(s.batch, k) == ResponsesOf(s'.batch, k);
      }
    }
  }

  lemma RespondOpen(s: State, m: Msg, k: Kind)
    ensures ItemsOf(s.inc + [m], k) == ItemsOf(s.inc, k) + ItemsOf([m], k)
    ensures ItemsOf(s.lost + [m], k) == ItemsOf(s.lost, k) + ItemsOf([m], k)
    ensures ResponsesOf(s.inc + [m], k) == ResponsesOf(s.inc, k) + ResponsesOf([m], k)
    ensures ResponsesOf(s.lost + [m], k) == ResponsesOf(s.lost, k) + ResponsesOf([m], k)
    ensures ResponsesOf(s.answers + [m], k) == ResponsesOf(s.answers, k) + ResponsesOf([m], k)
  {
    ItemsOfConcat(s.inc, [m], k);
    ItemsOfConcat(s.lost, [m], k);
    ResponsesOfConcat(s.inc, [m], k);
    ResponsesOfConcat(s.lost, [m], k);
    ResponsesOfConcat(s.answers, [m], k);
  }

  lemma ReportKeepsKind(s: State, k: Kind)
    requires OneOpen(s, k) && AnswersKept(s, k)
    ensures OneOpen(Respond(s, FlowReport), k) && AnswersKept(Respond(s, FlowReport), k)
  {
    hide ItemsOf, ResponsesOf, OfKind, Match, Split;
    var s' := Respond(s, FlowReport);
    RespondOpen(s, FlowReport, k);
    ReportIsOfNoKind(k);
    assert ItemsOf(s'.inc, k) == ItemsOf(s.inc, k) && ResponsesOf(s'.inc, k) == ResponsesOf(s.inc, k);
  }

  lemma ReportIsOfNoKind(k: Kind)
    ensures ItemsOf([FlowReport], k) == [] && ResponsesOf([FlowReport], k) == []
  {
  }

  lemma ReportKeepsInv(s: State)
    requires Inv(s)
    ensures Inv(Respond(s, FlowReport))
  {
    hide OneOpen, AnswersKept;
    forall k ensures OneOpen(Respond(s, FlowReport), k) && AnswersKept(Respond(s, FlowReport), k) {
      ReportKeepsKind(s, k);
    }
  }

  lemma LastResponse(ms: seq<Msg>, item: Item, answer: Answer, k: Kind)
    ensures var m := Response(item, answer);
      && ItemsOf(ms + [m], k) == ItemsOf(ms, k) + (if item.kind == k then [item] else [])
      && ResponsesOf(ms + [m], k) == ResponsesOf(ms, k) + (if item.kind == k then [m] else [])
  {
    ItemsOfConcat(ms, [Response(item, answer)], k);
    ResponsesOfConcat(ms, [Response(item, answer)], k);
  }

  /** An answer goes to the ring or, when that is full, is lost. */
  lemma ItemEffect(s: State, loadOk: bool)
    requires s.gbatch != []
    ensures var s', item := OnItem(s, loadOk), s.gbatch[0];
      var (answer, running) := React(s.running, item.kind, loadOk);
      var m := Response(item, answer);
      var full := |s.inc| >= INC_CAPACITY;
      s' == s.(gbatch := s.gbatch[1..], running := running, history := s.history + [Handled(item, loadOk)],
               answers := s.answers + [m],
               inc := if full then s.inc else s.inc + [m], lost := if full then s.lost + [m] else s.lost)
  {
  }

  lemma MovedMatch(p: Places, w: seq<Item>, item: Item, g: seq<Item>)
    requires Match(p, w) && p.gbatch == [item] + g
    ensures Match(p.(gbatch := g, inc := p.inc + [item]), w)
    ensures Match(p.(gbatch := g, lost := p.lost + [item]), w)
  {
    assert item in p.gbatch && forall x :: x in g ==> x in p.gbatch;
  }

  lemma ItemKeepsOpen(s: State, loadOk: bool, k: Kind)
    requires OneOpen(s, k) && s.gbatch != []
    ensures OneOpen(OnItem(s, loadOk), k)
  {
    var item, s' := s.gbatch[0], OnItem(s, loadOk);
    var answer := React(s.running, item.kind, loadOk).0;
    ItemEffect(s, loadOk);
    LastResponse(s.inc, item, answer, k);
    LastResponse(s.lost, item, answer, k);
    var p, g := Open(s, k), OfKind(s.gbatch[1..], k);
    if k == item.kind {
      MovedMatch(p, Waiting(s, k), item, g);
      assert Open(s', k) == if |s.inc| >= INC_CAPACITY then p.(gbatch := g, lost := p.lost + [item])
                            else p.(gbatch := g, inc := p.inc + [item]);
    } else {
      assert Open(s', k) == p;
    }
    assert Waiting(s', k) == Waiting(s, k);
  }

  /** While a request of kind k is handled, no answer of that kind is lost or on its way. */
  lemma ItemKeepsAnswers(s: State, loadOk: bool, k: Kind)
    requires OneOpen(s, k) && AnswersKept(s, k) && s.gbatch != []
    ensures AnswersKept(OnItem(s, loadOk), k)
  {
    var item, s' := s.gbatch[0], OnItem(s, loadOk);
    var answer := React(s.running, item.kind, loadOk).0;
    ItemEffect(s, loadOk);
    LastResponse(s.answers, item, answer, k);
    LastResponse(s.inc, item, answer, k);
    LastResponse(s.lost, item, answer, k);
    var m, a, f, l, b, i := Response(item, answer), ResponsesOf(s.answers, k), ResponsesOf(Messages(s.fired), k),
      ResponsesOf(s.lost, k), ResponsesOf(s.batch, k), ResponsesOf(s.inc, k);
    if k == item.kind {
      NothingElseOpen(s, k);
      GiveOne(a, f, m);
      assert [] + [m] == [m];
      assert if |s.inc| >= INC_CAPACITY then Split(a + [m], f, l + [m], b, i) else Split(a + [m], f, l, b, i + [m]);
    } else {
      assert a + [] == a && i + [] == i && l + [] == l;
    }
  }

  lemma NothingElseOpen(s: State, k: Kind)
    requires OneOpen(s, k) && s.gbatch != [] && s.gbatch[0].kind == k
    ensures ResponsesOf(s.lost, k) == ResponsesOf(s.batch, k) == ResponsesOf(s.inc, k) == []
  {
    assert OfKind(s.gbatch, k) == [s.gbatch[0]] + OfKind(s.gbatch[1..], k);
    NoItemsNoResponses(s.lost, k);
    NoItemsNoResponses(s.batch, k);
    NoItemsNoResponses(s.inc, k);
  }

  lemma ItemKeepsSlots(s: State, loadOk: bool)
    requires SlotsInv(s) && s.gpc.GHandle? && s.gbatch != []
    ensures var s' := OnItem(s, loadOk); SlotsInv(s') && s'.aborted == s.aborted && s'.enqueueFailed == s.enqueueFailed
  {
    hide OnItem;
    ItemEffect(s, loadOk);
  }

  lemma HistoryGrows(h: seq<Event>, item: Item, loadOk: bool)
    ensures var h' := h + [Handled(item, loadOk)];
      && RunningAfter(h') == React(RunningAfter(h), item.kind, loadOk).1
      && AnswersTo(h') == AnswersTo(h) + [Response(item, React(RunningAfter(h), item.kind, loadOk).0)]
      && HandledItems(h') == HandledItems(h) + [item]
  {
    assert (h + [Handled(item, loadOk)])[..|h|] == h;
  }

  lemma ItemKeepsHistory(s: State, loadOk: bool)
    requires HistoryInv(s) && s.gpc.GHandle? && s.gbatch != []
    ensures HistoryInv(OnItem(s, loadOk))
  {
    hide OnItem, React, RunningAfter, AnswersTo, HandledItems;
    var item := s.gbatch[0];
    ItemEffect(s, loadOk);
    HistoryGrows(s.history, item, loadOk);
    assert s.gbatch == [item] + s.gbatch[1..];
    assert s.accepted == HandledItems(s.history) + [item] + s.gbatch[1..] + s.out;
  }

  lemma ItemKeepsInv(s: State, loadOk: bool)
    requires Inv(s) && s.gpc.GHandle? && s.gbatch != []
    ensures Inv(OnItem(s, loadOk))
  {
    hide OneOpen, AnswersKept, OnItem, SlotsInv, HistoryInv;
    var s' := OnItem(s, loadOk);
    ItemKeepsSlots(s, loadOk);
    ItemKeepsHistory(s, loadOk);
    forall k ensures OneOpen(s', k) && AnswersKept(s', k) {
      assert OneOpen(s, k) && AnswersKept(s, k);
      ItemKeepsOpen(s, loadOk, k);
      ItemKeepsAnswers(s, loadOk, k);
    }
  }

  lemma QuietKeepsInv(s: State, s': State)
    requires Inv(s) && SlotsInv(s')
    requires s' == s.(mpc := s'.mpc, gpc := s'.gpc) && (s.mpc == s'.mpc || (!s.mpc.MStore? && !s'.mpc.MStore?))
    ensures Inv(s')
  {
    hide OneOpen, AnswersKept;
    forall k ensures OneOpen(s', k) && AnswersKept(s', k) {
      QuietKeepsKind(s, s', k);
    }
  }

  lemma QuietKeepsKind(s: State, s': State, k: Kind)
    requires OneOpen(s, k) && AnswersKept(s, k)
    requires s' == s.(mpc := s'.mpc, gpc := s'.gpc) && (s.mpc == s'.mpc || (!s.mpc.MStore? && !s'.mpc.MStore?))
    ensures OneOpen(s', k) && AnswersKept(s', k)
  {
    hide Match, Split;
    assert Waiting(s', k) == Waiting(s, k);
  }

  lemma TimeoutKeepsInv(s: State)
    requires Inv(s) && s.gpc.GCheck? && s.running
    ensures Inv(Step(s, GenTimeout))
  {
    var s' := Step(s, GenTimeout);
    assert s'.history[..|s.history|] == s.history;
    assert HandledItems(s'.history) == HandledItems(s.history) && AnswersTo(s'.history) == AnswersTo(s.history);
    forall k ensures OneOpen(s', k) && AnswersKept(s', k) {
      assert OneOpen(s, k) && AnswersKept(s, k);
    }
  }

  lemma StepKeepsInv(s: State, a: Action)
    requires Inv(s)
    ensures Inv(Step(s, a))
  {
    match a
    case Request(kind, cfgOk) => if s.mpc.MPoll? { RequestKeepsInv(s, kind, cfgOk); }
    case StoreCallback => if s.mpc.MStore? { StoreKeepsInv(s); }
    case MgrDequeue(c) => if s.mpc.MDequeue? { MgrDequeueKeepsInv(s, c); }
    case MgrHandle =>
      if s.mpc.MHandle? { if s.batch == [] { QuietKeepsInv(s, Step(s, a)); } else { ResponseKeepsInv(s); } }
    case GenDequeue(c) => if s.gpc.GDequeue? { GenDequeueKeepsInv(s, c); }
    case GenHandle(loadOk) =>
      if s.gpc.GHandle? { if s.gbatch == [] { QuietKeepsInv(s, Step(s, a)); } else { ItemKeepsInv(s, loadOk); } }
    case GenTimeout => if s.gpc.GCheck? && s.running { TimeoutKeepsInv(s); }
    case GenReport => if s.gpc.GEvents? { ReportKeepsInv(s); }
    case PollNothing => QuietKeepsInv(s, Step(s, a));
    case GenRun => QuietKeepsInv(s, Step(s, a));
    case GenDone => QuietKeepsInv(s, Step(s, a));
  }

  lemma {:induction false} RunKeepsInv(s: State, acts: seq<Action>)
    requires Inv(s)
    ensures Inv(Run(s, acts))
    decreases |acts|
  {
    if acts != [] {
      RunKeepsInv(s, acts[..|acts| - 1]);
      StepKeepsInv(Run(s, acts[..|acts| - 1]), acts[|acts| - 1]);
    }
  }

  lemma InitInv()
    ensures Inv(Init())
  {
    forall k ensures OneOpen(Init(), k) && AnswersKept(Init(), k) {
    }
  }
}
