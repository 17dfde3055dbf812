/**
 The ring with its 64-bit counters against the unbounded one, and against a plain FIFO queue.
 Every theorem is about an arbitrary interleaving, of any length, of the two threads' steps.
 */
module SpscRefinement {
  import opened Words
  import opened SpscSteps
  import opened SpscSafety

  function WrapProducer<T>(p: Producer<T>): Producer<T> {
    match p
    case PTest(req, head) => PTest(req, Wrap64(head))
    case PRefresh(req, head) => PRefresh(req, Wrap64(head))
    case PFill(req, head, n, i) => PFill(req, Wrap64(head), n, i)
    case _ => p
  }

  function WrapConsumer(c: Consumer): Consumer {
    match c
    case CTest(take, tail) => CTest(take, Wrap64(tail))
    case CRefresh(take, tail) => CRefresh(take, Wrap64(tail))
    case CRead(take, tail, done, base, k, i, next) => CRead(take, Wrap64(tail), done, base, k, i, next)
    case CDrop(take, tail, done, base, k, i, next) => CDrop(take, Wrap64(tail), done, base, k, i, next)
    case CStore(take, tail, taken) => CStore(take, Wrap64(tail), taken)
    case _ => c
  }

  /** Every counter, shared, cached or in a register, cut to 64 bits; the rest of the state unchanged. */
  function Wrapped<T>(s: State<T>): State<T> {
    s.(atomicHead := Wrap64(s.atomicHead), prodTail := Wrap64(s.prodTail),
       atomicTail := Wrap64(s.atomicTail), consHead := Wrap64(s.consHead),
       prod := WrapProducer(s.prod), cons := WrapConsumer(s.cons))
  }

  lemma TestCommutes<T>(size: nat, s: State<T>)
    requires CountersInv(size, s) && s.prod.PTest?
    ensures ProducerStep(Machine, size, Wrapped(s)) == Wrapped(ProducerStep(Unbounded, size, s))
  {
    hide Construct;
    WrappedDifference(s.prod.head, s.prodTail);
  }

  lemma RefreshCommutes<T>(size: nat, s: State<T>)
    requires CountersInv(size, s) && s.prod.PRefresh?
    ensures ProducerStep(Machine, size, Wrapped(s)) == Wrapped(ProducerStep(Unbounded, size, s))
  {
    hide Construct;
    WrappedDifference(s.prod.head, s.atomicTail);
  }

  lemma FillCommutes<T>(size: nat, s: State<T>)
    requires CountersInv(size, s) && s.prod.PFill?
    ensures ProducerStep(Machine, size, Wrapped(s)) == Wrapped(ProducerStep(Unbounded, size, s))
  {
    var PFill(req, head, n, i) := s.prod;
    if i < n {
      SlotSurvivesWrap(size, head + i);
      WrappedSum(head, i);
      assert Pos(size, Machine.Add(Wrap64(head), i)) == Pos(size, head + i);
    } else {
      WrappedSum(head, n);
    }
  }

  lemma ProducerStepCommutes<T>(size: nat, s: State<T>)
    requires CountersInv(size, s)
    ensures ProducerStep(Machine, size, Wrapped(s)) == Wrapped(ProducerStep(Unbounded, size, s))
  {
    hide Construct, Fill;
    match s.prod
    case PTest(_, _) => TestCommutes(size, s);
    case PRefresh(_, _) => RefreshCommutes(size, s);
    case PFill(_, _, _, _) => FillCommutes(size, s);
    case _ =>
  }

  lemma OfferCommutes(size: nat, take: Take, tail: nat, avail: nat)
    requires ValidSize(size)
    ensures Offer(Machine, size, take, Wrap64(tail), avail) == WrapConsumer(Offer(Unbounded, size, take, tail, avail))
  {
    SlotSurvivesWrap(size, tail);
    SlotSurvivesWrap(size, tail + avail);
    WrappedSum(tail, avail);
  }

  lemma LookCommutes<T>(size: nat, s: State<T>)
    requires CountersInv(size, s) && (s.cons.CTest? || s.cons.CRefresh?)
    ensures ConsumerStep(Machine, size, Wrapped(s)) == Wrapped(ConsumerStep(Unbounded, size, s))
  {
    hide Offer, MoveOut, Destroy;
    match s.cons
    case CTest(take, tail) =>
      WrappedDifference(s.consHead, tail);
      if s.consHead != tail { OfferCommutes(size, take, tail, s.consHead - tail); }
    case CRefresh(take, tail) =>
      WrappedDifference(s.atomicHead, tail);
      if s.atomicHead != tail { OfferCommutes(size, take, tail, s.atomicHead - tail); }
  }

  lemma ReadCommutes<T>(size: nat, s: State<T>)
    requires ValidSize(size) && |s.buff| == size && s.cons.CRead?
    ensures ConsumerStep(Machine, size, Wrapped(s)) == Wrapped(ConsumerStep(Unbounded, size, s))
  {
    hide Offer, Destroy, Wrap64;
  }

  lemma DropCommutes<T>(size: nat, s: State<T>)
    requires ValidSize(size) && |s.buff| == size && s.cons.CDrop?
    ensures ConsumerStep(Machine, size, Wrapped(s)) == Wrapped(ConsumerStep(Unbounded, size, s))
  {
    hide Offer, MoveOut, Wrap64;
  }

  lemma ConsumerStepCommutes<T>(size: nat, s: State<T>)
    requires CountersInv(size, s)
    ensures ConsumerStep(Machine, size, Wrapped(s)) == Wrapped(ConsumerStep(Unbounded, size, s))
  {
    hide Offer, MoveOut, Destroy, Wrap64;
    match s.cons
    case CTest(_, _) => LookCommutes(size, s);
    case CRefresh(_, _) => LookCommutes(size, s);
    case CStore(_, tail, taken) => WrappedSum(tail, taken);
    case CRead(_, _, _, _, _, _, _) => ReadCommutes(size, s);
    case CDrop(_, _, _, _, _, _, _) => DropCommutes(size, s);
    case _ =>
  }

  /** The machine with wrapping counters computes the image of the unbounded run, however long. */
  lemma {:induction false} WrappingRefinesUnbounded<T>(size: nat, acts: seq<Action<T>>)
    requires ValidSize(size)
    ensures Run(Machine, size, acts) == Wrapped(Run(Unbounded, size, acts))
  {
    if acts != [] {
      var front, a := acts[..|acts| - 1], acts[|acts| - 1];
      WrappingRefinesUnbounded(size, front);
      RunInv(size, front);
      var s := Run(Unbounded, size, front);
      match a
      case StepProducer => ProducerStepCommutes(size, s);
      case StepConsumer => ConsumerStepCommutes(size, s);
      case _ =>
    }
  }

  /** Published elements whose slots were not handed back, read off the 64-bit counters: the abstract queue. */
  function Queue<T>(s: State<T>): (q: seq<T>)
  {
    var n := Wrap64(s.atomicHead - s.atomicTail);
    s.sent[if n <= |s.sent| then |s.sent| - n else 0..]
  }

  /** The cells the consumer has still to read, found through the 64-bit counters and the mask. */
  function Waiting<T>(size: nat, s: State<T>): seq<Cell<T>>
    requires ValidSize(size) && |s.buff| == size
  {
    var first := Wrap64(s.atomicTail + s.cons.Handed());
    CellsFrom(size, s.buff, first, Wrap64(s.atomicHead - first))
  }

  function CellsFrom<T>(size: nat, buff: seq<Cell<T>>, first: nat, n: nat): (r: seq<Cell<T>>)
    requires ValidSize(size) && |buff| == size
    ensures |r| == n
    ensures forall j :: 0 <= j < n ==> r[j] == buff[Slot(size, Wrap64(first + j))]
  {
    seq(n, j requires j >= 0 => buff[Slot(size, Wrap64(first + j))])
  }

  /** FIFO with nothing lost, duplicated or reordered: what was published is what was handed to the
      callback followed by the live contents of the buffer, and no slot was ever misused. */
  lemma RingIsFifo<T>(size: nat, acts: seq<Action<T>>)
    requires ValidSize(size)
    ensures var s := Run(Machine, size, acts); var w := Waiting(size, s);
      && !s.fault
      && |w| <= size
      && |s.sent| == |s.got| + |w|
      && s.got == s.sent[..|s.got|]
      && (forall j :: 0 <= j < |w| ==> w[j] == Live(s.sent[|s.got| + j]))
  {
    hide Inv, Waiting, Slot, Run, Wrap64;
    WrappingRefinesUnbounded(size, acts);
    RunInv(size, acts);
    WaitingOfUnbounded(size, Run(Unbounded, size, acts));
  }

  lemma WaitingOfUnbounded<T>(size: nat, u: State<T>)
    requires Inv(size, u)
    ensures ValidSize(size) && |u.buff| == size && !u.fault && u.got == u.sent[..|u.got|]
    ensures var w := Waiting(size, Wrapped(u));
      && |w| == |u.sent| - |u.got| <= size
      && (forall j :: 0 <= j < |w| ==> w[j] == Live(u.sent[|u.got| + j]))
  {
    hide Inv, Slot, ValidSize, Wrap64;
    GotIsPrefix(size, u);
    var n := |u.sent| - |u.got|;
    WaitingStart(size, u);
    var w := CellsFrom(size, u.buff, Wrap64(|u.got|), n);
    assert Waiting(size, Wrapped(u)) == w;
    forall j | 0 <= j < n ensures w[j] == Live(u.sent[|u.got| + j]) {
      WaitingSlot(size, |u.got|, j);
      LiveCell(size, u, |u.got| + j);
    }
  }

  lemma GotIsPrefix<T>(size: nat, u: State<T>)
    requires Inv(size, u)
    ensures ValidSize(size) && |u.buff| == size && !u.fault && u.got == u.sent[..|u.got|]
  {
  }

  lemma WaitingStart<T>(size: nat, u: State<T>)
    requires Inv(size, u)
    ensures Wrap64(Wrapped(u).atomicTail + Wrapped(u).cons.Handed()) == Wrap64(|u.got|)
    ensures Wrap64(Wrapped(u).atomicHead - Wrap64(|u.got|)) == |u.sent| - |u.got| <= size
  {
    WrappedSum(u.atomicTail, u.cons.Handed());
    WrappedDifference(u.atomicHead, |u.got|);
  }

  lemma WaitingSlot(size: nat, first: nat, j: nat)
    requires ValidSize(size)
    ensures Slot(size, Wrap64(Wrap64(first) + j)) == Slot(size, first + j)
  {
    WrappedSum(first, j);
    SlotSurvivesWrap(size, first + j);
  }

  lemma LiveCell<T>(size: nat, u: State<T>, j: int)
    requires Inv(size, u) && |u.got| <= j < |u.sent|
    ensures u.buff[Slot(size, j)] == Live(u.sent[j])
  {
    MaskIsRemainder(size, j);
    assert CellAt(size, u, j) == Expected(u, j);
  }

  /** The slot of the buffer the producer's next step writes. */
  function ProducerSlot(size: nat, p: Producer): int
    requires ValidSize(size)
  {
    if p.PFill? && p.i < p.n then Pos(size, Wrap64(p.head + p.i)) else -1
  }

  /** The slot of the buffer the consumer's next step reads or destroys. */
  function ConsumerSlot(c: Consumer): int {
    if (c.CRead? || c.CDrop?) && c.i < c.k then c.base + c.i else -1
  }

  /** The two threads never touch the same slot at the same time, so plain accesses do not race. */
  lemma SlotsNeverRace<T>(size: nat, acts: seq<Action<T>>)
    requires ValidSize(size)
    ensures var s := Run(Machine, size, acts);
      ProducerSlot(size, s.prod) == ConsumerSlot(s.cons) ==> ProducerSlot(size, s.prod) == -1
  {
    WrappingRefinesUnbounded(size, acts);
    RunInv(size, acts);
    UnboundedSlotsDisjoint(size, Run(Unbounded, size, acts));
  }

  lemma UnboundedSlotsDisjoint<T>(size: nat, u: State<T>)
    requires CountersInv(size, u)
    ensures ProducerSlot(size, WrapProducer(u.prod)) == ConsumerSlot(u.cons) ==> ConsumerSlot(u.cons) == -1
  {
    var ps, cs := ProducerSlot(size, WrapProducer(u.prod)), ConsumerSlot(u.cons);
    if ps != -1 && cs != -1 {
      var p, c := u.prod.head + u.prod.i, u.atomicTail + u.cons.done + u.cons.i;
      WrittenSlot(size, u);
      SlotInRange(size, u.atomicTail + u.cons.done, u.cons.i);
      assert ps == p % size && cs == c % size;
      DistinctSlots(size, p, c);
    }
  }

  lemma WrittenSlot<T>(size: nat, u: State<T>)
    requires CountersInv(size, u) && u.prod.PFill? && u.prod.i < u.prod.n
    ensures ProducerSlot(size, WrapProducer(u.prod)) == (u.prod.head + u.prod.i) % size
  {
    var p := u.prod.head + u.prod.i;
    WrappedSum(u.prod.head, u.prod.i);
    SlotSurvivesWrap(size, p);
    MaskIsRemainder(size, p);
  }

  /** One step of the real ring, seen by a user of the queue. A push call takes effect when it publishes,
      a take call when it hands its slots back; no other step changes the queue. The answers are honest, both ways:
      a push that gives up found `size` elements, one that takes less than asked filled all the room it found,
      and a take that gives up found none; a call that does not give up publishes or hands back something. */
  ghost predicate QueueStep<T>(size: nat, s: State<T>, a: Action<T>, s': State<T>)
    requires ValidSize(size)
  {
    var q, q' := Queue(s), Queue(s');
    && |q'| <= size
    && (if a.StepProducer? && s.prod.PFill? && s'.prod.PIdle? then PublishEffect(size, q, s, q', s')
        else if a.StepConsumer? && s.cons.CStore? then StoreEffect(size, q, s, q')
        else q' == q)
    && (a.StepProducer? && s.prod.PRefresh? && s'.prod.PIdle? ==> |q| == size && |s.prod.req.Items()| > 0)
    && (a.StepProducer? && s.prod.PRefresh? && s'.prod.PFill? ==> s'.prod.n == Min(|s.prod.req.Items()|, size - |q|))
    && (a.StepProducer? && s.prod.PTest? && s'.prod.PFill? ==> s'.prod.n == |s.prod.req.Items()|)
    && (a.StepConsumer? && s.cons.CRefresh? && s'.cons.CIdle? ==> q == [])
  }

  ghost predicate PublishEffect<T>(size: nat, q: seq<T>, s: State<T>, q': seq<T>, s': State<T>)
    requires s.prod.PFill?
  {
    var n := s.prod.n;
    && n <= |s.prod.req.Items()| && n <= size - |q|
    && (s.prod.req.Items() != [] ==> n > 0) && (s.prod.req.One? ==> n == 1)
    && q' == q + s.prod.req.Items()[..n] && s'.sent == s.sent + s.prod.req.Items()[..n]
  }

  /** The elements handed back are the oldest ones, those the callback got, and as many as it took of what the
      consumer's copy of the counter showed, which was something. */
  ghost predicate StoreEffect<T>(size: nat, q: seq<T>, s: State<T>, q': seq<T>)
    requires ValidSize(size) && s.cons.CStore?
  {
    var k, seen := s.cons.taken, Wrap64(s.consHead - s.atomicTail);
    && 0 < seen <= |q| && k <= seen && q' == q[k..] && k <= |s.got| && q[..k] == s.got[|s.got| - k..]
    && s.cons.take != Single(false)
    && k == Taken(size, s.cons.take, Pos(size, s.atomicTail), seen)
    && (s.cons.take.Single? ==> k == 1) && (s.cons.take.Pop? ==> k == Min(s.cons.take.sz, seen))
  }

  lemma RingRefinesQueue<T>(size: nat, acts: seq<Action<T>>, a: Action<T>)
    requires ValidSize(size)
    ensures QueueStep(size, Run(Machine, size, acts), a, Run(Machine, size, acts + [a]))
  {
    assert (acts + [a])[..|acts|] == acts;
    WrappingRefinesUnbounded(size, acts);
    WrappingRefinesUnbounded(size, acts + [a]);
    RunInv(size, acts);
    RunInv(size, acts + [a]);
    var u, u' := Run(Unbounded, size, acts), Run(Unbounded, size, acts + [a]);
    QueueOfUnbounded(size, u);
    QueueOfUnbounded(size, u');
    UnboundedQueueStep(size, u, a);
    assert Run(Machine, size, acts) == Wrapped(u) && Run(Machine, size, acts + [a]) == Wrapped(u');
  }

  lemma QueueOfUnbounded<T>(size: nat, u: State<T>)
    requires Inv(size, u)
    ensures Queue(Wrapped(u)) == u.sent[u.atomicTail..]
    ensures |Queue(Wrapped(u))| <= size
  {
    WrappedDifference(u.atomicHead, u.atomicTail);
  }

  lemma UnboundedQueueStep<T>(size: nat, u: State<T>, a: Action<T>)
    requires Inv(size, u)
    requires Inv(size, Step(Unbounded, size, u, a))
    ensures QueueStep(size, Wrapped(u), a, Wrapped(Step(Unbounded, size, u, a)))
  {
    var u' := Step(Unbounded, size, u, a);
    QueueOfUnbounded(size, u);
    QueueOfUnbounded(size, u');
    match a
    case StepProducer => ProducerQueueStep(size, u);
    case StepConsumer => ConsumerQueueStep(size, u);
    case _ =>
  }

  lemma ProducerQueueStep<T>(size: nat, u: State<T>)
    requires Inv(size, u)
    ensures QueueStep(size, Wrapped(u), StepProducer, Wrapped(ProducerStep(Unbounded, size, u)))
  {
    if u.prod.PFill? && u.prod.i == u.prod.n {
      PublishQueueStep(size, u);
    } else {
      hide CellsInv, Slot, Wrap64, Queue, Construct;
      var u' := ProducerStep(Unbounded, size, u);
      ProducerKeepsInv(size, u);
      QueueStays(size, u, u');
    }
  }

  lemma QueueStays<T>(size: nat, u: State<T>, u': State<T>)
    requires Inv(size, u) && Inv(size, u') && u'.sent == u.sent && u'.atomicTail == u.atomicTail
    ensures Queue(Wrapped(u')) == Queue(Wrapped(u)) == u.sent[u.atomicTail..] && |Queue(Wrapped(u))| <= size
  {
    QueueOfUnbounded(size, u);
    QueueOfUnbounded(size, u');
  }

  lemma PublishQueueStep<T>(size: nat, u: State<T>)
    requires Inv(size, u) && u.prod.PFill? && u.prod.i == u.prod.n
    ensures QueueStep(size, Wrapped(u), StepProducer, Wrapped(ProducerStep(Unbounded, size, u)))
  {
    var u' := ProducerStep(Unbounded, size, u);
    PublishKeepsInv(size, u);
    QueueOfUnbounded(size, u);
    QueueOfUnbounded(size, u');
    assert u'.sent[u'.atomicTail..] == u.sent[u.atomicTail..] + u.prod.req.Items()[..u.prod.n];
  }

  lemma ConsumerQueueStep<T>(size: nat, u: State<T>)
    requires Inv(size, u)
    ensures QueueStep(size, Wrapped(u), StepConsumer, Wrapped(ConsumerStep(Unbounded, size, u)))
  {
    if u.cons.CStore? {
      StoreQueueStep(size, u);
    } else {
      hide Inv, ConsumerStep, Queue, Wrap64;
      ConsumerKeepsInv(size, u);
      QuietConsumer(size, u);
      QueueStays(size, u, ConsumerStep(Unbounded, size, u));
    }
  }

  /** Before it stores its counter, the consumer changes nothing that the queue is made of, and gives up only when
      there is nothing. */
  lemma QuietConsumer<T>(size: nat, u: State<T>)
    requires Inv(size, u) && !u.cons.CStore?
    ensures var u' := ConsumerStep(Unbounded, size, u);
      && u'.sent == u.sent && u'.atomicTail == u.atomicTail
      && (u.cons.CRefresh? && u'.cons.CIdle? ==> u.sent[u.atomicTail..] == [])
  {
    hide CellsInv, Slot;
  }

  lemma StoreQueueStep<T>(size: nat, u: State<T>)
    requires Inv(size, u) && u.cons.CStore?
    ensures QueueStep(size, Wrapped(u), StepConsumer, Wrapped(ConsumerStep(Unbounded, size, u)))
  {
    var u' := ConsumerStep(Unbounded, size, u);
    StoreKeepsInv(size, u);
    QueueOfUnbounded(size, u);
    QueueOfUnbounded(size, u');
    StoreTakes(size, u);
    var k, q := u.cons.taken, u.sent[u.atomicTail..];
    assert u'.sent[u'.atomicTail..] == q[k..];
    assert q[..k] == u.got[|u.got| - k..];
    assert StoreEffect(size, q, Wrapped(u), q[k..]);
  }

  lemma StoreTakes<T>(size: nat, u: State<T>)
    requires CountersInv(size, u) && u.cons.CStore?
    ensures u.cons.taken == Taken(size, u.cons.take, Pos(size, Wrap64(u.atomicTail)),
                                  Wrap64(Wrap64(u.consHead) - Wrap64(u.atomicTail)))
    ensures Wrap64(Wrap64(u.consHead) - Wrap64(u.atomicTail)) == u.consHead - u.atomicTail > 0
    ensures u.cons.take.Pop? ==> u.cons.taken == Min(u.cons.take.sz, u.consHead - u.atomicTail)
  {
    WrappedDifference(u.consHead, u.atomicTail);
    SlotSurvivesWrap(size, u.atomicTail);
    MaskIsRemainder(size, u.atomicTail);
    if u.cons.take.Pop? {
      PopTakesAsMuchAsItCan(size, u.cons.take.sz, u.atomicTail % size, u.consHead - u.atomicTail);
    }
  }
}
