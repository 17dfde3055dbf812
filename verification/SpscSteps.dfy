/**
 The lock-free single-producer single-consumer ring as a two-process step system.
 Every atomic load or store and every access to one slot of the buffer is a step of its own,
 so a run interleaves the two threads at that grain. `sent` and `got` are history: the elements
 published by the producer and those the consumer moved out of the buffer.
 */
module SpscSteps {
  import opened Words

  /** The storage of one element: raw memory, a constructed value, or a value that was moved from. */
  datatype Cell<T> = Raw | Live(value: T) | Moved

  /** A producer call. */
  datatype Push<T> = One(v: T) | Many(vs: seq<T>) {
    function Items(): seq<T> {
      match this
      case One(v) => [v]
      case Many(vs) => vs
    }
  }

  /** A consumer call. The callback's answers are part of the call: `accept` for the single form,
      how many elements of the first and of the second range it would take for the bulk form.
      `Pop` is the bulk form with the callback that copies out at most `sz` elements. */
  datatype Take = Single(accept: bool) | Bulk(first: nat, second: nat) | Pop(sz: nat) {
    function Wants(done: nat, second: bool): nat {
      match this
      case Single(_) => 1
      case Bulk(a, b) => if second then b else a
      case Pop(sz) => if done <= sz then sz - done else 0
    }
  }

  datatype Producer<T> =
    | PIdle
    | PLoad(req: Push<T>)
    | PTest(req: Push<T>, head: int)
    | PRefresh(req: Push<T>, head: int)
    | PFill(req: Push<T>, head: int, n: nat, i: nat)

  datatype Consumer =
    | CIdle
    | CLoad(take: Take)
    | CTest(take: Take, tail: int)
    | CRefresh(take: Take, tail: int)
    | CRead(take: Take, tail: int, done: nat, base: nat, k: nat, i: nat, next: int)
    | CDrop(take: Take, tail: int, done: nat, base: nat, k: nat, i: nat, next: int)
    | CStore(take: Take, tail: int, taken: nat)
  {
    /** Elements handed to the callback since the consumer's counter was last published. */
    function Handed(): nat {
      match this
      case CRead(_, _, done, _, _, i, _) => done + i
      case CDrop(_, _, done, _, k, _, _) => done + k
      case CStore(_, _, taken) => taken
      case _ => 0
    }

    /** Elements destroyed since then. */
    function Dropped(): nat {
      match this
      case CRead(_, _, done, _, _, _, _) => done
      case CDrop(_, _, done, _, _, i, _) => done + i
      case CStore(_, _, taken) => taken
      case _ => 0
    }
  }

  datatype State<T> = State(
    atomicHead: int, prodTail: int, atomicTail: int, consHead: int,
    buff: seq<Cell<T>>, prod: Producer<T>, cons: Consumer,
    sent: seq<T>, got: seq<T>, fault: bool)

  /** `BeginPush` and `BeginTake` start a call on an idle side, the others run one step of a side. */
  datatype Action<T> = BeginPush(req: Push<T>) | StepProducer | BeginTake(take: Take) | StepConsumer

  /** Counter arithmetic: of the machine (64-bit words that wrap) or of unbounded counters. */
  datatype Arith = Machine | Unbounded {
    function Add(a: int, b: int): int {
      if Machine? then Wrap64(a + b) else a + b
    }

    function Sub(a: int, b: int): int {
      if Machine? then Wrap64(a - b) else a - b
    }
  }

  function Pos(size: nat, counter: int): (r: nat)
    requires ValidSize(size)
    ensures r < size
  {
    if counter >= 0 then Slot(size, counter) else 0
  }

  function Init<T>(size: nat): State<T> {
    State(0, 0, 0, 0, seq(size, _ => Raw), PIdle, CIdle, [], [], false)
  }

  /** Constructing is only sound on raw memory. */
  function Construct<T>(s: State<T>, pos: nat, v: T): State<T>
    requires pos < |s.buff|
  {
    s.(buff := s.buff[pos := Live(v)], fault := s.fault || !s.buff[pos].Raw?)
  }

  /** The value is moved to the callback. Reading is only sound on a constructed element. */
  function MoveOut<T>(s: State<T>, pos: nat): State<T>
    requires pos < |s.buff|
  {
    if s.buff[pos].Live? then s.(buff := s.buff[pos := Moved], got := s.got + [s.buff[pos].value])
    else s.(fault := true)
  }

  /** Destroying is only sound on an element that is constructed. */
  function Destroy<T>(s: State<T>, pos: nat): State<T>
    requires pos < |s.buff|
  {
    s.(buff := s.buff[pos := Raw], fault := s.fault || s.buff[pos].Raw?)
  }

  /** What the producer does once it knows the number of free slots. */
  function Fill<T>(size: nat, req: Push<T>, head: int, avail: int): Producer<T> {
    PFill(req, head, if avail < 0 then 0 else Min(|req.Items()|, avail), 0)
  }

  function ProducerStep<T>(ar: Arith, size: nat, s: State<T>): State<T>
    requires ValidSize(size) && |s.buff| == size
  {
    match s.prod
    case PIdle => s
    case PLoad(req) => s.(prod := PTest(req, s.atomicHead))
    case PTest(req, head) =>
      var used := ar.Sub(head, s.prodTail);
      var stale := if req.One? then used == size else size - used < |req.vs|;
      if stale then s.(prod := PRefresh(req, head))
      else s.(prod := Fill(size, req, head, size - used))
    case PRefresh(req, head) =>
      var used := ar.Sub(head, s.atomicTail);
      var s' := s.(prodTail := s.atomicTail);
      if used == size then s'.(prod := PIdle)
      else s'.(prod := Fill(size, req, head, size - used))
    case PFill(req, head, n, i) =>
      if i < n && i < |req.Items()| then
        Construct(s, Pos(size, ar.Add(head, i)), req.Items()[i]).(prod := PFill(req, head, n, i + 1))
      else
        s.(atomicHead := ar.Add(head, n), sent := s.sent + req.Items()[..Min(n, |req.Items()|)], prod := PIdle)
  }

  /** The first range offered to the callback once the available count is known: up to the end of the
      buffer, with the length of the second range in `next`, or -1 when there is none. */
  function Offer(ar: Arith, size: nat, take: Take, tail: int, avail: int): Consumer
    requires ValidSize(size)
  {
    var beg := Pos(size, tail);
    if take.Single? then CRead(take, tail, 0, beg, 1, 0, -1)
    else
      var end := Pos(size, ar.Add(tail, avail));
      if end > beg then
        CRead(take, tail, 0, beg, if avail < 0 then 0 else Min(take.Wants(0, false), avail), 0, -1)
      else
        var k := Min(take.Wants(0, false), size - beg);
        CRead(take, tail, 0, beg, k, 0, if k == size - beg then end else -1)
  }

  function ConsumerStep<T>(ar: Arith, size: nat, s: State<T>): State<T>
    requires ValidSize(size) && |s.buff| == size
  {
    match s.cons
    case CIdle => s
    case CLoad(take) => s.(cons := CTest(take, s.atomicTail))
    case CTest(take, tail) =>
      var avail := ar.Sub(s.consHead, tail);
      s.(cons := if avail == 0 then CRefresh(take, tail) else Offer(ar, size, take, tail, avail))
    case CRefresh(take, tail) =>
      var avail := ar.Sub(s.atomicHead, tail);
      s.(consHead := s.atomicHead, cons := if avail == 0 then CIdle else Offer(ar, size, take, tail, avail))
    case CRead(take, tail, done, base, k, i, next) =>
      if i < k && base + i < size then
        if take == Single(false) then s.(cons := CIdle, fault := s.fault || !s.buff[base].Live?)
        else MoveOut(s, base + i).(cons := CRead(take, tail, done, base, k, i + 1, next))
      else s.(cons := CDrop(take, tail, done, base, k, 0, next))
    case CDrop(take, tail, done, base, k, i, next) =>
      if i < k && base + i < size then
        Destroy(s, base + i).(cons := CDrop(take, tail, done, base, k, i + 1, next))
      else if next >= 0 then
        s.(cons := CRead(take, tail, done + k, 0, Min(take.Wants(done + k, true), next), 0, -1))
      else s.(cons := CStore(take, tail, done + k))
    case CStore(take, tail, taken) => s.(atomicTail := ar.Add(tail, taken), cons := CIdle)
  }

  function Step<T>(ar: Arith, size: nat, s: State<T>, a: Action<T>): (r: State<T>)
    requires ValidSize(size) && |s.buff| == size
    ensures |r.buff| == size
  {
    match a
    case BeginPush(req) => if s.prod.PIdle? then s.(prod := PLoad(req)) else s
    case StepProducer => ProducerStep(ar, size, s)
    case BeginTake(take) => if s.cons.CIdle? then s.(cons := CLoad(take)) else s
    case StepConsumer => ConsumerStep(ar, size, s)
  }

  /** The state after any interleaving of calls and steps. */
  function Run<T>(ar: Arith, size: nat, acts: seq<Action<T>>): (r: State<T>)
    requires ValidSize(size)
    ensures |r.buff| == size
  {
    if acts == [] then Init(size)
    else Step(ar, size, Run(ar, size, acts[..|acts| - 1]), acts[|acts| - 1])
  }
}
