/** Invariants of the step system over every run, first for unbounded counters. */
module SpscSafety {
  import opened Words
  import opened SpscSteps

  /** What the cell of unbounded index j holds, for the `size` indices starting at the consumer's counter. */
  ghost function Expected<T>(s: State<T>, j: int): Cell<T>
    requires 0 <= j && s.atomicHead == |s.sent|
  {
    if j < s.atomicTail + s.cons.Dropped() then Raw
    else if j < |s.got| then Moved
    else if j < s.atomicHead then Live(s.sent[j])
    else if s.prod.PFill? && j < s.atomicHead + s.prod.i && j - s.atomicHead < |s.prod.req.Items()|
    then Live(s.prod.req.Items()[j - s.atomicHead])
    else Raw
  }

  ghost function CellAt<T>(size: nat, s: State<T>, j: int): Cell<T>
    requires |s.buff| == size > 0
  {
    s.buff[j % size]
  }

  /** The chain of counters: cached and published values never overtake each other. */
  ghost predicate Chain<T>(size: nat, s: State<T>) {
    0 <= s.prodTail <= s.atomicTail <= s.consHead <= s.atomicHead <= s.prodTail + size
  }

  ghost predicate ProducerInv<T>(size: nat, p: Producer<T>, atomicHead: int, prodTail: int) {
    match p
    case PIdle => true
    case PLoad(_) => true
    case PTest(_, head) => head == atomicHead
    case PRefresh(req, head) => head == atomicHead && |req.Items()| > 0
    case PFill(req, head, n, i) =>
      && head == atomicHead && i <= n <= |req.Items()|
      && head + n <= prodTail + size
      && (n < |req.Items()| ==> head + n == prodTail + size)
      && (|req.Items()| > 0 ==> n > 0)
  }

  /** How many elements a take call consumes when it finds `avail`: those the callback takes of the first range,
      and those it takes of the second when it took all of a first range that ends at the end of the buffer. */
  ghost function Taken(size: nat, take: Take, slot: nat, avail: int): int
  {
    if take.Single? then 1
    else
      var k := Min(take.Wants(0, false), Min(avail, size - slot));
      if k < 0 then 0
      else if k == size - slot then k + Min(take.Wants(k, true), avail - k) else k
  }

  lemma PopTakesAsMuchAsItCan(size: nat, sz: nat, slot: nat, avail: int)
    requires slot < size && 0 <= avail
    ensures Taken(size, Pop(sz), slot, avail) == Min(sz, avail)
  {
  }

  ghost predicate RangeInv(size: nat, atomicTail: int, consHead: int,
                           take: Take, tail: int, done: nat, base: nat, k: nat, next: int)
    requires size > 0
  {
    && tail == atomicTail && tail < consHead && base == (tail + done) % size && base + k <= size
    && tail + done + k <= consHead
    && (take.Single? ==> done == 0 && k == 1 && next < 0)
    && (next >= 0 ==> done == 0 && base + k == size && tail + k + next <= consHead)
    && done + k + (if next >= 0 then Min(take.Wants(done + k, true), next) else 0)
       == Taken(size, take, tail % size, consHead - tail)
  }

  ghost predicate ConsumerInv(size: nat, c: Consumer, atomicTail: int, consHead: int)
    requires size > 0
  {
    match c
    case CIdle => true
    case CLoad(_) => true
    case CTest(_, tail) => tail == atomicTail
    case CRefresh(_, tail) => tail == atomicTail == consHead
    case CRead(take, tail, done, base, k, i, next) =>
      && RangeInv(size, atomicTail, consHead, take, tail, done, base, k, next) && i <= k
      && (take == Single(false) ==> i == 0)
    case CDrop(take, tail, done, base, k, i, next) =>
      RangeInv(size, atomicTail, consHead, take, tail, done, base, k, next) && i <= k && take != Single(false)
    case CStore(take, tail, taken) =>
      && tail == atomicTail && tail < consHead && tail + taken <= consHead && take != Single(false)
      && taken == Taken(size, take, tail % size, consHead - tail)
  }

  ghost predicate CellsInv<T>(size: nat, s: State<T>)
    requires |s.buff| == size > 0
    requires s.atomicHead == |s.sent|
  {
    forall j :: s.atomicTail <= j < s.atomicTail + size && 0 <= j ==> CellAt(size, s, j) == Expected(s, j)
  }

  /** The part of the invariant about counters and program counters. */
  ghost predicate CountersInv<T>(size: nat, s: State<T>) {
    && ValidSize(size) && |s.buff| == size
    && s.atomicHead == |s.sent|
    && Chain(size, s)
    && ProducerInv(size, s.prod, s.atomicHead, s.prodTail)
    && ConsumerInv(size, s.cons, s.atomicTail, s.consHead)
  }

  /** Everything the published counters say about the histories and the buffer. */
  ghost predicate Inv<T>(size: nat, s: State<T>) {
    && CountersInv(size, s)
    && !s.fault
    && |s.got| == s.atomicTail + s.cons.Handed()
    && |s.got| <= |s.sent| && s.got == s.sent[..|s.got|]
    && CellsInv(size, s)
  }

  lemma SmallStepKeepsCells<T>(size: nat, s: State<T>, s': State<T>, j: int, c: Cell<T>)
    requires |s.buff| == size > 0 && s.atomicHead == |s.sent| && CellsInv(size, s)
    requires 0 <= s.atomicTail <= j < s.atomicTail + size
    requires s'.buff == s.buff[j % size := c] && s'.atomicTail == s.atomicTail && s'.atomicHead == |s'.sent|
    requires forall i :: s.atomicTail <= i < s.atomicTail + size && i != j ==> Expected(s', i) == Expected(s, i)
    requires Expected(s', j) == c
    ensures CellsInv(size, s')
  {
    forall i | s'.atomicTail <= i < s'.atomicTail + size && 0 <= i
      ensures CellAt(size, s', i) == Expected(s', i)
    {
      if i != j {
        DistinctSlots(size, i, j);
        assert CellAt(size, s, i) == Expected(s, i);
      }
    }
  }

  lemma InitInv<T>(size: nat)
    requires ValidSize(size)
    ensures Inv<T>(size, Init(size))
  {
    var s := Init<T>(size);
    assert s.got == s.sent[..0];
  }

  /** Steps that leave the buffer alone keep it right when the expectation stays the same. */
  lemma SameCells<T>(size: nat, s: State<T>, s': State<T>)
    requires |s.buff| == size > 0 && s.atomicHead == |s.sent| && CellsInv(size, s)
    requires s'.buff == s.buff && s'.atomicTail == s.atomicTail && s'.atomicHead == |s'.sent|
    requires forall j :: s.atomicTail <= j < s.atomicTail + size && 0 <= j ==> Expected(s', j) == Expected(s, j)
    ensures CellsInv(size, s')
  {
    forall j | s'.atomicTail <= j < s'.atomicTail + size && 0 <= j
      ensures CellAt(size, s', j) == Expected(s', j)
    {
      assert CellAt(size, s, j) == Expected(s, j);
    }
  }

  lemma ProducerKeepsInv<T>(size: nat, s: State<T>)
    requires Inv(size, s)
    ensures Inv(size, ProducerStep(Unbounded, size, s))
  {
    match s.prod
    case PFill(_, _, n, i) => if i < n { ConstructKeepsInv(size, s); } else { PublishKeepsInv(size, s); }
    case PRefresh(_, _) => RoomKeepsInv(size, s);
    case PTest(_, _) => RoomKeepsInv(size, s);
    case _ => SameCells(size, s, ProducerStep(Unbounded, size, s));
  }

  lemma RoomKeepsInv<T>(size: nat, s: State<T>)
    requires Inv(size, s) && (s.prod.PTest? || s.prod.PRefresh?)
    ensures Inv(size, ProducerStep(Unbounded, size, s))
  {
    var s' := ProducerStep(Unbounded, size, s);
    assert s' == s.(prodTail := s'.prodTail, prod := s'.prod);
    RoomCounters(size, s);
    SameCells(size, s, s');
  }

  lemma RoomCounters<T>(size: nat, s: State<T>)
    requires CountersInv(size, s) && (s.prod.PTest? || s.prod.PRefresh?)
    ensures CountersInv(size, ProducerStep(Unbounded, size, s))
    ensures var p := ProducerStep(Unbounded, size, s).prod; p.PFill? ==> p.i == 0
  {
    var s' := ProducerStep(Unbounded, size, s);
    match s.prod
    case PTest(req, head) => assert s' == s.(prod := s'.prod);
    case PRefresh(req, head) => assert s' == s.(prodTail := s.atomicTail, prod := s'.prod);
  }

  lemma ConstructKeepsInv<T>(size: nat, s: State<T>)
    requires Inv(size, s) && s.prod.PFill? && s.prod.i < s.prod.n
    ensures Inv(size, ProducerStep(Unbounded, size, s))
  {
    var PFill(req, head, n, i) := s.prod;
    var s' := ProducerStep(Unbounded, size, s);
    var j, v := head + i, req.Items()[i];
    MaskIsRemainder(size, j);
    assert CellAt(size, s, j) == Expected(s, j) == Raw;
    assert s' == s.(buff := s.buff[j % size := Live(v)], prod := PFill(req, head, n, i + 1));
    SmallStepKeepsCells(size, s, s', j, Live(v));
  }

  lemma PublishKeepsInv<T>(size: nat, s: State<T>)
    requires Inv(size, s) && s.prod.PFill? && s.prod.i == s.prod.n
    ensures Inv(size, ProducerStep(Unbounded, size, s))
  {
    var s' := ProducerStep(Unbounded, size, s);
    assert s'.got == s'.sent[..|s'.got|];
    SameCells(size, s, s');
  }

  lemma OfferKeepsInv<T>(size: nat, s: State<T>, s': State<T>, take: Take, tail: int, avail: int)
    requires Inv(size, s) && s.cons.Handed() == 0 && s.cons.Dropped() == 0
    requires tail == s.atomicTail && 0 < avail && tail + avail == s'.consHead
    requires s.consHead <= s'.consHead <= s.atomicHead
    requires s' == s.(consHead := s'.consHead, cons := Offer(Unbounded, size, take, tail, avail))
    ensures Inv(size, s')
  {
    OfferInv(size, take, tail, avail);
    SameCells(size, s, s');
  }

  lemma OfferInv(size: nat, take: Take, tail: int, avail: int)
    requires ValidSize(size) && 0 <= tail && 0 < avail <= size
    ensures var c := Offer(Unbounded, size, take, tail, avail);
      ConsumerInv(size, c, tail, tail + avail) && c.Handed() == 0 && c.Dropped() == 0
  {
    var beg, end := tail % size, (tail + avail) % size;
    MaskIsRemainder(size, tail);
    MaskIsRemainder(size, tail + avail);
    OfferedRange(size, tail, avail);
    if !take.Single? {
      if end > beg { OneRange(size, take, tail, avail, beg); } else { TwoRanges(size, take, tail, avail, beg, end); }
    }
  }

  lemma OneRange(size: nat, take: Take, tail: int, avail: int, beg: nat)
    requires size > 0 && 0 <= tail && 0 < avail && !take.Single? && beg == tail % size && beg + avail < size
    ensures RangeInv(size, tail, tail + avail, take, tail, 0, beg, Min(take.Wants(0, false), avail), -1)
  {
  }

  lemma TwoRanges(size: nat, take: Take, tail: int, avail: int, beg: nat, end: nat)
    requires size > 0 && 0 <= tail && !take.Single? && beg == tail % size && size - beg <= avail
    requires end == avail - (size - beg)
    ensures var k := Min(take.Wants(0, false), size - beg);
      RangeInv(size, tail, tail + avail, take, tail, 0, beg, k, if k == size - beg then end else -1)
  {
  }

  lemma ConsumerKeepsInv<T>(size: nat, s: State<T>)
    requires Inv(size, s)
    ensures Inv(size, ConsumerStep(Unbounded, size, s))
  {
    match s.cons
    case CIdle =>
    case CLoad(_) => SameCells(size, s, ConsumerStep(Unbounded, size, s));
    case CTest(_, _) => LookKeepsInv(size, s);
    case CRefresh(_, _) => LookKeepsInv(size, s);
    case CRead(_, _, _, _, _, _, _) => ReadKeepsInv(size, s);
    case CDrop(_, _, _, _, _, _, _) => DropKeepsInv(size, s);
    case CStore(_, _, _) => StoreKeepsInv(size, s);
  }

  lemma LookKeepsInv<T>(size: nat, s: State<T>)
    requires Inv(size, s) && (s.cons.CTest? || s.cons.CRefresh?)
    ensures Inv(size, ConsumerStep(Unbounded, size, s))
  {
    var s' := ConsumerStep(Unbounded, size, s);
    var tail := s.cons.tail;
    if s'.consHead == tail {
      SameCells(size, s, s');
    } else {
      OfferKeepsInv(size, s, s', s.cons.take, tail, s'.consHead - tail);
    }
  }

  lemma ReadKeepsInv<T>(size: nat, s: State<T>)
    requires Inv(size, s) && s.cons.CRead?
    ensures Inv(size, ConsumerStep(Unbounded, size, s))
  {
    if s.cons.i == s.cons.k {
      EndOfRangeKeepsInv(size, s);
    } else if s.cons.take == Single(false) {
      RefuseKeepsInv(size, s);
    } else {
      MoveOutKeepsInv(size, s);
    }
  }

  lemma EndOfRangeKeepsInv<T>(size: nat, s: State<T>)
    requires Inv(size, s) && s.cons.CRead? && s.cons.i == s.cons.k
    ensures Inv(size, ConsumerStep(Unbounded, size, s))
  {
    var CRead(take, tail, done, base, k, i, next) := s.cons;
    var s' := ConsumerStep(Unbounded, size, s);
    assert s' == s.(cons := CDrop(take, tail, done, base, k, 0, next));
    SameCells(size, s, s');
  }

  /** The callback of a single consume sees a constructed element, and may leave it. */
  lemma RefuseKeepsInv<T>(size: nat, s: State<T>)
    requires Inv(size, s) && s.cons.CRead? && s.cons.i < s.cons.k && s.cons.take == Single(false)
    ensures Inv(size, ConsumerStep(Unbounded, size, s))
  {
    var s' := ConsumerStep(Unbounded, size, s);
    CellInRange(size, s, s.cons.tail + s.cons.done, 0);
    assert s' == s.(cons := CIdle);
    SameCells(size, s, s');
  }

  /** The cell at offset i of the range being consumed is the cell of the matching element. */
  lemma CellInRange<T>(size: nat, s: State<T>, first: int, i: nat)
    requires |s.buff| == size > 0 && s.atomicHead == |s.sent| && CellsInv(size, s)
    requires 0 <= s.atomicTail <= first && first + i < s.atomicTail + size && first % size + i < size
    ensures (first + i) % size == first % size + i
    ensures s.buff[first % size + i] == Expected(s, first + i)
  {
    SlotInRange(size, first, i);
    assert CellAt(size, s, first + i) == Expected(s, first + i);
  }

  lemma MoveOutKeepsInv<T>(size: nat, s: State<T>)
    requires Inv(size, s) && s.cons.CRead? && s.cons.i < s.cons.k && s.cons.take != Single(false)
    ensures Inv(size, ConsumerStep(Unbounded, size, s))
  {
    var CRead(take, tail, done, base, k, i, next) := s.cons;
    var s' := ConsumerStep(Unbounded, size, s);
    var j := tail + done + i;
    CellInRange(size, s, tail + done, i);
    assert s' == s.(buff := s.buff[base + i := Moved], got := s.got + [s.sent[j]],
                    cons := CRead(take, tail, done, base, k, i + 1, next));
    assert s'.got == s.sent[..j + 1];
    SmallStepKeepsCells(size, s, s', j, Moved);
  }

  lemma DropKeepsInv<T>(size: nat, s: State<T>)
    requires Inv(size, s) && s.cons.CDrop?
    ensures Inv(size, ConsumerStep(Unbounded, size, s))
  {
    if s.cons.i < s.cons.k { DestroyKeepsInv(size, s); } else { NextRangeKeepsInv(size, s); }
  }

  lemma SecondRange(size: nat, atomicTail: int, consHead: int, take: Take, tail: int, base: nat, k: nat, next: int)
    requires size > 0 && 0 <= tail && next >= 0 && consHead <= tail + size
    requires RangeInv(size, atomicTail, consHead, take, tail, 0, base, k, next)
    ensures RangeInv(size, atomicTail, consHead, take, tail, k, 0, Min(take.Wants(k, true), next), -1)
  {
    WrapsToStart(size, tail, k);
  }

  lemma NextRangeKeepsInv<T>(size: nat, s: State<T>)
    requires Inv(size, s) && s.cons.CDrop? && s.cons.i == s.cons.k
    ensures Inv(size, ConsumerStep(Unbounded, size, s))
  {
    var s' := ConsumerStep(Unbounded, size, s);
    assert s' == s.(cons := s'.cons);
    if s.cons.next >= 0 {
      SecondRange(size, s.atomicTail, s.consHead, s.cons.take, s.cons.tail, s.cons.base, s.cons.k, s.cons.next);
    }
    hide CellsInv, RangeInv;
    SameCells(size, s, s');
  }

  lemma DestroyKeepsInv<T>(size: nat, s: State<T>)
    requires Inv(size, s) && s.cons.CDrop? && s.cons.i < s.cons.k
    ensures Inv(size, ConsumerStep(Unbounded, size, s))
  {
    var CDrop(take, tail, done, base, k, i, next) := s.cons;
    var s' := ConsumerStep(Unbounded, size, s);
    var j := tail + done + i;
    CellInRange(size, s, tail + done, i);
    assert s' == s.(buff := s.buff[base + i := Raw], cons := CDrop(take, tail, done, base, k, i + 1, next));
    SmallStepKeepsCells(size, s, s', j, Raw);
  }

  lemma StoreKeepsInv<T>(size: nat, s: State<T>)
    requires Inv(size, s) && s.cons.CStore?
    ensures Inv(size, ConsumerStep(Unbounded, size, s))
  {
    var s' := ConsumerStep(Unbounded, size, s);
    var t' := s.atomicTail + s.cons.taken;
    assert s' == s.(atomicTail := t', cons := CIdle);
    forall j | t' <= j < t' + size && 0 <= j
      ensures CellAt(size, s', j) == Expected(s', j)
    {
      if j < s.atomicTail + size {
        assert CellAt(size, s, j) == Expected(s, j);
      } else {
        FreedCell(size, s, j);
      }
    }
  }

  /** The cell of an index that enters the window is that of a destroyed element a ring earlier. */
  lemma FreedCell<T>(size: nat, s: State<T>, j: int)
    requires |s.buff| == size > 0 && s.atomicHead == |s.sent| && CellsInv(size, s) && 0 <= s.atomicTail
    requires s.atomicTail + size <= j < s.atomicTail + s.cons.Dropped() + size && s.cons.Dropped() <= size
    ensures s.buff[j % size] == Raw
  {
    var i := j - size;
    assert CellAt(size, s, i) == Expected(s, i);
    assert i == (i / size) * size + i % size;
    assert (i / size + 1) * size == (i / size) * size + size;
    RemainderUnique(j, size, i / size + 1, i % size);
  }

  lemma {:induction false} RunInv<T>(size: nat, acts: seq<Action<T>>)
    requires ValidSize(size)
    ensures Inv(size, Run(Unbounded, size, acts))
  {
    if acts == [] {
      InitInv<T>(size);
    } else {
      RunInv(size, acts[..|acts| - 1]);
      StepInv(size, Run(Unbounded, size, acts[..|acts| - 1]), acts[|acts| - 1]);
    }
  }

  lemma StepInv<T>(size: nat, s: State<T>, a: Action<T>)
    requires Inv(size, s)
    ensures Inv(size, Step(Unbounded, size, s, a))
  {
    var s' := Step(Unbounded, size, s, a);
    match a
    case StepProducer => ProducerKeepsInv(size, s);
    case StepConsumer => ConsumerKeepsInv(size, s);
    case BeginTake(_) => SameCells(size, s, s');
    case BeginPush(_) => SameCells(size, s, s');
  }
}
