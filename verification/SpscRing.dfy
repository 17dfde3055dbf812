/** The ring's member functions over its buffer, each called on its own. */
module SpscRing {
  import opened Words
  import opened SpscSteps

  /** What a caller can see of a ring: counters without wrap-around, the stale copies, and the elements. */
  datatype View<T> = View(head: nat, tail: nat, prodTail: nat, consHead: nat, queue: seq<T>)

  ghost predicate ValidView<T>(size: nat, v: View<T>) {
    && v.prodTail <= v.tail <= v.consHead <= v.head <= v.prodTail + size
    && |v.queue| == v.head - v.tail
  }

  /** The consumer looks at the producer's counter only when its copy says that there is nothing left. */
  function Look<T>(v: View<T>): nat {
    if v.consHead == v.tail then v.head else v.consHead
  }

  function PopCount<T>(v: View<T>, sz: nat): nat {
    if Look(v) - v.tail < 0 then 0 else Min(sz, Look(v) - v.tail)
  }

  function Popped<T>(v: View<T>, sz: nat): View<T> {
    var k := PopCount(v, sz);
    View(v.head, v.tail + k, v.prodTail, Look(v), if k <= |v.queue| then v.queue[k..] else [])
  }

  function PoppedTimes<T>(v: View<T>, k: nat): View<T>
    decreases k
  {
    if k == 0 then v else PoppedTimes(Popped(v, 1), k - 1)
  }

  /** The elements that k single pops return. */
  function TakenTimes<T>(v: View<T>, k: nat): seq<T>
    decreases k
  {
    if k == 0 then []
    else (if PopCount(v, 1) == 1 && v.queue != [] then [v.queue[0]] else []) + TakenTimes(Popped(v, 1), k - 1)
  }

  /** A bulk pop that returns k > 0 elements is k single pops: same outputs, same state. */
  lemma {:induction false} BulkPopIsSinglePops<T>(size: nat, v: View<T>, sz: nat)
    requires ValidView(size, v)
    ensures var k := PopCount(v, sz);
      && k <= |v.queue|
      && TakenTimes(v, k) == v.queue[..k]
      && (k > 0 ==> PoppedTimes(v, k) == Popped(v, sz))
    decreases PopCount(v, sz)
  {
    var k := PopCount(v, sz);
    if k > 0 {
      var w := Popped(v, 1);
      BulkPopIsSinglePops(size, w, k - 1);
      assert v.queue[..k] == [v.queue[0]] + w.queue[..k - 1];
      if k > 1 {
        assert w.queue[k - 1..] == v.queue[k..];
      } else {
        assert PoppedTimes(w, 0) == w;
      }
    }
  }

  /** The first `moved` elements of the queue are moved from, the others constructed, other cells are raw. */
  ghost predicate CellsOf<T>(size: nat, cells: seq<Cell<T>>, v: View<T>, moved: nat)
    requires size > 0
  {
    && |cells| == size && |v.queue| <= size
    && forall j :: v.tail <= j < v.tail + size ==> cells[j % size] == CellOf(v, moved, j - v.tail)
  }

  ghost function CellOf<T>(v: View<T>, moved: nat, i: int): Cell<T>
    requires 0 <= i
  {
    if i < moved then Moved else if i < |v.queue| then Live(v.queue[i]) else Raw
  }

  lemma ConstructCell<T>(size: nat, cells: seq<Cell<T>>, v: View<T>, x: T)
    requires size > 0 && CellsOf(size, cells, v, 0) && |v.queue| < size && v.head == v.tail + |v.queue|
    ensures cells[v.head % size] == Raw
    ensures CellsOf(size, cells[v.head % size := Live(x)], v.(head := v.head + 1, queue := v.queue + [x]), 0)
  {
    var v' := v.(head := v.head + 1, queue := v.queue + [x]);
    assert cells[v.head % size] == CellOf(v, 0, |v.queue|);
    forall j | v.tail <= j < v.tail + size
      ensures cells[v.head % size := Live(x)][j % size] == CellOf(v', 0, j - v.tail)
    {
      if j != v.head { DistinctSlots(size, j, v.head); }
    }
  }

  lemma MoveCell<T>(size: nat, cells: seq<Cell<T>>, v: View<T>, moved: nat)
    requires size > 0 && CellsOf(size, cells, v, moved) && moved < |v.queue|
    ensures cells[(v.tail + moved) % size] == Live(v.queue[moved])
    ensures CellsOf(size, cells[(v.tail + moved) % size := Moved], v, moved + 1)
  {
    var p := v.tail + moved;
    assert cells[p % size] == CellOf(v, moved, moved);
    forall j | v.tail <= j < v.tail + size
      ensures cells[p % size := Moved][j % size] == CellOf(v, moved + 1, j - v.tail)
    {
      if j != p { DistinctSlots(size, j, p); }
    }
  }

  function Released<T>(v: View<T>, k: nat): View<T>
    requires k <= |v.queue|
  {
    v.(tail := v.tail + k, queue := v.queue[k..])
  }

  lemma DestroyCell<T>(size: nat, cells: seq<Cell<T>>, v: View<T>, moved: nat)
    requires size > 0 && CellsOf(size, cells, v, moved) && 0 < moved <= |v.queue|
    ensures cells[v.tail % size] == Moved
    ensures CellsOf(size, cells[v.tail % size := Raw], Released(v, 1), moved - 1)
  {
    assert cells[v.tail % size] == CellOf(v, moved, 0);
    var w := Released(v, 1);
    forall j | w.tail <= j < w.tail + size
      ensures cells[v.tail % size := Raw][j % size] == CellOf(w, moved - 1, j - w.tail)
    {
      if j == v.tail + size {
        NextLap(size, v.tail);
      } else {
        DistinctSlots(size, j, v.tail);
        assert cells[j % size] == CellOf(v, moved, j - v.tail);
      }
    }
  }

  class Ring<T> {
    const size: nat
    var atomicHead: nat
    var prodTail: nat
    var atomicTail: nat
    var consHead: nat
    const buff: array<Cell<T>>
    ghost var view: View<T>

    ghost predicate Valid()
      reads this, buff
    {
      && ValidSize(size) && ValidView(size, view)
      && atomicHead == Wrap64(view.head) && prodTail == Wrap64(view.prodTail)
      && atomicTail == Wrap64(view.tail) && consHead == Wrap64(view.consHead)
      && CellsOf(size, buff[..], view, 0)
    }

    constructor (size: nat)
      requires ValidSize(size)
      ensures Valid() && fresh(buff) && this.size == size
      ensures view == View(0, 0, 0, 0, [])
    {
      this.size := size;
      atomicHead, prodTail, atomicTail, consHead := 0, 0, 0, 0;
      buff := new Cell<T>[size](_ => Raw);
      view := View(0, 0, 0, 0, []);
    }

    /** Fails exactly when the ring holds `size` elements, and then changes no element. */
    method TryPush(v: T) returns (ok: bool)
      requires Valid()
      modifies this`atomicHead, this`prodTail, this`view, buff
      ensures Valid()
      ensures ok == (|old(view.queue)| < size)
      ensures view.queue == if ok then old(view.queue) + [v] else old(view.queue)
      ensures view.head == old(view.head) + (if ok then 1 else 0)
      ensures view.tail == old(view.tail) && view.consHead == old(view.consHead)
      ensures view.prodTail == if old(view.head - view.prodTail) == size then old(view.tail) else old(view.prodTail)
    {
      var prodHead := atomicHead;
      CounterGaps();
      if Wrap64(prodHead - prodTail) == size {
        var used := LookAtTail();
        if used == size {
          return false;
        }
      }
      var pos := Slot(size, prodHead);
      ConstructAt(pos, v, view);
      atomicHead := Wrap64(prodHead + 1);
      WrappedSum(view.head, 1);
      view := view.(head := view.head + 1, queue := view.queue + [v]);
      return true;
    }

    /** Pushes a prefix as long as the room allows: short only when the ring ends up full. */
    method TryPushMany(from: seq<T>) returns (n: nat)
      requires Valid()
      modifies this`atomicHead, this`prodTail, this`view, buff
      ensures Valid()
      ensures n == Min(|from|, size - |old(view.queue)|)
      ensures view.queue == old(view.queue) + from[..n]
      ensures view.head == old(view.head) + n
      ensures view.tail == old(view.tail) && view.consHead == old(view.consHead)
      ensures view.prodTail ==
              if old(view.head - view.prodTail) + |from| > size then old(view.tail) else old(view.prodTail)
    {
      hide CellsOf, ValidSize, Wrap64;
      var prodHead := atomicHead;
      CounterGaps();
      var cntAvail := size - Wrap64(prodHead - prodTail);
      if cntAvail < |from| {
        var used := LookAtTail();
        cntAvail := size - used;
        if cntAvail == 0 {
          return 0;
        }
      }
      n := Min(|from|, cntAvail);
      var next := ConstructRange(prodHead, from[..n], view);
      atomicHead := next;
      view := view.(head := view.head + n, queue := view.queue + from[..n]);
    }

    /** The single consume with the callback's answer as a parameter. A refused element stays in place. */
    method TryConsume(accept: bool) returns (ok: bool, shown: seq<T>)
      requires Valid()
      modifies this`atomicTail, this`consHead, this`view, buff
      ensures Valid()
      ensures shown == if old(view.queue) == [] then [] else [old(view.queue)[0]]
      ensures ok == (accept && old(view.queue) != [])
      ensures view.queue == if ok then old(view.queue)[1..] else old(view.queue)
      ensures view.head == old(view.head) && view.tail == old(view.tail) + if ok then 1 else 0
      ensures view.prodTail == old(view.prodTail)
      ensures view.consHead == if old(view.consHead) == old(view.tail) then old(view.head) else old(view.consHead)
    {
      var consTail := atomicTail;
      var cntAvail := LookAtHead();
      if cntAvail == 0 {
        return false, [];
      }
      var pos := Slot(size, consTail);
      ghost var now := view;
      ok, shown := ConsumeAt(pos, accept, now);
      if ok {
        atomicTail := Wrap64(consTail + 1);
        WrappedSum(now.tail, 1);
        view := Released(now, 1);
      }
    }

    /** The bulk pop: the bulk consume with the callback that copies out at most `sz` elements. */
    method TryPopMany(to: array<T>, sz: nat) returns (consumed: nat)
      requires Valid() && sz <= to.Length && to as object != buff
      modifies this`atomicTail, this`consHead, this`view, buff, to
      ensures Valid()
      ensures consumed == Min(sz, if old(view.consHead) == old(view.tail) then |old(view.queue)|
                                  else old(view.consHead - view.tail))
      ensures consumed <= |old(view.queue)|
      ensures to[..consumed] == old(view.queue)[..consumed] && to[consumed..] == old(to[consumed..])
      ensures view.queue == old(view.queue)[consumed..]
      ensures view == Popped(old(view), sz)
    {
      hide CellsOf, ValidSize, Wrap64;
      ghost var was := view;
      var consTail := atomicTail;
      var cntAvail := LookAtHead();
      if cntAvail == 0 {
        return 0;
      }
      ghost var now := view;
      consumed := TakeAvailable(consTail, cntAvail, to, sz, now);
      atomicTail := Wrap64(consTail + consumed);
      WrappedSum(now.tail, consumed);
      view := Released(now, consumed);
      assert view == Popped(was, sz);
    }

    /** The destructor: pops into a scratch array until a pop returns nothing. */
    method Drain(scratch: array<T>) returns (ghost gone: seq<T>)
      requires Valid() && scratch.Length == Min(16, size) && scratch as object != buff
      modifies this`atomicTail, this`consHead, this`view, buff, scratch
      ensures Valid()
      ensures gone == old(view.queue) && view.queue == [] && view.head == old(view.head)
      ensures forall i :: 0 <= i < size ==> buff[i] == Raw
    {
      assert size > 0 && buff.Length == size;
      hide CellsOf, ValidSize;
      gone := [];
      var n := TryPopMany(scratch, scratch.Length);
      gone := scratch[..n];
      while n > 0
        invariant Valid() && gone + view.queue == old(view.queue) && view.head == old(view.head)
        invariant n == 0 ==> view.queue == []
        decreases |view.queue|, n
      {
        n := TryPopMany(scratch, scratch.Length);
        gone := gone + scratch[..n];
      }
      AllRaw(size, buff[..], view);
      assert forall i :: 0 <= i < size ==> buff[i] == buff[..][i];
    }

    /** What any thread may compute from the two shared counters. */
    method CountPopSlots() returns (n: nat)
      requires Valid()
      ensures n == |view.queue|
    {
      CounterGaps();
      n := Wrap64(atomicHead - atomicTail);
    }

    lemma CounterGaps()
      requires Valid()
      ensures Wrap64(atomicHead - prodTail) == view.head - view.prodTail <= size
      ensures Wrap64(atomicHead - atomicTail) == view.head - view.tail <= size
      ensures Wrap64(consHead - atomicTail) == view.consHead - view.tail <= size
    {
      WrappedDifference(view.head, view.prodTail);
      WrappedDifference(view.head, view.tail);
      WrappedDifference(view.consHead, view.tail);
    }

    /** Placement construction of one element past the elements of `now`. */
    method ConstructAt(pos: nat, v: T, ghost now: View<T>)
      requires ValidSize(size) && CellsOf(size, buff[..], now, 0) && |now.queue| < size
      requires now.head == now.tail + |now.queue| && pos == Slot(size, Wrap64(now.head))
      modifies buff
      ensures CellsOf(size, buff[..], now.(head := now.head + 1, queue := now.queue + [v]), 0)
    {
      RingSlot(size, now.head);
      ConstructCell(size, buff[..], now, v);
      assert buff[pos].Raw?;
      buff[pos] := Live(v);
    }

    /** The loop of the bulk push; returns the producer's counter after the new elements. */
    method ConstructRange(prodHead: nat, items: seq<T>, ghost now: View<T>) returns (next: nat)
      requires ValidSize(size) && CellsOf(size, buff[..], now, 0) && |now.queue| + |items| <= size
      requires now.head == now.tail + |now.queue| && prodHead == Wrap64(now.head)
      modifies buff
      ensures CellsOf(size, buff[..], now.(head := now.head + |items|, queue := now.queue + items), 0)
      ensures next == Wrap64(now.head + |items|)
    {
      next := prodHead;
      ghost var cur := now;
      assert now.queue + items[..0] == now.queue;
      for i := 0 to |items|
        invariant next == Wrap64(now.head + i)
        invariant cur == now.(head := now.head + i, queue := now.queue + items[..i])
        invariant CellsOf(size, buff[..], cur, 0)
      {
        var pos := Slot(size, next);
        ConstructAt(pos, items[i], cur);
        assert now.queue + items[..i + 1] == cur.queue + [items[i]];
        cur := cur.(head := cur.head + 1, queue := cur.queue + [items[i]]);
        WrappedSum(now.head + i, 1);
        next := Wrap64(next + 1);
      }
      assert items[..|items|] == items;
    }

    /** The load of the consumer's counter; returns how many slots are in use. */
    method LookAtTail() returns (used: nat)
      requires Valid()
      modifies this`prodTail, this`view
      ensures Valid()
      ensures view == old(view).(prodTail := old(view).tail) && used == |view.queue|
    {
      CounterGaps();
      prodTail := atomicTail;
      view := view.(prodTail := view.tail);
      used := Wrap64(atomicHead - prodTail);
    }

    /** The available count: the shared counter is loaded only when the cached one shows nothing. */
    method LookAtHead() returns (cntAvail: nat)
      requires Valid()
      modifies this`consHead, this`view
      ensures Valid()
      ensures view == old(view).(consHead := Look(old(view))) && cntAvail == view.consHead - view.tail
      ensures cntAvail == 0 ==> view.queue == []
    {
      CounterGaps();
      cntAvail := Wrap64(consHead - atomicTail);
      if cntAvail == 0 {
        consHead := atomicHead;
        view := view.(consHead := view.head);
        cntAvail := Wrap64(consHead - atomicTail);
      }
    }

    /** The callback on one element, and its destruction when the callback accepts it. */
    method ConsumeAt(pos: nat, accept: bool, ghost now: View<T>) returns (ok: bool, shown: seq<T>)
      requires ValidSize(size) && CellsOf(size, buff[..], now, 0) && now.queue != []
      requires pos == Slot(size, Wrap64(now.tail))
      modifies buff
      ensures ok == accept && shown == now.queue[..1]
      ensures CellsOf(size, buff[..], if ok then Released(now, 1) else now, 0)
    {
      RingSlot(size, now.tail);
      MoveCell(size, buff[..], now, 0);
      ok, shown := accept, [buff[pos].value];
      if accept {
        buff[pos] := Moved;
        DestroyCell(size, buff[..], now, 1);
        buff[pos] := Raw;
      }
    }

    /** Finds where the available elements begin and end in the buffer, and consumes from there. */
    method TakeAvailable(consTail: nat, cntAvail: nat, to: array<T>, sz: nat, ghost now: View<T>)
      returns (consumed: nat)
      requires ValidSize(size) && CellsOf(size, buff[..], now, 0)
      requires sz <= to.Length && to as object != buff
      requires 0 < cntAvail <= |now.queue| && consTail == Wrap64(now.tail)
      modifies buff, to
      ensures consumed == Min(sz, cntAvail)
      ensures CellsOf(size, buff[..], Released(now, consumed), 0)
      ensures forall j :: 0 <= j < consumed ==> to[j] == now.queue[j]
      ensures forall j :: consumed <= j < to.Length ==> to[j] == old(to[j])
    {
      var beg := Slot(size, consTail);
      var end := Slot(size, Wrap64(consTail + cntAvail));
      RangeSlots(size, now.tail, cntAvail);
      consumed := TakeRanges(beg, end, cntAvail, to, sz, now);
    }

    /** The bulk consume of the available elements: one range, or two when these wrap. */
    method TakeRanges(beg: nat, end: nat, cntAvail: nat, to: array<T>, sz: nat, ghost now: View<T>)
      returns (consumed: nat)
      requires ValidSize(size) && CellsOf(size, buff[..], now, 0)
      requires sz <= to.Length && to as object != buff
      requires 0 < cntAvail <= |now.queue| && beg == now.tail % size
      requires end > beg ==> beg + cntAvail == end <= size
      requires end <= beg ==> size - beg <= cntAvail && end == cntAvail - (size - beg)
      requires (now.tail + (size - beg)) % size == 0
      modifies buff, to
      ensures consumed == Min(sz, cntAvail)
      ensures CellsOf(size, buff[..], Released(now, consumed), 0)
      ensures forall j :: 0 <= j < consumed ==> to[j] == now.queue[j]
      ensures forall j :: consumed <= j < to.Length ==> to[j] == old(to[j])
    {
      assert size > 0 && buff.Length == size;
      hide CellsOf, ValidSize;
      if end > beg {
        consumed := Min(sz, cntAvail);
        TakeRange(beg, consumed, to, 0, now);
      } else {
        var cnt := size - beg;
        consumed := Min(sz, cnt);
        TakeRange(beg, consumed, to, 0, now);
        if cnt == consumed {
          var more := Min(sz - consumed, end);
          ghost var rest := Released(now, consumed);
          TakeRange(0, more, to, consumed, rest);
          forall j | consumed <= j < consumed + more ensures to[j] == now.queue[j] {
            assert to[consumed + (j - consumed)] == rest.queue[j - consumed];
          }
          assert Released(rest, more) == Released(now, consumed + more);
          consumed := consumed + more;
        }
      }
    }

    /** One range of a bulk consume: the callback moves k elements out, then these are destroyed. */
    method TakeRange(base: nat, k: nat, to: array<T>, off: nat, ghost now: View<T>)
      requires ValidSize(size) && CellsOf(size, buff[..], now, 0)
      requires base + k <= size && k <= |now.queue| && (k > 0 ==> base == now.tail % size) && off + k <= to.Length
      requires to as object != buff
      modifies buff, to
      ensures CellsOf(size, buff[..], Released(now, k), 0)
      ensures forall j :: 0 <= j < k ==> to[off + j] == now.queue[j]
      ensures forall j :: 0 <= j < to.Length && !(off <= j < off + k) ==> to[j] == old(to[j])
    {
      assert size > 0 && buff.Length == size;
      hide CellsOf, ValidSize;
      var i := 0;
      while i < k
        invariant i <= k && CellsOf(size, buff[..], now, i)
        invariant forall j :: 0 <= j < i ==> to[off + j] == now.queue[j]
        invariant forall j :: 0 <= j < to.Length && !(off <= j < off + i) ==> to[j] == old(to[j])
      {
        MoveCell(size, buff[..], now, i);
        SlotInRange(size, now.tail, i);
        to[off + i] := buff[base + i].value;
        buff[base + i] := Moved;
        i := i + 1;
      }
      DestroyRange(base, k, now);
    }

    method DestroyRange(base: nat, k: nat, ghost now: View<T>)
      requires ValidSize(size) && CellsOf(size, buff[..], now, k)
      requires base + k <= size && k <= |now.queue| && (k > 0 ==> base == now.tail % size)
      modifies buff
      ensures CellsOf(size, buff[..], Released(now, k), 0)
    {
      var i := 0;
      while i < k
        invariant i <= k && CellsOf(size, buff[..], Released(now, i), k - i)
      {
        DestroyCell(size, buff[..], Released(now, i), k - i);
        SlotInRange(size, now.tail, i);
        assert Released(Released(now, i), 1) == Released(now, i + 1);
        buff[base + i] := Raw;
        i := i + 1;
      }
    }
  }

  lemma RingSlot(size: nat, counter: nat)
    requires ValidSize(size)
    ensures Slot(size, Wrap64(counter)) == counter % size
  {
    SlotSurvivesWrap(size, counter);
    MaskIsRemainder(size, counter);
  }

  lemma RangeSlots(size: nat, tail: nat, cntAvail: nat)
    requires ValidSize(size) && 0 < cntAvail <= size
    ensures var beg, end := Slot(size, Wrap64(tail)), Slot(size, Wrap64(Wrap64(tail) + cntAvail));
      && beg == tail % size
      && (end > beg ==> beg + cntAvail == end)
      && (end <= beg ==> size - beg <= cntAvail && end == cntAvail - (size - beg))
      && (tail + (size - beg)) % size == 0
  {
    RingSlot(size, tail);
    WrappedSum(tail, cntAvail);
    RingSlot(size, tail + cntAvail);
    OfferedRange(size, tail, cntAvail);
    WrapsToStart(size, tail, size - tail % size);
  }

  lemma NextLap(size: nat, j: nat)
    requires size > 0
    ensures (j + size) % size == j % size
  {
    assert j == (j / size) * size + j % size;
    assert (j / size + 1) * size == (j / size) * size + size;
    RemainderUnique(j + size, size, j / size + 1, j % size);
  }

  lemma AllRaw<T>(size: nat, cells: seq<Cell<T>>, v: View<T>)
    requires size > 0 && CellsOf(size, cells, v, 0) && v.queue == []
    ensures forall i :: 0 <= i < size ==> cells[i] == Raw
  {
    forall i | 0 <= i < size ensures cells[i] == Raw {
      var j := SomeIndex(size, v.tail, i);
      assert cells[j % size] == CellOf(v, 0, j - v.tail);
    }
  }

  /** Every slot belongs to an index of the window that starts at t. */
  lemma SomeIndex(size: nat, t: nat, i: nat) returns (j: nat)
    requires i < size
    ensures t <= j < t + size && j % size == i
  {
    var q := t / size;
    assert t == q * size + t % size && (q + 1) * size == q * size + size;
    if i >= t % size {
      j := q * size + i;
      RemainderUnique(j, size, q, i);
    } else {
      j := (q + 1) * size + i;
      RemainderUnique(j, size, q + 1, i);
    }
  }
}
