/** A queue of messages between the two threads, over a ring. */
module Messages {
  import opened Words
  import opened SpscRing
  import opened Protocol

  class MessagesQueue<M(0)> {
    const impl: Ring<M>

    ghost predicate Valid()
      reads impl, impl.buff
    {
      impl.Valid()
    }

    ghost function Content(): seq<M>
      reads impl
    {
      impl.view.queue
    }

    constructor (capacity: nat)
      requires ValidSize(capacity)
      ensures fresh(impl) && fresh(impl.buff) && Valid() && Content() == [] && impl.size == capacity
    {
      impl := new Ring<M>(capacity);
    }

    method Enqueue(msg: M) returns (ok: bool)
      requires Valid()
      modifies impl, impl.buff
      ensures Valid() && ok == (|old(Content())| < impl.size)
      ensures Content() == if ok then old(Content()) + [msg] else old(Content())
    {
      ok := impl.TryPush(msg);
    }

    /** Pops into a local array of at most 8 messages: these, or all that the consumer's copy of the counter shows, or
        all that wait when it shows none. */
    method Dequeue() returns (msgs: seq<M>)
      requires Valid()
      modifies impl, impl.buff
      ensures Valid() && msgs + Content() == old(Content())
      ensures |msgs| == Min(8, if old(impl.view.consHead) == old(impl.view.tail) then |old(Content())|
                               else old(impl.view.consHead - impl.view.tail))
      ensures |msgs| <= MAX_BATCH && (msgs == [] <==> old(Content()) == [])
    {
      var local := new M[if impl.size < MAX_BATCH then impl.size else MAX_BATCH];
      ghost var was := impl.view;
      var cnt := impl.TryPopMany(local, local.Length);
      assert impl.view.queue == was.queue[cnt..];
      msgs := local[..cnt];
    }
  }
}
