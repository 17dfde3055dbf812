/** Loading a capture file into chains of packet buffers. */
module CaptureLoader {
  import opened Words
  import opened Wrappers
  import opened Capture
  import opened Headers
  import Cycles

  /** A file opened for reading, with its position and its end-of-file indicator. */
  class File {
    const data: seq<Byte>
    var pos: nat
    var eof: bool

    ghost predicate Valid()
      reads this
    {
      pos <= |data|
    }

    ghost function Left(): seq<Byte>
      requires Valid()
      reads this
    {
      data[pos..]
    }

    constructor (data: seq<Byte>)
      ensures this.data == data && pos == 0 && !eof
    {
      this.data := data;
      pos, eof := 0, false;
    }

    /** Reads one item of n bytes. An item of no bytes is never read; one that the file does not hold sets the
        end-of-file indicator and takes what is left. */
    method Read(n: nat) returns (ok: bool, bytes: seq<Byte>)
      requires Valid()
      modifies this
      ensures Valid() && ok == (0 < n <= |old(Left())|)
      ensures eof == (old(eof) || n > |old(Left())|)
      ensures bytes == old(Left())[..Min(n, |old(Left())|)] && Left() == old(Left())[|bytes|..]
    {
      var cnt := Min(n, |data| - pos);
      bytes := data[pos..pos + cnt];
      pos := pos + cnt;
      eof := eof || cnt < n;
      ok := n > 0 && cnt == n;
    }
  }

  /** A packet buffer of a fixed size. The head of a chain also counts the chain's bytes and segments. */
  class Mbuf {
    const room: nat
    var next: Mbuf?
    var data: seq<Byte>
    var dataLen: nat
    var pktLen: nat
    var nbSegs: nat
    /** The place in the chain. */
    ghost var index: nat

    constructor (room: nat)
      ensures this.room == room && next == null && data == [] && dataLen == 0 && pktLen == 0 && nbSegs == 1
      ensures index == 0
    {
      this.room := room;
      next, data, dataLen, pktLen, nbSegs, index := null, [], 0, 0, 1, 0;
    }

    method Tailroom() returns (n: nat)
      requires dataLen <= room
      ensures n == room - dataLen
    {
      n := room - dataLen;
    }
  }

  /** These buffers make up one chain, and hold these bytes. */
  ghost predicate Chain(segs: seq<Mbuf>, parts: seq<seq<Byte>>)
    reads segs
  {
    && |segs| == |parts| > 0
    && (forall i :: 0 <= i < |segs| ==> Segment(segs[i], i, parts[i]))
    && (forall i :: 0 <= i < |segs| - 1 ==> segs[i].next == segs[i + 1])
    && segs[|segs| - 1].next == null
  }

  ghost predicate Segment(m: Mbuf, i: nat, part: seq<Byte>)
    reads m
  {
    m.index == i && m.data == part && m.dataLen == |part|
  }

  /** A loaded packet: its segments are the pieces of the payload, and its head counts them. */
  ghost predicate Packet(head: Mbuf, segs: seq<Mbuf>, payload: seq<Byte>, room: nat)
    reads head, segs
  {
    && Chain(segs, Chunks(payload, room)) && head == segs[0]
    && head.pktLen == |payload| && head.nbSegs == |segs| % U16
  }

  /** The bytes in a chain. */
  function Held(segs: seq<Mbuf>): seq<Byte>
    reads segs
  {
    if segs == [] then [] else segs[0].data + Held(segs[1..])
  }

  lemma {:induction false} HeldIsConcat(segs: seq<Mbuf>, parts: seq<seq<Byte>>)
    requires |segs| == |parts| && forall i :: 0 <= i < |segs| ==> segs[i].data == parts[i]
    ensures Held(segs) == Concat(parts)
  {
    if segs != [] { HeldIsConcat(segs[1..], parts[1..]); }
  }

  /** What a packet is: buffers linked from its head to the last, which together hold its bytes, full but for the last,
      with the length and the number of them in the head. */
  lemma PacketHolds(head: Mbuf, segs: seq<Mbuf>, payload: seq<Byte>, room: nat)
    requires Packet(head, segs, payload, room) && room > 0
    ensures |segs| > 0 && head == segs[0] && Held(segs) == payload
    ensures head.pktLen == |payload| && head.nbSegs == |segs| % 0x1_0000
    ensures forall i :: 0 <= i < |segs| ==>
              && segs[i].next == (if i == |segs| - 1 then null else segs[i + 1])
              && segs[i].dataLen == |segs[i].data| <= room
    ensures forall i :: 0 <= i < |segs| - 1 ==> |segs[i].data| == room
  {
    hide Chunks, Held;
    var parts := Chunks(payload, room);
    ChunksOfPayload(payload, room);
    assert forall i :: 0 <= i < |segs| ==> Segment(segs[i], i, parts[i]);
    HeldIsConcat(segs, parts);
  }

  function SetOf<T>(s: seq<T>): set<T> {
    set x | x in s
  }

  /** The pool: buffers in use, and how many are left. */
  class MbufPool {
    const room: nat
    var cntFree: nat
    ghost var live: set<Mbuf>

    constructor (room: nat, cnt: nat)
      ensures this.room == room && cntFree == cnt && live == {}
    {
      this.room := room;
      cntFree, live := cnt, {};
    }

    method Alloc() returns (m: Mbuf?)
      modifies this
      ensures m == null <==> old(cntFree) == 0
      ensures m == null ==> live == old(live) && cntFree == old(cntFree)
      ensures m != null ==> fresh(m) && live == old(live) + {m} && cntFree == old(cntFree) - 1
      ensures m != null ==> m.room == room && m.pktLen == 0 && m.nbSegs == 1 && m.next == null && Segment(m, 0, [])
    {
      if cntFree == 0 {
        return null;
      }
      cntFree := cntFree - 1;
      m := new Mbuf(room);
      live := live + {m};
    }

    /** Frees a whole chain, which must be in use: each of its buffers once. */
    method Free(head: Mbuf, ghost segs: seq<Mbuf>, ghost parts: seq<seq<Byte>>)
      requires Chain(segs, parts) && head == segs[0] && SetOf(segs) <= live
      modifies this
      ensures live == old(live) - SetOf(segs) && cntFree == old(cntFree) + |segs|
    {
      var m: Mbuf? := head;
      ghost var i: nat := 0;
      while m != null
        invariant Chain(segs, parts) && i <= |segs| && m == if i < |segs| then segs[i] else null
        invariant live == old(live) - SetOf(segs[..i]) && cntFree == old(cntFree) + i
        decreases |segs| - i
      {
        assert m in live by {
          assert m in SetOf(segs);
          assert Segment(segs[i], i, parts[i]);
          assert forall j :: 0 <= j < i ==> Segment(segs[j], j, parts[j]) ==> segs[j] != m;
        }
        assert SetOf(segs[..i + 1]) == SetOf(segs[..i]) + {segs[i]};
        var after := m.next;
        live := live - {m};
        cntFree := cntFree + 1;
        m := after;
        i := i + 1;
      }
      assert segs[..i] == segs;
    }
  }

  lemma GiveBack<T>(live: set<T>, segs: seq<T>, head: T)
    requires head in segs && forall m :: m in segs ==> m == head || m !in live
    ensures (live + SetOf(segs)) - SetOf(segs) == live - {head}
  {
  }

  datatype Error = FromRead | InvalidCapture | OutOfMemory

  class TcapLoader {
    const file: File

    constructor (file: File)
      ensures this.file == file
    {
      this.file := file;
    }

    /** Opens a capture, unless it does not begin as one. */
    static method Open(file: File) returns (loader: TcapLoader?)
      requires file.Valid()
      modifies file
      ensures file.Valid() && (loader != null <==> FileHeaderOk(old(file.Left())))
      ensures loader != null ==> fresh(loader) && loader.file == file && file.eof == old(file.eof)
      ensures loader != null ==> file.Left() == old(file.Left())[FILE_HEADER_SIZE..]
    {
      var ok, b := file.Read(FILE_HEADER_SIZE);
      if !ok || At32(b, 0) != PCAP_MAGIC || At16(b, 4) != PCAP_VERSION_MAJOR || At16(b, 6) != PCAP_VERSION_MINOR {
        return null;
      }
      loader := new TcapLoader(file);
    }

    /** One more buffer, linked to the last one of the chain. */
    method Extend(head: Mbuf, prev: Mbuf, pool: MbufPool, ghost segs: seq<Mbuf>, ghost parts: seq<seq<Byte>>)
      returns (curr: Mbuf?)
      requires Chain(segs, parts) && head == segs[0] && prev == segs[|segs| - 1] && head.nbSegs == |segs| % U16
      modifies pool, segs
      ensures curr == null <==> old(pool.cntFree) == 0
      ensures curr == null ==> Chain(segs, parts) && pool.live == old(pool.live) && pool.cntFree == 0
      ensures curr != null ==> fresh(curr) && curr.room == pool.room && curr.dataLen == 0
      ensures curr != null ==> Chain(segs + [curr], parts + [[]]) && head.nbSegs == (|segs| + 1) % U16
      ensures curr != null ==> pool.live == old(pool.live) + {curr} && pool.cntFree == old(pool.cntFree) - 1
      ensures head.pktLen == old(head.pktLen)
    {
      curr := pool.Alloc();
      if curr != null {
        prev.next := curr;
        curr.index := |segs|;
        head.nbSegs := (head.nbSegs + 1) % U16;
        ghost var more := segs + [curr];
        forall i | 0 <= i < |more| ensures Segment(more[i], i, (parts + [[]])[i]) {
          if i < |segs| {
            assert old(Segment(segs[i], i, parts[i]));
          }
        }
      }
    }

    /** One read into the last buffer, which is empty. */
    method Fill(head: Mbuf, curr: Mbuf, left: nat, ghost segs: seq<Mbuf>, ghost parts: seq<seq<Byte>>)
      returns (ok: bool, len: nat)
      requires file.Valid() && Chain(segs, parts + [[]]) && head == segs[0] && curr == segs[|segs| - 1]
      requires head.pktLen + left < U32
      modifies file, curr`data, curr`dataLen, head`pktLen
      ensures file.Valid() && len == Min(left, curr.room) && ok == (0 < len <= |old(file.Left())|)
      ensures file.eof == (old(file.eof) || len > |old(file.Left())|)
      ensures !ok ==> Chain(segs, parts + [[]])
      ensures ok ==> Chain(segs, parts + [old(file.Left())[..len]]) && file.Left() == old(file.Left())[len..]
      ensures ok ==> head.pktLen == old(head.pktLen) + len
      ensures head.nbSegs == old(head.nbSegs)
    {
      assert Segment(curr, |segs| - 1, (parts + [[]])[|segs| - 1]);
      var room := curr.Tailroom();
      len := Min(left, room);
      var bytes: seq<Byte>;
      ok, bytes := file.Read(len);
      if ok {
        curr.data, curr.dataLen := bytes, len;
        head.pktLen := (head.pktLen + len) % U32;
        forall i | 0 <= i < |segs| ensures Segment(segs[i], i, (parts + [bytes])[i]) {
          assert old(Segment(segs[i], i, (parts + [[]])[i]));
        }
      }
    }

    /** The loop's body: one more buffer when there is one before, and one read. */
    method NextSegment(head: Mbuf, prev: Mbuf?, left: nat, pool: MbufPool, ghost segs: seq<Mbuf>,
                       ghost parts: seq<seq<Byte>>)
      returns (error: Option<Error>, curr: Mbuf, len: nat, ghost more: seq<Mbuf>, ghost parts': seq<seq<Byte>>)
      requires file.Valid() && Chain(segs, parts) && head == segs[0] && head.nbSegs == |segs| % U16
      requires if prev == null then parts == [[]] else prev == segs[|segs| - 1]
      requires head.pktLen + left < U32 && head.room == pool.room
      modifies pool, file, segs
      ensures file.Valid() && Chain(more, parts')
      ensures more == segs + if prev == null || error == Some(OutOfMemory) then [] else [curr]
      ensures pool.live == old(pool.live) + SetOf(more[|segs|..]) && pool.cntFree + |more| == old(pool.cntFree) + |segs|
      ensures |more| > |segs| ==> fresh(curr)
      ensures len == Min(left, pool.room)
      ensures error == Some(OutOfMemory) ==> prev != null && file.eof == old(file.eof) && old(pool.cntFree) == 0
      ensures error != Some(OutOfMemory) ==> file.eof == (old(file.eof) || len > |old(file.Left())|)
      ensures error == Some(FromRead) ==> len == 0 || len > |old(file.Left())|
      ensures error.None? ==> curr == more[|more| - 1] && 0 < len <= |old(file.Left())|
      ensures error.None? ==> file.Left() == old(file.Left())[len..]
      ensures error.None? ==> parts' == (if prev == null then [] else parts) + [old(file.Left())[..len]]
      ensures error.None? ==> head.pktLen == old(head.pktLen) + len && head.nbSegs == |more| % U16
      ensures error != Some(InvalidCapture)
    {
      assert |segs| == |parts| > 0 && head in segs;
      hide Chain, File.Valid;
      error, curr, more, parts' := None, head, segs, parts;
      len := Min(left, pool.room);
      ghost var front := if prev == null then [] else parts;
      if prev == null {
        assert front + [[]] == parts;
      } else {
        var next := Extend(head, prev, pool, segs, parts);
        if next == null {
          return Some(OutOfMemory), head, len, segs, parts;
        }
        curr, more, parts' := next, segs + [next], parts + [[]];
        assert more[|segs|..] == [next];
      }
      var ok: bool;
      ok, len := Fill(head, curr, left, more, front);
      if ok {
        parts' := front + [old(file.Left())[..len]];
      } else {
        error := Some(FromRead);
      }
    }

    /** What the loop over the segments keeps. */
    ghost predicate Loading(head: Mbuf, prev: Mbuf?, segs: seq<Mbuf>, parts: seq<seq<Byte>>, body: seq<Byte>,
                            rdlen: nat, caplen: nat, room: nat)
      reads file, head, segs
    {
      && file.Valid() && !file.eof && rdlen <= |body| && file.Left() == body[rdlen..]
      && Chain(segs, parts) && head == segs[0] && head.nbSegs == |segs| % U16 && head.pktLen == rdlen
      && Filled(body, rdlen, caplen, room, |segs|, parts)
      && (if prev == null then rdlen == 0 else rdlen > 0 && prev == segs[|segs| - 1])
    }

    ghost predicate InUse(pool: MbufPool, live: set<Mbuf>, cnt: nat, segs: seq<Mbuf>)
      reads pool
    {
      pool.live == live + SetOf(segs) && pool.cntFree + |segs| == cnt
    }

    /** One more segment, or the error that ends the loading of this record. */
    method LoadMore(h: Header, head: Mbuf, prev: Mbuf?, rdlen: nat, pool: MbufPool, ghost body: seq<Byte>,
                    ghost segs: seq<Mbuf>, ghost parts: seq<seq<Byte>>)
      returns (error: Option<Error>, curr: Mbuf, len: nat, ghost more: seq<Mbuf>, ghost parts': seq<seq<Byte>>)
      requires Loading(head, prev, segs, parts, body, rdlen, h.caplen, pool.room) && rdlen < h.caplen < U32
      requires head.room == pool.room
      modifies pool, file, segs
      ensures file.Valid() && Chain(more, parts') && head == more[0]
      ensures more == segs || (more == segs + [curr] && fresh(curr))
      ensures pool.live == old(pool.live) + SetOf(more[|segs|..]) && pool.cntFree + |more| == old(pool.cntFree) + |segs|
      ensures error.None? ==> len > 0 && Loading(head, curr, more, parts', body, rdlen + len, h.caplen, pool.room)
      ensures error.Some? ==> Reports(Capture.LoadBody(h, body, pool.room, old(pool.cntFree) + |segs|), error, file.eof)
    {
      assert |file.Left()| == |body| - rdlen && body[rdlen..][..0] == [];
      error, curr, len, more, parts' := NextSegment(head, prev, h.caplen - rdlen, pool, segs, parts);
      match error {
        case None =>
          FilledMore(body, rdlen, h.caplen, pool.room, |segs|, parts, len);
          assert body[rdlen..][..len] == body[rdlen..rdlen + len];
        case Some(OutOfMemory) =>
          StoppedByMemory(h, body, rdlen, pool.room, |segs|, parts);
        case Some(FromRead) =>
          StoppedByFile(h, body, rdlen, pool.room, |segs|, parts, pool.cntFree + |more|);
        case Some(InvalidCapture) =>
      }
    }

    /** The loop over the segments. */
    method LoadSegments(h: Header, head: Mbuf, pool: MbufPool)
      returns (error: Option<Error>, ghost segs: seq<Mbuf>, ghost parts: seq<seq<Byte>>)
      requires file.Valid() && !file.eof && h.caplen < U32
      requires head in pool.live && Chain([head], [[]]) && head.pktLen == 0 && head.nbSegs == 1
      requires head.room == pool.room
      modifies pool, file, head
      ensures file.Valid() && Chain(segs, parts) && head == segs[0]
      ensures InUse(pool, old(pool.live), old(pool.cntFree) + 1, segs)
      ensures forall i :: 0 <= i < |segs| ==> segs[i] == head || fresh(segs[i])
      ensures error.None? ==> exists prev :: Loading(head, prev, segs, parts, old(file.Left()), h.caplen, h.caplen,
                                                     pool.room)
      ensures error.Some? ==>
                Reports(Capture.LoadBody(h, old(file.Left()), pool.room, old(pool.cntFree) + 1), error, file.eof)
    {
      hide Chain, File.Valid, Reports;
      ghost var body := file.Left();
      segs, parts := [head], [[]];
      var prev: Mbuf? := null;
      var rdlen := 0;
      NothingFilled(body, h.caplen, pool.room);
      while rdlen < h.caplen
        invariant Loading(head, prev, segs, parts, body, rdlen, h.caplen, pool.room)
        invariant InUse(pool, old(pool.live), old(pool.cntFree) + 1, segs)
        invariant forall i :: 0 <= i < |segs| ==> segs[i] == head || fresh(segs[i])
      {
        var curr: Mbuf;
        var len: nat;
        error, curr, len, segs, parts := LoadMore(h, head, prev, rdlen, pool, body, segs, parts);
        if error.Some? {
          return;
        }
        rdlen := rdlen + len;
        prev := curr;
      }
      error := None;
    }

    /** The chain of one record, which is freed again when the loop fails. */
    method LoadBody(h: Header, head: Mbuf, pool: MbufPool) returns (error: Option<Error>, ghost segs: seq<Mbuf>)
      requires file.Valid() && !file.eof && h.caplen < U32
      requires head in pool.live && Chain([head], [[]]) && head.pktLen == 0 && head.nbSegs == 1
      requires head.room == pool.room
      modifies pool, file, head
      ensures file.Valid()
      ensures Reports(Capture.LoadBody(h, old(file.Left()), pool.room, old(pool.cntFree) + 1), error, file.eof)
      ensures error.None? ==> h.caplen <= |old(file.Left())| && file.Left() == old(file.Left())[h.caplen..]
      ensures error.None? ==> Packet(head, segs, old(file.Left())[..h.caplen], pool.room)
      ensures error.None? ==> InUse(pool, old(pool.live), old(pool.cntFree) + 1, segs)
      ensures error.None? ==> |segs| == Capture.LoadBody(h, old(file.Left()), pool.room, old(pool.cntFree) + 1).mbufs
      ensures error.None? ==> forall i :: 0 <= i < |segs| ==> segs[i] == head || fresh(segs[i])
      ensures error.Some? ==> pool.live == old(pool.live) - {head} && pool.cntFree == old(pool.cntFree) + 1
    {
      ghost var parts;
      error, segs, parts := LoadSegments(h, head, pool);
      if error.Some? {
        GiveBack(old(pool.live), segs, head);
        pool.Free(head, segs, parts);
      } else {
        Finished(h, old(file.Left()), pool.room, |segs|, parts, old(pool.cntFree) + 1);
      }
    }

    /** One record: its packet, or an error that leaves no buffer in use. */
    method LoadPkt(pool: MbufPool) returns (error: Option<Error>, usec: nat, head: Mbuf?, ghost segs: seq<Mbuf>)
      requires file.Valid() && !file.eof
      modifies pool, file
      ensures file.Valid()
      ensures var o := Load(old(file.Left()), pool.room, old(pool.cntFree));
        && Reports(o, error, file.eof) && (o.Complete? <==> head != null)
        && (o.Complete? ==> (forall i :: 0 <= i < |segs| ==> fresh(segs[i]))
                            && InUse(pool, old(pool.live), old(pool.cntFree), segs))
        && (o.Complete? ==> usec == 1_000_000 * o.record.sec + o.record.usec && |segs| == o.mbufs
                            && Packet(head, segs, o.record.payload, pool.room))
        && (o.Complete? ==> HEADER_SIZE + |o.record.payload| <= |old(file.Left())|
                            && file.Left() == old(file.Left())[HEADER_SIZE + |o.record.payload|..])
        && (!o.Complete? ==> pool.live == old(pool.live) && pool.cntFree == old(pool.cntFree))
    {
      hide Packet, Chunks, HeaderOf;
      usec, head, segs := 0, null, [];
      ghost var rest := file.Left();
      var ok, bytes := file.Read(HEADER_SIZE);
      if !ok {
        error := Some(FromRead);
        return;
      }
      var h := HeaderOf(bytes);
      assert bytes == rest[..HEADER_SIZE];
      LoadAfterHeader(rest, pool.room, pool.cntFree);
      if h.caplen != h.len {
        error := Some(InvalidCapture);
        return;
      }
      head := pool.Alloc();
      if head == null {
        error := Some(OutOfMemory);
        return;
      }
      assert file.Left() == rest[HEADER_SIZE..];
      error, segs := LoadBody(h, head, pool);
      if error.Some? {
        head := null;
        return;
      }
      usec := h.sec * 1_000_000 + h.usec;
    }
  }

  /** What is reported of an outcome. */
  ghost predicate Reports(o: Outcome, error: Option<Error>, eof: bool) {
    match o
    case Complete(_, _) => error.None? && !eof
    case NoMoreBytes => error == Some(FromRead) && eof
    case NoRoom => error == Some(FromRead) && !eof
    case PartialCapture => error == Some(InvalidCapture) && !eof
    case NoMemory => error == Some(OutOfMemory) && !eof
  }

  //// All packets of a file.

  /** A packet of a flow: its time, the head of its chain, and whether the client sends it. */
  datatype LoadedPkt = LoadedPkt(relTsc: nat, head: Mbuf, fromCln: bool)

  function Owned(chains: seq<seq<Mbuf>>): set<Mbuf> {
    if chains == [] then {} else Owned(chains[..|chains| - 1]) + SetOf(chains[|chains| - 1])
  }

  function Count(chains: seq<seq<Mbuf>>): nat {
    if chains == [] then 0 else Count(chains[..|chains| - 1]) + |chains[|chains| - 1]|
  }

  ghost predicate Separate(chains: seq<seq<Mbuf>>) {
    chains != [] ==>
      Separate(chains[..|chains| - 1]) && SetOf(chains[|chains| - 1]) !! Owned(chains[..|chains| - 1])
  }

  /** The packets of these records, with all their bytes and at their times. */
  ghost predicate Loaded(pkts: seq<LoadedPkt>, chains: seq<seq<Mbuf>>, rs: seq<Record>, room: nat)
    reads set k | 0 <= k < |pkts| :: pkts[k].head
    reads set k, i | 0 <= k < |chains| && 0 <= i < |chains[k]| :: chains[k][i]
  {
    && |pkts| == |chains| == |rs|
    && forall k :: 0 <= k < |rs| ==> Packet(pkts[k].head, chains[k], rs[k].payload, room)
  }

  /** The destruction of packets. */
  method FreePkts(pool: MbufPool, pkts: seq<LoadedPkt>, ghost chains: seq<seq<Mbuf>>, ghost rs: seq<Record>,
                  ghost live: set<Mbuf>)
    requires Loaded(pkts, chains, rs, pool.room) && Separate(chains) && live !! Owned(chains)
    requires pool.live == live + Owned(chains)
    modifies pool
    ensures pool.live == live && pool.cntFree == old(pool.cntFree) + Count(chains)
  {
    hide Chain, Chunks, SetOf;
    var i := |pkts|;
    assert chains[..i] == chains;
    while i > 0
      invariant i <= |pkts| && Loaded(pkts, chains, rs, pool.room) && Separate(chains[..i])
      invariant pool.live == live + Owned(chains[..i]) && live !! Owned(chains[..i])
      invariant pool.cntFree + Count(chains[..i]) == old(pool.cntFree) + Count(chains)
    {
      i := i - 1;
      assert chains[..i + 1][..i] == chains[..i];
      assert Packet(pkts[i].head, chains[i], rs[i].payload, pool.room);
      pool.Free(pkts[i].head, chains[i], Chunks(rs[i].payload, pool.room));
    }
  }

  ghost predicate Timed(pkts: seq<LoadedPkt>, rs: seq<Record>, ipg: Option<nat>, hz: nat) {
    |pkts| == |rs| && forall k :: 0 <= k < |rs| ==> pkts[k].relTsc == RelTsc(rs, ipg, k, hz)
  }

  lemma OneMoreTimed(pkts: seq<LoadedPkt>, rs: seq<Record>, ipg: Option<nat>, hz: nat, p: LoadedPkt, r: Record)
    requires Timed(pkts, rs, ipg, hz) && p.relTsc == RelTsc(rs + [r], ipg, |rs|, hz)
    ensures Timed(pkts + [p], rs + [r], ipg, hz)
  {
    forall k | 0 <= k < |rs| ensures RelTsc(rs + [r], ipg, k, hz) == RelTsc(rs, ipg, k, hz) {
      assert (rs + [r])[0] == rs[0];
    }
  }

  lemma OneMoreChain(chains: seq<seq<Mbuf>>, segs: seq<Mbuf>)
    requires Separate(chains) && SetOf(segs) !! Owned(chains)
    ensures Separate(chains + [segs]) && Owned(chains + [segs]) == Owned(chains) + SetOf(segs)
    ensures Count(chains + [segs]) == Count(chains) + |segs|
  {
    assert (chains + [segs])[..|chains|] == chains;
  }

  /** What the loop over the records keeps: what is loaded, and what is still to be loaded, is what the file gives. */
  ghost predicate Progress(start: seq<Byte>, room: nat, free: nat, rs: seq<Record>, left: seq<Byte>, freeNow: nat) {
    && LoadAll(start, room, free) == (rs + LoadAll(left, room, freeNow).0, LoadAll(left, room, freeNow).1)
    && LastOutcome(start, room, free) == LastOutcome(left, room, freeNow)
  }

  lemma ProgressOneMore(start: seq<Byte>, room: nat, free: nat, rs: seq<Record>, left: seq<Byte>, freeNow: nat,
                        o: Outcome, rest: seq<Byte>, freeThen: nat)
    requires Progress(start, room, free, rs, left, freeNow) && o == Load(left, room, freeNow) && o.Complete?
    requires rest == left[HEADER_SIZE + |o.record.payload|..] && freeThen == freeNow - o.mbufs
    ensures Progress(start, room, free, rs + [o.record], rest, freeThen)
  {
    hide Load;
    assert rs + ([o.record] + LoadAll(rest, room, freeThen).0) == rs + [o.record] + LoadAll(rest, room, freeThen).0;
  }

  lemma ProgressDone(start: seq<Byte>, room: nat, free: nat, rs: seq<Record>, left: seq<Byte>, freeNow: nat)
    requires Progress(start, room, free, rs, left, freeNow) && !Load(left, room, freeNow).Complete?
    ensures LoadAll(start, room, free) == (rs, Load(left, room, freeNow).NoMoreBytes?)
    ensures LastOutcome(start, room, free) == Load(left, room, freeNow)
  {
    assert rs + [] == rs;
  }

  lemma ProgressStart(start: seq<Byte>, room: nat, free: nat)
    ensures Progress(start, room, free, [], start, free)
  {
    assert [] + LoadAll(start, room, free).0 == LoadAll(start, room, free).0;
  }

  /** The two time-stamps that the loop carries: when the next packet is due by the given distance of packets,
      and the time of the first packet. */
  ghost predicate Stamps(ipgTstamp: Option<nat>, prevTstamp: Option<nat>, rs: seq<Record>, ipg: Option<nat>) {
    && ipgTstamp == (if ipg.Some? then Some(|rs| * ipg.value) else None)
    && prevTstamp == if rs == [] then None else Some(if ipg.Some? then 0 else Usec(rs[0]))
  }

  lemma NextStamp(rs: seq<Record>, r: Record, ipg: Option<nat>)
    ensures Stamp(rs + [r], ipg, |rs|) == if ipg.Some? then |rs| * ipg.value else Usec(r)
    ensures Stamp(rs + [r], ipg, 0) == if ipg.Some? then 0 else if rs == [] then Usec(r) else Usec(rs[0])
    ensures ipg.Some? ==> |rs + [r]| * ipg.value == |rs| * ipg.value + ipg.value
  {
    if ipg.Some? { MulAdd(|rs|, 1, ipg.value); }
  }

  /** The packet of one more record, and the time-stamps to go on with. */
  method NextPkt(usec: nat, head: Mbuf, ipg: Option<nat>, hz: nat, ipgTstamp: Option<nat>, prevTstamp: Option<nat>,
                 ghost pkts: seq<LoadedPkt>, ghost rs: seq<Record>, ghost r: Record)
    returns (p: LoadedPkt, ipgNext: Option<nat>, prevNext: Option<nat>)
    requires Timed(pkts, rs, ipg, hz) && Stamps(ipgTstamp, prevTstamp, rs, ipg) && usec == Usec(r)
    ensures p.head == head && Timed(pkts + [p], rs + [r], ipg, hz) && Stamps(ipgNext, prevNext, rs + [r], ipg)
  {
    var tstamp := usec;
    ipgNext, prevNext := ipgTstamp, prevTstamp;
    if ipgTstamp.Some? {
      tstamp := ipgTstamp.value;
      ipgNext := Some(ipgTstamp.value + ipg.value);
    }
    if prevNext.None? {
      prevNext := Some(tstamp);
    }
    NextStamp(rs, r, ipg);
    var rel := IF_GAP + tstamp - prevNext.value;
    p := LoadedPkt(Cycles.FromDuration(rel, Cycles.MICROS, hz), head, false);
    assert rel == RelUsec(rs + [r], ipg, |rs|);
    OneMoreTimed(pkts, rs, ipg, hz, p, r);
  }

  /** The packets that are loaded so far. */
  ghost predicate Kept(pkts: seq<LoadedPkt>, chains: seq<seq<Mbuf>>, rs: seq<Record>, room: nat, live: set<Mbuf>,
                       cnt: nat, pool: MbufPool)
    reads set k | 0 <= k < |pkts| :: pkts[k].head
    reads set k, i | 0 <= k < |chains| && 0 <= i < |chains[k]| :: chains[k][i]
    reads pool
  {
    && Loaded(pkts, chains, rs, room) && Separate(chains) && live !! Owned(chains)
    && pool.live == live + Owned(chains) && pool.cntFree + Count(chains) == cnt
  }

  lemma KeptOneMore(pkts: seq<LoadedPkt>, chains: seq<seq<Mbuf>>, rs: seq<Record>, pool: MbufPool, live: set<Mbuf>,
                    cnt: nat, p: LoadedPkt, segs: seq<Mbuf>, r: Record)
    requires Loaded(pkts, chains, rs, pool.room) && Separate(chains) && live !! Owned(chains)
    requires Packet(p.head, segs, r.payload, pool.room) && SetOf(segs) !! Owned(chains) && SetOf(segs) !! live
    requires pool.live == live + Owned(chains) + SetOf(segs) && pool.cntFree + Count(chains) + |segs| == cnt
    ensures Kept(pkts + [p], chains + [segs], rs + [r], pool.room, live, cnt, pool)
    ensures Owned(chains + [segs]) == Owned(chains) + SetOf(segs)
  {
    OneMoreChain(chains, segs);
  }

  /** The loop's body: one more packet, or none when loading ends. */
  method LoadNext(loader: TcapLoader, pool: MbufPool, ghost pkts: seq<LoadedPkt>, ghost chains: seq<seq<Mbuf>>,
                  ghost rs: seq<Record>, ghost free: nat, ghost start: seq<Byte>)
    returns (error: Option<Error>, usec: nat, head: Mbuf?, ghost segs: seq<Mbuf>, ghost r: Record)
    requires loader.file.Valid() && !loader.file.eof
    requires Progress(start, pool.room, free, rs, loader.file.Left(), pool.cntFree)
    requires Loaded(pkts, chains, rs, pool.room)
    modifies loader.file, pool
    ensures loader.file.Valid() && Loaded(pkts, chains, rs, pool.room)
    ensures head == null ==> pool.live == old(pool.live) && pool.cntFree == old(pool.cntFree)
    ensures head == null ==> LoadAll(start, pool.room, free) == (rs, loader.file.eof)
    ensures head == null ==> (error == Some(OutOfMemory) <==> LastOutcome(start, pool.room, free).NoMemory?)
    ensures head != null ==> !loader.file.eof && usec == Usec(r) && |loader.file.Left()| < |old(loader.file.Left())|
    ensures head != null ==> Progress(start, pool.room, free, rs + [r], loader.file.Left(), pool.cntFree)
    ensures head != null ==> Packet(head, segs, r.payload, pool.room)
    ensures head != null ==> pool.live == old(pool.live) + SetOf(segs) && pool.cntFree + |segs| == old(pool.cntFree)
    ensures head != null ==> forall i :: 0 <= i < |segs| ==> fresh(segs[i])
  {
    ghost var left, freeNow := loader.file.Left(), pool.cntFree;
    error, usec, head, segs := loader.LoadPkt(pool);
    ghost var o := Load(left, pool.room, freeNow);
    if head == null {
      ProgressDone(start, pool.room, free, rs, left, freeNow);
      r := Record(0, 0, []);
    } else {
      r := o.record;
      ProgressOneMore(start, pool.room, free, rs, left, freeNow, o, loader.file.Left(), pool.cntFree);
    }
  }

  /** The loop over the records of a capture, until the end of the file or another error. */
  method LoadRecords(loader: TcapLoader, pool: MbufPool, ipg: Option<nat>, hz: nat)
    returns (ok: bool, noBuf: bool, pkts: seq<LoadedPkt>, ghost chains: seq<seq<Mbuf>>)
    requires loader.file.Valid() && !loader.file.eof
    modifies loader.file, pool
    ensures loader.file.Valid()
    ensures var (rs, ended) := LoadAll(old(loader.file.Left()), pool.room, old(pool.cntFree));
      && ok == ended && noBuf == LastOutcome(old(loader.file.Left()), pool.room, old(pool.cntFree)).NoMemory?
      && Timed(pkts, rs, ipg, hz)
      && Kept(pkts, chains, rs, pool.room, old(pool.live), old(pool.cntFree), pool)
    ensures forall m :: m in Owned(chains) ==> fresh(m)
  {
    ghost var start, free, live := loader.file.Left(), pool.cntFree, pool.live;
    ghost var rs: seq<Record> := [];
    pkts, chains := [], [];
    var ipgTstamp: Option<nat> := if ipg.Some? then Some(0) else None;
    var prevTstamp: Option<nat> := None;
    ProgressStart(start, pool.room, free);
    while true
      invariant loader.file.Valid() && !loader.file.eof
      invariant Progress(start, pool.room, free, rs, loader.file.Left(), pool.cntFree)
      invariant Kept(pkts, chains, rs, pool.room, live, free, pool) && Timed(pkts, rs, ipg, hz)
      invariant forall m :: m in Owned(chains) ==> fresh(m)
      invariant Stamps(ipgTstamp, prevTstamp, rs, ipg)
      decreases |loader.file.Left()|
    {
      var error, usec, head, segs, r := LoadNext(loader, pool, pkts, chains, rs, free, start);
      if head == null {
        ok, noBuf := loader.file.eof, error == Some(OutOfMemory);
        return;
      }
      var p;
      p, ipgTstamp, prevTstamp := NextPkt(usec, head, ipg, hz, ipgTstamp, prevTstamp, pkts, rs, r);
      KeptOneMore(pkts, chains, rs, pool, live, free, p, segs, r);
      pkts, chains, rs := pkts + [p], chains + [segs], rs + [r];
    }
  }

  //// The headers.

  /** The headers of one packet: whether it can be worked with, who sends it, and what does not change any more. `cln`
      is the address that the first packet came from. */
  method CheckHeaders(m: Mbuf, rw: Rewrite, first: Option<EtherAddr>)
    returns (ok: bool, fromCln: bool, cln: Option<EtherAddr>)
    requires m.dataLen == |m.data|
    modifies m`data
    ensures |m.data| == |old(m.data)| && ok == Acceptable(old(m.data), rw.clnPort.Some?)
    ensures ok ==> cln == if first.Some? then first else Some(SrcOf(old(m.data)))
    ensures ok ==> fromCln == (cln == Some(SrcOf(old(m.data)))) && m.data == Rewritten(old(m.data), rw, fromCln)
  {
    hide Put;
    ok, fromCln, cln := false, false, first;
    if m.dataLen < ETHER_LEN || EtherType(m.data) != ETHER_TYPE_IPV4 || m.dataLen < ETHER_LEN + IPV4_LEN {
      return;
    }
    if cln.None? {
      cln := Some(SrcOf(m.data));
    }
    fromCln := cln.value == SrcOf(m.data);
    m.data := Put(m.data, 6, if fromCln then rw.cln else rw.srv);
    m.data := Put(m.data, 0, if fromCln then rw.srv else rw.cln);
    if rw.clnPort.None? {
      ok := true;
      return;
    }
    var len, at := TransportLen(m.data), TransportAt(m.data);
    if len.Some? {
      if at + len.value > m.dataLen {
        return;
      }
      m.data := Put(m.data, if fromCln then at else at + 2, BigEndian(rw.clnPort.value));
    }
    ok := true;
  }

  method CheckPkt(head: Mbuf, rw: Rewrite, first: Option<EtherAddr>, ghost segs: seq<Mbuf>, ghost payload: seq<Byte>,
                  ghost room: nat) returns (ok: bool, fromCln: bool, cln: Option<EtherAddr>)
    requires Packet(head, segs, payload, room)
    modifies head`data
    ensures |head.data| == |First(payload, room)| && Packet(head, segs, WithFirst(payload, room, head.data), room)
    ensures ok == Acceptable(First(payload, room), rw.clnPort.Some?)
    ensures ok ==> cln == if first.Some? then first else Some(SrcOf(First(payload, room)))
    ensures ok ==> fromCln == (cln == Some(SrcOf(First(payload, room))))
    ensures ok ==> head.data == Rewritten(First(payload, room), rw, fromCln)
  {
    hide Acceptable, Rewritten, Chunks;
    ghost var parts := Chunks(payload, room);
    assert Segment(segs[0], 0, parts[0]);
    ok, fromCln, cln := CheckHeaders(head, rw, first);
    ChunksWithFirst(payload, room, head.data);
    forall i | 0 <= i < |segs| ensures Segment(segs[i], i, parts[0 := head.data][i]) {
      assert old(Segment(segs[i], i, parts[i]));
    }
  }

  /** No buffer is in two chains. */
  lemma {:induction false} Apart(chains: seq<seq<Mbuf>>, j: nat, k: nat)
    requires Separate(chains) && j < k < |chains|
    ensures SetOf(chains[j]) !! SetOf(chains[k]) && SetOf(chains[k]) <= Owned(chains)
    ensures SetOf(chains[j]) <= Owned(chains)
    decreases |chains|
  {
    var front := chains[..|chains| - 1];
    InOwned(front, j);
    if k < |front| {
      Apart(front, j, k);
    }
  }

  lemma {:induction false} InOwned(chains: seq<seq<Mbuf>>, k: nat)
    requires k < |chains|
    ensures SetOf(chains[k]) <= Owned(chains)
    decreases |chains|
  {
    if k < |chains| - 1 { InOwned(chains[..|chains| - 1], k); }
  }

  /** The address that the first packet came from, once it was looked at. */
  function SeenFrom(rs: seq<Record>, room: nat, i: nat): Option<EtherAddr>
    requires i > 0 ==> rs != [] && AcceptableAt(rs, room, false, 0)
  {
    if i == 0 then None else Some(SrcOf(First(rs[0].payload, room)))
  }

  /** The first i packets are as they go into flows, the others as they were loaded. */
  ghost predicate CheckedSoFar(rs: seq<Record>, ws: seq<Record>, room: nat, rw: Rewrite, i: nat) {
    && i <= |rs| == |ws| && (forall k :: i <= k < |rs| ==> ws[k] == rs[k])
    && (forall k :: 0 <= k < i ==> AcceptableAt(rs, room, rw.clnPort.Some?, k))
    && (forall k :: 0 <= k < i ==> ws[k] == RewrittenOne(rs, room, rw, k))
  }

  /** The same packets, but for who sends them; that is told by where the first i of them came from. */
  ghost predicate Directed(checked: seq<LoadedPkt>, pkts: seq<LoadedPkt>, rs: seq<Record>, room: nat, i: nat) {
    && i <= |rs| == |pkts| == |checked|
    && (forall k :: 0 <= k < |pkts| ==> checked[k] == pkts[k].(fromCln := checked[k].fromCln))
    && (forall k :: 0 <= k < i ==> AcceptableAt(rs, room, false, k))
    && (forall k :: 0 <= k < i ==> checked[k].fromCln == FromClient(rs, room, k))
  }

  function Edited(r: Record, room: nat, b: seq<Byte>): Record
    requires |b| == |First(r.payload, room)|
  {
    r.(payload := WithFirst(r.payload, room, b))
  }

  /** The head of one packet is in no other. */
  lemma OthersApart(pkts: seq<LoadedPkt>, chains: seq<seq<Mbuf>>, rs: seq<Record>, room: nat, i: nat)
    requires i < |pkts| && Loaded(pkts, chains, rs, room) && Separate(chains)
    ensures pkts[i].head in Owned(chains)
    ensures forall k :: 0 <= k < |pkts| && k != i ==> pkts[k].head != pkts[i].head && pkts[i].head !in chains[k]
  {
    InOwned(chains, i);
    assert Packet(pkts[i].head, chains[i], rs[i].payload, room) && pkts[i].head in SetOf(chains[i]);
    forall k | 0 <= k < |pkts| && k != i ensures pkts[k].head != pkts[i].head && pkts[i].head !in chains[k] {
      assert Packet(pkts[k].head, chains[k], rs[k].payload, room) && pkts[k].head in SetOf(chains[k]);
      if k < i { Apart(chains, k, i); } else { Apart(chains, i, k); }
      assert pkts[i].head !in SetOf(chains[k]);
    }
  }

  /** The headers of packet i, which is the only one that changes. */
  method CheckNext(pkts: seq<LoadedPkt>, rw: Rewrite, first: Option<EtherAddr>, i: nat, ghost chains: seq<seq<Mbuf>>,
                   ghost ws: seq<Record>, ghost room: nat)
    returns (ok: bool, fromCln: bool, cln: Option<EtherAddr>, ghost b: seq<Byte>)
    requires i < |pkts| && Loaded(pkts, chains, ws, room) && Separate(chains)
    modifies Owned(chains)
    ensures |b| == |First(ws[i].payload, room)| && Loaded(pkts, chains, ws[i := Edited(ws[i], room, b)], room)
    ensures ok == Acceptable(First(ws[i].payload, room), rw.clnPort.Some?)
    ensures ok ==> cln == if first.Some? then first else Some(SrcOf(First(ws[i].payload, room)))
    ensures ok ==> fromCln == (cln == Some(SrcOf(First(ws[i].payload, room))))
    ensures ok ==> b == Rewritten(First(ws[i].payload, room), rw, fromCln)
  {
    hide Packet, Acceptable, Rewritten, Chunks;
    OthersApart(pkts, chains, ws, room, i);
    var head := pkts[i].head;
    ok, fromCln, cln := CheckPkt(head, rw, first, chains[i], ws[i].payload, room);
    b := head.data;
  }

  lemma CheckedOneMore(rs: seq<Record>, ws: seq<Record>, room: nat, rw: Rewrite, i: nat, pkts: seq<LoadedPkt>,
                       before: seq<LoadedPkt>, fromCln: bool, b: seq<Byte>)
    requires i < |rs| && CheckedSoFar(rs, ws, room, rw, i) && Directed(pkts, before, rs, room, i)
    requires AcceptableAt(rs, room, rw.clnPort.Some?, i)
    requires i == 0 ==> fromCln
    requires i > 0 ==> fromCln == FromClient(rs, room, i)
    requires b == Rewritten(First(rs[i].payload, room), rw, fromCln)
    ensures CheckedSoFar(rs, ws[i := Edited(ws[i], room, b)], room, rw, i + 1)
    ensures Directed(pkts[i := pkts[i].(fromCln := fromCln)], before, rs, room, i + 1)
  {
    hide Rewritten, First, WithFirst, EtherType, TransportAt;
  }

  /** The loop over the packets, until one cannot be worked with. */
  method CheckPkts(pkts: seq<LoadedPkt>, rw: Rewrite, ghost chains: seq<seq<Mbuf>>, ghost rs: seq<Record>,
                   ghost room: nat)
    returns (ok: bool, checked: seq<LoadedPkt>, ghost ws: seq<Record>)
    requires Loaded(pkts, chains, rs, room) && Separate(chains)
    modifies Owned(chains)
    ensures ok == AllAcceptable(rs, room, rw.clnPort.Some?) && Loaded(checked, chains, ws, room)
    ensures ok ==> ws == RewrittenAll(rs, room, rw) && Directed(checked, pkts, rs, room, |rs|)
  {
    hide Packet, Acceptable, Rewritten, First, WithFirst, Separate;
    var cln: Option<EtherAddr> := None;
    checked, ws := pkts, rs;
    for i := 0 to |pkts|
      invariant Loaded(checked, chains, ws, room) && CheckedSoFar(rs, ws, room, rw, i)
      invariant Directed(checked, pkts, rs, room, i) && cln == SeenFrom(rs, room, i)
    {
      var fromCln;
      ghost var b;
      ok, fromCln, cln, b := CheckNext(checked, rw, cln, i, chains, ws, room);
      if ok {
        CheckedOneMore(rs, ws, room, rw, i, checked, pkts, fromCln, b);
      }
      ws := ws[i := Edited(ws[i], room, b)];
      if !ok {
        assert !AcceptableAt(rs, room, rw.clnPort.Some?, i);
        return;
      }
      checked := checked[i := checked[i].(fromCln := fromCln)];
    }
    ok := true;
    assert ws == RewrittenAll(rs, room, rw);
  }

  /** Who sends each packet. */
  ghost predicate FromWhom(pkts: seq<LoadedPkt>, rs: seq<Record>, room: nat) {
    && |pkts| == |rs| && AllAcceptable(rs, room, false)
    && forall k :: 0 <= k < |rs| ==> AcceptableAt(rs, room, false, k) && pkts[k].fromCln == FromClient(rs, room, k)
  }

  lemma CheckedAll(checked: seq<LoadedPkt>, pkts: seq<LoadedPkt>, rs: seq<Record>, room: nat, ipg: Option<nat>, hz: nat)
    requires Directed(checked, pkts, rs, room, |rs|) && Timed(pkts, rs, ipg, hz)
    ensures FromWhom(checked, rs, room) && Timed(checked, rs, ipg, hz)
  {
  }

  /** Loads a whole capture: the packets of its records up to the end of the file, as they go into flows, or an error
      and no packet at all. */
  method LoadPkts(file: File, pool: MbufPool, ipg: Option<nat>, hz: nat, rw: Rewrite)
    returns (ok: bool, noBuf: bool, pkts: seq<LoadedPkt>, ghost chains: seq<seq<Mbuf>>)
    requires file.Valid() && !file.eof
    modifies file, pool
    ensures var data := old(file.Left());
      if !FileHeaderOk(data) then
        !ok && !noBuf && pool.live == old(pool.live) && pool.cntFree == old(pool.cntFree)
      else
        var (rs, ended) := LoadAll(data[FILE_HEADER_SIZE..], pool.room, old(pool.cntFree));
        && noBuf == LastOutcome(data[FILE_HEADER_SIZE..], pool.room, old(pool.cntFree)).NoMemory?
        && ok == (ended && rs != [] && AllAcceptable(rs, pool.room, rw.clnPort.Some?))
        && (ok ==> Timed(pkts, rs, ipg, hz) && FromWhom(pkts, rs, pool.room)
                   && Kept(pkts, chains, RewrittenAll(rs, pool.room, rw), pool.room, old(pool.live), old(pool.cntFree),
                           pool))
        && (!ok ==> pool.live == old(pool.live) && pool.cntFree == old(pool.cntFree))
  {
    hide Packet, Acceptable, Rewritten, First, WithFirst, Chunks, Timed, FromWhom;
    ok, noBuf, pkts, chains := false, false, [], [];
    var loader := TcapLoader.Open(file);
    if loader == null {
      return;
    }
    ghost var rs := LoadAll(file.Left(), pool.room, pool.cntFree).0;
    ghost var ws := rs;
    ok, noBuf, pkts, chains := LoadRecords(loader, pool, ipg, hz);
    if ok {
      var checked;
      ok, checked, ws := CheckPkts(pkts, rw, chains, rs, pool.room);
      if ok {
        CheckedAll(checked, pkts, rs, pool.room, ipg, hz);
      }
      pkts := checked;
    }
    if !ok || pkts == [] {
      FreePkts(pool, pkts, chains, ws, old(pool.live));
      ok := false;
    }
  }
}
