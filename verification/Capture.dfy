/** The bytes of a capture file: packet records, how they are cut into segments, and what loading them gives. */
module Capture {
  import opened Words
  import opened Wrappers
  import Cycles

  type Byte = b: int | 0 <= b < 256

  /** One captured packet, with the time of its capture. */
  datatype Record = Record(sec: nat, usec: nat, payload: seq<Byte>)

  datatype Header = Header(sec: nat, usec: nat, caplen: nat, len: nat)

  const HEADER_SIZE := 16

  predicate Fits(r: Record) {
    r.sec < U32 && r.usec < U32 && |r.payload| < U32
  }

  predicate AllFit(rs: seq<Record>) {
    forall i :: 0 <= i < |rs| ==> Fits(rs[i])
  }

  //// 32-bit numbers as bytes, the lowest first.

  function At32(b: seq<Byte>, i: nat): (n: nat)
    requires i + 4 <= |b|
    ensures n < U32
  {
    b[i] as int + 256 * b[i + 1] as int + 65536 * b[i + 2] as int + 16777216 * b[i + 3] as int
  }

  /** The four bytes that read as n. */
  ghost function Le32(n: nat): (b: seq<Byte>)
    requires n < U32
    ensures |b| == 4 && At32(b, 0) == n
  {
    var some := BytesOf(n);
    var b: seq<Byte> :| |b| == 4 && At32(b, 0) == n;
    b
  }

  /** There are such bytes... */
  function BytesOf(n: nat): (b: seq<Byte>)
    requires n < U32
    ensures |b| == 4 && At32(b, 0) == n
  {
    var q := n / 256;
    assert n == 256 * q + n % 256 && q == 256 * (q / 256) + q % 256;
    [n % 256, q % 256, q / 256 % 256, q / 65536]
  }

  lemma SameDigits(a: Byte, b: Byte, x: nat, y: nat)
    requires a + 256 * x == b + 256 * y
    ensures a == b && x == y
  {
  }

  /** ...and no others. */
  lemma WordIsUnique(b: seq<Byte>, i: nat)
    requires i + 4 <= |b|
    ensures b[i..i + 4] == Le32(At32(b, i))
  {
    var c := Le32(At32(b, i));
    SameDigits(b[i], c[0], b[i + 1] as int + 256 * b[i + 2] as int + 65536 * b[i + 3] as int,
               c[1] as int + 256 * c[2] as int + 65536 * c[3] as int);
    SameDigits(b[i + 1], c[1], b[i + 2] as int + 256 * b[i + 3] as int, c[2] as int + 256 * c[3] as int);
    SameDigits(b[i + 2], c[2], b[i + 3], c[3]);
  }

  //// The header of the file.

  const FILE_HEADER_SIZE := 24
  const PCAP_MAGIC := 0xA1B2C3D4
  const PCAP_VERSION_MAJOR := 2
  const PCAP_VERSION_MINOR := 4

  function At16(b: seq<Byte>, i: nat): nat
    requires i + 2 <= |b|
  {
    b[i] as int + 256 * b[i + 1] as int
  }

  /** Whether a file's first bytes are the header of a capture that can be loaded. */
  predicate FileHeaderOk(b: seq<Byte>) {
    && |b| >= FILE_HEADER_SIZE
    && At32(b, 0) == PCAP_MAGIC && At16(b, 4) == PCAP_VERSION_MAJOR && At16(b, 6) == PCAP_VERSION_MINOR
  }

  /** These are exactly the files of version 2.4 with micro-second time-stamps, written in the order of bytes of this
      machine: neither those of a machine with the other order nor those with nanoseconds. */
  lemma FileHeadersAccepted(b: seq<Byte>)
    ensures FileHeaderOk(b) <==> |b| >= 24 && b[..8] == [0xD4, 0xC3, 0xB2, 0xA1, 2, 0, 4, 0]
  {
    if FileHeaderOk(b) {
      var x := b[1] as int + 256 * b[2] as int + 65536 * b[3] as int;
      SameDigits(b[0], 0xD4, x, 0xA1B2C3);
      SameDigits(b[1], 0xC3, b[2] as int + 256 * b[3] as int, 0xA1B2);
      SameDigits(b[2], 0xB2, b[3], 0xA1);
      SameDigits(b[4], 2, b[5], 0);
      SameDigits(b[6], 4, b[7], 0);
    }
  }

  //// Records.

  ghost function HeaderBytes(h: Header): (b: seq<Byte>)
    requires h.sec < U32 && h.usec < U32 && h.caplen < U32 && h.len < U32
    ensures |b| == HEADER_SIZE
  {
    Le32(h.sec) + Le32(h.usec) + Le32(h.caplen) + Le32(h.len)
  }

  function HeaderOf(b: seq<Byte>): (h: Header)
    requires |b| == HEADER_SIZE
    ensures h.sec < U32 && h.usec < U32 && h.caplen < U32 && h.len < U32
  {
    Header(At32(b, 0), At32(b, 4), At32(b, 8), At32(b, 12))
  }

  /** A header reads back. */
  lemma HeaderReadsBack(h: Header)
    requires h.sec < U32 && h.usec < U32 && h.caplen < U32 && h.len < U32
    ensures HeaderOf(HeaderBytes(h)) == h
  {
    var b := HeaderBytes(h);
    assert b[0..4] == Le32(h.sec) && b[4..8] == Le32(h.usec) && b[8..12] == Le32(h.caplen) && b[12..16] == Le32(h.len);
    forall i, c: seq<Byte> | 0 <= i <= 12 && c == b[i..i + 4] ensures At32(b, i) == At32(c, 0) {
    }
  }

  /** Any header's bytes are those of the header they read as. */
  lemma HeaderIsUnique(b: seq<Byte>)
    requires |b| == HEADER_SIZE
    ensures HeaderBytes(HeaderOf(b)) == b
  {
    WordIsUnique(b, 0);
    WordIsUnique(b, 4);
    WordIsUnique(b, 8);
    WordIsUnique(b, 12);
    assert b == b[0..4] + b[4..8] + b[8..12] + b[12..16];
  }

  ghost function Serialise(r: Record): seq<Byte>
    requires Fits(r)
  {
    HeaderBytes(Header(r.sec, r.usec, |r.payload|, |r.payload|)) + r.payload
  }

  ghost function SerialiseAll(rs: seq<Record>): seq<Byte>
    requires AllFit(rs)
  {
    if rs == [] then [] else Serialise(rs[0]) + SerialiseAll(rs[1..])
  }

  /** A number in four bytes, the lowest first. */
  ghost predicate Reads(b: seq<Byte>, i: nat, n: nat)
    requires i + 4 <= |b|
  {
    n == b[i] as int + 0x100 * b[i + 1] as int + 0x1_0000 * b[i + 2] as int + 0x100_0000 * b[i + 3] as int
  }

  /** The bytes of a record: the seconds, the microseconds and twice the length in sixteen bytes, and the payload. */
  lemma SerialisedBytes(r: Record)
    requires Fits(r)
    ensures var b := Serialise(r);
      && |b| == 16 + |r.payload| && b[16..] == r.payload
      && Reads(b, 0, r.sec) && Reads(b, 4, r.usec) && Reads(b, 8, |r.payload|) && Reads(b, 12, |r.payload|)
  {
    var h, b := HeaderBytes(Header(r.sec, r.usec, |r.payload|, |r.payload|)), Serialise(r);
    HeaderReadsBack(Header(r.sec, r.usec, |r.payload|, |r.payload|));
    assert b[..16] == h;
    forall i | 0 <= i <= 12 ensures Reads(b, i, At32(h, i)) {
      assert b[i] == h[i] && b[i + 1] == h[i + 1] && b[i + 2] == h[i + 2] && b[i + 3] == h[i + 3];
    }
  }

  //// Segments.

  /** A payload cut for buffers of `room` bytes; a packet has one segment at least. */
  function Chunks(p: seq<Byte>, room: nat): seq<seq<Byte>> {
    if |p| <= room || room == 0 then [p] else [p[..room]] + Chunks(p[room..], room)
  }

  function Concat(parts: seq<seq<Byte>>): seq<Byte> {
    if parts == [] then [] else parts[0] + Concat(parts[1..])
  }

  function TotalLength(parts: seq<seq<Byte>>): nat {
    if parts == [] then 0 else |parts[0]| + TotalLength(parts[1..])
  }

  /** The segments hold the payload in order, every one but the last is full, and no more of them are used than
      needed. */
  lemma {:induction false} ChunksOfPayload(p: seq<Byte>, room: nat)
    requires room > 0
    ensures var parts := Chunks(p, room);
      && Concat(parts) == p && TotalLength(parts) == |p|
      && (forall i :: 0 <= i < |parts| - 1 ==> |parts[i]| == room)
      && |parts[|parts| - 1]| <= room && (p != [] ==> parts[|parts| - 1] != [])
      && |parts| == (if p == [] then 1 else Buffers(|p| - 1, room))
  {
    var parts := Chunks(p, room);
    if |p| <= room {
      assert parts == [p] && Concat(parts[1..]) == [] && TotalLength(parts[1..]) == 0;
    } else {
      var rest := p[room..];
      ChunksOfPayload(rest, room);
      assert parts == [p[..room]] + Chunks(rest, room) && parts[1..] == Chunks(rest, room);
      assert p == p[..room] + rest;
    }
  }

  /** How many buffers are in use when byte number `last`, from 0, is stored. */
  function Buffers(last: nat, room: nat): (n: nat)
    requires room > 0
    ensures n > 0
  {
    if last < room then 1 else 1 + Buffers(last - room, room)
  }

  lemma {:induction false} BuffersIsQuotient(last: nat, room: nat)
    requires room > 0
    ensures Buffers(last, room) == last / room + 1
  {
    if last < room {
      RemainderUnique(last, room, 0, last);
    } else {
      var n := last - room;
      BuffersIsQuotient(n, room);
      assert n == (n / room) * room + n % room;
      MulAdd(n / room, 1, room);
      RemainderUnique(last, room, n / room + 1, n % room);
    }
  }

  lemma {:induction false} BuffersAt(last: nat, room: nat, q: nat)
    requires room > 0 && q * room <= last
    ensures Buffers(last, room) > q && (last < q * room + room ==> Buffers(last, room) == q + 1)
    decreases q
  {
    if q > 0 {
      assert (q - 1) * room == q * room - room;
      MulMono(0, q - 1, room);
      BuffersAt(last - room, room, q - 1);
    }
  }

  /** What one more segment adds to segments that are all full. */
  lemma {:induction false} OneMoreChunk(p: seq<Byte>, c: seq<Byte>, room: nat, n: nat)
    requires room > 0 && 0 < |p| == n * room && 0 < |c| <= room
    ensures Chunks(p + c, room) == Chunks(p, room) + [c]
    decreases n
  {
    MulMono(1, n, room);
    if n == 1 {
      assert p + c == p + c && (p + c)[..room] == p && (p + c)[room..] == c;
    } else {
      MulMono(2, n, room);
      assert |p[room..]| == (n - 1) * room;
      assert (p + c)[..room] == p[..room] && (p + c)[room..] == p[room..] + c;
      OneMoreChunk(p[room..], c, room, n - 1);
      assert [p[..room]] + (Chunks(p[room..], room) + [c]) == [p[..room]] + Chunks(p[room..], room) + [c];
    }
  }

  //// Loading.

  datatype Outcome =
    | Complete(record: Record, mbufs: nat)
    | NoMoreBytes          // the file ends inside the record or before it
    | PartialCapture       // a packet that was not captured in full
    | NoMemory
    | NoRoom               // buffers that hold nothing

  /** How many buffers are in use when a record ends, or when the file ends before the record does. */
  function Needed(caplen: nat, avail: nat, room: nat): nat
    requires caplen > 0 && room > 0
  {
    Buffers(Min(caplen - 1, avail), room)
  }

  /** The rest of a record after its header, with `free` buffers of `room` bytes in the pool. */
  function LoadBody(h: Header, body: seq<Byte>, room: nat, free: nat): Outcome {
    if free == 0 then NoMemory
    else if h.caplen == 0 then Complete(Record(h.sec, h.usec, []), 1)
    else if room == 0 then NoRoom
    else if free < Needed(h.caplen, |body|, room) then NoMemory
    else if h.caplen <= |body| then
      Complete(Record(h.sec, h.usec, body[..h.caplen]), Needed(h.caplen, |body|, room))
    else NoMoreBytes
  }

  /** One record from the rest of a file. */
  function Load(rest: seq<Byte>, room: nat, free: nat): Outcome {
    if |rest| < HEADER_SIZE then NoMoreBytes
    else
      var h := HeaderOf(rest[..HEADER_SIZE]);
      if h.caplen != h.len then PartialCapture else LoadBody(h, rest[HEADER_SIZE..], room, free)
  }

  lemma LoadAfterHeader(rest: seq<Byte>, room: nat, free: nat)
    requires |rest| >= HEADER_SIZE
    ensures var h := HeaderOf(rest[..HEADER_SIZE]);
      var o := Load(rest, room, free);
      && h.caplen < U32
      && (if h.caplen != h.len then o == PartialCapture else o == LoadBody(h, rest[HEADER_SIZE..], room, free))
      && (o.Complete? ==> HEADER_SIZE + h.caplen <= |rest|
                          && o.record == Record(h.sec, h.usec, rest[HEADER_SIZE..][..h.caplen])
                          && rest[HEADER_SIZE..][h.caplen..] == rest[HEADER_SIZE + h.caplen..])
  {
    HeaderIsUnique(rest[..HEADER_SIZE]);
  }

  /** A record that loads is what these bytes say. */
  lemma RecordFromBytes(rest: seq<Byte>, room: nat, free: nat)
    requires Load(rest, room, free).Complete?
    ensures var r := Load(rest, room, free).record;
      && |rest| >= 16 + |r.payload| && r.payload == rest[16..16 + |r.payload|]
      && Reads(rest, 0, r.sec) && Reads(rest, 4, r.usec) && Reads(rest, 8, |r.payload|)
      && Reads(rest, 12, |r.payload|)
  {
    LoadAfterHeader(rest, room, free);
    assert forall i :: 0 <= i < 16 ==> rest[..16][i] == rest[i];
  }

  /** All records until one does not load, and whether that was because the file ended. */
  function LoadAll(rest: seq<Byte>, room: nat, free: nat): (seq<Record>, bool)
    decreases |rest|
  {
    match Load(rest, room, free)
    case Complete(r, mbufs) =>
      var (rs, ok) := LoadAll(rest[HEADER_SIZE + |r.payload|..], room, free - mbufs);
      ([r] + rs, ok)
    case NoMoreBytes => ([], true)
    case _ => ([], false)
  }

  /** Why loading ended. */
  function LastOutcome(rest: seq<Byte>, room: nat, free: nat): (o: Outcome)
    ensures !o.Complete? && (LoadAll(rest, room, free).1 <==> o.NoMoreBytes?)
    decreases |rest|
  {
    match Load(rest, room, free)
    case Complete(r, mbufs) => LastOutcome(rest[HEADER_SIZE + |r.payload|..], room, free - mbufs)
    case o => o
  }

  lemma Unfolded(rest: seq<Byte>, room: nat, free: nat)
    ensures var o, all, last := Load(rest, room, free), LoadAll(rest, room, free), LastOutcome(rest, room, free);
      if o.Complete? then
        && HEADER_SIZE + |o.record.payload| <= |rest| && o.mbufs <= free
        && var next := rest[HEADER_SIZE + |o.record.payload|..];
        && all.0 == [o.record] + LoadAll(next, room, free - o.mbufs).0
        && all.1 == LoadAll(next, room, free - o.mbufs).1 && last == LastOutcome(next, room, free - o.mbufs)
      else all == ([], o.NoMoreBytes?) && last == o
  {
    hide Load;
    if Load(rest, room, free).Complete? { CompleteIsInFile(rest, room, free); }
  }

  /** What loads without a want of buffers loads the same with more of them. */
  lemma {:induction false} MoreIsSame(rest: seq<Byte>, room: nat, free: nat, more: nat)
    requires more >= free && !LastOutcome(rest, room, free).NoMemory?
    ensures LoadAll(rest, room, more) == LoadAll(rest, room, free)
    ensures LastOutcome(rest, room, more) == LastOutcome(rest, room, free)
    decreases |rest|
  {
    hide Load, LoadAll, LastOutcome;
    SameWithMore(rest, room, free, more);
    Unfolded(rest, room, free);
    Unfolded(rest, room, more);
    var o := Load(rest, room, free);
    if o.Complete? {
      MoreIsSame(rest[HEADER_SIZE + |o.record.payload|..], room, free - o.mbufs, more - o.mbufs);
    }
  }

  lemma SameWithMore(rest: seq<Byte>, room: nat, free: nat, more: nat)
    requires more >= free
    ensures Load(rest, room, free).NoMemory? || Load(rest, room, more) == Load(rest, room, free)
    ensures Load(rest, room, free).NoMemory? && room > 0 ==>
              var o := Load(rest, room, more);
              o.Complete? || o.NoMoreBytes? || o.NoMemory?
  {
  }

  /** As many buffers as bytes, and one, are enough. */
  lemma {:induction false} EnoughBuffers(rest: seq<Byte>, room: nat, free: nat)
    requires free > |rest|
    ensures !LastOutcome(rest, room, free).NoMemory?
    decreases |rest|
  {
    EnoughForOne(rest, room, free);
    hide Load;
    var o := Load(rest, room, free);
    if o.Complete? {
      EnoughBuffers(rest[HEADER_SIZE + |o.record.payload|..], room, free - o.mbufs);
    }
  }

  lemma {:induction false} FewBuffers(last: nat, room: nat)
    requires room > 0
    ensures Buffers(last, room) <= last + 1
  {
    if last >= room { FewBuffers(last - room, room); }
  }

  lemma EnoughForOne(rest: seq<Byte>, room: nat, free: nat)
    requires free > |rest|
    ensures var o := Load(rest, room, free);
      !o.NoMemory? && (o.Complete? ==> o.mbufs <= HEADER_SIZE + |o.record.payload| <= |rest|)
  {
    if |rest| >= HEADER_SIZE {
      var h := HeaderOf(rest[..HEADER_SIZE]);
      if h.caplen > 0 && room > 0 { FewBuffers(Min(h.caplen - 1, |rest| - HEADER_SIZE), room); }
      LoadAfterHeader(rest, room, free);
    }
  }

  lemma {:induction false} MoreLoads(rest: seq<Byte>, room: nat, free: nat, more: nat)
    requires room > 0
    requires more >= free && LastOutcome(rest, room, free).NoMemory? && !LastOutcome(rest, room, more).NoMemory?
    ensures LoadAll(rest, room, more) != LoadAll(rest, room, free)
    decreases |rest|
  {
    hide Load, LoadAll, LastOutcome;
    SameWithMore(rest, room, free, more);
    Unfolded(rest, room, free);
    Unfolded(rest, room, more);
    var o := Load(rest, room, free);
    if o.Complete? {
      var next := rest[HEADER_SIZE + |o.record.payload|..];
      MoreLoads(next, room, free - o.mbufs, more - o.mbufs);
      assert LoadAll(rest, room, more).0[1..] == LoadAll(next, room, more - o.mbufs).0;
      assert LoadAll(rest, room, free).0[1..] == LoadAll(next, room, free - o.mbufs).0;
    }
  }

  /** Loading ends for want of a buffer exactly when there is a number of buffers with which it ends otherwise; when
      buffers hold something, that is when more comes of it with more of them. */
  lemma NoMemoryIff(rest: seq<Byte>, room: nat, free: nat)
    ensures LastOutcome(rest, room, free).NoMemory? <==>
            exists more: nat :: more > free && LastOutcome(rest, room, more) != LastOutcome(rest, room, free)
    ensures room > 0 ==>
              (LastOutcome(rest, room, free).NoMemory? <==>
               exists more: nat :: more > free && LoadAll(rest, room, more) != LoadAll(rest, room, free))
  {
    hide LoadAll, LastOutcome;
    if LastOutcome(rest, room, free).NoMemory? {
      EnoughBuffers(rest, room, free + |rest| + 1);
      if room > 0 { MoreLoads(rest, room, free, free + |rest| + 1); }
    } else {
      forall more: nat | more > free
        ensures LoadAll(rest, room, more) == LoadAll(rest, room, free)
        ensures LastOutcome(rest, room, more) == LastOutcome(rest, room, free)
      {
        MoreIsSame(rest, room, free, more);
      }
    }
  }

  function Mbufs(rs: seq<Record>, room: nat): nat {
    if rs == [] then 0 else |Chunks(rs[0].payload, room)| + Mbufs(rs[1..], room)
  }

  lemma HeaderOfSerialised(r: Record, more: seq<Byte>)
    requires Fits(r)
    ensures var rest := Serialise(r) + more;
      && |rest| >= HEADER_SIZE && rest[HEADER_SIZE..] == r.payload + more && rest[HEADER_SIZE + |r.payload|..] == more
      && HeaderOf(rest[..HEADER_SIZE]) == Header(r.sec, r.usec, |r.payload|, |r.payload|)
  {
    var h, rest := Header(r.sec, r.usec, |r.payload|, |r.payload|), Serialise(r) + more;
    HeaderReadsBack(h);
    assert rest[..HEADER_SIZE] == HeaderBytes(h);
  }

  lemma BodyLoads(h: Header, payload: seq<Byte>, more: seq<Byte>, room: nat, free: nat)
    requires h.caplen == |payload| && room > 0
    ensures var mbufs := |Chunks(payload, room)|;
      LoadBody(h, payload + more, room, free) ==
      if free < mbufs then NoMemory else Complete(Record(h.sec, h.usec, payload), mbufs)
  {
    ChunksOfPayload(payload, room);
    assert (payload + more)[..|payload|] == payload;
  }

  lemma LoadSerialised(r: Record, more: seq<Byte>, room: nat, free: nat)
    requires Fits(r) && room > 0
    ensures var mbufs := |Chunks(r.payload, room)|;
      && Load(Serialise(r) + more, room, free) == (if free < mbufs then NoMemory else Complete(r, mbufs))
      && (Serialise(r) + more)[HEADER_SIZE + |r.payload|..] == more
  {
    HeaderOfSerialised(r, more);
    BodyLoads(Header(r.sec, r.usec, |r.payload|, |r.payload|), r.payload, more, room, free);
  }

  /** How many buffers a cut record takes before the end of the file is noticed. */
  function MbufsOfCut(r: Record, cut: nat, room: nat): nat
    requires room > 0
  {
    if cut < HEADER_SIZE || r.payload == [] then 0 else Needed(|r.payload|, cut - HEADER_SIZE, room)
  }

  lemma LoadCut(r: Record, cut: nat, room: nat, free: nat)
    requires Fits(r) && room > 0 && cut < |Serialise(r)|
    ensures Load(Serialise(r)[..cut], room, free) == if free < MbufsOfCut(r, cut, room) then NoMemory else NoMoreBytes
  {
    var h, rest := Header(r.sec, r.usec, |r.payload|, |r.payload|), Serialise(r)[..cut];
    if cut >= HEADER_SIZE {
      HeaderReadsBack(h);
      assert rest[..HEADER_SIZE] == HeaderBytes(h);
      assert |rest[HEADER_SIZE..]| == cut - HEADER_SIZE;
    }
  }

  lemma LoadOneMore(r: Record, more: seq<Byte>, room: nat, free: nat)
    requires Fits(r) && room > 0
    ensures var mbufs := |Chunks(r.payload, room)|;
      LoadAll(Serialise(r) + more, room, free) ==
      if free < mbufs then ([], false)
      else ([r] + LoadAll(more, room, free - mbufs).0, LoadAll(more, room, free - mbufs).1)
  {
    LoadSerialised(r, more, room, free);
  }

  lemma SameRest<T>(s: seq<T>, rest: seq<T>)
    requires s != []
    ensures [s[0]] + rest == s <==> rest == s[1..]
  {
    assert ([s[0]] + rest)[1..] == rest;
    assert [s[0]] + s[1..] == s;
  }

  /** The round trip: a file of complete records, cut anywhere inside one more, loads as exactly the complete ones;
      and it does so if and only if the pool has the buffers that they, and the cut one, need. */
  lemma {:induction false} TruncatedFileLoadsItsCompleteRecords(rs: seq<Record>, r: Record, cut: nat, room: nat,
                                                                free: nat)
    requires AllFit(rs) && Fits(r) && room > 0 && cut < |Serialise(r)|
    ensures LoadAll(SerialiseAll(rs) + Serialise(r)[..cut], room, free) == (rs, true)
            <==> Mbufs(rs, room) + MbufsOfCut(r, cut, room) <= free
    decreases |rs|
  {
    var tail := Serialise(r)[..cut];
    if rs == [] {
      assert SerialiseAll(rs) + tail == tail;
      LoadCut(r, cut, room, free);
    } else {
      var more := SerialiseAll(rs[1..]) + tail;
      var mbufs := |Chunks(rs[0].payload, room)|;
      assert SerialiseAll(rs) + tail == Serialise(rs[0]) + more;
      LoadOneMore(rs[0], more, room, free);
      if mbufs <= free {
        TruncatedFileLoadsItsCompleteRecords(rs[1..], r, cut, room, free - mbufs);
        SameRest(rs, LoadAll(more, room, free - mbufs).0);
      }
    }
  }

  lemma CompleteIsInFile(rest: seq<Byte>, room: nat, free: nat)
    requires Load(rest, room, free).Complete?
    ensures var r := Load(rest, room, free).record;
      Fits(r) && HEADER_SIZE + |r.payload| <= |rest| && rest == Serialise(r) + rest[HEADER_SIZE + |r.payload|..]
    ensures Load(rest, room, free).mbufs <= free
  {
    HeaderIsUnique(rest[..HEADER_SIZE]);
  }

  lemma EndIsIncomplete(rest: seq<Byte>, room: nat, free: nat)
    requires Load(rest, room, free).NoMoreBytes?
    ensures Incomplete(rest)
  {
  }

  /** These records are what the bytes hold from the start, and what is left holds, at the end, not one more. */
  ghost predicate Explains(rest: seq<Byte>, rs: seq<Record>, left: seq<Byte>, ended: bool) {
    AllFit(rs) && rest == SerialiseAll(rs) + left && (ended ==> Incomplete(left))
  }

  lemma ExplainsOneMore(r: Record, more: seq<Byte>, rs: seq<Record>, left: seq<Byte>, ended: bool)
    requires Fits(r) && Explains(more, rs, left, ended)
    ensures Explains(Serialise(r) + more, [r] + rs, left, ended)
  {
    assert ([r] + rs)[1..] == rs;
  }

  /** Conversely, what loads from any file at all is what the file holds: its records in order from the start,
      and when loading ends at the end of the file, what is left does not hold one more. */
  lemma {:induction false} LoadedIsInFile(rest: seq<Byte>, room: nat, free: nat) returns (left: seq<Byte>)
    ensures Explains(rest, LoadAll(rest, room, free).0, left, LoadAll(rest, room, free).1)
    decreases |rest|
  {
    hide Load, Serialise, Incomplete;
    var o := Load(rest, room, free);
    if o.Complete? {
      CompleteIsInFile(rest, room, free);
      var more := rest[HEADER_SIZE + |o.record.payload|..];
      left := LoadedIsInFile(more, room, free - o.mbufs);
      ExplainsOneMore(o.record, more, LoadAll(more, room, free - o.mbufs).0, left,
                      LoadAll(more, room, free - o.mbufs).1);
    } else {
      left := rest;
      assert SerialiseAll([]) + rest == rest;
      if o.NoMoreBytes? {
        EndIsIncomplete(rest, room, free);
      }
    }
  }

  /** Bytes that end before their first record does. */
  predicate Incomplete(rest: seq<Byte>) {
    |rest| < HEADER_SIZE || |rest| < HEADER_SIZE + HeaderOf(rest[..HEADER_SIZE]).caplen
  }

  //// Reading a body buffer by buffer.

  /** n buffers are in use, and the first rdlen bytes of the body are in them. */
  ghost predicate Filled(body: seq<Byte>, rdlen: nat, caplen: nat, room: nat, n: nat, parts: seq<seq<Byte>>) {
    && rdlen <= caplen && rdlen <= |body|
    && parts == Chunks(body[..rdlen], room) && n == |parts|
    && (rdlen > 0 ==> room > 0) && (0 < rdlen < caplen ==> rdlen == n * room)
  }

  lemma NothingFilled(body: seq<Byte>, caplen: nat, room: nat)
    ensures Filled(body, 0, caplen, room, 1, [[]])
  {
  }

  lemma FilledMore(body: seq<Byte>, rdlen: nat, caplen: nat, room: nat, n: nat, parts: seq<seq<Byte>>, len: nat)
    requires Filled(body, rdlen, caplen, room, n, parts) && rdlen < caplen
    requires 0 < len == Min(caplen - rdlen, room) && rdlen + len <= |body|
    ensures Filled(body, rdlen + len, caplen, room, if rdlen == 0 then 1 else n + 1,
                   (if rdlen == 0 then [] else parts) + [body[rdlen..rdlen + len]])
  {
    var read, c := body[..rdlen], body[rdlen..rdlen + len];
    assert body[..rdlen + len] == read + c;
    if rdlen > 0 {
      OneMoreChunk(read, c, room, n);
      assert (n + 1) * room == n * room + room;
    } else {
      assert read + c == c;
    }
  }

  lemma StoppedByMemory(h: Header, body: seq<Byte>, rdlen: nat, room: nat, n: nat, parts: seq<seq<Byte>>)
    requires Filled(body, rdlen, h.caplen, room, n, parts) && 0 < rdlen < h.caplen
    ensures LoadBody(h, body, room, n) == NoMemory
  {
    BuffersAt(Min(h.caplen - 1, |body|), room, n);
  }

  lemma StoppedByFile(h: Header, body: seq<Byte>, rdlen: nat, room: nat, n: nat, parts: seq<seq<Byte>>, free: nat)
    requires Filled(body, rdlen, h.caplen, room, n, parts) && rdlen < h.caplen
    requires var len := Min(h.caplen - rdlen, room); len == 0 || rdlen + len > |body|
    requires (if rdlen == 0 then 1 else n + 1) <= free
    ensures LoadBody(h, body, room, free) == if room == 0 then NoRoom else NoMoreBytes
  {
    if room > 0 {
      BuffersAt(|body|, room, if rdlen == 0 then 0 else n);
    }
  }

  lemma Finished(h: Header, body: seq<Byte>, room: nat, n: nat, parts: seq<seq<Byte>>, free: nat)
    requires Filled(body, h.caplen, h.caplen, room, n, parts) && 0 < n <= free
    ensures LoadBody(h, body, room, free) == Complete(Record(h.sec, h.usec, body[..h.caplen]), n)
  {
    if room > 0 {
      ChunksOfPayload(body[..h.caplen], room);
    }
  }

  //// Time.

  /** Microseconds of a record's time-stamp. */
  function Usec(r: Record): nat {
    r.sec * 1_000_000 + r.usec
  }

  /** The gap between a flow and its next start, in microseconds. */
  const IF_GAP := 100_000

  /** The time-stamp that packet k is given, in microseconds: a multiple of the given distance of packets if there
      is one, and else the time of its capture. */
  function Stamp(rs: seq<Record>, ipg: Option<nat>, k: nat): nat
    requires k < |rs|
  {
    if ipg.Some? then k * ipg.value else Usec(rs[k])
  }

  /** The time that is stored with packet k, in microseconds: since the first packet, and the gap. */
  function RelUsec(rs: seq<Record>, ipg: Option<nat>, k: nat): int
    requires k < |rs|
  {
    IF_GAP + Stamp(rs, ipg, k) - Stamp(rs, ipg, 0)
  }

  /** Between two packets that is the time between their captures, by the seconds and the microseconds of both, or as
      many given distances as packets. */
  lemma TimesOfRecords(rs: seq<Record>, ipg: Option<nat>, j: nat, k: nat)
    requires j < |rs| && k < |rs|
    ensures RelUsec(rs, ipg, 0) == 100_000
    ensures RelUsec(rs, ipg, k) - RelUsec(rs, ipg, j) ==
            if ipg.Some? then (k - j) * ipg.value
            else 1_000_000 * (rs[k].sec - rs[j].sec) + (rs[k].usec - rs[j].usec)
  {
    if ipg.Some? { MulAdd(k - j, j, ipg.value); }
  }

  /** In timer cycles. */
  function RelTsc(rs: seq<Record>, ipg: Option<nat>, k: nat, hz: nat): nat
    requires k < |rs|
  {
    Cycles.FromDuration(RelUsec(rs, ipg, k), Cycles.MICROS, hz)
  }

  /** The packet before packet k of a flow, which goes around the capture. */
  function Before(n: nat, k: nat): (p: nat)
    requires k < n
    ensures p < n
  {
    if k == 0 then n - 1 else k - 1
  }

  /** How long a flow waits before it sends packet k, in microseconds: it is scheduled again by the packet before, with
      the time that is stored with that one. */
  function WaitUsec(rs: seq<Record>, ipg: Option<nat>, k: nat): int
    requires k < |rs|
  {
    RelUsec(rs, ipg, Before(|rs|, k))
  }

  /** How long it is meant to wait: the time since the previous packet, and the gap before it starts again. */
  function MeantUsec(rs: seq<Record>, ipg: Option<nat>, k: nat): int
    requires k < |rs|
  {
    if k == 0 then IF_GAP else Stamp(rs, ipg, k) - Stamp(rs, ipg, k - 1)
  }

  /** Flows wait as they are meant to exactly when the capture has a single packet. */
  lemma WaitsAsMeantIff(rs: seq<Record>, ipg: Option<nat>)
    requires rs != []
    ensures (forall k :: 0 <= k < |rs| ==> WaitUsec(rs, ipg, k) == MeantUsec(rs, ipg, k)) <==> |rs| == 1
  {
    if |rs| > 1 {
      var _ := SomeWaitDiffers(rs, ipg);
    }
  }

  lemma SomeWaitDiffers(rs: seq<Record>, ipg: Option<nat>) returns (k: nat)
    requires |rs| > 1
    ensures k < |rs| && WaitUsec(rs, ipg, k) != MeantUsec(rs, ipg, k)
  {
    if forall j :: 0 < j < |rs| ==> WaitUsec(rs, ipg, j) == MeantUsec(rs, ipg, j) {
      WaitsDouble(rs, ipg, |rs| - 1);
      assert Pow2(|rs| - 1) == 2 * Pow2(|rs| - 2);
      k := 0;
    } else {
      k :| 0 < k < |rs| && WaitUsec(rs, ipg, k) != MeantUsec(rs, ipg, k);
    }
  }

  /** Between starts they do exactly when the time since the first packet, with the gap, doubles from one packet to the
      next. */
  lemma InnerWaitsAsMeantIff(rs: seq<Record>, ipg: Option<nat>)
    requires rs != []
    ensures (forall k :: 0 < k < |rs| ==> WaitUsec(rs, ipg, k) == MeantUsec(rs, ipg, k))
            <==> (forall k :: 0 <= k < |rs| ==> RelUsec(rs, ipg, k) == Pow2(k) * IF_GAP)
  {
    if forall k :: 0 < k < |rs| ==> WaitUsec(rs, ipg, k) == MeantUsec(rs, ipg, k) {
      forall k | 0 <= k < |rs| ensures RelUsec(rs, ipg, k) == Pow2(k) * IF_GAP {
        WaitsDouble(rs, ipg, k);
      }
    } else {
      var k :| 0 < k < |rs| && WaitUsec(rs, ipg, k) != MeantUsec(rs, ipg, k);
      assert RelUsec(rs, ipg, k) - RelUsec(rs, ipg, k - 1) == MeantUsec(rs, ipg, k);
      assert Pow2(k) == 2 * Pow2(k - 1);
    }
  }

  lemma {:induction false} WaitsDouble(rs: seq<Record>, ipg: Option<nat>, k: nat)
    requires k < |rs| && forall j :: 0 < j < |rs| ==> WaitUsec(rs, ipg, j) == MeantUsec(rs, ipg, j)
    ensures RelUsec(rs, ipg, k) == Pow2(k) * IF_GAP
  {
    if k > 0 {
      WaitsDouble(rs, ipg, k - 1);
      assert WaitUsec(rs, ipg, k) == MeantUsec(rs, ipg, k);
    }
  }

  /** Were the gap meant for every packet, they would exactly when all packets have the same time-stamp. */
  lemma WaitsWithGapIff(rs: seq<Record>, ipg: Option<nat>)
    requires rs != []
    ensures (forall k :: 0 <= k < |rs| ==>
               WaitUsec(rs, ipg, k) == MeantUsec(rs, ipg, k) + if k == 0 then 0 else IF_GAP)
            <==> (forall k :: 0 <= k < |rs| ==> Stamp(rs, ipg, k) == Stamp(rs, ipg, 0))
  {
    if forall k :: 0 <= k < |rs| ==> WaitUsec(rs, ipg, k) == MeantUsec(rs, ipg, k) + if k == 0 then 0 else IF_GAP {
      forall k | 0 <= k < |rs| ensures Stamp(rs, ipg, k) == Stamp(rs, ipg, 0) {
        StampsStay(rs, ipg, k);
      }
    }
  }

  lemma {:induction false} StampsStay(rs: seq<Record>, ipg: Option<nat>, k: nat)
    requires k < |rs|
    requires forall j :: 0 <= j < |rs| ==>
               WaitUsec(rs, ipg, j) == MeantUsec(rs, ipg, j) + if j == 0 then 0 else IF_GAP
    ensures Stamp(rs, ipg, k) == Stamp(rs, ipg, 0)
  {
    if k > 0 {
      StampsStay(rs, ipg, k - 1);
      assert WaitUsec(rs, ipg, k) == MeantUsec(rs, ipg, k) + IF_GAP;
    }
  }
}
