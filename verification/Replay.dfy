/** From a capture file to the flows that replay it: what a generator gets, and when its flows send which packet. */
module Replay {
  import opened Words
  import opened Wrappers
  import opened Capture
  import opened Headers
  import opened Flows
  import opened CaptureLoader
  import Cycles

  /** The packets of a capture as a generator sees them. */
  function FlowPkts(rs: seq<Record>, ipg: Option<nat>, hz: nat, room: nat): (ps: seq<Pkt>)
    requires AllAcceptable(rs, room, false)
    ensures |ps| == |rs|
  {
    seq(|rs|, k requires 0 <= k < |rs| => FlowPkt(rs, ipg, hz, room, k))
  }

  function FlowPkt(rs: seq<Record>, ipg: Option<nat>, hz: nat, room: nat, k: nat): Pkt
    requires AllAcceptable(rs, room, false) && k < |rs|
  {
    assert AcceptableAt(rs, room, false, 0) && AcceptableAt(rs, room, false, k);
    Pkt(RelTsc(rs, ipg, k, hz), |rs[k].payload|, FromClient(rs, room, k))
  }

  /** A capture: its packets, or why it cannot be used. */
  datatype Loading = Packets(pkts: seq<Pkt>) | NoBuffer | Unusable

  /** The records that load from a file, with `free` buffers of `room` bytes in the pool. */
  function RecordsOf(file: seq<Byte>, room: nat, free: nat): seq<Record>
    requires FileHeaderOk(file)
  {
    LoadAll(file[FILE_HEADER_SIZE..], room, free).0
  }

  /** There is such a file, it loads to its end, and its packets can be worked with. */
  predicate Usable(file: Option<seq<Byte>>, room: nat, free: nat, ports: bool) {
    && file.Some? && FileHeaderOk(file.value) && LoadAll(file.value[FILE_HEADER_SIZE..], room, free).1
    && var rs := RecordsOf(file.value, room, free);
    rs != [] && AllAcceptable(rs, room, ports)
  }

  predicate LacksBuffers(file: Option<seq<Byte>>, room: nat, free: nat) {
    file.Some? && FileHeaderOk(file.value) && LastOutcome(file.value[FILE_HEADER_SIZE..], room, free).NoMemory?
  }

  /** What loading a file gives. */
  function LoadingOf(file: Option<seq<Byte>>, room: nat, free: nat, ipg: Option<nat>, hz: nat, ports: bool)
    : (l: Loading)
    ensures l.Packets? ==> l.pkts != []
  {
    if Usable(file, room, free, ports) then
      var rs := RecordsOf(file.value, room, free);
      WithoutPorts(rs, room, ports);
      Packets(FlowPkts(rs, ipg, hz, room))
    else if LacksBuffers(file, room, free) then NoBuffer
    else Unusable
  }

  /** A file cannot be used for want of a buffer exactly when it begins as a capture and loading it would end otherwise
      with more buffers; that is, when these hold something, when more would load of it. */
  lemma NoBufferIff(file: seq<Byte>, room: nat, free: nat, ipg: Option<nat>, hz: nat, ports: bool)
    ensures var noBuf := LoadingOf(Some(file), room, free, ipg, hz, ports).NoBuffer?;
      var begins := |file| >= 24 && file[..8] == [0xD4, 0xC3, 0xB2, 0xA1, 2, 0, 4, 0];
      && (noBuf <==>
          begins && exists more: nat ::
            more > free && LastOutcome(file[24..], room, more) != LastOutcome(file[24..], room, free))
      && (room > 0 ==>
            (noBuf <==>
             begins && exists more: nat ::
               more > free && LoadAll(file[24..], room, more) != LoadAll(file[24..], room, free)))
  {
    FileHeadersAccepted(file);
    hide LoadAll, LastOutcome, FileHeaderOk, AllAcceptable, FlowPkts;
    if FileHeaderOk(file) { NoMemoryIff(file[24..], room, free); }
  }

  /** It can be used exactly when it does, all its records are complete, there is one, and the headers of all are as
      they must be. */
  lemma PacketsIff(file: seq<Byte>, room: nat, free: nat, ipg: Option<nat>, hz: nat, ports: bool)
    ensures LoadingOf(Some(file), room, free, ipg, hz, ports).Packets? <==>
            && |file| >= 24 && file[..8] == [0xD4, 0xC3, 0xB2, 0xA1, 2, 0, 4, 0]
            && var (rs, ended) := LoadAll(file[24..], room, free);
            && ended && |rs| > 0
            && forall k :: 0 <= k < |rs| ==> WorkableIn(First(rs[k].payload, room), ports)
  {
    FileHeadersAccepted(file);
    hide LoadAll, LastOutcome, FileHeaderOk, FlowPkts, First, Acceptable, WorkableIn;
    if FileHeaderOk(file) {
      var rs := LoadAll(file[24..], room, free).0;
      forall k | 0 <= k < |rs|
        ensures AcceptableAt(rs, room, ports, k) <==> WorkableIn(First(rs[k].payload, room), ports)
      {
        AcceptableIff(First(rs[k].payload, room), ports);
      }
    }
  }

  /** How many buffers are left then. */
  function FreeAfter(file: Option<seq<Byte>>, room: nat, free: nat, ports: bool): (n: nat)
    ensures n <= free
  {
    if Usable(file, room, free, ports) then
      LoadedFits(file.value[FILE_HEADER_SIZE..], room, free);
      free - Mbufs(RecordsOf(file.value, room, free), room)
    else free
  }

  /** What is loaded takes no more buffers than there are. */
  lemma {:induction false} LoadedFits(rest: seq<Byte>, room: nat, free: nat)
    ensures Mbufs(LoadAll(rest, room, free).0, room) <= free
    decreases |rest|
  {
    hide Load, Chunks;
    var o := Load(rest, room, free);
    if o.Complete? {
      CompleteIsInFile(rest, room, free);
      TakesItsChunks(rest, room, free);
      LoadedFits(rest[HEADER_SIZE + |o.record.payload|..], room, free - o.mbufs);
    }
  }

  lemma TakesItsChunks(rest: seq<Byte>, room: nat, free: nat)
    requires Load(rest, room, free).Complete?
    ensures var o := Load(rest, room, free); o.mbufs == |Chunks(o.record.payload, room)|
  {
    var h := HeaderOf(rest[..HEADER_SIZE]);
    LoadAfterHeader(rest, room, free);
    if h.caplen > 0 && room > 0 {
      BodyLoads(h, rest[HEADER_SIZE..][..h.caplen], rest[HEADER_SIZE..][h.caplen..], room, free);
      assert rest[HEADER_SIZE..][..h.caplen] + rest[HEADER_SIZE..][h.caplen..] == rest[HEADER_SIZE..];
    }
  }

  lemma WithoutPorts(rs: seq<Record>, room: nat, ports: bool)
    requires AllAcceptable(rs, room, ports)
    ensures AllAcceptable(rs, room, false)
  {
    forall k | 0 <= k < |rs| ensures AcceptableAt(rs, room, false, k) {
      assert AcceptableAt(rs, room, ports, k);
    }
  }

  //// The loader gives that.

  function AsFlowPkt(p: LoadedPkt): Pkt
    reads p.head
  {
    Pkt(p.relTsc, p.head.pktLen, p.fromCln)
  }

  lemma OneFlowPkt(pkts: seq<LoadedPkt>, chains: seq<seq<Mbuf>>, rs: seq<Record>, rw: Rewrite, ipg: Option<nat>,
                   hz: nat, room: nat, k: nat)
    requires AllAcceptable(rs, room, rw.clnPort.Some?) && AllAcceptable(rs, room, false) && k < |rs|
    requires Timed(pkts, rs, ipg, hz) && FromWhom(pkts, rs, room)
    requires Loaded(pkts, chains, RewrittenAll(rs, room, rw), room)
    ensures k < |pkts| == |rs| && AsFlowPkt(pkts[k]) == FlowPkt(rs, ipg, hz, room, k)
  {
    hide RelTsc, FromClient, Acceptable, Chain, WithFirst, Rewritten;
    assert Packet(pkts[k].head, chains[k], RewrittenAll(rs, room, rw)[k].payload, room);
    assert AcceptableAt(rs, room, rw.clnPort.Some?, k) && AcceptableAt(rs, room, rw.clnPort.Some?, 0);
    assert |RewrittenOne(rs, room, rw, k).payload| == |rs[k].payload|;
  }

  /** What flows need of the packets that were loaded. */
  function AsFlowPkts(pkts: seq<LoadedPkt>): (ps: seq<Pkt>)
    reads set k | 0 <= k < |pkts| :: pkts[k].head
    ensures |ps| == |pkts|
  {
    seq(|pkts|, k requires 0 <= k < |pkts| reads set j | 0 <= j < |pkts| :: pkts[j].head => AsFlowPkt(pkts[k]))
  }

  lemma FlowPktsOf(pkts: seq<LoadedPkt>, chains: seq<seq<Mbuf>>, rs: seq<Record>, rw: Rewrite, ipg: Option<nat>,
                   hz: nat, room: nat)
    requires AllAcceptable(rs, room, rw.clnPort.Some?) && AllAcceptable(rs, room, false)
    requires Timed(pkts, rs, ipg, hz) && FromWhom(pkts, rs, room)
    requires Loaded(pkts, chains, RewrittenAll(rs, room, rw), room)
    ensures AsFlowPkts(pkts) == FlowPkts(rs, ipg, hz, room)
  {
    hide AllAcceptable, Timed, Loaded, FlowPkt, AsFlowPkt;
    forall k | 0 <= k < |rs| ensures AsFlowPkt(pkts[k]) == FlowPkt(rs, ipg, hz, room, k) {
      OneFlowPkt(pkts, chains, rs, rw, ipg, hz, room, k);
    }
  }

  /** The chains have as many buffers as the records need. */
  lemma {:induction false} ChainsCounted(pkts: seq<LoadedPkt>, chains: seq<seq<Mbuf>>, ws: seq<Record>, room: nat)
    requires Loaded(pkts, chains, ws, room)
    ensures Count(chains) == Mbufs(ws, room)
    decreases |ws|
  {
    if ws != [] {
      var n := |ws| - 1;
      assert Packet(pkts[n].head, chains[n], ws[n].payload, room);
      ChainsCounted(pkts[..n], chains[..n], ws[..n], room);
      MbufsOfLast(ws, room);
    }
  }

  lemma {:induction false} MbufsOfLast(ws: seq<Record>, room: nat)
    requires ws != []
    ensures Mbufs(ws, room) == Mbufs(ws[..|ws| - 1], room) + |Chunks(ws[|ws| - 1].payload, room)|
  {
    if |ws| > 1 {
      MbufsOfLast(ws[1..], room);
      assert ws[1..][..|ws| - 2] == ws[..|ws| - 1][1..];
    }
  }

  lemma {:induction false} SameChunks(rs: seq<Record>, ws: seq<Record>, room: nat)
    requires |rs| == |ws|
    requires forall k :: 0 <= k < |rs| ==> |Chunks(ws[k].payload, room)| == |Chunks(rs[k].payload, room)|
    ensures Mbufs(ws, room) == Mbufs(rs, room)
  {
    if rs != [] {
      SameChunks(rs[1..], ws[1..], room);
    }
  }

  lemma RewrittenTakesAsMany(rs: seq<Record>, room: nat, rw: Rewrite)
    requires AllAcceptable(rs, room, rw.clnPort.Some?)
    ensures Mbufs(RewrittenAll(rs, room, rw), room) == Mbufs(rs, room)
  {
    var ws := RewrittenAll(rs, room, rw);
    forall k | 0 <= k < |rs| ensures |Chunks(ws[k].payload, room)| == |Chunks(rs[k].payload, room)| {
      assert AcceptableAt(rs, room, rw.clnPort.Some?, k) && AcceptableAt(rs, room, rw.clnPort.Some?, 0);
      ChunksWithFirst(rs[k].payload, room, Rewritten(First(rs[k].payload, room), rw, FromClient(rs, room, k)));
    }
    SameChunks(rs, ws, room);
  }

  /** Loads a file, if there is one, for a generator. */
  method LoadForFlows(file: File?, pool: MbufPool, ipg: Option<nat>, hz: nat, rw: Rewrite)
    returns (l: Loading, pkts: seq<LoadedPkt>, ghost chains: seq<seq<Mbuf>>)
    requires file != null ==> file.Valid() && !file.eof
    modifies file, pool
    ensures var data := if file == null then None else Some(old(file.Left()));
      && l == LoadingOf(data, pool.room, old(pool.cntFree), ipg, hz, rw.clnPort.Some?)
      && pool.cntFree == FreeAfter(data, pool.room, old(pool.cntFree), rw.clnPort.Some?)
    ensures pool.live == old(pool.live) + Owned(chains) && old(pool.live) !! Owned(chains)
  {
    if file == null {
      return Unusable, [], [];
    }
    hide LoadAll, LastOutcome, Mbufs, FlowPkts, AllAcceptable, Timed, FromWhom, Loaded, Separate, RewrittenAll;
    ghost var data := file.Left();
    var ok, noBuf;
    ok, noBuf, pkts, chains := LoadPkts(file, pool, ipg, hz, rw);
    if noBuf {
      return NoBuffer, [], [];
    }
    if !ok {
      return Unusable, [], [];
    }
    ghost var rs := RecordsOf(data, pool.room, old(pool.cntFree));
    WithoutPorts(rs, pool.room, rw.clnPort.Some?);
    RewrittenTakesAsMany(rs, pool.room, rw);
    ChainsCounted(pkts, chains, RewrittenAll(rs, pool.room, rw), pool.room);
    FlowPktsOf(pkts, chains, rs, rw, ipg, hz, pool.room);
    l := Packets(AsFlowPkts(pkts));
  }

  //// When flows send.

  /** An event of a flow sends the packet after the one that it was scheduled with, and is due the time that is stored
      with that one after the flow was scheduled. */
  lemma DueOfNextPacket(setup: Setup, rs: seq<Record>, ipg: Option<nat>, hz: nat, room: nat, evs: seq<Event>, e: Event,
                        first: nat)
    requires setup.Valid() && AllAcceptable(rs, room, false) && setup.pkts == FlowPkts(rs, ipg, hz, room)
    ensures var k, p := Occurrences(evs, e.flow), setup.ReportOf(evs + [e]).pktIdx;
      && p == (k + 1) % |rs|
      && (k > 0 ==> setup.DueAt(evs, e.flow, first) ==
                    Wrap64(LastLater(evs, e.flow) + Cycles.FromDuration(WaitUsec(rs, ipg, p), Cycles.MICROS, hz)))
  {
    hide Wrap64, FlowPkts, WaitUsec, RelTsc, Setup.ReportOf, Cycles.FromDuration, Occurrences, LastLater, Before;
    var k := Occurrences(evs, e.flow);
    PacketAfter(setup, evs, e);
    WaitOfNext(rs, ipg, hz, k);
    AtOfFlowPkts(rs, ipg, hz, room, k % |rs|);
  }

  lemma WaitOfNext(rs: seq<Record>, ipg: Option<nat>, hz: nat, k: nat)
    requires rs != []
    ensures Cycles.FromDuration(WaitUsec(rs, ipg, (k + 1) % |rs|), Cycles.MICROS, hz) == RelTsc(rs, ipg, k % |rs|, hz)
  {
    hide Cycles.FromDuration, RelUsec;
    BeforeNext(|rs|, k);
  }

  lemma PacketAfter(setup: Setup, evs: seq<Event>, e: Event)
    requires setup.Valid()
    ensures setup.ReportOf(evs + [e]).pktIdx == (Occurrences(evs, e.flow) + 1) % |setup.pkts|
  {
    Occurs(evs, e, e.flow);
  }

  lemma BeforeNext(n: nat, k: nat)
    requires n > 0
    ensures Before(n, (k + 1) % n) == k % n
  {
    Successor(k, n);
  }

  /** The packets of flows, from the records. */
  lemma PktsOfRecords(rs: seq<Record>, ipg: Option<nat>, hz: nat, room: nat)
    requires AllAcceptable(rs, room, false)
    ensures forall k :: 0 <= k < |rs| ==> |rs[k].payload| >= 34
    ensures forall k :: 0 <= k < |rs| ==>
              var p := FlowPkts(rs, ipg, hz, room)[k];
              && p.len == |rs[k].payload| && (p.fromCln <==> rs[k].payload[6..12] == rs[0].payload[6..12])
              && p.relTsc ==
                 Cycles.FromDuration(100_000 + (if ipg.Some? then k * ipg.value
                                                else 1_000_000 * (rs[k].sec - rs[0].sec) + (rs[k].usec - rs[0].usec)),
                                     1_000_000, hz)
  {
    forall k | 0 <= k < |rs| ensures |rs[k].payload| >= 34 && |rs[0].payload| >= 34
      ensures FromClient(rs, room, k) <==> rs[k].payload[6..12] == rs[0].payload[6..12]
    {
      assert AcceptableAt(rs, room, false, k) && AcceptableAt(rs, room, false, 0);
      FirstIsPrefix(rs[k].payload, room);
      FirstIsPrefix(rs[0].payload, room);
    }
    forall k | 0 <= k < |rs| {
      TimesOfRecords(rs, ipg, 0, k);
    }
  }

  lemma AtOfFlowPkts(rs: seq<Record>, ipg: Option<nat>, hz: nat, room: nat, k: nat)
    requires AllAcceptable(rs, room, false) && k < |rs|
    ensures FlowPkts(rs, ipg, hz, room)[k].relTsc == RelTsc(rs, ipg, k, hz)
  {
  }

  /** A new flow is made to start from the first packet; its first event sends that one exactly when there is no
      other. */
  lemma FirstPacketSentIff(setup: Setup, evs: seq<Event>, e: Event)
    requires setup.Valid() && Occurrences(evs, e.flow) == 0
    ensures setup.ReportOf(evs + [e]).pktIdx == 0 <==> |setup.pkts| == 1
  {
    Occurs(evs, e, e.flow);
    if |setup.pkts| > 1 { RemainderUnique(1, |setup.pkts|, 0, 1); }
  }

  /** The packet that comes next is due when it is meant to be. */
  predicate DueAsMeant(setup: Setup, rs: seq<Record>, ipg: Option<nat>, hz: nat, evs: seq<Event>, e: Event)
    requires setup.Valid() && |setup.pkts| == |rs|
  {
    setup.DueAt(evs, e.flow, 0) ==
    Wrap64(LastLater(evs, e.flow)
           + Cycles.FromDuration(MeantUsec(rs, ipg, setup.ReportOf(evs + [e]).pktIdx), Cycles.MICROS, hz))
  }

  /** The time-stamps do not go back. */
  predicate Ordered(rs: seq<Record>, ipg: Option<nat>) {
    forall j, k :: 0 <= j <= k < |rs| ==> Stamp(rs, ipg, j) <= Stamp(rs, ipg, k)
  }

  /** In every run every later packet is due as it is meant to be exactly when the capture has a single packet; on a
      timer that tells microseconds apart, with no number of cycles beyond 64 bits. */
  lemma ReplaysAsMeantIff(setup: Setup, rs: seq<Record>, ipg: Option<nat>, hz: nat, room: nat)
    requires setup.Valid() && AllAcceptable(rs, room, false) && setup.pkts == FlowPkts(rs, ipg, hz, room)
    requires setup.flows > 0 && hz >= Cycles.MICROS && Ordered(rs, ipg) && RelUsec(rs, ipg, |rs| - 1) * hz < U64
    ensures (forall evs, e :: Possible(evs + [e]) && Occurrences(evs, e.flow) > 0 && e.flow < setup.flows ==>
               DueAsMeant(setup, rs, ipg, hz, evs, e))
            <==> |rs| == 1
  {
    if |rs| == 1 {
      forall evs, e | Possible(evs + [e]) && Occurrences(evs, e.flow) > 0
        ensures DueAsMeant(setup, rs, ipg, hz, evs, e)
      {
        DueOfNextPacket(setup, rs, ipg, hz, room, evs, e, 0);
      }
    } else {
      var evs, e := RunNotAsMeant(setup, rs, ipg, hz, room);
    }
  }

  /** Flow 0, alone, up to a packet that is not due as it is meant to be. */
  lemma RunNotAsMeant(setup: Setup, rs: seq<Record>, ipg: Option<nat>, hz: nat, room: nat)
    returns (evs: seq<Event>, e: Event)
    requires setup.Valid() && AllAcceptable(rs, room, false) && setup.pkts == FlowPkts(rs, ipg, hz, room)
    requires |rs| > 1 && hz >= Cycles.MICROS && Ordered(rs, ipg) && RelUsec(rs, ipg, |rs| - 1) * hz < U64
    ensures Possible(evs + [e]) && Occurrences(evs, e.flow) > 0 && e.flow == 0
    ensures !DueAsMeant(setup, rs, ipg, hz, evs, e)
  {
    hide Wrap64, FlowPkts, WaitUsec, MeantUsec, RelUsec, Setup.ReportOf, Setup.DueAt, DueAsMeant, AllAcceptable;
    hide Ordered, Alone, Possible, Occurrences, LastLater, Cycles.FromDuration, LastCopied;
    var p := SomeWaitDiffers(rs, ipg);
    var k := if p == 1 then |rs| else Before(|rs|, p);
    e := Event(0, 0, true, 0);
    evs := Alone(k);
    AloneIsPossible(k);
    DueOfNextPacket(setup, rs, ipg, hz, room, evs, e, 0);
    NextOf(|rs|, p);
    NotAsMeantIfDiffers(setup, rs, ipg, hz, evs, e, p);
  }

  lemma NotAsMeantIfDiffers(setup: Setup, rs: seq<Record>, ipg: Option<nat>, hz: nat, evs: seq<Event>, e: Event, p: nat)
    requires setup.Valid() && |setup.pkts| == |rs| && p == setup.ReportOf(evs + [e]).pktIdx < |rs|
    requires hz >= Cycles.MICROS && Ordered(rs, ipg) && RelUsec(rs, ipg, |rs| - 1) * hz < U64
    requires WaitUsec(rs, ipg, p) != MeantUsec(rs, ipg, p) && LastLater(evs, e.flow) == 0
    requires setup.DueAt(evs, e.flow, 0) == Wrap64(0 + Cycles.FromDuration(WaitUsec(rs, ipg, p), Cycles.MICROS, hz))
    ensures !DueAsMeant(setup, rs, ipg, hz, evs, e)
  {
    hide Wrap64, WaitUsec, MeantUsec, RelUsec, Setup.ReportOf, Setup.DueAt, Ordered;
    WaitsFit(rs, ipg, p, hz);
    var due, meant := WaitUsec(rs, ipg, p), MeantUsec(rs, ipg, p);
    FineConversion(due, meant, hz);
    SmallWord(Cycles.FromDuration(due, Cycles.MICROS, hz));
    SmallWord(Cycles.FromDuration(meant, Cycles.MICROS, hz));
  }

  /** k events of flow 0. */
  function Alone(k: nat): (evs: seq<Event>)
    ensures |evs| == k
  {
    if k == 0 then [] else Alone(k - 1) + [Event(0, 0, true, 0)]
  }

  lemma {:induction false} AloneIsPossible(k: nat)
    ensures Possible(Alone(k)) && Occurrences(Alone(k), 0) == k && LastCopied(Alone(k), 0)
    ensures LastLater(Alone(k), 0) == 0 && Possible(Alone(k) + [Event(0, 0, true, 0)])
  {
    assert (Alone(k) + [Event(0, 0, true, 0)])[..k] == Alone(k);
    if k > 0 {
      AloneIsPossible(k - 1);
      assert Alone(k)[..k - 1] == Alone(k - 1);
    }
  }

  lemma NextOf(n: nat, p: nat)
    requires p < n && n > 1
    ensures ((if p == 1 then n else Before(n, p)) + 1) % n == p
  {
    if p == 0 {
      RemainderUnique(n, n, 1, 0);
    } else if p == 1 {
      RemainderUnique(n + 1, n, 1, 1);
    } else {
      RemainderUnique(p, n, 0, p);
    }
  }

  /** No time is longer than the longest that is stored. */
  lemma WaitsFit(rs: seq<Record>, ipg: Option<nat>, k: nat, hz: nat)
    requires k < |rs| && Ordered(rs, ipg) && RelUsec(rs, ipg, |rs| - 1) * hz < U64
    ensures 0 <= WaitUsec(rs, ipg, k) && WaitUsec(rs, ipg, k) * hz < U64
    ensures 0 <= MeantUsec(rs, ipg, k) && MeantUsec(rs, ipg, k) * hz < U64
  {
    hide Stamp;
    var last := RelUsec(rs, ipg, |rs| - 1);
    assert Stamp(rs, ipg, 0) <= Stamp(rs, ipg, k) <= Stamp(rs, ipg, |rs| - 1);
    assert Stamp(rs, ipg, 0) <= Stamp(rs, ipg, Before(|rs|, k)) <= Stamp(rs, ipg, |rs| - 1);
    if k > 0 { assert Stamp(rs, ipg, 0) <= Stamp(rs, ipg, k - 1) <= Stamp(rs, ipg, k); }
    MulMono(WaitUsec(rs, ipg, k), last, hz);
    MulMono(MeantUsec(rs, ipg, k), last, hz);
  }

  /** Different times are different numbers of cycles. */
  lemma FineConversion(a: nat, b: nat, hz: nat)
    requires a != b && hz >= Cycles.MICROS && a * hz < U64 && b * hz < U64
    ensures Cycles.FromDuration(a, Cycles.MICROS, hz) != Cycles.FromDuration(b, Cycles.MICROS, hz)
    ensures Cycles.FromDuration(a, Cycles.MICROS, hz) < U64 && Cycles.FromDuration(b, Cycles.MICROS, hz) < U64
  {
    var lo, hi := if a < b then a else b, if a < b then b else a;
    Cycles.FromDurationAdds(lo, hi - lo, Cycles.MICROS, hz);
    MulMono(1, hi - lo, hz);
    MulMono(hi - lo, hi, hz);
    SmallWord((hi - lo) * hz);
    assert Cycles.FromDuration(hi - lo, Cycles.MICROS, hz) >= 1;
  }

  //// An input on which they do not.

  /** A packet that the check of the headers accepts, with ports to be set or not. */
  function Plain(): (b: seq<Byte>)
    ensures |b| == ETHER_LEN + IPV4_LEN && Acceptable(b, true) && Acceptable(b, false)
  {
    seq(ETHER_LEN + IPV4_LEN, j => if j == 12 then 8 else 0)
  }

  function ThreeStamps(): seq<Record> {
    [Record(1, 0, Plain()), Record(1, 250_000, Plain()), Record(2, 500_000, Plain())]
  }

  lemma MbufsMore(r: Record, rest: seq<Record>, room: nat)
    ensures Mbufs([r] + rest, room) == |Chunks(r.payload, room)| + Mbufs(rest, room)
  {
    assert ([r] + rest)[1..] == rest;
  }

  lemma ThreeFit(room: nat)
    requires room >= ETHER_LEN + IPV4_LEN
    ensures var rs := ThreeStamps();
      AllFit(rs) && Mbufs(rs, room) == 3 && AllAcceptable(rs, room, false) && AllAcceptable(rs, room, true)
  {
    var rs := ThreeStamps();
    MbufsMore(rs[2], [], room);
    MbufsMore(rs[1], [rs[2]], room);
    MbufsMore(rs[0], [rs[1], rs[2]], room);
    assert [rs[2]] + [] == [rs[2]] && [rs[1]] + [rs[2]] == [rs[1], rs[2]] && [rs[0]] + [rs[1], rs[2]] == rs;
  }

  /** A file of these packets loads, each into one buffer. */
  lemma ThreeLoad(header: seq<Byte>, room: nat, free: nat, ports: bool, hz: nat)
    requires FileHeaderOk(header) && |header| == FILE_HEADER_SIZE && room >= ETHER_LEN + IPV4_LEN && free >= 3
    ensures AllAcceptable(ThreeStamps(), room, false) && AllFit(ThreeStamps())
    ensures LoadingOf(Some(header + SerialiseAll(ThreeStamps())), room, free, None, hz, ports)
            == Packets(FlowPkts(ThreeStamps(), None, hz, room))
  {
    ThreeFit(room);
    hide Mbufs, AllAcceptable, AllFit, SerialiseAll, Serialise, Plain, LoadAll, FlowPkts;
    var rs := ThreeStamps();
    var file := header + SerialiseAll(rs);
    assert file[..FILE_HEADER_SIZE] == header && file[FILE_HEADER_SIZE..] == SerialiseAll(rs);
    assert Fits(rs[0]);
    TruncatedFileLoadsItsCompleteRecords(rs, rs[0], 0, room, free);
    assert SerialiseAll(rs) + Serialise(rs[0])[..0] == SerialiseAll(rs);
  }

  /** Three packets of a file that loads, the second a quarter of a second after the first and the third 1.25 seconds
      after that. On a timer of a million cycles a second their flow waits 0.1 seconds for the second and 0.35 for the
      third, and 1.6 seconds to start again, where that is meant to take 0.1 seconds. */
  lemma NotAsMeant(header: seq<Byte>, room: nat, free: nat, ports: bool, setup: Setup, evs: seq<Event>, e: Event)
    requires FileHeaderOk(header) && |header| == FILE_HEADER_SIZE && room >= ETHER_LEN + IPV4_LEN && free >= 3
    ensures var rs := ThreeStamps();
      var l := LoadingOf(Some(header + SerialiseAll(rs)), room, free, None, 1_000_000, ports);
      && l.Packets?
      && (setup.Valid() && setup.pkts == l.pkts && Occurrences(evs, e.flow) > 0 ==>
            var p := setup.ReportOf(evs + [e]).pktIdx;
            && p < 3 && MeantUsec(rs, None, p) == [100_000, 250_000, 1_250_000][p]
            && setup.DueAt(evs, e.flow, 0) == Wrap64(LastLater(evs, e.flow) + [1_600_000, 100_000, 350_000][p]))
  {
    hide LoadingOf, FlowPkts, FileHeaderOk, SerialiseAll, Setup.ReportOf, Setup.DueAt, AllAcceptable, Plain;
    var rs := ThreeStamps();
    ThreeLoad(header, room, free, ports, 1_000_000);
    if setup.Valid() && setup.pkts == FlowPkts(rs, None, 1_000_000, room) && Occurrences(evs, e.flow) > 0 {
      DueOfNextPacket(setup, rs, None, 1_000_000, room, evs, e, 0);
    }
  }
}
