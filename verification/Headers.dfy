/** The headers at the front of a packet: which packets can be worked with, and what is rewritten in them. */
module Headers {
  import opened Words
  import opened Wrappers
  import opened Capture

  const ETHER_LEN := 14
  const IPV4_LEN := 20
  const TCP_LEN := 20
  const UDP_LEN := 8
  const ETHER_TYPE_IPV4 := 0x0800
  const IPPROTO_TCP := 6
  const IPPROTO_UDP := 17

  type EtherAddr = a: seq<Byte> | |a| == 6 witness [0, 0, 0, 0, 0, 0]
  type Port = n: nat | n < U16 witness 0

  /** What a generator is configured to put into its packets. */
  datatype Rewrite = Rewrite(cln: EtherAddr, srv: EtherAddr, clnPort: Option<Port>)

  /** The two bytes of a number, the highest first. */
  function BigEndian(n: Port): (b: seq<Byte>)
    ensures |b| == 2 && 256 * b[0] as int + b[1] as int == n
  {
    [n / 256, n % 256]
  }

  function EtherType(b: seq<Byte>): nat
    requires |b| >= ETHER_LEN
  {
    256 * b[12] as int + b[13] as int
  }

  function SrcOf(b: seq<Byte>): EtherAddr
    requires |b| >= ETHER_LEN
  {
    b[6..12]
  }

  function IpHeader(b: seq<Byte>): (h: seq<Byte>)
    requires |b| >= ETHER_LEN + IPV4_LEN
    ensures |h| == IPV4_LEN
  {
    b[ETHER_LEN..ETHER_LEN + IPV4_LEN]
  }

  function Protocol(b: seq<Byte>): nat
    requires |b| >= ETHER_LEN + IPV4_LEN
  {
    b[ETHER_LEN + 9]
  }

  /** Where the header after the IPv4 header begins, by the length that this one claims. */
  function TransportAt(b: seq<Byte>): nat
    requires |b| >= ETHER_LEN + IPV4_LEN
  {
    ETHER_LEN + b[ETHER_LEN] as int % 16 * 4
  }

  /** How long the header with the ports is, if there is one. */
  function TransportLen(b: seq<Byte>): Option<nat>
    requires |b| >= ETHER_LEN + IPV4_LEN
  {
    if Protocol(b) == IPPROTO_TCP then Some(TCP_LEN) else if Protocol(b) == IPPROTO_UDP then Some(UDP_LEN) else None
  }

  /** The headers that are changed, now or later, are in these bytes, which are those of the first segment; those with
      the ports only when a port is to be set. */
  predicate Acceptable(b: seq<Byte>, ports: bool) {
    && |b| >= ETHER_LEN && EtherType(b) == ETHER_TYPE_IPV4 && |b| >= ETHER_LEN + IPV4_LEN
    && (ports && TransportLen(b).Some? ==> TransportAt(b) + TransportLen(b).value <= |b|)
  }

  /** The bytes with some of them replaced. */
  function Put(b: seq<Byte>, at: nat, some: seq<Byte>): (r: seq<Byte>)
    requires at + |some| <= |b|
    ensures |r| == |b| && r[at..at + |some|] == some
    ensures forall j :: 0 <= j < |b| && !(at <= j < at + |some|) ==> r[j] == b[j]
  {
    b[..at] + some + b[at + |some|..]
  }

  /** Where the client's port is, if it is to be set and the packet has ports. */
  function PortAt(b: seq<Byte>, ports: bool, fromCln: bool): (at: Option<nat>)
    requires Acceptable(b, ports)
    ensures at.Some? ==> ports && ETHER_LEN <= at.value && at.value + 2 <= |b|
  {
    if ports && TransportLen(b).Some? then Some(TransportAt(b) + if fromCln then 0 else 2) else None
  }

  /** A packet's first segment as it goes into flows. */
  function Rewritten(b: seq<Byte>, rw: Rewrite, fromCln: bool): (r: seq<Byte>)
    requires Acceptable(b, rw.clnPort.Some?)
    ensures |r| == |b|
  {
    var ether := Put(Put(b, 6, if fromCln then rw.cln else rw.srv), 0, if fromCln then rw.srv else rw.cln);
    var at := PortAt(b, rw.clnPort.Some?, fromCln);
    if at.Some? then Put(ether, at.value, BigEndian(rw.clnPort.value)) else ether
  }

  /** Whether a packet has ports: it is TCP or UDP by its byte 23. */
  predicate HasPorts(b: seq<Byte>) {
    |b| > 23 && (b[23] == 6 || b[23] == 17)
  }

  /** Where the client's port is: in the first two bytes after the IPv4 header, whose length byte 14 claims in words of
      four, if the client sends the packet, and else in the next two. */
  function ClientPortAt(b: seq<Byte>, fromCln: bool): nat
    requires |b| > 14
  {
    14 + 4 * (b[14] as int % 16) + if fromCln then 0 else 2
  }

  /** Packets can be worked with that are IPv4 by bytes 12 and 13, with a whole header of the smallest length and, if a
      port is to be set and there are ports, with the whole header of TCP or UDP where that begins. */
  predicate WorkableIn(b: seq<Byte>, ports: bool) {
    && |b| >= 34 && b[12] == 8 && b[13] == 0
    && (ports && HasPorts(b) ==> ClientPortAt(b, true) + (if b[23] == 6 then 20 else 8) <= |b|)
  }

  lemma AcceptableIff(b: seq<Byte>, ports: bool)
    ensures Acceptable(b, ports) <==> WorkableIn(b, ports)
  {
  }

  /** From one address to the other, with the client's port on the client's side, and as it was otherwise. */
  predicate IsRewritten(b: seq<Byte>, rw: Rewrite, fromCln: bool, r: seq<Byte>) {
    && |r| == |b| >= 34
    && r[..6] == (if fromCln then rw.srv else rw.cln) && r[6..12] == (if fromCln then rw.cln else rw.srv)
    && var at := ClientPortAt(b, fromCln);
    var ports := rw.clnPort.Some? && HasPorts(b);
    && (ports ==> at + 2 <= |r| && 256 * r[at] as int + r[at + 1] as int == rw.clnPort.value)
    && (forall j :: 12 <= j < |b| && !(ports && at <= j < at + 2) ==> r[j] == b[j])
  }

  /** These bytes, and only these, go into flows. */
  lemma RewrittenIff(b: seq<Byte>, rw: Rewrite, fromCln: bool, r: seq<Byte>)
    requires Acceptable(b, rw.clnPort.Some?)
    ensures r == Rewritten(b, rw, fromCln) <==> IsRewritten(b, rw, fromCln, r)
  {
    var w := Rewritten(b, rw, fromCln);
    RewrittenIs(b, rw, fromCln);
    if IsRewritten(b, rw, fromCln, r) {
      OnlyOne(b, rw, fromCln, r, w);
    }
  }

  lemma RewrittenIs(b: seq<Byte>, rw: Rewrite, fromCln: bool)
    requires Acceptable(b, rw.clnPort.Some?)
    ensures IsRewritten(b, rw, fromCln, Rewritten(b, rw, fromCln))
  {
    var at := PortAt(b, rw.clnPort.Some?, fromCln);
    PortPlace(b, rw.clnPort.Some?, fromCln);
    var src, dst := if fromCln then rw.cln else rw.srv, if fromCln then rw.srv else rw.cln;
    AddressesPut(b, src, dst);
    hide Put, PortAt, BigEndian, HasPorts, ClientPortAt, Acceptable;
    if at.Some? { PortPut(Put(Put(b, 6, src), 0, dst), at.value, rw.clnPort.value); }
  }

  lemma PortPlace(b: seq<Byte>, ports: bool, fromCln: bool)
    requires Acceptable(b, ports)
    ensures |b| >= 34
    ensures PortAt(b, ports, fromCln) == if ports && HasPorts(b) then Some(ClientPortAt(b, fromCln)) else None
  {
  }

  lemma AddressesPut(b: seq<Byte>, src: EtherAddr, dst: EtherAddr)
    requires |b| >= 12
    ensures var e := Put(Put(b, 6, src), 0, dst);
      e[..6] == dst && e[6..12] == src && forall j :: 12 <= j < |b| ==> e[j] == b[j]
  {
    hide Put;
    assert forall j :: 0 <= j < 6 ==> Put(b, 6, src)[6..12][j] == Put(b, 6, src)[6 + j];
  }

  lemma PortPut(e: seq<Byte>, at: nat, port: Port)
    requires 12 <= at && at + 2 <= |e|
    ensures var w := Put(e, at, BigEndian(port));
      && w[..6] == e[..6] && w[6..12] == e[6..12] && 256 * w[at] as int + w[at + 1] as int == port
      && forall j :: 12 <= j < |e| && !(at <= j < at + 2) ==> w[j] == e[j]
  {
    var w := Put(e, at, BigEndian(port));
    hide Put;
    assert w[at] == w[at..at + 2][0] && w[at + 1] == w[at..at + 2][1];
  }

  lemma OnlyOne(b: seq<Byte>, rw: Rewrite, fromCln: bool, r: seq<Byte>, w: seq<Byte>)
    requires IsRewritten(b, rw, fromCln, r) && IsRewritten(b, rw, fromCln, w)
    ensures r == w
  {
    var at := ClientPortAt(b, fromCln);
    forall j | 0 <= j < |b| ensures r[j] == w[j] {
      if j < 6 {
        assert r[..6][j] == w[..6][j];
      } else if j < 12 {
        assert r[6..12][j - 6] == w[6..12][j - 6];
      }
    }
  }

  /** The IPv4 header of a packet with ports is as it was, whatever the port, exactly when it claims to be as long as
      the smallest one. The check does not ask for that. */
  lemma IpHeaderStaysIff(b: seq<Byte>, rw: Rewrite, fromCln: bool)
    requires rw.clnPort.Some? && Acceptable(b, rw.clnPort.Some?) && TransportLen(b).Some?
    ensures (forall port: Port :: IpHeader(Rewritten(b, rw.(clnPort := Some(port)), fromCln)) == IpHeader(b))
            <==> b[ETHER_LEN] as int % 16 * 4 >= IPV4_LEN
  {
    hide Rewritten, IpHeader;
    if b[ETHER_LEN] as int % 16 * 4 >= IPV4_LEN {
      forall port: Port ensures IpHeader(Rewritten(b, rw.(clnPort := Some(port)), fromCln)) == IpHeader(b) {
        IpHeaderStays(b, rw.(clnPort := Some(port)), fromCln);
      }
    } else {
      PortIsSeen(b, rw.(clnPort := Some(0)), fromCln);
      PortIsSeen(b, rw.(clnPort := Some(1)), fromCln);
      assert BigEndian(0)[1] != BigEndian(1)[1];
    }
  }

  lemma IpHeaderStays(b: seq<Byte>, rw: Rewrite, fromCln: bool)
    requires rw.clnPort.Some? && Acceptable(b, true) && b[ETHER_LEN] as int % 16 * 4 >= IPV4_LEN
    ensures IpHeader(Rewritten(b, rw, fromCln)) == IpHeader(b)
  {
    var r := Rewritten(b, rw, fromCln);
    assert forall j :: ETHER_LEN <= j < ETHER_LEN + IPV4_LEN ==> r[j] == b[j];
    hide Rewritten;
  }

  /** The low byte of the port, where it overlaps a header that claims to be shorter than it is. */
  lemma PortIsSeen(b: seq<Byte>, rw: Rewrite, fromCln: bool)
    requires rw.clnPort.Some? && Acceptable(b, true) && TransportLen(b).Some?
    requires b[ETHER_LEN] as int % 16 * 4 < IPV4_LEN
    ensures var at := PortAt(b, true, fromCln).value;
      at + 1 < ETHER_LEN + IPV4_LEN
      && IpHeader(Rewritten(b, rw, fromCln))[at + 1 - ETHER_LEN] == BigEndian(rw.clnPort.value)[1]
  {
    var at, r := PortAt(b, true, fromCln).value, Rewritten(b, rw, fromCln);
    assert r[at..at + 2] == BigEndian(rw.clnPort.value);
    assert r[at + 1] == r[at..at + 2][1];
  }

  //// Segments.

  /** The first segment of a packet, in buffers of `room` bytes. */
  function First(payload: seq<Byte>, room: nat): (b: seq<Byte>)
    ensures |b| <= |payload|
  {
    Chunks(payload, room)[0]
  }

  function WithFirst(payload: seq<Byte>, room: nat, b: seq<Byte>): (p: seq<Byte>)
    requires |b| == |First(payload, room)|
    ensures |p| == |payload|
  {
    b + payload[|b|..]
  }

  /** Changing the first segment changes that segment only. */
  lemma ChunksWithFirst(payload: seq<Byte>, room: nat, b: seq<Byte>)
    requires |b| == |First(payload, room)|
    ensures Chunks(WithFirst(payload, room, b), room) == Chunks(payload, room)[0 := b]
  {
    var p := WithFirst(payload, room, b);
    if |payload| > room > 0 {
      assert p[..room] == b && p[room..] == payload[room..];
    } else {
      assert p == b;
    }
  }

  //// All packets of a capture.

  predicate AcceptableAt(rs: seq<Record>, room: nat, ports: bool, k: nat)
    requires k < |rs|
  {
    Acceptable(First(rs[k].payload, room), ports)
  }

  /** Every packet can be worked with. */
  predicate AllAcceptable(rs: seq<Record>, room: nat, ports: bool) {
    forall k :: 0 <= k < |rs| ==> AcceptableAt(rs, room, ports, k)
  }

  /** The client sent the first packet, and those that come from the same address. */
  predicate FromClient(rs: seq<Record>, room: nat, k: nat)
    requires k < |rs| && AcceptableAt(rs, room, false, 0) && AcceptableAt(rs, room, false, k)
  {
    SrcOf(First(rs[k].payload, room)) == SrcOf(First(rs[0].payload, room))
  }

  /** A record with its packet rewritten. */
  function RewrittenOne(rs: seq<Record>, room: nat, rw: Rewrite, k: nat): (w: Record)
    requires k < |rs| && AcceptableAt(rs, room, rw.clnPort.Some?, 0) && AcceptableAt(rs, room, rw.clnPort.Some?, k)
    ensures |w.payload| == |rs[k].payload|
  {
    var b := First(rs[k].payload, room);
    rs[k].(payload := WithFirst(rs[k].payload, room, Rewritten(b, rw, FromClient(rs, room, k))))
  }

  function RewrittenAll(rs: seq<Record>, room: nat, rw: Rewrite): (ws: seq<Record>)
    requires AllAcceptable(rs, room, rw.clnPort.Some?)
    ensures |ws| == |rs|
  {
    seq(|rs|, k requires 0 <= k < |rs| => RewrittenOne(rs, room, rw, k))
  }

  /** What the packets of a capture are in flows: rewritten from the client, or to it, by whether they come from where
      the first one does; their times are as they were. */
  lemma PacketsAreRewritten(rs: seq<Record>, room: nat, rw: Rewrite, k: nat)
    requires AllAcceptable(rs, room, rw.clnPort.Some?) && k < |rs|
    ensures var r, w := rs[k], RewrittenAll(rs, room, rw)[k];
      && |r.payload| >= 34 && |rs[0].payload| >= 34 && w.sec == r.sec && w.usec == r.usec
      && IsRewritten(r.payload, rw, r.payload[6..12] == rs[0].payload[6..12], w.payload)
  {
    hide Rewritten, First, IsRewritten, EtherType, TransportAt, TransportLen;
    assert AcceptableAt(rs, room, rw.clnPort.Some?, k) && AcceptableAt(rs, room, rw.clnPort.Some?, 0);
    FirstIsPrefix(rs[k].payload, room);
    FirstIsPrefix(rs[0].payload, room);
    var b := First(rs[k].payload, room);
    RewrittenIs(b, rw, FromClient(rs, room, k));
    WholeIsRewritten(rs[k].payload, b, rw, FromClient(rs, room, k), Rewritten(b, rw, FromClient(rs, room, k)));
  }

  lemma FirstIsPrefix(payload: seq<Byte>, room: nat)
    ensures First(payload, room) <= payload
    ensures |First(payload, room)| >= 12 ==> First(payload, room)[6..12] == payload[6..12]
  {
  }

  /** What is changed is in the first segment. */
  lemma WholeIsRewritten(p: seq<Byte>, b: seq<Byte>, rw: Rewrite, fromCln: bool, r: seq<Byte>)
    requires b <= p && IsRewritten(b, rw, fromCln, r)
    ensures IsRewritten(p, rw, fromCln, r + p[|b|..])
  {
    var w := r + p[|b|..];
    assert w[..6] == r[..6] && w[6..12] == r[6..12];
  }
}
