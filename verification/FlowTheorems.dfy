/** What the rotation of addresses and the schedule amount to, for every history of flow events. */
module FlowTheorems {
  import opened Words
  import opened Flows
  import Cycles

  //// Allocations.

  /** The least common multiple, by search. */
  function Lcm(c: nat, s: nat): (l: nat)
    requires c > 0 && s > 0
    ensures IsLcm(l, c, s)
  {
    ProductIsCommon(c, s);
    LcmFrom(c, s, 1)
  }

  predicate Common(k: nat, c: nat, s: nat)
    requires c > 0 && s > 0
  {
    k % c == 0 && k % s == 0
  }

  ghost predicate IsLcm(l: nat, c: nat, s: nat)
    requires c > 0 && s > 0
  {
    l > 0 && Common(l, c, s) && forall k :: 0 < k < l ==> !Common(k, c, s)
  }

  lemma ProductIsCommon(c: nat, s: nat)
    requires c > 0 && s > 0
    ensures c * s > 0 && Common(c * s, c, s)
  {
    MulMono(1, c, s);
    RemainderUnique(c * s, c, s, 0);
    RemainderUnique(c * s, s, c, 0);
  }

  function LcmFrom(c: nat, s: nat, k: nat): (l: nat)
    requires c > 0 && s > 0 && 0 < k <= c * s && Common(c * s, c, s)
    requires forall j :: 0 < j < k ==> !Common(j, c, s)
    ensures IsLcm(l, c, s)
    decreases c * s - k
  {
    if Common(k, c, s) then k else LcmFrom(c, s, k + 1)
  }

  lemma SameRemainder(x: nat, y: nat, n: nat)
    requires n > 0 && x <= y
    ensures x % n == y % n <==> (y - x) % n == 0
  {
    var qx, qy := x / n, y / n;
    assert x == qx * n + x % n && y == qy * n + y % n;
    MulAdd(qy, -qx, n);
    if x % n == y % n {
      RemainderUnique(y - x, n, qy - qx, 0);
    } else if (y - x) % n == 0 {
      var q := (y - x) / n;
      assert y - x == q * n;
      MulAdd(qx, q, n);
      RemainderUnique(y, n, qx + q, x % n);
    }
  }

  /** The common multiples are the multiples of the least one. */
  lemma CommonMultiples(d: nat, c: nat, s: nat)
    requires c > 0 && s > 0
    ensures Common(d, c, s) <==> d % Lcm(c, s) == 0
  {
    var l := Lcm(c, s);
    var q, r := d / l, d % l;
    assert d == q * l + r;
    MultiplePlus(d, q, l, r, c);
    MultiplePlus(d, q, l, r, s);
    if Common(d, c, s) { assert !(0 < r < l) || !Common(r, c, s); }
  }

  lemma MultiplePlus(d: nat, q: nat, l: nat, r: nat, c: nat)
    requires c > 0 && d == q * l + r && l % c == 0
    ensures d % c == 0 <==> r % c == 0
  {
    var t := q * l;
    var m := l / c;
    assert l == m * c;
    MulAssoc(q, m, c);
    RemainderUnique(t, c, q * m, 0);
    MulMono(0, q, l);
    SameRemainder(r, d, c);
  }

  /** The closed form of the rotation: allocation m gets host (m / burst) mod n of the n hosts of its range. */
  lemma HostInClosedForm(r: Range, burst: nat, m: nat)
    requires r.Valid() && burst > 0
    ensures Host(r, burst, m) == (r.beg + (m / burst) % r.Size()) % U32
  {
    CursorInClosedForm(r, m / burst);
  }

  /** An address of a network that is neither the network's own nor that for all, or the only one. */
  predicate IsHost(address: nat, prefix: nat, a: nat)
    requires prefix <= 32
  {
    var block := Pow2(32 - prefix);
    var network := address - address % block;
    if prefix == 32 then a == address else network < a < network + block - 1
  }

  /** Flows work with hosts of the network they are configured with, exactly unless that has two addresses. */
  lemma HostsAreInsideIff(address: nat, prefix: nat, burst: nat)
    requires address < U32 && prefix <= 32 && burst > 0
    ensures (forall m: nat :: IsHost(address, prefix, Host(Hosts(address, prefix), burst, m))) <==> prefix != 31
  {
    if prefix == 31 {
      HostInClosedForm(Hosts(address, prefix), burst, 0);
      NotInsideTwo(address, burst);
    } else {
      forall m: nat ensures IsHost(address, prefix, Host(Hosts(address, prefix), burst, m)) {
        HostIsInside(address, prefix, burst, m);
      }
    }
  }

  lemma NotInsideTwo(address: nat, burst: nat)
    requires address < U32 && burst > 0
    ensures !IsHost(address, 31, Host(Hosts(address, 31), burst, 0))
  {
    assert Pow2(1) == 2;
    RemainderUnique(0, burst, 0, 0);
  }

  lemma HostIsInside(address: nat, prefix: nat, burst: nat, m: nat)
    requires address < U32 && prefix <= 32 && prefix != 31 && burst > 0
    ensures IsHost(address, prefix, Host(Hosts(address, prefix), burst, m))
  {
    hide *;
    var r := Hosts(address, prefix);
    var q, n := m / burst, r.Size();
    HostInClosedForm(r, burst, m);
    HostsOfNetwork(address, prefix);
    assert q % n < n;
    PlaceIsInside(address, prefix, q % n);
  }

  lemma PlaceIsInside(address: nat, prefix: nat, x: nat)
    requires address < U32 && prefix <= 32 && x < if prefix == 32 then 1 else Pow2(32 - prefix) - 2
    ensures IsHost(address, prefix, (Hosts(address, prefix).beg + x) % U32)
  {
    hide *;
    var block := Pow2(32 - prefix);
    var network := address - address % block;
    BlockOf(address, prefix);
    if prefix < 32 {
      PlaceInBlock(network, block, x);
      HostOfBlock(address, prefix, network, block, ((network + 1) % U32 + x) % U32);
    } else {
      OnlyHost(address);
    }
  }

  lemma HostOfBlock(address: nat, prefix: nat, network: int, block: nat, a: nat)
    requires address < U32 && prefix < 32 && block == Pow2(32 - prefix) > 0 && network == address - address % block
    requires network < a < network + block - 1
    ensures IsHost(address, prefix, a) && Hosts(address, prefix).beg == (network + 1) % U32
  {
    hide Pow2;
  }

  lemma OnlyHost(address: nat)
    requires address < U32
    ensures IsHost(address, 32, address % U32) && Hosts(address, 32).beg == address
  {
    hide Pow2;
  }

  lemma PlaceInBlock(network: int, block: nat, x: nat)
    requires 0 <= network <= U32 - block && x < block - 2
    ensures network < ((network + 1) % U32 + x) % U32 < network + block - 1
  {
    InsideBlock(network, block, x);
  }

  /** A network is a block of addresses of its size. */
  lemma BlockOf(address: nat, prefix: nat)
    requires address < U32 && prefix <= 32
    ensures var block := Pow2(32 - prefix); block > 0 && 0 <= address - address % block <= U32 - block
  {
    Powers(32 - prefix);
    PowersDivide(32 - prefix, 32);
    BlockInside(address, Pow2(32 - prefix), Pow2(prefix));
  }

  lemma InsideBlock(network: int, block: nat, x: nat)
    requires 0 <= network + 1 <= network + block - 2 < U32 && x < block - 2
    ensures ((network + 1) % U32 + x) % U32 == network + 1 + x
  {
  }

  /** A cursor is at the same address again after a round, and not before. */
  lemma SameCursorIff(r: Range, x: nat, y: nat)
    requires r.Valid()
    ensures Cursor(r, x) == Cursor(r, y) <==> x % r.Size() == y % r.Size()
  {
    CursorInClosedForm(r, x);
    CursorInClosedForm(r, y);
    SameAddressIff(r.beg, x % r.Size(), y % r.Size());
  }

  lemma SameAddressIff(beg: nat, i: nat, j: nat)
    requires beg < U32 && i < U32 && j < U32
    ensures (beg + i) % U32 == (beg + j) % U32 <==> i == j
  {
  }

  /** Two allocations get the same pair of addresses exactly when their bursts are the same modulo lcm(C, S). */
  lemma SamePairIff(setup: Setup, a: nat, b: nat)
    requires setup.Valid()
    ensures (Host(setup.cln, setup.burst, a) == Host(setup.cln, setup.burst, b)
             && Host(setup.srv, setup.burst, a) == Host(setup.srv, setup.burst, b))
       <==> (a / setup.burst) % Lcm(setup.cln.Size(), setup.srv.Size())
            == (b / setup.burst) % Lcm(setup.cln.Size(), setup.srv.Size())
  {
    hide Host, Range.Size, Lcm;
    SameHostIff(setup.cln, setup.burst, a, b);
    SameHostIff(setup.srv, setup.burst, a, b);
    SameModuloBoth(a / setup.burst, b / setup.burst, setup.cln.Size(), setup.srv.Size());
  }

  lemma SameHostIff(r: Range, burst: nat, a: nat, b: nat)
    requires r.Valid() && burst > 0
    ensures Host(r, burst, a) == Host(r, burst, b) <==> (a / burst) % r.Size() == (b / burst) % r.Size()
  {
    SameCursorIff(r, a / burst, b / burst);
  }

  lemma SameModuloBoth(x: nat, y: nat, c: nat, s: nat)
    requires c > 0 && s > 0
    ensures x % c == y % c && x % s == y % s <==> x % Lcm(c, s) == y % Lcm(c, s)
  {
    hide Lcm;
    var lo, hi := if x <= y then x else y, if x <= y then y else x;
    CommonMultiples(hi - lo, c, s);
    SameRemainder(lo, hi, c);
    SameRemainder(lo, hi, s);
    SameRemainder(lo, hi, Lcm(c, s));
  }

  /** No two flows ever work with the same allocation. */
  lemma {:induction false} AllocationsDiffer(evs: seq<Event>, flows: nat, n: nat, i: nat, j: nat)
    requires n > 0 && i < flows && j < flows && i != j
    ensures Allocation(evs, flows, n, i) < flows + Restarts(evs, n)
    ensures Allocation(evs, flows, n, j) < flows + Restarts(evs, n)
    ensures Allocation(evs, flows, n, i) != Allocation(evs, flows, n, j)
  {
    if evs != [] {
      AllocationsDiffer(evs[..|evs| - 1], flows, n, i, j);
    }
  }

  /** Complete rounds of the first m flows. */
  function Rounds(evs: seq<Event>, n: nat, m: nat): nat
    requires n > 0
  {
    if m == 0 then 0 else Rounds(evs, n, m - 1) + Occurrences(evs, m - 1) / n
  }

  /** There is one restart for every complete round of a flow. */
  lemma {:induction false} RestartsAreRounds(evs: seq<Event>, flows: nat, n: nat)
    requires n > 0 && forall e :: e in evs ==> e.flow < flows
    ensures Restarts(evs, n) == Rounds(evs, n, flows)
  {
    if evs == [] {
      NoRounds(n, flows);
    } else {
      var front, e := evs[..|evs| - 1], evs[|evs| - 1];
      RestartsAreRounds(front, flows, n);
      assert evs == front + [e] && e in evs;
      RestartAtEnd(front, e, n);
      OneMoreRound(front, e, n, flows);
    }
  }

  lemma {:induction false} NoRounds(n: nat, m: nat)
    requires n > 0
    ensures Rounds([], n, m) == 0
  {
    if m > 0 { NoRounds(n, m - 1); }
  }

  lemma {:induction false} OneMoreRound(was: seq<Event>, e: Event, n: nat, m: nat)
    requires n > 0
    ensures Rounds(was + [e], n, m) ==
            Rounds(was, n, m) + if e.flow < m && Occurrences(was, e.flow) % n + 1 == n then 1 else 0
  {
    if m > 0 {
      OneMoreRound(was, e, n, m - 1);
      Occurs(was, e, m - 1);
      Successor(Occurrences(was, m - 1), n);
    }
  }

  /** Which allocation a flow works with: its own at first, and after its k-th event, of n in a round, the one after all
      that flows began before the event that completed its last round. */
  lemma {:induction false} AllocationOfRound(evs: seq<Event>, flows: nat, n: nat, i: nat) returns (p: nat)
    requires n > 0 && forall e :: e in evs ==> e.flow < flows
    ensures var k, m := Occurrences(evs, i), Allocation(evs, flows, n, i);
      if k < n then m == i
      else p < |evs| && evs[p].flow == i && Occurrences(evs[..p + 1], i) == k - k % n
           && m == flows + Rounds(evs[..p], n, flows)
  {
    p := 0;
    if evs != [] {
      var front, e := evs[..|evs| - 1], evs[|evs| - 1];
      assert evs == front + [e];
      Occurs(front, e, i);
      Successor(Occurrences(front, i), n);
      if e.flow == i && IsRestart(evs, n) {
        p := |front|;
        assert evs[..p + 1] == evs;
        RestartsAreRounds(front, flows, n);
        AtLeastARound(Occurrences(evs, i), n);
      } else {
        p := AllocationOfRound(front, flows, n, i);
        if p < |front| { assert front[..p] == evs[..p] && front[..p + 1] == evs[..p + 1]; }
        SameRound(Occurrences(front, i), Occurrences(evs, i), n);
      }
    }
  }

  lemma AtLeastARound(k: nat, n: nat)
    requires n > 0 && k > 0 && k % n == 0
    ensures k >= n
  {
    if k < n { RemainderUnique(k, n, 0, k); }
  }

  lemma SameRound(k: nat, k': nat, n: nat)
    requires n > 0 && (k' == k || (k' == k + 1 && k' % n != 0))
    ensures k' - k' % n == k - k % n && (k' < n <==> k < n)
  {
    Successor(k, n);
    if k < n { RemainderUnique(k, n, 0, k); }
  }

  /** Which addresses a report has: on the client's side and on the server's, the same place around both ranges. */
  lemma AddressesOfReport(setup: Setup, evs: seq<Event>) returns (p: nat)
    requires setup.Valid() && evs != [] && forall e :: e in evs ==> e.flow < setup.flows
    ensures var r, n, i := setup.ReportOf(evs), |setup.pkts|, evs[|evs| - 1].flow;
      var k := Occurrences(evs, i);
      && (k >= n ==> p < |evs| && evs[p].flow == i && Occurrences(evs[..p + 1], i) == k - k % n)
      && var m := (if k < n then i else setup.flows + Rounds(evs[..p], n, setup.flows)) / setup.burst;
      && (if r.fromCln then r.src else r.dst) == (setup.cln.beg + m % setup.cln.Size()) % U32
      && (if r.fromCln then r.dst else r.src) == (setup.srv.beg + m % setup.srv.Size()) % U32
  {
    hide Range.Size, Host;
    var i := evs[|evs| - 1].flow;
    p := AllocationOfRound(evs, setup.flows, |setup.pkts|, i);
    var m := Allocation(evs, setup.flows, |setup.pkts|, i);
    HostInClosedForm(setup.cln, setup.burst, m);
    HostInClosedForm(setup.srv, setup.burst, m);
  }

  //// Reports.

  /** Event p is reported by report p, which depends on nothing that came later. */
  lemma {:induction false} ReportOfEvent(setup: Setup, evs: seq<Event>, p: nat)
    requires setup.Valid() && p < |evs|
    ensures |setup.ReportsOf(evs)| == |evs|
    ensures setup.ReportsOf(evs)[p] == setup.ReportOf(evs[..p + 1])
  {
    var front := evs[..|evs| - 1];
    if p < |front| {
      ReportOfEvent(setup, front, p);
      assert front[..p + 1] == evs[..p + 1];
    } else {
      if front != [] { ReportOfEvent(setup, front, 0); }
      assert evs[..p + 1] == evs;
    }
  }

  function ReportsOfFlow(rs: seq<Report>, i: nat): seq<Report> {
    if rs == [] then []
    else ReportsOfFlow(rs[..|rs| - 1], i) + if rs[|rs| - 1].flowIdx == i then [rs[|rs| - 1]] else []
  }

  /** A flow with k events has exactly k reports; number q of them, counted from 1, is of packet q mod n. */
  lemma {:induction false} ReportsOfOneFlow(setup: Setup, evs: seq<Event>, i: nat)
    requires setup.Valid()
    ensures var rs := ReportsOfFlow(setup.ReportsOf(evs), i);
      && |rs| == Occurrences(evs, i)
      && forall q :: 0 <= q < |rs| ==> rs[q].pktIdx == (q + 1) % |setup.pkts|
  {
    if evs != [] {
      var front := evs[..|evs| - 1];
      ReportsOfOneFlow(setup, front, i);
      assert setup.ReportsOf(evs)[..|setup.ReportsOf(front)|] == setup.ReportsOf(front);
    }
  }

  /** What an event reports: the time, its flow, the packet that follows, and whether it was copied; with the hosts of
      one allocation on the client's side and on the server's. */
  lemma ReportOfLast(setup: Setup, evs: seq<Event>, e: Event) returns (m: nat)
    requires setup.Valid()
    ensures var r := setup.ReportOf(evs + [e]);
      && r.pktIdx == (Occurrences(evs, e.flow) + 1) % |setup.pkts| < |setup.pkts|
      && r.tstamp == e.now && r.flowIdx == e.flow && r.ok == e.copied
      && r.pktLen == setup.pkts[r.pktIdx].len && r.fromCln == setup.pkts[r.pktIdx].fromCln
      && (if r.fromCln then r.src else r.dst) == Host(setup.cln, setup.burst, m)
      && (if r.fromCln then r.dst else r.src) == Host(setup.srv, setup.burst, m)
  {
    hide Host, Allocation;
    Occurs(evs, e, e.flow);
    m := Allocation(evs + [e], setup.flows, |setup.pkts|, e.flow);
  }

  /** The bytes of the packets that are reported. */
  function LenOf(rs: seq<Report>): nat {
    if rs == [] then 0 else LenOf(rs[..|rs| - 1]) + rs[|rs| - 1].pktLen
  }

  lemma MoreOfFlow(setup: Setup, evs: seq<Event>, i: nat)
    requires setup.Valid() && evs != []
    ensures ReportsOfFlow(setup.ReportsOf(evs), i) ==
            ReportsOfFlow(setup.ReportsOf(evs[..|evs| - 1]), i)
            + if evs[|evs| - 1].flow == i then [setup.ReportOf(evs)] else []
  {
    var rs := setup.ReportsOf(evs);
    assert rs[..|rs| - 1] == setup.ReportsOf(evs[..|evs| - 1]);
  }

  lemma LenMore(rs: seq<Report>, r: Report)
    ensures LenOf(rs + [r]) == LenOf(rs) + r.pktLen && LenOf(rs + []) == LenOf(rs)
  {
    assert (rs + [r])[..|rs|] == rs && rs + [] == rs;
  }

  lemma NothingReported(setup: Setup, i: nat)
    requires setup.Valid()
    ensures Bytes(setup.pkts, Occurrences([], i)) == LenOf(ReportsOfFlow(setup.ReportsOf([]), i)) == 0
  {
  }

  lemma BytesOfEvent(setup: Setup, evs: seq<Event>, i: nat)
    requires setup.Valid() && evs != []
    ensures Bytes(setup.pkts, Occurrences(evs, i)) ==
            Bytes(setup.pkts, Occurrences(evs[..|evs| - 1], i))
            + if evs[|evs| - 1].flow == i then setup.ReportOf(evs).pktLen else 0
  {
  }

  lemma {:induction false} BytesAreReported(setup: Setup, evs: seq<Event>, i: nat)
    requires setup.Valid()
    ensures Bytes(setup.pkts, Occurrences(evs, i)) == LenOf(ReportsOfFlow(setup.ReportsOf(evs), i))
  {
    hide *;
    if evs == [] {
      NothingReported(setup, i);
    } else {
      var front := evs[..|evs| - 1];
      BytesAreReported(setup, front, i);
      MoreOfFlow(setup, evs, i);
      LenMore(ReportsOfFlow(setup.ReportsOf(front), i), setup.ReportOf(evs));
      BytesOfEvent(setup, evs, i);
    }
  }

  lemma {:induction false} TimesAreReported(setup: Setup, evs: seq<Event>, i: nat)
    requires setup.Valid()
    ensures var rs := ReportsOfFlow(setup.ReportsOf(evs), i);
      && |rs| == Occurrences(evs, i)
      && FirstTime(evs, i) == (if rs == [] then 0 else rs[0].tstamp)
      && LastTime(evs, i) == if rs == [] then 0 else rs[|rs| - 1].tstamp
  {
    if evs != [] {
      TimesAreReported(setup, evs[..|evs| - 1], i);
      MoreOfFlow(setup, evs, i);
    }
  }

  /** What a flow has counted is what was reported of it: how many packets, their bytes, and the first and the last
      time. The first is that of flows of fewer than 2^64 packets. */
  lemma CountersAreReported(setup: Setup, evs: seq<Event>, i: nat, f: Flow)
    requires setup.Valid() && setup.FlowAfter(evs, i, f)
    ensures var rs := ReportsOfFlow(setup.ReportsOf(evs), i);
      && f.cntPkts == Wrap64(|rs|) && f.cntBytes == Wrap64(LenOf(rs))
      && f.tstampEnd == (if rs == [] then 0 else rs[|rs| - 1].tstamp)
      && (|rs| < U64 ==> f.tstampBeg == if rs == [] then 0 else rs[0].tstamp)
  {
    hide Wrap64;
    BytesAreReported(setup, evs, i);
    TimesAreReported(setup, evs, i);
  }

  function OkCount(rs: seq<Report>): nat {
    if rs == [] then 0 else OkCount(rs[..|rs| - 1]) + if rs[|rs| - 1].ok then 1 else 0
  }

  /** Every successful report has its packet among the sent ones, at its own place. */
  lemma {:induction false} SentForReport(rs: seq<Report>, p: nat)
    requires p < |rs| && rs[p].ok
    ensures |SentOf(rs)| == OkCount(rs) && OkCount(rs[..p]) < OkCount(rs)
    ensures SentOf(rs)[OkCount(rs[..p])] == Sent(rs[p].pktIdx, rs[p].src, rs[p].dst)
  {
    var front := rs[..|rs| - 1];
    SentCount(front);
    if p < |front| {
      SentForReport(front, p);
      assert front[..p] == rs[..p];
    }
  }

  lemma {:induction false} SentCount(rs: seq<Report>)
    ensures |SentOf(rs)| == OkCount(rs)
  {
    if rs != [] { SentCount(rs[..|rs| - 1]); }
  }

  /** A failed copy is the last event of its flow. */
  lemma {:induction false} FailedCopyEndsFlow(evs: seq<Event>, p: nat, q: nat)
    requires Possible(evs) && p < q < |evs| && evs[p].flow == evs[q].flow
    ensures evs[p].copied
  {
    var front := evs[..|evs| - 1];
    if q < |front| {
      FailedCopyEndsFlow(front, p, q);
    } else {
      EarlierCopied(front, evs[q].flow, p);
    }
  }

  lemma {:induction false} EarlierCopied(evs: seq<Event>, i: nat, p: nat)
    requires Possible(evs) && p < |evs| && evs[p].flow == i && LastCopied(evs, i)
    ensures evs[p].copied
  {
    var front, e := evs[..|evs| - 1], evs[|evs| - 1];
    if p < |front| { EarlierCopied(front, i, p); }
  }

  /** A round of the capture adds the same bytes wherever it starts. */
  lemma {:induction false} BytesOfRound(pkts: seq<Pkt>, k: nat)
    requires |pkts| > 0
    ensures Bytes(pkts, k + |pkts|) == Bytes(pkts, k) + Bytes(pkts, |pkts|)
    decreases k
  {
    if k > 0 {
      BytesOfRound(pkts, k - 1);
      assert k == (k / |pkts|) * |pkts| + k % |pkts|;
      MulAdd(k / |pkts|, 1, |pkts|);
      RemainderUnique(k + |pkts|, |pkts|, k / |pkts| + 1, k % |pkts|);
      assert k + |pkts| - 1 == (k - 1) + |pkts|;
    }
  }

  /** The bytes of some packets. */
  function LenOfPkts(pkts: seq<Pkt>): nat {
    if pkts == [] then 0 else LenOfPkts(pkts[..|pkts| - 1]) + pkts[|pkts| - 1].len
  }

  /** A round is the whole capture: the packets after the first, and then that one. */
  lemma {:induction false} BytesWithinRound(pkts: seq<Pkt>, k: nat)
    requires |pkts| > 0 && k < |pkts|
    ensures Bytes(pkts, k) + pkts[0].len == LenOfPkts(pkts[..k + 1])
  {
    if k == 0 {
      assert pkts[..1][..0] == [];
    } else {
      BytesWithinRound(pkts, k - 1);
      RemainderUnique(k, |pkts|, 0, k);
      assert pkts[..k + 1][..k] == pkts[..k];
    }
  }

  lemma RoundIsCapture(pkts: seq<Pkt>, k: nat)
    requires |pkts| > 0
    ensures Bytes(pkts, k + |pkts|) == Bytes(pkts, k) + LenOfPkts(pkts)
  {
    BytesOfRound(pkts, k);
    BytesWithinRound(pkts, |pkts| - 1);
    RemainderUnique(|pkts|, |pkts|, 1, 0);
    assert pkts[..|pkts|] == pkts;
  }

  //// The schedule.

  /** In true time, without wrap-around, flow i is first due i steps and its packet's time after the clock was read;
      the code's deadline is that, as a 64-bit word. */
  lemma DueInTrueTime(now: nat, i: nat, step: nat, rel: nat)
    ensures FlowDue(Wrap64(now), i, step, rel) == Wrap64(now + i * step + rel)
  {
    MulMono(0, i, step);
    StartInClosedForm(step, i);
    WrappedSum(i * step, rel);
    WrapTwice(now, i * step + rel);
  }

  /** So are the first deadlines of all flows. */
  lemma FirstDuesInTrueTime(clock: nat -> nat, step: nat, rel: nat, n: nat, i: nat)
    requires i < n
    ensures FirstDues(clock, step, rel, n)[i] == Wrap64(clock(i) + i * step + rel)
  {
    FirstDueOf(clock, step, rel, n, i);
    MulMono(0, i, step);
    StartInClosedForm(step, i);
    WrappedSum(i * step, rel);
    WrapLast(clock(i), i * step + rel);
  }

  lemma WrapLast(a: nat, b: nat)
    ensures Wrap64(a + Wrap64(b)) == Wrap64(a + b)
  {
    WrappedSum(b, a);
  }

  lemma WrapTwice(a: nat, b: nat)
    ensures Wrap64(Wrap64(a) + Wrap64(b)) == Wrap64(a + b)
  {
    var x, y, p, q := a % U64, b % U64, a / U64, b / U64;
    assert a == p * U64 + x && b == q * U64 + y;
    if x + y < U64 {
      RemainderUnique(a + b, U64, p + q, x + y);
      RemainderUnique(x + y, U64, 0, x + y);
    } else {
      RemainderUnique(a + b, U64, p + q + 1, x + y - U64);
      RemainderUnique(x + y, U64, 1, x + y - U64);
    }
  }

  /** Even spread: with a clock that does not go back while the events are set up, the true deadlines of two flows are
      as many steps apart, at least, as the flows; and the last flow's start, with its step, ends within a second of
      the time that its clock was read. */
  lemma StartsAreSpread(n: nat, hz: nat, clock: nat -> nat, rel: nat, i: nat, j: nat)
    requires n > 0 && i < j < n && (Cycles.MICROS / n) * hz < U64 && clock(i) <= clock(j)
    ensures var step := Cycles.FlowStep(n, hz);
      && FlowDue(Wrap64(clock(i)), i, step, rel) == Wrap64(clock(i) + i * step + rel)
      && (clock(i) + i * step + rel) + (j - i) * step <= clock(j) + j * step + rel
      && (clock(j) + j * step + rel) + step <= clock(j) + rel + hz
  {
    var step := Cycles.FlowStep(n, hz);
    Cycles.StartsFillTheSecond(n, hz);
    DueInTrueTime(clock(i), i, step, rel);
    MulAdd(i, j - i, step);
    MulMono(j + 1, n, step);
    MulAdd(j, 1, step);
  }
}
