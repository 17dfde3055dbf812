/** All generators of a run and the timers of their flows. */
module Generators {
  import opened Words
  import opened Timers
  import opened Handles
  import opened Flows
  import opened Wrappers

  function EventSeqs(vs: seq<GenView>): (ess: seq<seq<EventHandle>>)
    ensures |ess| == |vs|
  {
    seq(|vs|, g requires 0 <= g < |vs| => vs[g].events)
  }

  /** The timers that are out are those of the flows, each pending or about to run as the history of its flow wants. */
  ghost predicate AllArmed(owners: map<EventHandle, Timer>, armed: map<Timer, Entry>, vs: seq<GenView>) {
    && Exactly(owners.Keys, Flatten(EventSeqs(vs))) && Injective(owners)
    && forall g :: 0 <= g < |vs| ==> vs[g].idx == g && GenArmed(owners, armed, vs[g])
  }

  /** One more event of a flow of generator g. */
  function AfterEvent(vs: seq<GenView>, g: nat, e: Event): (ws: seq<GenView>)
    requires g < |vs|
    ensures |ws| == |vs|
  {
    vs[g := vs[g].(evs := vs[g].evs + [e])]
  }

  /** One more generator, whose timers nobody had. */
  lemma ArmedOneMore(was: map<EventHandle, Timer>, pendingWas: map<Timer, Entry>, now: map<EventHandle, Timer>,
                     pendingNow: map<Timer, Entry>, vs: seq<GenView>, v: GenView)
    requires AllArmed(was, pendingWas, vs) && GenArmed(now, pendingNow, v) && v.idx == |vs|
    requires Grows(was, now) && Grows(pendingWas, pendingNow) && Injective(now)
    requires Exactly(now.Keys, Flatten(EventSeqs(vs)) + v.events)
    requires forall h :: h in was && was[h] in pendingNow ==> was[h] in pendingWas
    ensures AllArmed(now, pendingNow, vs + [v])
  {
    var ess := EventSeqs(vs + [v]);
    assert ess[..|ess| - 1] == EventSeqs(vs);
    forall g | 0 <= g < |vs| ensures GenArmed(now, pendingNow, vs[g]) {
      ArmedStays(was, pendingWas, now, pendingNow, vs[g]);
    }
  }

  lemma {:induction false} InFlatten<H>(ess: seq<seq<H>>, h: H) returns (g: nat, i: nat)
    requires h in Flatten(ess)
    ensures g < |ess| && i < |ess[g]| && ess[g][i] == h
  {
    var front, last := ess[..|ess| - 1], ess[|ess| - 1];
    if h in last {
      g := |front|;
      i :| 0 <= i < |last| && last[i] == h;
    } else {
      g, i := InFlatten(front, h);
    }
  }

  lemma HandlesApart(vs: seq<GenView>, g: nat, i: nat, k: nat, j: nat)
    requires Distinct(Flatten(EventSeqs(vs))) && g < |vs| && i < |vs[g].events| && k < |vs| && j < |vs[k].events|
    ensures vs[g].events[i] == vs[k].events[j] ==> g == k && i == j
  {
    if vs[g].events[i] == vs[k].events[j] {
      OnePlace(EventSeqs(vs), g, i, k, j);
    }
  }

  /** The flow that a timer belongs to is the one that its entry names, and its event may run. */
  lemma FlowOfTimer(owners: map<EventHandle, Timer>, armed: map<Timer, Entry>, vs: seq<GenView>, t: Timer)
    requires AllArmed(owners, armed, vs) && t in armed && t in owners.Values
    ensures var c := armed[t].ctx;
      && c.gen < |vs| && c.flow < |vs[c.gen].events| && vs[c.gen].events[c.flow] in owners
      && owners[vs[c.gen].events[c.flow]] == t && LastCopied(vs[c.gen].evs, c.flow)
      && armed[t].at == vs[c.gen].setup.DueAt(vs[c.gen].evs, c.flow, vs[c.gen].first[c.flow])
  {
    var h :| h in owners && owners[h] == t;
    var g, i := InFlatten(EventSeqs(vs), h);
    assert FlowArmed(owners, armed, vs[g].events[i], Ctx(vs[g].idx, i),
                     vs[g].setup.DueAt(vs[g].evs, i, vs[g].first[i]), LastCopied(vs[g].evs, i));
  }

  /** An event leaves every flow's timer as the history wants it. */
  lemma EventKeepsArmed(owners: map<EventHandle, Timer>, armed: map<Timer, Entry>, vs: seq<GenView>, g: nat, e: Event)
    requires AllArmed(owners, armed, vs) && g < |vs| && e.flow < |vs[g].events|
    ensures var w := AfterEvent(vs, g, e)[g];
      AllArmed(owners, ArmedAfter(armed, owners[w.events[e.flow]], e.copied,
                                  Entry(w.setup.DueAt(w.evs, e.flow, w.first[e.flow]), Ctx(g, e.flow))),
               AfterEvent(vs, g, e))
  {
    var ws := AfterEvent(vs, g, e);
    var w, h := ws[g], ws[g].events[e.flow];
    var entry := Entry(w.setup.DueAt(w.evs, e.flow, w.first[e.flow]), Ctx(g, e.flow));
    assert EventSeqs(ws) == EventSeqs(vs);
    assert FlowArmed(owners, armed, h, Ctx(g, e.flow), vs[g].setup.DueAt(vs[g].evs, e.flow, vs[g].first[e.flow]),
                     LastCopied(vs[g].evs, e.flow));
    forall i, j | 0 <= i < j < |vs[g].events| ensures vs[g].events[i] != vs[g].events[j] {
      HandlesApart(vs, g, i, g, j);
    }
    OwnGeneratorArmed(owners, armed, vs[g], e);
    forall k | 0 <= k < |vs| && k != g ensures GenArmed(owners, ArmedAfter(armed, owners[h], e.copied, entry), ws[k]) {
      forall j | 0 <= j < |vs[k].events| ensures vs[k].events[j] != h {
        HandlesApart(vs, g, e.flow, k, j);
      }
      OtherGeneratorArmed(owners, armed, vs[k], h, e.copied, entry);
    }
  }

  //// What one iteration runs.

  /** An event that ran, with its deadline. */
  datatype Ran = Ran(ctx: Ctx, at: nat, event: Event)

  function AfterRuns(vs: seq<GenView>, ran: seq<Ran>): (ws: seq<GenView>)
    ensures |ws| == |vs| && forall g :: 0 <= g < |vs| ==> ws[g].setup == vs[g].setup
  {
    if ran == [] then vs
    else
      var ws, r := AfterRuns(vs, ran[..|ran| - 1]), ran[|ran| - 1];
      if r.ctx.gen < |vs| then AfterEvent(ws, r.ctx.gen, r.event) else ws
  }

  /** A packet to transmit: whose it is, and what it carries. */
  datatype OutPkt = OutPkt(gen: nat, sent: Sent)

  ghost predicate AllSet(vs: seq<GenView>) {
    forall g :: 0 <= g < |vs| ==> vs[g].setup.Valid()
  }

  function Carried(p: Option<Sent>): seq<Sent> {
    if p.Some? then [p.value] else []
  }

  /** What the last event of generator g sends. */
  function LastPkt(vs: seq<GenView>, g: nat): seq<OutPkt>
    requires AllSet(vs) && g < |vs| && vs[g].evs != []
  {
    var p := vs[g].setup.PacketOf(vs[g].evs);
    if p.Some? then [OutPkt(g, p.value)] else []
  }

  /** What events send, in their order. */
  function PktsIn(vs: seq<GenView>, ran: seq<Ran>): seq<OutPkt>
    requires AllSet(vs)
  {
    if ran == [] then []
    else
      var g := ran[|ran| - 1].ctx.gen;
      PktsIn(vs, ran[..|ran| - 1]) + if g < |vs| then LastPkt(AfterRuns(vs, ran), g) else []
  }

  /** How many events could copy their packet. */
  function Copies(ran: seq<Ran>): (n: nat)
    ensures n <= |ran|
  {
    if ran == [] then 0 else Copies(ran[..|ran| - 1]) + if ran[|ran| - 1].event.copied then 1 else 0
  }

  function SentBy(ps: seq<OutPkt>, g: nat): seq<Sent> {
    if ps == [] then []
    else SentBy(ps[..|ps| - 1], g) + if ps[|ps| - 1].gen == g then [ps[|ps| - 1].sent] else []
  }

  /** The packets of a generator are those that its own history sends, one for each copy. */
  lemma {:induction false} PktsOfGenerator(vs: seq<GenView>, ran: seq<Ran>, g: nat)
    requires AllSet(vs) && g < |vs| && forall k :: 0 <= k < |ran| ==> ran[k].ctx.gen < |vs|
    ensures var setup, evs := vs[g].setup, AfterRuns(vs, ran)[g].evs;
      SentOf(setup.ReportsOf(evs)) == SentOf(setup.ReportsOf(vs[g].evs)) + SentBy(PktsIn(vs, ran), g)
    ensures |PktsIn(vs, ran)| == Copies(ran)
  {
    hide Setup.PacketOf, Setup.ReportsOf, SentOf;
    if ran != [] {
      var front, r := ran[..|ran| - 1], ran[|ran| - 1];
      var was, ws := AfterRuns(vs, front), AfterRuns(vs, ran);
      PktsOfGenerator(vs, front, g);
      assert ws[r.ctx.gen].evs == was[r.ctx.gen].evs + [r.event];
      SentByMore(PktsIn(vs, front), ws, r.ctx.gen, g);
      SentOfMore(ws[r.ctx.gen].setup, was[r.ctx.gen].evs, r.event);
    }
  }

  lemma SentByMore(ps: seq<OutPkt>, ws: seq<GenView>, k: nat, g: nat)
    requires AllSet(ws) && k < |ws| && ws[k].evs != []
    ensures SentBy(ps + LastPkt(ws, k), g) ==
            SentBy(ps, g) + if k == g then Carried(ws[k].setup.PacketOf(ws[k].evs)) else []
  {
    var more := ps + LastPkt(ws, k);
    if LastPkt(ws, k) == [] {
      assert more == ps;
    } else {
      assert more[..|more| - 1] == ps;
    }
  }

  lemma SentOfMore(setup: Setup, was: seq<Event>, e: Event)
    requires setup.Valid()
    ensures var p := setup.PacketOf(was + [e]);
      && SentOf(setup.ReportsOf(was + [e])) == SentOf(setup.ReportsOf(was)) + Carried(p)
      && (p.Some? <==> e.copied)
  {
    assert (was + [e])[..|was|] == was;
    var rs := setup.ReportsOf(was + [e]);
    assert rs[..|rs| - 1] == setup.ReportsOf(was);
  }

  /** Flow i of generator g is due: its last copy did not fail, and its deadline has come. */
  ghost predicate DueNow(vs: seq<GenView>, looks: bool, now: nat, c: Ctx) {
    && looks && c.gen < |vs| && c.flow < |vs[c.gen].events| == |vs[c.gen].first|
    && vs[c.gen].setup.Valid() && LastCopied(vs[c.gen].evs, c.flow) && Deadline(vs, c) <= now
  }

  ghost function Deadline(vs: seq<GenView>, c: Ctx): nat
    requires c.gen < |vs| && c.flow < |vs[c.gen].first| && vs[c.gen].setup.Valid()
  {
    vs[c.gen].setup.DueAt(vs[c.gen].evs, c.flow, vs[c.gen].first[c.flow])
  }

  /** Exactly the flows that are due ran, each once, in the order of their deadlines. */
  ghost predicate RanAllDue(vs: seq<GenView>, looks: bool, now: nat, ran: seq<Ran>) {
    && (forall k :: 0 <= k < |ran| ==> DueNow(vs, looks, now, ran[k].ctx) && ran[k].at == Deadline(vs, ran[k].ctx)
                                       && ran[k].event.flow == ran[k].ctx.flow)
    && (forall j, k :: 0 <= j < k < |ran| ==> ran[j].ctx != ran[k].ctx && ran[j].at <= ran[k].at)
    && (forall c :: DueNow(vs, looks, now, c) ==> exists k :: 0 <= k < |ran| && ran[k].ctx == c)
  }

  ghost predicate AllShaped(vs: seq<GenView>) {
    forall g :: 0 <= g < |vs| ==> vs[g].setup.Valid() && |vs[g].events| == |vs[g].first| == vs[g].setup.flows
  }

  /** A flow's event ran if and only if the timers were not looked at less than a microsecond ago, its last copy did not
      fail, and the time has come that its history gives; once, and in the order of these times. */
  ghost predicate RanWhenDue(vs: seq<GenView>, prev: nat, usecCycles: nat, look: nat, manage: nat, ran: seq<Ran>)
    requires AllShaped(vs)
  {
    && (forall g, i :: 0 <= g < |vs| && 0 <= i < |vs[g].first| ==>
          ((exists k :: 0 <= k < |ran| && ran[k].ctx == Ctx(g, i)) <==>
             && Wrap64(look - prev) >= usecCycles && LastCopied(vs[g].evs, i)
             && vs[g].setup.DueAt(vs[g].evs, i, vs[g].first[i]) <= manage))
    && (forall k :: 0 <= k < |ran| ==>
          && ran[k].ctx.gen < |vs| && ran[k].ctx.flow < |vs[ran[k].ctx.gen].first|
          && ran[k].event.flow == ran[k].ctx.flow
          && ran[k].at == vs[ran[k].ctx.gen].setup.DueAt(vs[ran[k].ctx.gen].evs, ran[k].ctx.flow,
                                                         vs[ran[k].ctx.gen].first[ran[k].ctx.flow]))
    && (forall j, k :: 0 <= j < k < |ran| ==> ran[j].ctx != ran[k].ctx && ran[j].at <= ran[k].at)
  }

  lemma AllDueAreThese(vs: seq<GenView>, prev: nat, usecCycles: nat, look: nat, manage: nat, ran: seq<Ran>)
    requires AllShaped(vs) && RanAllDue(vs, Looks(prev, usecCycles, look), manage, ran)
    ensures RanWhenDue(vs, prev, usecCycles, look, manage, ran)
  {
    forall g, i | 0 <= g < |vs| && 0 <= i < |vs[g].first|
      ensures (exists k :: 0 <= k < |ran| && ran[k].ctx == Ctx(g, i)) <==>
              && Wrap64(look - prev) >= usecCycles && LastCopied(vs[g].evs, i)
              && vs[g].setup.DueAt(vs[g].evs, i, vs[g].first[i]) <= manage
    {
      hide Setup.DueAt, LastCopied, Wrap64;
      assert DueNow(vs, Looks(prev, usecCycles, look), manage, Ctx(g, i)) <==>
             && Wrap64(look - prev) >= usecCycles && LastCopied(vs[g].evs, i)
             && vs[g].setup.DueAt(vs[g].evs, i, vs[g].first[i]) <= manage;
    }
  }

  /** The timers that were due are those that ran, in the order `done`, and those still to run. */
  ghost predicate RunSoFar(due: map<Timer, Entry>, ready: map<Timer, Entry>, done: seq<Timer>, ran: seq<Ran>) {
    && |done| == |ran| && Distinct(done) && Grows(ready, due)
    && (forall t :: t in due ==> t in ready || t in done) && (forall k :: 0 <= k < |done| ==> done[k] !in ready)
    && (forall k :: 0 <= k < |ran| ==> done[k] in due && due[done[k]] == Entry(ran[k].at, ran[k].ctx)
                                       && ran[k].event.flow == ran[k].ctx.flow)
    && (forall j, k :: 0 <= j < k < |ran| ==> ran[j].at <= ran[k].at)
    && (forall k, t :: 0 <= k < |ran| && t in ready ==> ran[k].at <= ready[t].at)
  }

  lemma NothingRan(due: map<Timer, Entry>)
    ensures RunSoFar(due, due, [], [])
  {
  }

  lemma RunOneMore(due: map<Timer, Entry>, ready: map<Timer, Entry>, done: seq<Timer>, ran: seq<Ran>, t: Timer,
                   event: Event)
    requires RunSoFar(due, ready, done, ran) && t in ready && event.flow == ready[t].ctx.flow
    requires forall u :: u in ready - {t} ==> ready[t].at <= ready[u].at
    ensures RunSoFar(due, ready - {t}, done + [t], ran + [Ran(ready[t].ctx, ready[t].at, event)])
  {
  }

  lemma AllDueRan(owners: map<EventHandle, Timer>, pending: map<Timer, Entry>, vs: seq<GenView>, looks: bool, now: nat,
                  due: map<Timer, Entry>, done: seq<Timer>, ran: seq<Ran>)
    requires AllArmed(owners, pending, vs) && pending.Keys <= owners.Values && RunSoFar(due, map[], done, ran)
    requires DueOf(due, pending, looks, now)
    ensures RanAllDue(vs, looks, now, ran)
  {
    forall k | 0 <= k < |ran| ensures DueNow(vs, looks, now, ran[k].ctx) && ran[k].at == Deadline(vs, ran[k].ctx) {
      FlowOfTimer(owners, pending, vs, done[k]);
    }
    forall j, k | 0 <= j < k < |ran| ensures ran[j].ctx != ran[k].ctx {
      FlowOfTimer(owners, pending, vs, done[j]);
      FlowOfTimer(owners, pending, vs, done[k]);
    }
    forall c | DueNow(vs, looks, now, c) ensures exists k :: 0 <= k < |ran| && ran[k].ctx == c {
      var v := vs[c.gen];
      assert FlowArmed(owners, pending, v.events[c.flow], Ctx(v.idx, c.flow), Deadline(vs, c),
                       LastCopied(v.evs, c.flow));
      var t := owners[v.events[c.flow]];
      assert t in due;
      var k :| 0 <= k < |done| && done[k] == t;
      assert ran[k].ctx == c;
    }
  }
}
