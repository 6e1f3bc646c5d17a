/**
 egressDemuxer of cmd/lanturn-phase2: one reader goroutine routes datagrams to per-source channels,
 consumers take new sessions and end them. A run is any interleaving of their atomic steps. The
 reader's map lookup and its channel send are separate steps, as in the code, so a session may end
 between them.

 Channels are numbered in the order they are made. Histories: every datagram received, and per channel
 every packet offered to it with the number buffered at that moment.
 */
module Demuxer {
  import opened Common

  const CHAN_CAP := 64
  const QUEUE_CAP := 4

  datatype Offer = Offer(pkt: Bytes, buffered: nat)

  datatype Chan = Chan(addr: string, openedAt: nat, closed: bool,
                       offers: seq<Offer>, consumed: seq<Bytes>, buf: seq<Bytes>)

  datatype Session = Session(addr: string, firstPkt: Bytes, ch: nat)

  datatype Reader =
    | Waiting
    | Loaded(ch: nat, pkt: Bytes)   // found a channel in the map, not yet sent on it
    | Announcing(ev: Session)       // stored a new channel, not yet queued the session
    | Stopped

  datatype Datagram = Datagram(from: string, pkt: Bytes)

  datatype Demux = Demux(sessions: map<string, nat>, chans: seq<Chan>, newSess: seq<Session>, live: set<Session>,
                         reader: Reader, closed: bool, panicked: bool, received: seq<Datagram>)

  datatype Event =
    | Receive(d: Datagram)  // ReadFrom returns; map lookup; on a miss, store a channel holding the packet
    | Deliver               // non-blocking send on the loaded channel
    | Announce              // the session event goes into the queue
    | ReadError
    | StopReader            // the reader's select takes the closed case
    | Close
    | Next                  // NextSession returns a session, whose first byte runEgress then prints
    | Consume(ch: nat)      // the session's connection reads a packet
    | End(ev: Session)      // endSession, deferred by the session that was given `ev`

  const INIT := Demux(map[], [], [], {}, Waiting, false, false, [])

  ghost predicate Enabled(s: Demux, e: Event) {
    !s.panicked &&
    match e
    case Receive(_) => s.reader.Waiting?
    case Deliver => s.reader.Loaded? && s.reader.ch < |s.chans|
    case Announce => s.reader.Announcing? && |s.newSess| < QUEUE_CAP
    case ReadError => s.reader.Waiting?
    case StopReader => s.reader.Announcing? && s.closed
    case Close => true
    case Next => s.newSess != []
    case Consume(ch) => ch < |s.chans| && s.chans[ch].buf != []
    case End(ev) => ev in s.live && (ev.addr in s.sessions ==> s.sessions[ev.addr] < |s.chans|)
  }

  ghost function SetChan(s: Demux, ch: nat, c: Chan): Demux
    requires ch < |s.chans|
  {
    s.(chans := s.chans[ch := c])
  }

  /** The non-blocking send on an open channel: dropped when 64 packets are buffered. */
  ghost function Push(c: Chan, pkt: Bytes): Chan {
    c.(offers := c.offers + [Offer(pkt, |c.buf|)], buf := if |c.buf| < CHAN_CAP then c.buf + [pkt] else c.buf)
  }

  ghost function Popped(c: Chan): Chan
    requires c.buf != []
  {
    c.(buf := c.buf[1..], consumed := c.consumed + [c.buf[0]])
  }

  ghost function Step(s: Demux, e: Event): Demux
    requires Enabled(s, e)
  {
    match e
    case Receive(d) =>
      var t := s.(received := s.received + [d]);
      if d.from in s.sessions then t.(reader := Loaded(s.sessions[d.from], d.pkt))
      else
        var id := |s.chans|;
        t.(chans := s.chans + [Chan(d.from, |s.received|, false, [Offer(d.pkt, 0)], [], [d.pkt])],
           sessions := s.sessions[d.from := id],
           reader := Announcing(Session(d.from, d.pkt, id)))
    case Deliver =>
      var ch, pkt := s.reader.ch, s.reader.pkt;
      var c := s.chans[ch];
      if c.closed then s.(panicked := true)  // send on a closed channel
      else
        SetChan(s, ch, Push(c, pkt)).(reader := Waiting)
    case Announce => s.(newSess := s.newSess + [s.reader.ev], reader := Waiting)
    case ReadError => s.(closed := true, reader := Stopped)
    case StopReader => s.(reader := Stopped)
    case Close => s.(closed := true)
    case Next =>
      var t := s.(newSess := s.newSess[1..]);
      if s.newSess[0].firstPkt == [] then t.(panicked := true)  // index out of range
      else t.(live := s.live + {s.newSess[0]})
    case Consume(ch) =>
      SetChan(s, ch, Popped(s.chans[ch]))
    case End(ev) =>
      var t := s.(live := s.live - {ev});
      if ev.addr !in s.sessions then t
      else
        var ch := s.sessions[ev.addr];
        if s.chans[ch].closed then t.(panicked := true)  // close of a closed channel
        else SetChan(t, ch, s.chans[ch].(closed := true)).(sessions := s.sessions - {ev.addr})
  }

  ghost function Run(es: seq<Event>): Option<Demux> {
    if es == [] then Some(INIT)
    else
      match Run(es[..|es| - 1])
      case None => None
      case Some(m) => if Enabled(m, es[|es| - 1]) then Some(Step(m, es[|es| - 1])) else None
  }

  // ----- Sessions and channels -----

  /** Queued or live, counting the one the reader is about to queue. */
  ghost predicate Open(s: Demux, ev: Session) {
    s.reader == Announcing(ev) || ev in s.newSess || ev in s.live
  }

  ghost predicate OwnsChannel(s: Demux, ev: Session) {
    && ev.addr in s.sessions && s.sessions[ev.addr] == ev.ch && ev.ch < |s.chans|
    && s.chans[ev.ch].offers != [] && s.chans[ev.ch].offers[0].pkt == ev.firstPkt
  }

  ghost predicate GoodEntry(s: Demux, a: string)
    requires a in s.sessions
  {
    var ch := s.sessions[a];
    && ch < |s.chans| && !s.chans[ch].closed && s.chans[ch].addr == a && s.chans[ch].offers != []
  }

  /** No session is in two places at once. */
  ghost predicate OnePlace(s: Demux) {
    && (forall i, j :: 0 <= i < j < |s.newSess| ==> s.newSess[i] != s.newSess[j])
    && (forall ev :: ev in s.newSess ==> ev !in s.live && s.reader != Announcing(ev))
    && (s.reader.Announcing? ==> s.reader.ev !in s.live)
  }

  ghost predicate SessionInv(s: Demux) {
    && (forall a :: a in s.sessions ==> GoodEntry(s, a))
    && (forall ev :: Open(s, ev) ==> OwnsChannel(s, ev))
    && OnePlace(s)
    && (s.reader.Loaded? ==> s.reader.ch < |s.chans|)
    && |s.newSess| <= QUEUE_CAP
  }

  /** What is left in a channel and what was read from it: the offers made while fewer than 64 were buffered. */
  ghost function Kept(offers: seq<Offer>): seq<Bytes> {
    if offers == [] then []
    else
      var o := offers[|offers| - 1];
      Kept(offers[..|offers| - 1]) + if o.buffered < 64 then [o.pkt] else []
  }

  ghost function Offered(offers: seq<Offer>): seq<Bytes> {
    seq(|offers|, i requires 0 <= i < |offers| => offers[i].pkt)
  }

  ghost predicate ChanInv(c: Chan) {
    c.offers != [] && c.offers[0].buffered == 0 && |c.buf| <= CHAN_CAP && c.consumed + c.buf == Kept(c.offers)
  }

  /** The packets received from an address since some moment. */
  ghost function From(ds: seq<Datagram>, since: nat, a: string): seq<Bytes> {
    if |ds| <= since then []
    else
      var d := ds[|ds| - 1];
      From(ds[..|ds| - 1], since, a) + if d.from == a then [d.pkt] else []
  }

  ghost function InHand(s: Demux, ch: nat): seq<Bytes> {
    if s.reader.Loaded? && s.reader.ch == ch then [s.reader.pkt] else []
  }

  /** An open channel was offered every packet of its address since it was made, but for the one in hand. */
  ghost predicate OffersInv(s: Demux, ch: nat)
    requires ch < |s.chans|
  {
    var c := s.chans[ch];
    var all := From(s.received, c.openedAt, c.addr);
    && c.openedAt < |s.received|
    && (!c.closed ==> Offered(c.offers) + InHand(s, ch) == all)
    && Offered(c.offers) <= all
  }

  ghost predicate OpenMapped(s: Demux) {
    forall ch :: 0 <= ch < |s.chans| && !s.chans[ch].closed ==>
      s.chans[ch].addr in s.sessions && s.sessions[s.chans[ch].addr] == ch
  }

  ghost predicate Inv(s: Demux) {
    && SessionInv(s)
    && (forall ch :: 0 <= ch < |s.chans| ==> ChanInv(s.chans[ch]))
    && (forall ch :: 0 <= ch < |s.chans| ==> OffersInv(s, ch))
    && OpenMapped(s)
  }

  // ----- Every step keeps the invariant -----

  lemma {:induction false} FromSnoc(ds: seq<Datagram>, d: Datagram, since: nat, a: string)
    requires since <= |ds|
    ensures From(ds + [d], since, a) == From(ds, since, a) + if d.from == a then [d.pkt] else []
  {
    assert (ds + [d])[..|ds|] == ds;
  }

  lemma {:induction false} OfferedSnoc(os: seq<Offer>, o: Offer)
    ensures Offered(os + [o]) == Offered(os) + [o.pkt]
    ensures Kept(os + [o]) == Kept(os) + if o.buffered < 64 then [o.pkt] else []
  {
    assert (os + [o])[..|os|] == os;
  }

  /** At most one queued-or-live session per source address. */
  lemma {:induction false} OneSessionPerAddress(s: Demux, ev: Session, other: Session)
    requires SessionInv(s) && Open(s, ev) && Open(s, other) && ev.addr == other.addr
    ensures ev == other && OnePlace(s)
  {
    assert OwnsChannel(s, ev) && OwnsChannel(s, other);
  }

  lemma {:induction false} ReceiveKeepsSessions(s: Demux, d: Datagram)
    requires SessionInv(s) && OpenMapped(s) && Enabled(s, Receive(d))
    ensures SessionInv(Step(s, Receive(d))) && OpenMapped(Step(s, Receive(d)))
  {
    var t := Step(s, Receive(d));
    forall ev | ev in s.newSess || ev in s.live
      ensures OwnsChannel(t, ev) && (d.from !in s.sessions ==> ev.addr != d.from)
    {
      assert Open(s, ev) && OwnsChannel(s, ev);
    }
    forall a | a in t.sessions ensures GoodEntry(t, a) {
      assert a in s.sessions ==> GoodEntry(s, a);
    }
  }

  lemma {:induction false} ReceiveKeepsOffers(s: Demux, d: Datagram, ch: nat)
    requires Enabled(s, Receive(d)) && ch < |s.chans| && ChanInv(s.chans[ch]) && OffersInv(s, ch)
    requires (d.from in s.sessions ==> GoodEntry(s, d.from)) && OpenMapped(s)
    ensures ChanInv(Step(s, Receive(d)).chans[ch]) && OffersInv(Step(s, Receive(d)), ch)
  {
    var t, c := Step(s, Receive(d)), s.chans[ch];
    assert t.chans[ch] == c;
    FromSnoc(s.received, d, c.openedAt, c.addr);
    assert InHand(s, ch) == [];
  }

  lemma {:induction false} ReceiveOpensChannel(s: Demux, d: Datagram)
    requires Enabled(s, Receive(d)) && d.from !in s.sessions
    ensures var t := Step(s, Receive(d)); ChanInv(t.chans[|s.chans|]) && OffersInv(t, |s.chans|)
  {
    var t := Step(s, Receive(d));
    var c := t.chans[|s.chans|];
    FromSnoc(s.received, d, |s.received|, d.from);
    assert Kept(c.offers[..0]) == [];
  }

  lemma {:induction false} DeliverKeepsSessions(s: Demux)
    requires SessionInv(s) && OpenMapped(s) && Enabled(s, Deliver)
    ensures SessionInv(Step(s, Deliver)) && OpenMapped(Step(s, Deliver))
  {
    var t := Step(s, Deliver);
    forall ev | Open(t, ev) ensures OwnsChannel(t, ev) {
      assert Open(s, ev);
    }
  }

  lemma {:induction false} PushKeeps(c: Chan, pkt: Bytes)
    requires ChanInv(c)
    ensures ChanInv(Push(c, pkt)) && Offered(Push(c, pkt).offers) == Offered(c.offers) + [pkt]
  {
    OfferedSnoc(c.offers, Offer(pkt, |c.buf|));
    assert c.consumed + (c.buf + [pkt]) == c.consumed + c.buf + [pkt];
  }

  lemma {:induction false} DeliverKeepsOffers(s: Demux, ch: nat)
    requires Enabled(s, Deliver) && ch < |s.chans| && ChanInv(s.chans[ch]) && OffersInv(s, ch)
    ensures ChanInv(Step(s, Deliver).chans[ch]) && OffersInv(Step(s, Deliver), ch)
  {
    var t, c := Step(s, Deliver), s.chans[ch];
    if ch == s.reader.ch && !c.closed {
      PushKeeps(c, s.reader.pkt);
      assert t.chans[ch] == Push(c, s.reader.pkt) && InHand(t, ch) == [];
    } else {
      assert t.chans[ch] == c;
      assert !c.closed ==> InHand(t, ch) == InHand(s, ch);
    }
  }

  /** Steps that leave channels, map and history alone and move at most one session event. */
  ghost predicate Bookkeeping(e: Event) {
    e.Announce? || e.ReadError? || e.StopReader? || e.Close? || e.Next?
  }

  lemma {:induction false} BookkeepingKeepsSessions(s: Demux, e: Event)
    requires SessionInv(s) && OpenMapped(s) && Enabled(s, e) && Bookkeeping(e)
    ensures SessionInv(Step(s, e)) && OpenMapped(Step(s, e))
  {
    var t := Step(s, e);
    forall ev | Open(t, ev) ensures OwnsChannel(t, ev) {
      assert Open(s, ev);
    }
  }

  lemma {:induction false} BookkeepingKeepsOffers(s: Demux, e: Event, ch: nat)
    requires Enabled(s, e) && Bookkeeping(e) && ch < |s.chans| && ChanInv(s.chans[ch]) && OffersInv(s, ch)
    ensures ChanInv(Step(s, e).chans[ch]) && OffersInv(Step(s, e), ch)
  {
    assert InHand(Step(s, e), ch) == InHand(s, ch);
  }

  lemma {:induction false} ConsumeKeepsSessions(s: Demux, ch: nat)
    requires SessionInv(s) && OpenMapped(s) && Enabled(s, Consume(ch))
    ensures SessionInv(Step(s, Consume(ch))) && OpenMapped(Step(s, Consume(ch)))
  {
    var t := Step(s, Consume(ch));
    forall ev | Open(t, ev) ensures OwnsChannel(t, ev) {
      assert Open(s, ev);
    }
    forall a | a in t.sessions ensures GoodEntry(t, a) {
      assert GoodEntry(s, a);
    }
  }

  lemma {:induction false} PopKeeps(c: Chan)
    requires ChanInv(c) && c.buf != []
    ensures ChanInv(Popped(c))
  {
    assert c.buf == [c.buf[0]] + c.buf[1..];
    assert c.consumed + c.buf == c.consumed + [c.buf[0]] + c.buf[1..];
  }

  lemma {:induction false} ConsumeKeepsOffers(s: Demux, ch: nat, k: nat)
    requires Enabled(s, Consume(ch)) && k < |s.chans| && ChanInv(s.chans[k]) && OffersInv(s, k)
    ensures ChanInv(Step(s, Consume(ch)).chans[k]) && OffersInv(Step(s, Consume(ch)), k)
  {
    var t, c := Step(s, Consume(ch)), s.chans[k];
    assert InHand(t, k) == InHand(s, k);
    if k == ch {
      PopKeeps(c);
      assert t.chans[k] == Popped(c);
    } else {
      assert t.chans[k] == c;
    }
  }

  lemma {:induction false} EndKeepsSessions(s: Demux, ev: Session)
    requires SessionInv(s) && OpenMapped(s) && Enabled(s, End(ev))
    ensures SessionInv(Step(s, End(ev))) && OpenMapped(Step(s, End(ev)))
  {
    var t := Step(s, End(ev));
    assert Open(s, ev) && OwnsChannel(s, ev) && GoodEntry(s, ev.addr);
    forall other | Open(t, other) ensures OwnsChannel(t, other) {
      assert Open(s, other) && OwnsChannel(s, other) && other != ev;
      assert other.addr != ev.addr;
    }
  }

  lemma {:induction false} EndKeepsOffers(s: Demux, ev: Session, k: nat)
    requires Enabled(s, End(ev)) && k < |s.chans| && ChanInv(s.chans[k]) && OffersInv(s, k)
    ensures ChanInv(Step(s, End(ev)).chans[k]) && OffersInv(Step(s, End(ev)), k)
  {
    var t := Step(s, End(ev));
    assert InHand(t, k) == InHand(s, k);
  }

  lemma {:induction false} StepKeepsSessions(s: Demux, e: Event)
    requires SessionInv(s) && OpenMapped(s) && Enabled(s, e)
    ensures SessionInv(Step(s, e)) && OpenMapped(Step(s, e))
  {
    match e
    case Receive(d) => ReceiveKeepsSessions(s, d);
    case Deliver => DeliverKeepsSessions(s);
    case Consume(ch) => ConsumeKeepsSessions(s, ch);
    case End(ev) => EndKeepsSessions(s, ev);
    case _ => BookkeepingKeepsSessions(s, e);
  }

  lemma {:induction false} StepKeepsOffers(s: Demux, e: Event, ch: nat)
    requires Inv(s) && Enabled(s, e) && ch < |Step(s, e).chans|
    ensures ChanInv(Step(s, e).chans[ch]) && OffersInv(Step(s, e), ch)
  {
    assert ch < |s.chans| ==> ChanInv(s.chans[ch]) && OffersInv(s, ch);
    match e
    case Receive(d) =>
      if ch < |s.chans| {
        ReceiveKeepsOffers(s, d, ch);
      } else {
        ReceiveOpensChannel(s, d);
      }
    case Deliver => DeliverKeepsOffers(s, ch);
    case Consume(k) => ConsumeKeepsOffers(s, k, ch);
    case End(ev) => EndKeepsOffers(s, ev, ch);
    case _ => BookkeepingKeepsOffers(s, e, ch);
  }

  lemma {:induction false} StepKeepsInv(s: Demux, e: Event)
    requires Inv(s) && Enabled(s, e)
    ensures Inv(Step(s, e))
  {
    StepKeepsSessions(s, e);
    forall ch | 0 <= ch < |Step(s, e).chans| ensures ChanInv(Step(s, e).chans[ch]) && OffersInv(Step(s, e), ch) {
      StepKeepsOffers(s, e, ch);
    }
  }

  lemma {:induction false} ReachableInv(es: seq<Event>)
    requires Run(es).Some?
    ensures Inv(Run(es).value)
  {
    if es == [] {
    } else {
      ReachableInv(es[..|es| - 1]);
      StepKeepsInv(Run(es[..|es| - 1]).value, es[|es| - 1]);
    }
  }
}
