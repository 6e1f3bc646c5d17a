/** What the demuxer guarantees in every reachable state, and exactly when the program crashes in it. */
module DemuxerTheorems {
  import opened Common
  import opened Demuxer

  lemma {:induction false} KeptHead(os: seq<Offer>)
    requires os != [] && os[0].buffered < 64
    ensures Kept(os) != [] && Kept(os)[0] == os[0].pkt
  {
    if |os| > 1 {
      KeptHead(os[..|os| - 1]);
    } else {
      assert Kept(os[..0]) == [];
    }
  }

  /**
   In every reachable state a queued or live session owns an open channel that no other open session
   shares; what was read from it and what is buffered are, in order, the packets offered while fewer
   than 64 were buffered, headed by the session's first packet; and the packets offered (with the one
   the reader holds) are all packets received from the address since the session began.
   */
  lemma {:induction false} OpenSession(es: seq<Event>, s: Demux, ev: Session)
    requires Run(es) == Some(s) && Open(s, ev)
    ensures ev.ch < |s.chans| && ev.addr in s.sessions && s.sessions[ev.addr] == ev.ch
    ensures var c := s.chans[ev.ch];
      && !c.closed && c.addr == ev.addr && |c.buf| <= 64
      && c.consumed + c.buf == Kept(c.offers) && c.consumed + c.buf != [] && (c.consumed + c.buf)[0] == ev.firstPkt
      && Offered(c.offers) + InHand(s, ev.ch) == From(s.received, c.openedAt, ev.addr)
    ensures forall other :: Open(s, other) && (other.addr == ev.addr || other.ch == ev.ch) ==> other == ev
    ensures OnePlace(s)
  {
    ReachableInv(es);
    var c := s.chans[ev.ch];
    assert OwnsChannel(s, ev) && GoodEntry(s, ev.addr) && ChanInv(c) && OffersInv(s, ev.ch);
    KeptHead(c.offers);
    forall other | Open(s, other) && (other.addr == ev.addr || other.ch == ev.ch) ensures other == ev {
      assert OwnsChannel(s, other) && GoodEntry(s, other.addr);
    }
  }

  /** endSession closes exactly the channel its own session was given, which was still open. */
  lemma {:induction false} EndClosesOwn(es: seq<Event>, s: Demux, ev: Session)
    requires Run(es) == Some(s) && Enabled(s, End(ev))
    ensures var t := Step(s, End(ev));
      && ev.ch < |s.chans| && !s.chans[ev.ch].closed && !t.panicked
      && t.chans == s.chans[ev.ch := s.chans[ev.ch].(closed := true)]
      && ev.addr !in t.sessions && !Open(t, ev)
  {
    ReachableInv(es);
    assert Open(s, ev) && OwnsChannel(s, ev) && GoodEntry(s, ev.addr);
  }

  /** A closed channel's reader got its kept packets, too: they were offered in order since it was made. */
  lemma {:induction false} ClosedChannel(es: seq<Event>, s: Demux, ch: nat)
    requires Run(es) == Some(s) && ch < |s.chans| && s.chans[ch].closed
    ensures var c := s.chans[ch];
      c.consumed + c.buf == Kept(c.offers) && Offered(c.offers) <= From(s.received, c.openedAt, c.addr)
  {
    ReachableInv(es);
    assert ChanInv(s.chans[ch]) && OffersInv(s, ch);
  }

  // ----- Sessions are taken in the order of their first packets -----

  ghost function Taken(e: Event): nat {
    if e.Next? then 1 else 0
  }

  /** How many sessions NextSession has returned. */
  ghost function TakenIn(es: seq<Event>): nat {
    if es == [] then 0 else TakenIn(es[..|es| - 1]) + Taken(es[|es| - 1])
  }

  /** The session a step opens: that of a datagram whose address is not in the map. */
  ghost function Opens(m: Demux, e: Event): seq<Session> {
    if e.Receive? && e.d.from !in m.sessions then [Session(e.d.from, e.d.pkt, |m.chans|)] else []
  }

  ghost function Opened(es: seq<Event>): seq<Session> {
    if es == [] then []
    else
      var es', e := es[..|es| - 1], es[|es| - 1];
      Opened(es') + if Run(es').Some? then Opens(Run(es').value, e) else []
  }

  ghost function NotTaken(s: Demux): seq<Session> {
    s.newSess + if s.reader.Announcing? then [s.reader.ev] else []
  }

  /** The sessions opened but for the n already taken; a stopped reader may have dropped the last. */
  ghost predicate InOrder(s: Demux, n: nat, all: seq<Session>) {
    n <= |all| && NotTaken(s) <= all[n..] && (!s.reader.Stopped? ==> NotTaken(s) == all[n..])
  }

  lemma {:induction false} StepInOrder(m: Demux, e: Event, n: nat, all: seq<Session>)
    requires Enabled(m, e) && InOrder(m, n, all)
    ensures InOrder(Step(m, e), n + Taken(e), all + Opens(m, e))
  {
    var s := Step(m, e);
    match e
    case Next =>
      assert m.newSess[0] == NotTaken(m)[0];
      assert NotTaken(s) == NotTaken(m)[1..];
      assert all[n + 1..] == all[n..][1..];
      assert all + [] == all;
    case Receive(d) =>
      assert NotTaken(s) == NotTaken(m) + Opens(m, e);
      assert (all + Opens(m, e))[n..] == all[n..] + Opens(m, e);
    case _ =>
      assert NotTaken(s) <= NotTaken(m);
      assert all + [] == all;
  }

  lemma {:induction false} OpenedInOrder(es: seq<Event>, s: Demux)
    requires Run(es) == Some(s)
    ensures InOrder(s, TakenIn(es), Opened(es))
  {
    if es != [] {
      var es' := es[..|es| - 1];
      OpenedInOrder(es', Run(es').value);
      StepInOrder(Run(es').value, es[|es| - 1], TakenIn(es'), Opened(es'));
    }
  }

  /** The n-th call of NextSession returns the n-th session opened. */
  lemma {:induction false} SessionsInOrder(es: seq<Event>, s: Demux)
    requires Run(es) == Some(s) && Enabled(s, Next)
    ensures TakenIn(es) < |Opened(es)| && s.newSess[0] == Opened(es)[TakenIn(es)]
  {
    OpenedInOrder(es, s);
    assert NotTaken(s)[0] == Opened(es)[TakenIn(es)..][0];
  }

  lemma {:induction false} StepCloses(m: Demux, e: Event)
    requires Enabled(m, e)
    ensures Step(m, e).closed <==> m.closed || e == Event.Close || e == ReadError
    ensures Step(m, e).reader.Stopped? <==> m.reader.Stopped? || e == ReadError || e == StopReader
  {
  }

  /** The demuxer is closed exactly after Close or a failed read; its reader stops by that or by giving up. */
  lemma {:induction false} ClosedExactly(es: seq<Event>, s: Demux)
    requires Run(es) == Some(s)
    ensures s.closed <==> Event.Close in es || ReadError in es
    ensures s.reader.Stopped? <==> ReadError in es || StopReader in es
    ensures s.reader.Stopped? ==> s.closed
  {
    if es != [] {
      var es', e := es[..|es| - 1], es[|es| - 1];
      ClosedExactly(es', Run(es').value);
      StepCloses(Run(es').value, e);
      assert es == es' + [e];
    }
  }

  // ----- The crash -----

  /** Event k ends the session whose channel the reader has looked up and not yet sent on. */
  ghost predicate RaceAt(es: seq<Event>, k: nat, ch: nat) {
    && k < |es| && es[k].End? && es[k].ev.ch == ch
    && Run(es[..k]).Some? && Run(es[..k]).value.reader.Loaded? && Run(es[..k]).value.reader.ch == ch
  }

  ghost predicate Raced(es: seq<Event>, ch: nat)
    ensures Raced(es, ch) ==> es != []
  {
    exists k: nat :: RaceAt(es, k, ch)
  }

  lemma {:induction false} RacedLater(es: seq<Event>, ch: nat)
    requires es != [] && Raced(es[..|es| - 1], ch)
    ensures Raced(es, ch)
  {
    var es' := es[..|es| - 1];
    var k: nat :| RaceAt(es', k, ch);
    assert es'[..k] == es[..k];
    assert RaceAt(es, k, ch);
  }

  ghost predicate JustClosed(m: Demux, e: Event, ch: nat) {
    e.End? && e.ev.ch == ch && m.reader.Loaded? && m.reader.ch == ch
  }

  /** The reader comes to hold a closed channel in one step only. */
  lemma {:induction false} HeldChannelCloses(m: Demux, e: Event)
    requires Inv(m) && Enabled(m, e)
    requires var s := Step(m, e); s.reader.Loaded? && s.reader.ch < |s.chans| && s.chans[s.reader.ch].closed
    ensures m.reader == Step(m, e).reader
    ensures JustClosed(m, e, m.reader.ch) || (m.reader.ch < |m.chans| && m.chans[m.reader.ch].closed)
  {
    match e
    case Receive(d) =>
    case End(ev) => assert Open(m, ev) && OwnsChannel(m, ev);
    case _ =>
  }

  /** The reader holds a closed channel only if its session ended after the lookup. */
  lemma {:induction false} ClosedInHandNeedsRace(es: seq<Event>, s: Demux)
    requires Run(es) == Some(s) && s.reader.Loaded? && s.reader.ch < |s.chans| && s.chans[s.reader.ch].closed
    ensures Raced(es, s.reader.ch)
  {
    if es == [] {
    } else {
      var es', e := es[..|es| - 1], es[|es| - 1];
      var m := Run(es').value;
      ReachableInv(es');
      HeldChannelCloses(m, e);
      if JustClosed(m, e, s.reader.ch) {
        assert RaceAt(es, |es'|, s.reader.ch);
      } else {
        ClosedInHandNeedsRace(es', m);
        RacedLater(es, s.reader.ch);
      }
    }
  }

  lemma {:induction false} RaceStep(m: Demux, e: Event, ch: nat)
    requires Inv(m) && Enabled(m, e) && m.reader.Loaded? && m.reader.ch == ch
    requires ch < |m.chans| && (m.chans[ch].closed || JustClosed(m, e, ch))
    ensures var s := Step(m, e);
      s.panicked || (s.reader.Loaded? && s.reader.ch == ch && ch < |s.chans| && s.chans[ch].closed)
  {
    match e
    case End(ev) => assert Open(m, ev) && OwnsChannel(m, ev) && GoodEntry(m, ev.addr);
    case _ =>
  }

  lemma {:induction false} RacedBefore(es: seq<Event>, m: Demux, ch: nat)
    requires Raced(es, ch) && Run(es[..|es| - 1]) == Some(m)
    ensures Raced(es[..|es| - 1], ch) || JustClosed(m, es[|es| - 1], ch)
  {
    var k: nat :| RaceAt(es, k, ch);
    var es' := es[..|es| - 1];
    if k < |es'| {
      assert es'[..k] == es[..k];
      assert RaceAt(es', k, ch);
    }
  }

  /** Once the race has happened the reader holds the closed channel until the program crashes. */
  lemma {:induction false} RaceStays(es: seq<Event>, s: Demux, ch: nat)
    requires Run(es) == Some(s) && Raced(es, ch)
    ensures s.panicked || (s.reader.Loaded? && s.reader.ch == ch && ch < |s.chans| && s.chans[ch].closed)
  {
    var es' := es[..|es| - 1];
    var m := Run(es').value;
    ReachableInv(es');
    RacedBefore(es, m, ch);
    if Raced(es', ch) {
      RaceStays(es', m, ch);
    }
    RaceStep(m, es[|es| - 1], ch);
  }

  /** The session that NextSession returns at the end of `es` was opened by a zero-length datagram. */
  ghost predicate TakesEmpty(es: seq<Event>) {
    var n := TakenIn(es);
    es != [] && es[|es| - 1].Next? && 1 <= n <= |Opened(es)| && Opened(es)[n - 1].firstPkt == []
  }

  /** The reader sends on a channel whose session ended after the reader's lookup. */
  ghost predicate SendsAfterRace(es: seq<Event>) {
    es != [] && es[|es| - 1].Deliver? && exists ch: nat :: Raced(es, ch)
  }

  lemma {:induction false} DeliverCrash(es: seq<Event>, s: Demux)
    requires Run(es) == Some(s) && es != [] && es[|es| - 1].Deliver?
    ensures s.panicked <==> SendsAfterRace(es)
  {
    var es' := es[..|es| - 1];
    var m := Run(es').value;
    if s.panicked {
      ClosedInHandNeedsRace(es', m);
      RacedLater(es, m.reader.ch);
    }
    if SendsAfterRace(es) {
      var ch: nat :| Raced(es, ch);
      RaceStays(es, s, ch);
    }
  }

  lemma {:induction false} NextCrash(es: seq<Event>, s: Demux)
    requires Run(es) == Some(s) && es != [] && es[|es| - 1].Next?
    ensures s.panicked <==> TakesEmpty(es)
  {
    var es' := es[..|es| - 1];
    SessionsInOrder(es', Run(es').value);
  }

  lemma {:induction false} OthersDoNotCrash(es: seq<Event>, s: Demux)
    requires Run(es) == Some(s) && es != [] && !es[|es| - 1].Next? && !es[|es| - 1].Deliver?
    ensures !s.panicked
  {
    var es', e := es[..|es| - 1], es[|es| - 1];
    if e.End? {
      EndClosesOwn(es', Run(es').value, e.ev);
    }
  }

  /**
   A run crashes exactly when its last step is the reader's send after some session ended between the
   lookup of its channel and the send (whatever happened in between), or takes a session opened by a
   zero-length datagram. No channel is ever closed twice.
   */
  lemma {:induction false} CrashExactly(es: seq<Event>, s: Demux)
    requires Run(es) == Some(s)
    ensures s.panicked <==> SendsAfterRace(es) || TakesEmpty(es)
  {
    if es != [] {
      if es[|es| - 1].Deliver? {
        DeliverCrash(es, s);
      } else if es[|es| - 1].Next? {
        NextCrash(es, s);
      } else {
        OthersDoNotCrash(es, s);
      }
    }
  }

  // ----- Runs that crash -----

  lemma {:induction false} RunSnoc(es: seq<Event>, s: Demux, e: Event)
    requires Run(es) == Some(s) && Enabled(s, e)
    ensures Run(es + [e]) == Some(Step(s, e))
  {
    assert (es + [e])[..|es|] == es;
  }

  lemma {:induction false} Extend(es: seq<Event>, s: Demux, e: Event) returns (fs: seq<Event>, t: Demux)
    requires Run(es) == Some(s) && Enabled(s, e)
    ensures fs == es + [e] && t == Step(s, e) && Run(fs) == Some(t)
  {
    RunSnoc(es, s, e);
    fs, t := es + [e], Step(s, e);
  }

  /** A shortest crash by the race: a session is taken, its peer sends again, it ends, the send follows. */
  lemma {:induction false} CrashIsReachable(a: string, p: Bytes, q: Bytes) returns (es: seq<Event>, s: Demux)
    requires p != []
    ensures Run(es) == Some(s) && s.panicked && SendsAfterRace(es)
  {
    es, s := Extend([], INIT, Receive(Datagram(a, p)));
    es, s := Extend(es, s, Announce);
    es, s := Extend(es, s, Next);
    es, s := Extend(es, s, Receive(Datagram(a, q)));
    es, s := Extend(es, s, End(Session(a, p, 0)));
    es, s := Extend(es, s, Deliver);
    DeliverCrash(es, s);
  }

  /** And one by an empty first packet. */
  lemma {:induction false} EmptyCrashIsReachable(a: string) returns (es: seq<Event>, s: Demux)
    ensures Run(es) == Some(s) && s.panicked && TakesEmpty(es)
  {
    es, s := Extend([], INIT, Receive(Datagram(a, [])));
    es, s := Extend(es, s, Announce);
    es, s := Extend(es, s, Next);
    NextCrash(es, s);
  }
}
