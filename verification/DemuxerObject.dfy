/**
 egressDemuxer's fields and methods: the session map and channels updated in place, each method one
 step of module Demuxer. The bodies of the reader's loop are the three methods Lookup, TrySend and
 Announce, between which other goroutines may call EndSession and NextSession.
 */
module DemuxerObject {
  import opened Common
  import opened Demuxer

  datatype Channel = Channel(buf: seq<Bytes>, closed: bool)

  datatype Announced = Sent | Stopping | Full

  datatype NextResult = Next(ev: Session) | Empty | Closed

  /** The real channels are the machine's, without their history. */
  ghost predicate Mirrors(channels: seq<Channel>, chans: seq<Chan>) {
    |channels| == |chans| && forall i :: 0 <= i < |channels| ==> channels[i] == Channel(chans[i].buf, chans[i].closed)
  }

  lemma {:induction false} MirrorsUpdate(channels: seq<Channel>, chans: seq<Chan>, ch: nat, c: Channel, d: Chan)
    requires Mirrors(channels, chans) && ch < |chans| && c == Channel(d.buf, d.closed)
    ensures Mirrors(channels[ch := c], chans[ch := d])
  {
  }

  /** The Deliver step on an open channel. */
  lemma {:induction false} DeliverOpen(s: Demux)
    requires Inv(s) && Enabled(s, Deliver) && !s.chans[s.reader.ch].closed
    ensures var t, ch := Step(s, Deliver), s.reader.ch;
      && t.chans == s.chans[ch := Push(s.chans[ch], s.reader.pkt)] && !t.panicked && Inv(t)
      && t.sessions == s.sessions && t.newSess == s.newSess && t.closed == s.closed
  {
    StepKeepsInv(s, Deliver);
  }

  class EgressDemuxer {
    var sessions: map<string, nat>
    var channels: seq<Channel>
    var newSess: seq<Session>
    var closed: bool
    ghost var st: Demux

    ghost predicate Valid()
      reads this
    {
      && Inv(st) && !st.panicked
      && sessions == st.sessions && newSess == st.newSess && closed == st.closed
      && Mirrors(channels, st.chans)
    }

    constructor ()
      ensures Valid() && st == INIT
    {
      sessions, channels, newSess, closed, st := map[], [], [], false, INIT;
      new;
      assert Run([]) == Some(INIT);
      ReachableInv([]);
    }

    /** From ReadFrom to the end of the map lookup, or to the stored channel of a new session. */
    method Lookup(d: Datagram) returns (ch: nat, hit: bool)
      requires Valid() && st.reader.Waiting?
      modifies this`sessions, this`channels, this`st
      ensures Valid() && st == Step(old(st), Receive(d))
      ensures hit <==> d.from in old(sessions)
      ensures if hit then ch == old(sessions)[d.from] && sessions == old(sessions) && channels == old(channels)
        else sessions == old(sessions)[d.from := ch] && ch == |old(channels)|
             && channels == old(channels) + [Channel([d.pkt], false)]
      ensures st.reader == if hit then Loaded(ch, d.pkt) else Announcing(Session(d.from, d.pkt, ch))
    {
      StepKeepsInv(st, Receive(d));
      hit := d.from in sessions;
      if hit {
        ch := sessions[d.from];
      } else {
        ch := |channels|;
        sessions := sessions[d.from := ch];
        channels := channels + [Channel([d.pkt], false)];
      }
      st := Step(st, Receive(d));
    }

    /** The non-blocking send. On a closed channel it crashes, and nothing is promised afterwards. */
    method TrySend(ch: nat, pkt: Bytes) returns (crashed: bool)
      requires Valid() && st.reader == Loaded(ch, pkt)
      modifies this`channels, this`st
      ensures st == Step(old(st), Deliver) && crashed == st.panicked
      ensures ch < |old(channels)| && (crashed <==> old(channels)[ch].closed)
      ensures var c := old(channels)[ch];
        channels == if !crashed && |c.buf| < 64 then old(channels)[ch := c.(buf := c.buf + [pkt])] else old(channels)
      ensures !crashed ==> Valid()
    {
      ghost var s := st;
      st := Step(s, Deliver);
      var c := channels[ch];
      if c.closed {
        return true;
      }
      DeliverOpen(s);
      var c' := if |c.buf| < CHAN_CAP then Channel(c.buf + [pkt], false) else c;
      MirrorsUpdate(channels, s.chans, ch, c', Push(s.chans[ch], pkt));
      channels := channels[ch := c'];
      return false;
    }

    /**
     The select that sends the session event or, once the demuxer is closed, stops the reader.
     `preferClosed` resolves it when both cases are ready.
     */
    method Announce(ev: Session, preferClosed: bool) returns (r: Announced)
      requires Valid() && st.reader == Announcing(ev)
      modifies this`newSess, this`st
      ensures Valid()
      ensures r.Sent? <==> |old(newSess)| < 4 && !(closed && preferClosed)
      ensures r.Stopping? <==> closed && (preferClosed || |old(newSess)| == 4)
      ensures newSess == old(newSess) + if r.Sent? then [ev] else []
      ensures st == match r
        case Sent => Step(old(st), Event.Announce)
        case Stopping => Step(old(st), StopReader)
        case Full => old(st)
    {
      if closed && (preferClosed || |newSess| == QUEUE_CAP) {
        StepKeepsInv(st, StopReader);
        st := Step(st, StopReader);
        return Stopping;
      }
      if |newSess| == QUEUE_CAP {
        return Full;
      }
      StepKeepsInv(st, Event.Announce);
      newSess, st := newSess + [ev], Step(st, Event.Announce);
      return Sent;
    }

    /** NextSession, and runEgress printing the first byte of what it returned; `preferClosed` as above. */
    method NextSession(preferClosed: bool) returns (r: NextResult)
      requires Valid()
      modifies this`newSess, this`st
      ensures r.Closed? <==> closed && (preferClosed || old(newSess) == [])
      ensures r.Empty? <==> !closed && old(newSess) == []
      ensures newSess == old(newSess)[if r.Next? then 1 else 0..]
      ensures r.Next? ==> r.ev == old(newSess)[0] && Enabled(old(st), Event.Next) && st == Step(old(st), Event.Next)
      ensures !r.Next? ==> st == old(st)
      ensures !st.panicked ==> Valid()
      ensures st.panicked <==> r.Next? && r.ev.firstPkt == []
    {
      if closed && (preferClosed || newSess == []) {
        return NextResult.Closed;
      }
      if newSess == [] {
        return Empty;
      }
      StepKeepsInv(st, Event.Next);
      var ev := newSess[0];
      newSess, st := newSess[1..], Step(st, Event.Next);
      return NextResult.Next(ev);
    }

    /** LoadAndDelete and close. The channel it closes was open: close never crashes. */
    method EndSession(ev: Session)
      requires Valid() && ev in st.live
      modifies this`sessions, this`channels, this`st
      ensures Valid() && Enabled(old(st), End(ev)) && st == Step(old(st), End(ev))
      ensures ev.ch < |old(channels)| == |channels|
      ensures channels == old(channels)[ev.ch := old(channels)[ev.ch].(closed := true)] && !old(channels)[ev.ch].closed
      ensures sessions == old(sessions) - {ev.addr}
    {
      assert Open(st, ev) && OwnsChannel(st, ev) && GoodEntry(st, ev.addr);
      StepKeepsInv(st, End(ev));
      if ev.addr in sessions {
        var ch := sessions[ev.addr];
        sessions := sessions - {ev.addr};
        channels := channels[ch := channels[ch].(closed := true)];
      }
      st := Step(st, End(ev));
    }
  }
}
