/**
 `packetMux`: one reader goroutine classifies datagrams by their leading byte into two bounded
 channels; two consumers drain them. A run is any interleaving of the reader with the consumers.
 `received`, `dtlsRead` and `srtpRead` are history.
 */
module PacketMux {
  import opened Common

  const CHAN_CAP := 64

  datatype Class = Dtls | Srtp | Other

  function Classify(pkt: Bytes): Class {
    if pkt == [] then Other
    else if 20 <= pkt[0] <= 25 then Dtls
    else if 128 <= pkt[0] <= 191 then Srtp
    else Other
  }

  datatype Mux = Mux(dtlsCh: seq<Bytes>, srtpCh: seq<Bytes>, inHand: Option<Bytes>, closed: bool, stopped: bool,
                     received: seq<Bytes>, dtlsRead: seq<Bytes>, srtpRead: seq<Bytes>)

  datatype Event =
    | Arrive(pkt: Bytes)  // underlying.Read returned
    | Offer               // the reader's send on a channel goes through
    | ReadDtls
    | ReadSrtp
    | Close
    | GiveUp              // the reader's select takes the closed case

  const INIT := Mux([], [], None, false, false, [], [], [])

  ghost predicate Enabled(m: Mux, e: Event) {
    match e
    case Arrive(pkt) => m.inHand.None? && !m.stopped
    case Offer =>
      m.inHand.Some? && !m.stopped && match Classify(m.inHand.value) {
        case Dtls => |m.dtlsCh| < CHAN_CAP
        case Srtp => |m.srtpCh| < CHAN_CAP
        case Other => false
      }
    case ReadDtls => m.dtlsCh != []
    case ReadSrtp => m.srtpCh != []
    case Close => true
    case GiveUp => m.inHand.Some? && m.closed && !m.stopped
  }

  ghost function Step(m: Mux, e: Event): Mux
    requires Enabled(m, e)
  {
    match e
    case Arrive(pkt) =>
      m.(received := m.received + [pkt], inHand := if Classify(pkt).Other? then None else Some(pkt))
    case Offer =>
      var pkt := m.inHand.value;
      if Classify(pkt).Dtls? then m.(dtlsCh := m.dtlsCh + [pkt], inHand := None)
      else m.(srtpCh := m.srtpCh + [pkt], inHand := None)
    case ReadDtls => m.(dtlsCh := m.dtlsCh[1..], dtlsRead := m.dtlsRead + [m.dtlsCh[0]])
    case ReadSrtp => m.(srtpCh := m.srtpCh[1..], srtpRead := m.srtpRead + [m.srtpCh[0]])
    case Close => m.(closed := true)
    case GiveUp => m.(stopped := true)
  }

  ghost function Run(m: Mux, es: seq<Event>): Option<Mux> {
    if es == [] then Some(m)
    else
      match Run(m, es[..|es| - 1])
      case None => None
      case Some(k) =>
        if Enabled(k, es[|es| - 1]) then Some(Step(k, es[|es| - 1])) else None
  }

  ghost function OfClass(pkts: seq<Bytes>, c: Class): seq<Bytes> {
    if pkts == [] then []
    else
      var p := pkts[|pkts| - 1];
      OfClass(pkts[..|pkts| - 1], c) + if Classify(p) == c then [p] else []
  }

  ghost function Held(m: Mux, c: Class): seq<Bytes> {
    if m.inHand.Some? && Classify(m.inHand.value) == c then [m.inHand.value] else []
  }

  ghost predicate Inv(m: Mux) {
    && |m.dtlsCh| <= CHAN_CAP && |m.srtpCh| <= CHAN_CAP
    && m.dtlsRead + m.dtlsCh + Held(m, Dtls) == OfClass(m.received, Dtls)
    && m.srtpRead + m.srtpCh + Held(m, Srtp) == OfClass(m.received, Srtp)
    && (m.inHand.Some? ==> !Classify(m.inHand.value).Other?)
    && (m.stopped ==> m.closed)
  }

  lemma {:induction false} TakeHead(read: seq<Bytes>, ch: seq<Bytes>, held: seq<Bytes>)
    requires ch != []
    ensures (read + [ch[0]]) + ch[1..] + held == read + ch + held
  {
    assert [ch[0]] + ch[1..] == ch;
  }

  lemma {:induction false} StepKeepsInv(m: Mux, e: Event)
    requires Inv(m) && Enabled(m, e)
    ensures Inv(Step(m, e))
  {
    var n := Step(m, e);
    match e
    case Arrive(pkt) =>
      assert n.received[..|m.received|] == m.received;
      assert Held(m, Dtls) == [] && Held(m, Srtp) == [];
    case Offer =>
      assert n.dtlsCh + Held(n, Dtls) == m.dtlsCh + Held(m, Dtls);
      assert n.srtpCh + Held(n, Srtp) == m.srtpCh + Held(m, Srtp);
    case ReadDtls => TakeHead(m.dtlsRead, m.dtlsCh, Held(m, Dtls));
    case ReadSrtp => TakeHead(m.srtpRead, m.srtpCh, Held(m, Srtp));
    case Close =>
    case GiveUp =>
  }

  lemma {:induction false} ReachableInv(es: seq<Event>, m: Mux)
    requires Run(INIT, es) == Some(m)
    ensures Inv(m)
  {
    if es == [] {
    } else {
      var es' := es[..|es| - 1];
      ReachableInv(es', Run(INIT, es').value);
      StepKeepsInv(Run(INIT, es').value, es[|es| - 1]);
    }
  }

  /** The first byte of a packet. */
  function Lead(pkt: Bytes): int {
    if pkt == [] then -1 else pkt[0]
  }

  /** The packets whose first byte lies in a range, in order. */
  ghost function ByLead(pkts: seq<Bytes>, lo: nat, hi: nat): seq<Bytes> {
    if pkts == [] then []
    else
      var p := pkts[|pkts| - 1];
      ByLead(pkts[..|pkts| - 1], lo, hi) + if lo <= Lead(p) <= hi then [p] else []
  }

  lemma {:induction false} ClassByLead(pkts: seq<Bytes>)
    ensures OfClass(pkts, Dtls) == ByLead(pkts, 20, 25) && OfClass(pkts, Srtp) == ByLead(pkts, 128, 191)
  {
    if pkts != [] {
      ClassByLead(pkts[..|pkts| - 1]);
    }
  }

  /** The packet the reader holds, as a sequence. */
  ghost function InHand(m: Mux): seq<Bytes> {
    if m.inHand.Some? then [m.inHand.value] else []
  }

  lemma {:induction false} HeldByLead(m: Mux)
    ensures Held(m, Dtls) == ByLead(InHand(m), 20, 25) && Held(m, Srtp) == ByLead(InHand(m), 128, 191)
  {
    if m.inHand.Some? {
      assert InHand(m)[..0] == [];
      assert ByLead(InHand(m)[..0], 20, 25) == [] && ByLead(InHand(m)[..0], 128, 191) == [];
    }
  }

  /**
   In every reachable state each kind of packet is delivered in order and complete: what its consumer
   has read, what its channel holds and what the reader holds are exactly the packets received with a
   first byte from 20 to 25 (DTLS) or from 128 to 191 (SRTP). A channel never holds more than 64, and
   the reader abandons a packet only after Close.
   */
  lemma {:induction false} NothingLost(es: seq<Event>, m: Mux)
    requires Run(INIT, es) == Some(m)
    ensures Inv(m)
    ensures m.dtlsRead + m.dtlsCh + ByLead(InHand(m), 20, 25) == ByLead(m.received, 20, 25)
    ensures m.srtpRead + m.srtpCh + ByLead(InHand(m), 128, 191) == ByLead(m.received, 128, 191)
    ensures |m.dtlsCh| <= 64 && |m.srtpCh| <= 64 && (m.stopped ==> m.closed)
  {
    ReachableInv(es, m);
    ClassByLead(m.received);
    HeldByLead(m);
  }

  /** The mux is closed exactly after a Close, and its reader stops exactly by giving up a packet. */
  lemma {:induction false} ClosedExactly(es: seq<Event>, m: Mux)
    requires Run(INIT, es) == Some(m)
    ensures (m.closed <==> Event.Close in es) && (m.stopped <==> GiveUp in es)
  {
    if es != [] {
      var es', e := es[..|es| - 1], es[|es| - 1];
      ClosedExactly(es', Run(INIT, es').value);
      assert es == es' + [e];
    }
  }

  // ----- The mux object -----

  datatype Handed = Sent | Stopping | Blocked

  datatype ReadResult = Got(n: nat) | Eof | Blocked

  /** How many packets wait in the channel that a packet belongs to. */
  ghost function WaitingWith(pkt: Bytes, dtlsCh: seq<Bytes>, srtpCh: seq<Bytes>): nat {
    if 20 <= Lead(pkt) <= 25 then |dtlsCh| else |srtpCh|
  }

  class MuxObject {
    var dtlsCh: seq<Bytes>
    var srtpCh: seq<Bytes>
    var closed: bool
    ghost var st: Mux

    ghost predicate Valid()
      reads this
    {
      Inv(st) && st.dtlsCh == dtlsCh && st.srtpCh == srtpCh && st.closed == closed
    }

    constructor ()
      ensures Valid() && st == INIT
    {
      dtlsCh, srtpCh, closed, st := [], [], false, INIT;
    }

    /** One read of `readLoop` up to its select: what the reader now has to hand over, if anything. */
    method Take(buf: Bytes) returns (inHand: Option<Bytes>)
      requires Valid() && Enabled(st, Arrive(buf))
      modifies this`st
      ensures Valid() && st == Step(old(st), Arrive(buf)) && inHand == st.inHand
      ensures inHand == if 20 <= Lead(buf) <= 25 || 128 <= Lead(buf) <= 191 then Some(buf) else None
    {
      StepKeepsInv(st, Arrive(buf));
      st := Step(st, Arrive(buf));
      if |buf| == 0 {
        return None;
      }
      var first := buf[0];
      if (first >= 20 && first <= 25) || (first >= 128 && first <= 191) {
        return Some(buf);
      }
      return None;
    }

    method Close()
      requires Valid()
      modifies this`closed, this`st
      ensures Valid() && st == Step(old(st), Event.Close) && closed
    {
      StepKeepsInv(st, Event.Close);
      closed, st := true, Step(st, Event.Close);
    }

    /**
     The select that sends a packet or, once the mux is closed, stops the reader. `preferClosed` resolves
     it when both cases are ready; Blocked while the channel is full.
     */
    method Hand(pkt: Bytes, preferClosed: bool) returns (r: Handed)
      requires Valid() && st.inHand == Some(pkt) && !st.stopped
      modifies this`dtlsCh, this`srtpCh, this`st
      ensures Valid()
      ensures r.Sent? <==> WaitingWith(pkt, old(dtlsCh), old(srtpCh)) < 64 && !(closed && preferClosed)
      ensures r.Blocked? <==> WaitingWith(pkt, old(dtlsCh), old(srtpCh)) == 64 && !closed
      ensures dtlsCh == old(dtlsCh) + if r.Sent? && 20 <= Lead(pkt) <= 25 then [pkt] else []
      ensures srtpCh == old(srtpCh) + if r.Sent? && 128 <= Lead(pkt) <= 191 then [pkt] else []
      ensures r.Sent? ==> Enabled(old(st), Offer)
      ensures st == match r
        case Sent => Step(old(st), Offer)
        case Stopping => Step(old(st), GiveUp)
        case Blocked => old(st)
    {
      var first := pkt[0];
      var dtls := first >= 20 && first <= 25;
      var room := if dtls then |dtlsCh| < CHAN_CAP else |srtpCh| < CHAN_CAP;
      if closed && (preferClosed || !room) {
        StepKeepsInv(st, GiveUp);
        st := Step(st, GiveUp);
        return Stopping;
      }
      if !room {
        return Handed.Blocked;
      }
      StepKeepsInv(st, Offer);
      if dtls {
        dtlsCh := dtlsCh + [pkt];
      } else {
        srtpCh := srtpCh + [pkt];
      }
      st := Step(st, Offer);
      return Sent;
    }

    /** `readSRTP` copies the oldest packet, waits for one, or reports the end of file after Close. */
    method ReadSRTP(p: array<byte>, preferClosed: bool) returns (r: ReadResult)
      requires Valid()
      modifies this`srtpCh, this`st, p
      ensures Valid()
      ensures r.Eof? <==> closed && (preferClosed || old(srtpCh) == [])
      ensures r.Blocked? <==> !closed && old(srtpCh) == []
      ensures if !r.Got? then st == old(st) && p[..] == old(p[..])
        else
          && old(srtpCh) != [] && st == Step(old(st), Event.ReadSrtp)
          && CopiedInto(old(srtpCh)[0], old(p[..]), p[..], r.n)
    {
      if closed && (preferClosed || srtpCh == []) {
        return Eof;
      }
      if srtpCh == [] {
        return ReadResult.Blocked;
      }
      StepKeepsInv(st, Event.ReadSrtp);
      var pkt := srtpCh[0];
      srtpCh, st := srtpCh[1..], Step(st, Event.ReadSrtp);
      var m := Copy(p, 0, pkt);
      return Got(m);
    }
  }

  // ----- The egress side's datagram source -----

  datatype Datagram = Datagram(from: string, data: Bytes)

  const READ_BUFFER := 4096

  /** The part of a datagram that ReadFrom stores. */
  function Stored(data: Bytes): Bytes {
    data[..Min(|data|, READ_BUFFER)]
  }

  /** What `singleSourceConn` takes from the socket: the peer's datagrams, in order. */
  ghost function FromPeer(peer: string, ds: seq<Datagram>): seq<Bytes> {
    if ds == [] then []
    else if ds[0].from == peer then [Stored(ds[0].data)] + FromPeer(peer, ds[1..])
    else FromPeer(peer, ds[1..])
  }

  class SingleSourceConn {
    const peer: string
    const first: Bytes
    var consumed: bool
    var socket: seq<Datagram>  // datagrams the shared socket returns before its next error

    /** Everything still to be read. */
    ghost function Remaining(): seq<Bytes>
      reads this
    {
      (if !consumed && |first| > 0 then [first] else []) + FromPeer(peer, socket)
    }

    /** Datagrams of other sources are skipped up to the peer's next one, of which 4096 bytes are kept. */
    ghost predicate NextFromPeer(before: seq<Datagram>, found: bool, pkt: Bytes, skipped: nat, after: seq<Datagram>) {
      && skipped <= |before| && (forall i :: 0 <= i < skipped ==> before[i].from != peer)
      && if found then
           && skipped < |before| && before[skipped].from == peer && after == before[skipped + 1..]
           && pkt == if |before[skipped].data| <= 4096 then before[skipped].data else before[skipped].data[..4096]
         else skipped == |before| && after == []
    }

    constructor (peer: string, first: Bytes, socket: seq<Datagram>)
      ensures this.peer == peer && this.first == first && this.socket == socket && !consumed
    {
      this.peer, this.first, this.consumed, this.socket := peer, first, false, socket;
    }

    /** Copies the replayed first packet or the peer's next datagram; None when the socket fails. */
    method Read(p: array<byte>) returns (n: Option<nat>, ghost pkt: Bytes, ghost skipped: nat)
      modifies this`consumed, this`socket, p
      ensures n.None? ==> old(Remaining()) == [] && Remaining() == [] && p[..] == old(p[..])
      ensures n.Some? ==> old(Remaining()) == [pkt] + Remaining() && CopiedInto(pkt, old(p[..]), p[..], n.value)
      ensures if !old(consumed) && |first| > 0
        then n.Some? && pkt == first && consumed && socket == old(socket)
        else consumed == old(consumed) && NextFromPeer(old(socket), n.Some?, pkt, skipped, socket)
    {
      skipped := 0;
      if !consumed && |first| > 0 {
        consumed, pkt := true, first;
        var m := Copy(p, 0, first);
        return Some(m), pkt, skipped;
      }
      while |socket| > 0
        invariant consumed == old(consumed) && FromPeer(peer, socket) == old(FromPeer(peer, socket))
        invariant skipped <= |old(socket)| && socket == old(socket)[skipped..]
        invariant forall i :: 0 <= i < skipped ==> old(socket)[i].from != peer
        invariant p[..] == old(p[..])
        decreases |socket|
      {
        var d := socket[0];
        socket := socket[1..];
        if d.from != peer {
          skipped := skipped + 1;
          continue;
        }
        var buf := Stored(d.data);
        pkt := buf;
        var m := Copy(p, 0, buf);
        return Some(m), pkt, skipped;
      }
      return None, [], skipped;
    }
  }
}
