/** Chunker, SRTP, mux and receive loop put together over a lossless, in-order relay. */
module EndToEnd {
  import opened Common
  import Chunker
  import ChunkerRuns
  import BytesPipe
  import ChannelData
  import PacketMux

  lemma {:induction false} PrefixGrows(a: Bytes, b: Bytes, c: Bytes)
    requires a <= b
    ensures a <= b + c
  {
  }

  lemma {:induction false} ReceivedPrefix(ps: seq<Chunker.Packet>, k: nat)
    requires k <= |ps|
    ensures Chunker.Received(ps[..k]) <= Chunker.Received(ps)
    decreases |ps|
  {
    if k == |ps| {
      assert ps[..k] == ps;
    } else {
      var n := |ps| - 1;
      ReceivedPrefix(ps[..n], k);
      assert ps[..n][..k] == ps[..k];
      PrefixGrows(Chunker.Received(ps[..k]), Chunker.Received(ps[..n]), Chunker.Delivered(ps[n].payload));
    }
  }

  // ----- The relay -----

  /** Traffic the sender did not produce: of another class, or of class SRTP and not opening. */
  ghost predicate Foreign(media: BytesPipe.Media, d: Bytes) {
    PacketMux.Classify(d) != PacketMux.Srtp || media.open(d).None?
  }

  /** What arrives is exactly `sent`, in order, with any foreign datagrams mixed in. */
  ghost predicate Relayed(media: BytesPipe.Media, arrived: seq<Bytes>, sent: seq<Bytes>) {
    if arrived == [] then sent == []
    else
      var before, d := arrived[..|arrived| - 1], arrived[|arrived| - 1];
      || (sent != [] && d == sent[|sent| - 1] && Relayed(media, before, sent[..|sent| - 1]))
      || (Foreign(media, d) && Relayed(media, before, sent))
  }

  /** The datagrams that open. */
  ghost function Genuine(media: BytesPipe.Media, ds: seq<Bytes>): seq<Bytes> {
    if ds == [] then []
    else
      var d := ds[|ds| - 1];
      Genuine(media, ds[..|ds| - 1]) + if media.open(d).Some? then [d] else []
  }

  lemma {:induction false} GenuineSnoc(media: BytesPipe.Media, ds: seq<Bytes>, d: Bytes)
    ensures Genuine(media, ds + [d]) == Genuine(media, ds) + if media.open(d).Some? then [d] else []
  {
    assert (ds + [d])[..|ds|] == ds;
  }

  lemma {:induction false} AddForeign(media: BytesPipe.Media, ds: seq<Bytes>, d: Bytes)
    requires Foreign(media, d)
    ensures Genuine(media, PacketMux.OfClass(ds + [d], PacketMux.Srtp))
      == Genuine(media, PacketMux.OfClass(ds, PacketMux.Srtp))
  {
    var srtp := PacketMux.OfClass(ds, PacketMux.Srtp);
    assert (ds + [d])[..|ds|] == ds;
    assert srtp + [] == srtp;
    GenuineSnoc(media, srtp, d);
  }

  lemma {:induction false} AddSent(media: BytesPipe.Media, ds: seq<Bytes>, d: Bytes)
    requires d != [] && d[0] == 0x80 && media.open(d).Some?
    ensures Genuine(media, PacketMux.OfClass(ds + [d], PacketMux.Srtp))
      == Genuine(media, PacketMux.OfClass(ds, PacketMux.Srtp)) + [d]
  {
    assert (ds + [d])[..|ds|] == ds;
    GenuineSnoc(media, PacketMux.OfClass(ds, PacketMux.Srtp), d);
  }

  lemma {:induction false} SealedLast(media: BytesPipe.Media, ps: seq<Chunker.Packet>)
    requires BytesPipe.Inverse(media) && ps != []
    ensures var sent, n := BytesPipe.Sealed(media, ps), |ps| - 1;
      && sent[..n] == BytesPipe.Sealed(media, ps[..n])
      && sent[n] != [] && sent[n][0] == 0x80 && media.open(sent[n]).Some?
  {
    var p := ps[|ps| - 1];
    assert BytesPipe.Sealed(media, ps)[|ps| - 1] == media.seal(p.seqNo, p.ts, p.payload);
  }

  /** The clear first byte puts every sent packet, and no foreign one that opens, into the SRTP class. */
  lemma {:induction false} SrtpIsSent(media: BytesPipe.Media, arrived: seq<Bytes>, ps: seq<Chunker.Packet>)
    requires BytesPipe.Inverse(media) && Relayed(media, arrived, BytesPipe.Sealed(media, ps))
    ensures Genuine(media, PacketMux.OfClass(arrived, PacketMux.Srtp)) == BytesPipe.Sealed(media, ps)
  {
    if arrived != [] {
      var before, d, sent := arrived[..|arrived| - 1], arrived[|arrived| - 1], BytesPipe.Sealed(media, ps);
      var n := |ps| - 1;
      assert before + [d] == arrived;
      if sent != [] && d == sent[n] && Relayed(media, before, sent[..n]) {
        SealedLast(media, ps);
        SrtpIsSent(media, before, ps[..n]);
        AddSent(media, before, d);
      } else {
        SrtpIsSent(media, before, ps);
        AddForeign(media, before, d);
      }
    }
  }

  lemma {:induction false} GenuinePrefix(media: BytesPipe.Media, ds: seq<Bytes>, k: nat)
    requires k <= |ds|
    ensures Genuine(media, ds[..k]) <= Genuine(media, ds)
    decreases |ds|
  {
    if k == |ds| {
      assert ds[..k] == ds;
    } else {
      var n := |ds| - 1;
      GenuinePrefix(media, ds[..n], k);
      assert ds[..n][..k] == ds[..k];
    }
  }

  /** What does not open adds nothing to the stream. */
  lemma {:induction false} StreamOfGenuine(media: BytesPipe.Media, ds: seq<Bytes>)
    ensures BytesPipe.RxStream(media, ds) == BytesPipe.RxStream(media, Genuine(media, ds))
  {
    if ds != [] {
      var before, d := ds[..|ds| - 1], ds[|ds| - 1];
      StreamOfGenuine(media, before);
      if media.open(d).Some? {
        BytesPipe.RxSnoc(media, Genuine(media, before), d);
      } else {
        assert Genuine(media, before) + [] == Genuine(media, before);
        assert BytesPipe.RxStream(media, before) + [] == BytesPipe.RxStream(media, before);
      }
    }
  }

  lemma {:induction false} OfClassPrefix(all: seq<Bytes>, k: nat, c: PacketMux.Class)
    requires k <= |all|
    ensures PacketMux.OfClass(all[..k], c) <= PacketMux.OfClass(all, c)
    decreases |all|
  {
    if k == |all| {
      assert all[..k] == all;
    } else {
      var n := |all| - 1;
      OfClassPrefix(all[..n], k, c);
      assert all[..n][..k] == all[..k];
    }
  }

  /** What the mux's consumer has read and opened is a prefix of what was sent. */
  lemma {:induction false} ReadIsSent(
      media: BytesPipe.Media, arrived: seq<Bytes>, ps: seq<Chunker.Packet>, ms: seq<PacketMux.Event>, m: PacketMux.Mux)
    requires BytesPipe.Inverse(media) && Relayed(media, arrived, BytesPipe.Sealed(media, ps))
    requires PacketMux.Run(PacketMux.INIT, ms) == Some(m) && m.received <= arrived
    ensures Genuine(media, m.srtpRead) <= BytesPipe.Sealed(media, ps)
  {
    var all := PacketMux.OfClass(arrived, PacketMux.Srtp);
    PacketMux.NothingLost(ms, m);
    assert arrived[..|m.received|] == m.received;
    OfClassPrefix(arrived, |m.received|, PacketMux.Srtp);
    assert m.srtpRead <= PacketMux.OfClass(m.received, PacketMux.Srtp);
    assert m.srtpRead == all[..|m.srtpRead|];
    GenuinePrefix(media, all, |m.srtpRead|);
    SrtpIsSent(media, arrived, ps);
  }

  /** What the receive loop has delivered is the stream of some number of the packets sent. */
  lemma {:induction false} DeliveredSoFar(media: BytesPipe.Media, read: seq<Bytes>, ps: seq<Chunker.Packet>)
    requires BytesPipe.Inverse(media) && Genuine(media, read) <= BytesPipe.Sealed(media, ps)
    ensures var k := |Genuine(media, read)|;
      k <= |ps| && BytesPipe.RxStream(media, read) == Chunker.Received(ps[..k])
  {
    var k := |Genuine(media, read)|;
    StreamOfGenuine(media, read);
    assert Genuine(media, read) == BytesPipe.Sealed(media, ps[..k]);
    BytesPipe.RxOfSealed(media, ps[..k]);
  }

  // ----- The stream -----

  lemma {:induction false} FullStream(
      prefix: Bytes, seq0: uint16, ts0: uint32, es: seq<Chunker.Event>, t: Chunker.Tx)
    requires ChunkerRuns.Start(prefix, seq0, ts0, es) == Some(t) && Chunker.AllFull(t.packets)
    ensures Chunker.Received(t.packets) <= prefix + Concat(ChunkerRuns.Writes(es))
  {
    ChunkerRuns.RunKeepsInv(Chunker.Init(prefix, seq0, ts0), es);
    ChunkerRuns.RunAppendsWrites(Chunker.Init(prefix, seq0, ts0), es);
    ChunkerRuns.FullMeansPrefix(t);
  }

  /** What the stream of the first k packets of a run can be. */
  lemma {:induction false} PartOfStream(
      prefix: Bytes, seq0: uint16, ts0: uint32, es: seq<Chunker.Event>, t: Chunker.Tx, k: nat)
    requires ChunkerRuns.Start(prefix, seq0, ts0, es) == Some(t) && k <= |t.packets|
    ensures var got := Chunker.Received(t.packets[..k]);
      && got <= Chunker.Received(t.packets)
      && (got <= prefix || prefix <= got)
      && (Chunker.AllFull(t.packets) ==> got <= prefix + Concat(ChunkerRuns.Writes(es)))
  {
    ReceivedPrefix(t.packets, k);
    ChunkerRuns.DestinationFirst(prefix, seq0, ts0, es, t);
    if Chunker.AllFull(t.packets) {
      FullStream(prefix, seq0, ts0, es, t);
    }
  }

  /**
   End to end, for any interleaving of writers, ticks, mux reader and consumers. The relay has let
   through the first `n` packets sent, in order, and the mux has received some of what arrived; DTLS,
   other classes and SRTP datagrams that do not open may be mixed in anywhere. The bytes delivered
   - are a prefix of the packets' stream, hence of what was written if every data packet was full;
   - begin with the destination prefix;
   - are the whole stream once the consumer has read as many packets that open as were sent.
   */
  lemma {:induction false} StreamDelivered(
      prefix: Bytes, seq0: uint16, ts0: uint32, es: seq<Chunker.Event>, t: Chunker.Tx, media: BytesPipe.Media,
      n: nat, arrived: seq<Bytes>, ms: seq<PacketMux.Event>, m: PacketMux.Mux)
    requires ChunkerRuns.Start(prefix, seq0, ts0, es) == Some(t) && BytesPipe.Inverse(media)
    requires n <= |t.packets| && Relayed(media, arrived, BytesPipe.Sealed(media, t.packets[..n]))
    requires PacketMux.Run(PacketMux.INIT, ms) == Some(m) && m.received <= arrived
    ensures var got := BytesPipe.RxStream(media, m.srtpRead);
      && got <= Chunker.Received(t.packets)
      && (got <= prefix || prefix <= got)
      && (Chunker.AllFull(t.packets) ==> got <= prefix + Concat(ChunkerRuns.Writes(es)))
      && (|Genuine(media, m.srtpRead)| == |t.packets| ==> got == Chunker.Received(t.packets))
  {
    var k := |Genuine(media, m.srtpRead)|;
    ReadIsSent(media, arrived, t.packets[..n], ms, m);
    DeliveredSoFar(media, m.srtpRead, t.packets[..n]);
    assert t.packets[..n][..k] == t.packets[..k];
    PartOfStream(prefix, seq0, ts0, es, t, k);
    assert t.packets[..|t.packets|] == t.packets;
  }

  /**
   The way back, where the client reads through its TURN channel: the datagrams on its socket are this
   channel's frames mixed with any others, and the payloads of this channel's frames are what the relay
   let through. The client's receive loop delivers a prefix of the egress's stream, and all of it once
   it has read as many packets that open as the egress sent.
   */
  lemma {:induction false} DownlinkDelivered(
      seq0: uint16, ts0: uint32, es: seq<Chunker.Event>, t: Chunker.Tx, media: BytesPipe.Media,
      n: nat, ch: uint16, traffic: seq<ChannelData.Traffic>, ms: seq<PacketMux.Event>, m: PacketMux.Mux)
    requires ChunkerRuns.Start([], seq0, ts0, es) == Some(t) && BytesPipe.Inverse(media)
    requires 0x4000 <= ch <= 0x7FFF && forall i :: 0 <= i < |traffic| ==> ChannelData.Plausible(ch, traffic[i])
    requires n <= |t.packets|
    requires Relayed(media, ChannelData.OwnPayloads(traffic), BytesPipe.Sealed(media, t.packets[..n]))
    requires PacketMux.Run(PacketMux.INIT, ms) == Some(m)
    requires m.received <= ChannelData.Deliver(ch, ChannelData.Datagrams(ch, traffic))
    ensures var got := BytesPipe.RxStream(media, m.srtpRead);
      && got <= Chunker.Received(t.packets)
      && (Chunker.AllFull(t.packets) ==> got <= Concat(ChunkerRuns.Writes(es)))
      && (|Genuine(media, m.srtpRead)| == |t.packets| ==> got == Chunker.Received(t.packets))
  {
    ChannelData.DeliversOwn(ch, traffic);
    StreamDelivered([], seq0, ts0, es, t, media, n, ChannelData.OwnPayloads(traffic), ms, m);
    assert [] + Concat(ChunkerRuns.Writes(es)) == Concat(ChunkerRuns.Writes(es));
  }
}
