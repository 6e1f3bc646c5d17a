/**
 Properties of every run of the chunker machine: conservation, what the receiver gets and exactly
 when that is a prefix of what was written, the destination prefix, draining, and the RTP clock.
 */
module ChunkerRuns {
  import opened Common
  import opened Chunker
  import RtpClock

  ghost function Start(prefix: Bytes, seq0: uint16, ts0: uint32, es: seq<Event>): Option<Tx> {
    Run(Init(prefix, seq0, ts0), es)
  }

  /** The chunks accepted by the writes of a run, in order. */
  ghost function Writes(es: seq<Event>): seq<Bytes> {
    if es == [] then []
    else
      var e := es[|es| - 1];
      Writes(es[..|es| - 1]) + if e.Write? then [e.chunk] else []
  }

  ghost function Ticks(es: seq<Event>): nat {
    if es == [] then 0
    else Ticks(es[..|es| - 1]) + if es[|es| - 1].Finish? then 1 else 0
  }

  lemma {:induction false} RunKeepsInv(s: Tx, es: seq<Event>)
    requires Inv(s) && Run(s, es).Some?
    ensures Inv(Run(s, es).value)
  {
    if es == [] {
    } else {
      var es' := es[..|es| - 1];
      RunKeepsInv(s, es');
      StepKeepsInv(Run(s, es').value, es[|es| - 1]);
    }
  }

  lemma {:induction false} RunAppendsWrites(s: Tx, es: seq<Event>)
    requires Run(s, es).Some?
    ensures Run(s, es).value.written == s.written + Concat(Writes(es))
  {
    if es == [] {
    } else {
      var es', e := es[..|es| - 1], es[|es| - 1];
      RunAppendsWrites(s, es');
      if e.Write? {
        ConcatSnoc(Writes(es'), e.chunk);
        Assoc(s.written, Concat(Writes(es')), e.chunk);
      } else {
        assert Writes(es) == Writes(es');
      }
    }
  }

  /** No caller byte is lost, duplicated or reordered by any interleaving of writes with ticks. */
  lemma {:induction false} Conservation(prefix: Bytes, seq0: uint16, ts0: uint32, es: seq<Event>, t: Tx)
    requires Start(prefix, seq0, ts0, es) == Some(t)
    ensures Taken(t.packets) + (InHand(t) + t.pending + Concat(t.queue)) == prefix + Concat(Writes(es))
    ensures t.fill.Filling? && |t.fill.body| < t.fill.size - 1 ==> t.pending == []
  {
    RunKeepsInv(Init(prefix, seq0, ts0), es);
    RunAppendsWrites(Init(prefix, seq0, ts0), es);
  }

  // ----- The receiver's stream -----

  /** The random tail that `rxLoop` delivers after the caller bytes of a data packet. */
  ghost function FillBytes(p: Packet): Bytes {
    if UnderFilled(p) then p.payload[1 + p.taken..] else []
  }

  lemma {:induction false} DeliveredSplit(p: Packet)
    requires WellFormed(p)
    ensures Delivered(p.payload) == CallerBytes(p) + FillBytes(p)
    ensures |CallerBytes(p)| == p.taken
  {
    if p.taken > 0 {
      assert p.payload[1..] == p.payload[1..1 + p.taken] + p.payload[1 + p.taken..];
    }
  }

  /** The receiver gets the caller bytes plus exactly the random tails, and nothing else. */
  lemma {:induction false} ReceivedLength(ps: seq<Packet>)
    requires forall i :: 0 <= i < |ps| ==> WellFormed(ps[i])
    ensures |Received(ps)| == |Taken(ps)| + Overrun(ps)
    ensures AllFull(ps) <==> Overrun(ps) == 0
    ensures AllFull(ps) <==> Received(ps) == Taken(ps)
  {
    if ps == [] {
    } else {
      var n := |ps| - 1;
      ReceivedLength(ps[..n]);
      DeliveredSplit(ps[n]);
      assert AllFull(ps) <==> AllFull(ps[..n]) && !UnderFilled(ps[n]);
      if AllFull(ps) {
        assert CallerBytes(ps[n]) + [] == CallerBytes(ps[n]);
      }
    }
  }

  /** At every moment of the run, what was delivered so far is a prefix of what was written so far. */
  ghost predicate AlwaysPrefix(s: Tx, es: seq<Event>) {
    && (Run(s, es).Some? ==> Received(Run(s, es).value.packets) <= Run(s, es).value.written)
    && (es != [] ==> AlwaysPrefix(s, es[..|es| - 1]))
  }

  lemma {:induction false} FullMeansPrefix(t: Tx)
    requires Inv(t) && AllFull(t.packets)
    ensures Received(t.packets) <= t.written
  {
    ReceivedLength(t.packets);
  }

  /** An under-filled data packet leaves the receiver with more bytes than were ever written. */
  lemma {:induction false} UnderFilledOverruns(m: Tx, noise: Bytes)
    requires Inv(m) && Enabled(m, Finish(noise))
    requires UnderFilled(Step(m, Finish(noise)).packets[|m.packets|])
    ensures |Received(Step(m, Finish(noise)).packets)| > |Step(m, Finish(noise)).written|
  {
    var t := Step(m, Finish(noise));
    StepKeepsInv(m, Finish(noise));
    ReceivedLength(t.packets);
    assert !AllFull(t.packets);
  }

  lemma {:induction false} AllFullSnoc(ps: seq<Packet>, p: Packet)
    ensures AllFull(ps + [p]) <==> AllFull(ps) && !UnderFilled(p)
  {
    if AllFull(ps + [p]) {
      assert forall i :: 0 <= i < |ps| ==> (ps + [p])[i] == ps[i];
      assert (ps + [p])[|ps|] == p;
    }
  }

  lemma {:induction false} FinishAppends(m: Tx, noise: Bytes) returns (p: Packet)
    requires Inv(m) && Enabled(m, Finish(noise))
    ensures var t := Step(m, Finish(noise));
      && t.packets == m.packets + [p] && WellFormed(p)
      && Taken(t.packets) == Taken(m.packets) + CallerBytes(p)
      && Received(t.packets) == Received(m.packets) + (CallerBytes(p) + FillBytes(p))
      && (|CallerBytes(p)| >= 109 || Taken(t.packets) == t.written)
      && (FillBytes(p) != [] ==> Taken(t.packets) == t.written)
  {
    var t := Step(m, Finish(noise));
    p := t.packets[|m.packets|];
    assert t.packets[..|m.packets|] == m.packets;
    FinishKeepsInv(m, noise);
    DeliveredSplit(p);
  }

  lemma {:induction false} LastStep(m: Tx, e: Event)
    requires Inv(m) && Enabled(m, e)
    ensures var t := Step(m, e);
      AllFull(t.packets) <==> AllFull(m.packets) && (AllFull(m.packets) ==> Received(t.packets) <= t.written)
  {
    var t := Step(m, e);
    StepKeepsInv(m, e);
    if AllFull(t.packets) {
      FullMeansPrefix(t);
    }
    if e.Finish? {
      var p := FinishAppends(m, e.noise);
      AllFullSnoc(m.packets, p);
      if UnderFilled(p) {
        UnderFilledOverruns(m, e.noise);
      }
    }
  }

  /** The byte-stream promise holds throughout a run exactly when none of its data packets was under-filled. */
  lemma {:induction false} PrefixExactlyWhenFull(prefix: Bytes, seq0: uint16, ts0: uint32, es: seq<Event>)
    requires Start(prefix, seq0, ts0, es).Some?
    ensures AlwaysPrefix(Init(prefix, seq0, ts0), es) <==> AllFull(Start(prefix, seq0, ts0, es).value.packets)
  {
    var s := Init(prefix, seq0, ts0);
    if es == [] {
    } else {
      var es', e := es[..|es| - 1], es[|es| - 1];
      PrefixExactlyWhenFull(prefix, seq0, ts0, es');
      RunKeepsInv(s, es');
      LastStep(Run(s, es').value, e);
    }
  }

  lemma {:induction false} RunFour(s: Tx, a: Event, b: Event, c: Event, d: Event, u: Tx)
    requires Enabled(s, a) && Enabled(Step(s, a), b)
    requires Enabled(Step(Step(s, a), b), c) && u == Step(Step(Step(s, a), b), c) && Enabled(u, d)
    ensures Run(s, [a, b, c, d]) == Some(Step(u, d))
  {
    RunSnoc(s, [], a);
    assert [] + [a] == [a] && [a] + [b] == [a, b] && [a, b] + [c] == [a, b, c] && [a, b, c] + [d] == [a, b, c, d];
    RunSnoc(s, [a], b);
    RunSnoc(s, [a, b], c);
    RunSnoc(s, [a, b, c], d);
  }

  lemma {:induction false} OnePacket(p: Packet, data: Bytes)
    requires p.payload == [FLAG_DATA] + data
    ensures Received([p]) == data
  {
    assert Received([p][..0]) == [];
  }

  lemma {:induction false} OneByteTaken(b: byte, draw: uint32)
    ensures var s1 := Step(Init([], 0, 0), Write([b]));
      && Enabled(s1, Begin(draw)) && Enabled(Step(s1, Begin(draw)), Dequeue)
      && Step(Step(s1, Begin(draw)), Dequeue) == Tx([], [], Filling(PayloadSize(draw), [b]), 0, 0, [], [b])
  {
    assert [b][..1] == [b] && [b][1..] == [] && [] + [b] == [b] && [] + [[b]] == [[b]];
    var s2 := Step(Step(Init([], 0, 0), Write([b])), Begin(draw));
    assert s2 == Tx([], [[b]], Filling(PayloadSize(draw), []), 0, 0, [], [b]);
    assert s2.queue[1..] == [];
  }

  /** One byte written with nothing else queued: the receiver reads it and a tail of random bytes. */
  lemma {:induction false} StreamPromiseFails(b: byte, draw: uint32, noise: Bytes)
    requires |noise| == PayloadSize(draw) - 2
    ensures var run := Start([], 0, 0, [Write([b]), Begin(draw), Dequeue, Finish(noise)]);
      run.Some? && run.value.written == [b] && Received(run.value.packets) == [b] + noise
  {
    OneByteTaken(b, draw);
    var s3 := Tx([], [], Filling(PayloadSize(draw), [b]), 0, 0, [], [b]);
    RunFour(Init([], 0, 0), Write([b]), Begin(draw), Dequeue, Finish(noise), s3);
    OnePacket(Packet(0, 0, [FLAG_DATA] + [b] + noise, 1), [b] + noise);
  }

  // ----- One tick, with writes interleaved anywhere inside it -----

  /** The steps of one tick up to some point: its Begin, then dequeues and other goroutines' writes. */
  ghost predicate TickSoFar(es: seq<Event>, draw: uint32) {
    && es != [] && es[0] == Begin(draw)
    && forall i :: 1 <= i < |es| ==> es[i].Write? || es[i].Dequeue?
  }

  /** How each step moves bytes between the backlog, the packet under construction and the wire. */
  lemma {:induction false} StepCounts(s: Tx, e: Event)
    requires Inv(s) && Enabled(s, e)
    ensures var t := Step(s, e);
      match e
      case Write(chunk) => t.packets == s.packets && InHand(t) == InHand(s) && Backlog(t) == Backlog(s) + |chunk|
      case Begin(_) => t.packets == s.packets && |InHand(t)| + Backlog(t) == |InHand(s)| + Backlog(s)
      case Dequeue => t.packets == s.packets && |InHand(t)| + Backlog(t) == |InHand(s)| + Backlog(s)
      case Finish(_) =>
        && |t.packets| == |s.packets| + 1 && t.packets[..|s.packets|] == s.packets
        && |t.packets[|s.packets|].payload| == s.fill.size && t.packets[|s.packets|].taken == |InHand(s)|
        && |Taken(t.packets)| == |Taken(s.packets)| + |InHand(s)|
        && InHand(t) == [] && Backlog(t) == Backlog(s)
        && |InHand(s)| <= s.fill.size - 1 <= 168
        && (|InHand(s)| == s.fill.size - 1 >= 109 || Backlog(s) == 0)
      case Halt => t.packets == s.packets && InHand(t) == InHand(s) && Backlog(t) == Backlog(s)
  {
    match e
    case Write(chunk) => ConcatSnoc(s.queue, chunk);
    case Begin(_) =>
    case Dequeue => DequeueKeepsInv(s);
    case Finish(noise) => var p := FinishAppends(s, noise);
    case Halt =>
  }

  lemma {:induction false} MidTick(s: Tx, draw: uint32, es: seq<Event>, m: Tx)
    requires Inv(s) && s.fill.Idle? && TickSoFar(es, draw) && Run(s, es) == Some(m)
    ensures m.fill.Filling? && m.fill.size == PayloadSize(draw) && m.packets == s.packets
    ensures |InHand(m)| + Backlog(m) == Backlog(s) + |Concat(Writes(es))|
  {
    var es', e := es[..|es| - 1], es[|es| - 1];
    var m' := Run(s, es').value;
    if es' == [] {
      assert Writes(es) == [];
      StepCounts(s, Begin(draw));
    } else {
      MidTick(s, draw, es', m');
      RunKeepsInv(s, es');
      StepCounts(m', e);
      if e.Write? {
        ConcatSnoc(Writes(es'), e.chunk);
      } else {
        assert Writes(es) == Writes(es');
      }
    }
  }

  /** t is s after sending one packet of `size` bytes that took what it could of `offered`. */
  ghost predicate SentOne(s: Tx, t: Tx, size: nat, offered: nat) {
    && |t.packets| == |s.packets| + 1 && t.packets[..|s.packets|] == s.packets
    && var p := t.packets[|s.packets|];
    && |p.payload| == size
    && p.taken == Min(offered, size - 1)
    && Backlog(t) == offered - p.taken
    && (UnderFilled(p) <==> 0 < offered < size - 1)
  }

  lemma {:induction false} FinishTakes(s: Tx, m: Tx, noise: Bytes)
    requires Inv(m) && Enabled(m, Finish(noise)) && m.packets == s.packets
    ensures SentOne(s, Step(m, Finish(noise)), m.fill.size, |InHand(m)| + Backlog(m))
  {
    StepCounts(m, Finish(noise));
  }

  /** A tick takes exactly min(backlog, payloadSize - 1) bytes, counting writes that land inside it. */
  lemma {:induction false} TickTakes(s: Tx, draw: uint32, es: seq<Event>, m: Tx, noise: Bytes)
    requires Inv(s) && s.fill.Idle? && TickSoFar(es, draw)
    requires Run(s, es) == Some(m) && Enabled(m, Finish(noise))
    ensures SentOne(s, Step(m, Finish(noise)), PayloadSize(draw), Backlog(s) + |Concat(Writes(es))|)
  {
    MidTick(s, draw, es, m);
    RunKeepsInv(s, es);
    FinishTakes(s, m, noise);
  }

  /** Every tick of the run was offered either nothing or enough to fill its packet. */
  ghost predicate EveryTickFed(s: Tx, es: seq<Event>) {
    es == [] ||
    (EveryTickFed(s, es[..|es| - 1]) &&
     match Run(s, es[..|es| - 1])
     case None => true
     case Some(m) =>
       var offered := |InHand(m)| + Backlog(m);
       es[|es| - 1].Finish? && m.fill.Filling? ==> offered == 0 || offered >= m.fill.size - 1)
  }

  lemma {:induction false} FedMeansFull(s: Tx, es: seq<Event>, t: Tx)
    requires Inv(s) && s.packets == [] && Run(s, es) == Some(t)
    ensures EveryTickFed(s, es) <==> AllFull(t.packets)
  {
    if es == [] {
    } else {
      var es', e := es[..|es| - 1], es[|es| - 1];
      var m := Run(s, es').value;
      FedMeansFull(s, es', m);
      RunKeepsInv(s, es');
      if e.Finish? {
        FinishTakes(m, m, e.noise);
        var p := FinishAppends(m, e.noise);
        AllFullSnoc(m.packets, p);
      }
    }
  }

  /**
   The byte-stream promise, that at every moment the receiver has a prefix of what was written, holds
   throughout a run if and only if every tick found a backlog of zero or of at least payloadSize - 1
   bytes, counting the writes that land inside it.
   */
  lemma {:induction false} PrefixExactlyWhenFed(prefix: Bytes, seq0: uint16, ts0: uint32, es: seq<Event>)
    requires Start(prefix, seq0, ts0, es).Some?
    ensures AlwaysPrefix(Init(prefix, seq0, ts0), es) <==> EveryTickFed(Init(prefix, seq0, ts0), es)
  {
    PrefixExactlyWhenFull(prefix, seq0, ts0, es);
    FedMeansFull(Init(prefix, seq0, ts0), es, Start(prefix, seq0, ts0, es).value);
  }

  // ----- Draining and the destination prefix -----

  /** With no writes, k ticks move between 109k and 168k bytes, or the whole backlog. */
  lemma {:induction false} QuietTicks(s: Tx, es: seq<Event>, t: Tx)
    requires Inv(s) && s.fill.Idle? && Writes(es) == [] && Run(s, es) == Some(t)
    ensures |Taken(t.packets)| + |InHand(t)| + Backlog(t) == |Taken(s.packets)| + Backlog(s)
    ensures |Taken(t.packets)| - |Taken(s.packets)| <= 168 * Ticks(es)
    ensures |Taken(t.packets)| - |Taken(s.packets)| >= 109 * Ticks(es) || |InHand(t)| + Backlog(t) == 0
  {
    if es == [] {
    } else {
      var es', e := es[..|es| - 1], es[|es| - 1];
      var m := Run(s, es').value;
      QuietTicks(s, es', m);
      RunKeepsInv(s, es');
      StepCounts(m, e);
    }
  }

  /**
   A backlog of B bytes with no further writes is gone after k ticks whenever 109k >= B, and is not
   gone after k ticks whenever 168k < B.
   */
  lemma {:induction false} DrainTime(s: Tx, es: seq<Event>, t: Tx)
    requires Inv(s) && s.fill.Idle? && Writes(es) == [] && Run(s, es) == Some(t) && t.fill.Idle?
    ensures 109 * Ticks(es) >= Backlog(s) ==> Backlog(t) == 0
    ensures 168 * Ticks(es) < Backlog(s) ==> Backlog(t) > 0
  {
    QuietTicks(s, es, t);
  }

  /** Either no random byte was delivered yet, or the whole destination prefix was. */
  ghost predicate PrefixOrClean(prefix: Bytes, ps: seq<Packet>) {
    Received(ps) == Taken(ps) || (|Taken(ps)| >= |prefix| && prefix <= Received(ps))
  }

  lemma {:induction false} FinishKeepsPrefix(prefix: Bytes, m: Tx, noise: Bytes)
    requires Inv(m) && Enabled(m, Finish(noise)) && prefix <= m.written && PrefixOrClean(prefix, m.packets)
    ensures var t := Step(m, Finish(noise));
      && PrefixOrClean(prefix, t.packets)
      && (|Taken(t.packets)| >= |Taken(m.packets)| + 109 || |Taken(t.packets)| >= |prefix|)
      && |Taken(t.packets)| >= |Taken(m.packets)|
  {
    var t := Step(m, Finish(noise));
    var p := FinishAppends(m, noise);
    if Received(m.packets) == Taken(m.packets) {
      Assoc(Taken(m.packets), CallerBytes(p), FillBytes(p));
      if FillBytes(p) == [] {
        assert Received(t.packets) == Taken(t.packets);
      } else {
        assert prefix <= Taken(t.packets) <= Received(t.packets);
      }
    } else {
      assert prefix <= Received(m.packets) <= Received(t.packets);
    }
  }

  lemma {:induction false} PrefixProgress(prefix: Bytes, seq0: uint16, ts0: uint32, es: seq<Event>, t: Tx)
    requires Start(prefix, seq0, ts0, es) == Some(t)
    ensures PrefixOrClean(prefix, t.packets)
    ensures |Taken(t.packets)| >= 109 * Ticks(es) || |Taken(t.packets)| >= |prefix|
  {
    if es == [] {
    } else {
      var es', e := es[..|es| - 1], es[|es| - 1];
      var m := Run(Init(prefix, seq0, ts0), es').value;
      PrefixProgress(prefix, seq0, ts0, es', m);
      if e.Finish? {
        RunKeepsInv(Init(prefix, seq0, ts0), es');
        RunAppendsWrites(Init(prefix, seq0, ts0), es');
        FinishKeepsPrefix(prefix, m, e.noise);
      }
    }
  }

  lemma {:induction false} PrefixesOfOne(a: Bytes, x: Bytes, b: Bytes, y: Bytes)
    requires a + x == b + y
    ensures if |a| >= |b| then b <= a else a <= b
  {
    assert (a + x)[..|a|] == a && (b + y)[..|b|] == b;
  }

  /**
   The first bytes delivered are the destination prefix, whatever sizes are drawn, however many
   packets the prefix spans and whoever writes meanwhile; 109 of its bytes arrive per tick.
   */
  lemma {:induction false} DestinationFirst(prefix: Bytes, seq0: uint16, ts0: uint32, es: seq<Event>, t: Tx)
    requires Start(prefix, seq0, ts0, es) == Some(t)
    ensures prefix <= Received(t.packets) || Received(t.packets) <= prefix
    ensures 109 * Ticks(es) >= |prefix| ==> prefix <= Received(t.packets)
  {
    PrefixProgress(prefix, seq0, ts0, es, t);
    RunKeepsInv(Init(prefix, seq0, ts0), es);
    RunAppendsWrites(Init(prefix, seq0, ts0), es);
    if Received(t.packets) == Taken(t.packets) {
      PrefixesOfOne(Taken(t.packets), Held(t), prefix, Concat(Writes(es)));
    }
  }

  /** `pending` never outgrows the destination prefix and the largest single write. */
  lemma {:induction false} PendingBounded(prefix: Bytes, seq0: uint16, ts0: uint32, es: seq<Event>, t: Tx, bound: nat)
    requires Start(prefix, seq0, ts0, es) == Some(t)
    requires |prefix| <= bound && forall i :: 0 <= i < |es| && es[i].Write? ==> |es[i].chunk| <= bound
    ensures |t.pending| <= bound && forall i :: 0 <= i < |t.queue| ==> |t.queue[i]| <= bound
  {
    if es == [] {
    } else {
      var es', e := es[..|es| - 1], es[|es| - 1];
      var m := Run(Init(prefix, seq0, ts0), es').value;
      PendingBounded(prefix, seq0, ts0, es', m, bound);
      RunKeepsInv(Init(prefix, seq0, ts0), es');
    }
  }

  /** Packet k carries sequence number seq0 + k mod 2^16 and timestamp ts0 + 960k mod 2^32. */
  ghost predicate Clocked(seq0: uint16, ts0: uint32, t: Tx) {
    && t.seqNo == RtpClock.Number(seq0, |t.packets|)
    && t.ts == RtpClock.Stamp(ts0, 960, |t.packets|)
    && forall k :: 0 <= k < |t.packets| ==>
      t.packets[k].seqNo == RtpClock.Number(seq0, k) && t.packets[k].ts == RtpClock.Stamp(ts0, 960, k)
  }

  lemma {:induction false} FinishClocked(seq0: uint16, ts0: uint32, m: Tx, noise: Bytes)
    requires Clocked(seq0, ts0, m) && Enabled(m, Finish(noise))
    ensures Clocked(seq0, ts0, Step(m, Finish(noise)))
  {
    RtpClock.NextStamp(ts0, 960, |m.packets|);
    RtpClock.NextNumber(seq0, |m.packets|);
  }

  lemma {:induction false} RtpHeaders(prefix: Bytes, seq0: uint16, ts0: uint32, es: seq<Event>, t: Tx)
    requires Start(prefix, seq0, ts0, es) == Some(t)
    ensures |t.packets| == Ticks(es) && Clocked(seq0, ts0, t)
  {
    if es == [] {
    } else {
      var es', e := es[..|es| - 1], es[|es| - 1];
      var m := Run(Init(prefix, seq0, ts0), es').value;
      RtpHeaders(prefix, seq0, ts0, es', m);
      if e.Finish? {
        FinishClocked(seq0, ts0, m, e.noise);
      } else {
        assert t.packets == m.packets && t.seqNo == m.seqNo && t.ts == m.ts;
      }
    }
  }

  /** Two packets of a run share a timestamp exactly when they are a multiple of 2^26 apart. */
  lemma {:induction false} TimestampsRepeat(
      prefix: Bytes, seq0: uint16, ts0: uint32, es: seq<Event>, t: Tx, i: nat, j: nat)
    requires Start(prefix, seq0, ts0, es) == Some(t) && i < |t.packets| && j < |t.packets|
    ensures t.packets[i].ts == t.packets[j].ts <==> (i - j) % 0x400_0000 == 0
  {
    RtpHeaders(prefix, seq0, ts0, es, t);
    RtpClock.OpusPeriod(ts0, i, j);
  }

  /**
   Once the tick goroutine has returned nothing more is sent, and writers get at most as many chunks in
   as the queue has room for.
   */
  lemma {:induction false} AfterHalt(s: Tx, es: seq<Event>, t: Tx)
    requires s.fill.Halted? && |s.queue| <= QUEUE_CAP && Run(s, es) == Some(t)
    ensures t.packets == s.packets && t.fill == s.fill
    ensures |t.queue| == |s.queue| + |es| <= QUEUE_CAP
  {
    if es == [] {
    } else {
      AfterHalt(s, es[..|es| - 1], Run(s, es[..|es| - 1]).value);
    }
  }
}
