/**
 The chunker as the code has it: a transmit loop that fills a payload buffer in place, a byte pipe,
 and the receive loop that feeds it. `Tick` is proved to take exactly the steps of module Chunker.
 clientConn and serverConn run the same two loops; they differ in the destination prefix (the server
 has none) and in how the copy offset is spelt.
 */
module ChunkerConn {
  import opened Common
  import opened Chunker
  import opened ChunkerRuns

  datatype WriteResult = Accepted(n: nat) | Blocked | ClosedPipe

  /** Sets the flag of a packet holding n caller bytes and fills its tail. */
  method Seal(payload: array<byte>, n: nat, tail: Bytes)
    requires 1 + n + |tail| == payload.Length && payload[0] == FLAG_DATA
    modifies payload
    ensures payload[..] == [if n == 0 then FLAG_PADDING else FLAG_DATA] + old(payload[1..1 + n]) + tail
  {
    if n == 0 {
      payload[0] := FLAG_PADDING;
    }
    var m := Copy(payload, 1 + n, tail);
    assert tail[..m] == tail;
  }

  /** `copy` of a chunk behind the n bytes already in the payload. */
  method CopyChunk(payload: array<byte>, n: nat, needed: nat, chunk: Bytes) returns (wrote: nat)
    requires 1 + n + needed == payload.Length
    modifies payload
    ensures wrote == Min(needed, |chunk|) && payload[0] == old(payload[0])
    ensures payload[1..1 + n + wrote] == old(payload[1..1 + n]) + chunk[..wrote]
  {
    var payloadSize := payload.Length;
    var offset := 1 + n + (payloadSize - 1 - needed - n);  // clientConn's spelling
    assert offset == 1 + n;                                // serverConn's spelling
    wrote := Copy(payload, offset, chunk);
  }

  /** What the loop's select sees: cancellation, or the ticker with everything that happens in one tick. */
  datatype Wakeup =
    | Cancelled
    | Ticked(draw: uint32, noise: Bytes, arrivals: seq<seq<Bytes>>, sendOk: bool)

  lemma {:induction false} Dequeued(s: Tx, wrote: nat)
    requires Inv(s) && Enabled(s, Dequeue) && wrote == Min(s.fill.size - 1 - |s.fill.body|, |s.queue[0]|)
    ensures var t, chunk := Step(s, Dequeue), s.queue[0];
      && Inv(t) && t.seqNo == s.seqNo && t.ts == s.ts && t.queue == s.queue[1..]
      && t.fill == Filling(s.fill.size, s.fill.body + chunk[..wrote])
      && t.pending == if wrote < |chunk| then s.pending + chunk[wrote..] else s.pending
  {
    StepKeepsInv(s, Dequeue);
    assert wrote == |s.queue[0]| ==> s.pending + s.queue[0][wrote..] == s.pending;
  }

  lemma {:induction false} Extend(start: Tx, draw: uint32, es: seq<Event>, s: Tx, e: Event)
    requires Run(start, es) == Some(s) && Inv(s) && Enabled(s, e)
    requires TickSoFar(es, draw) && (e.Write? || e.Dequeue?)
    ensures Run(start, es + [e]) == Some(Step(s, e)) && Inv(Step(s, e)) && TickSoFar(es + [e], draw)
  {
    RunSnoc(start, es, e);
    StepKeepsInv(s, e);
  }

  lemma {:induction false} RunOne(s: Tx, e: Event)
    requires Inv(s) && Enabled(s, e)
    ensures Run(s, [e]) == Some(Step(s, e)) && Inv(Step(s, e))
  {
    RunSnoc(s, [], e);
    assert [] + [e] == [e];
    StepKeepsInv(s, e);
  }

  lemma {:induction false} JoinRuns(origin: Tx, before: seq<Event>, s: Tx, es: seq<Event>, m: Tx, e: Event)
    requires Run(origin, before) == Some(s) && Run(s, es) == Some(m) && Enabled(m, e)
    ensures Run(origin, before + (es + [e])) == Some(Step(m, e))
  {
    RunSnoc(s, es, e);
    RunAppend(origin, before, es + [e]);
  }

  /**
   The last packet is `payload`: its flag (1 for padding, 0 for data), its caller bytes and a tail that
   is exactly the leading bytes of `noise`.
   */
  ghost predicate SentWith(t: Tx, payload: Bytes, noise: Bytes, tail: Bytes) {
    && t.packets != [] && var p := t.packets[|t.packets| - 1];
    && p.payload == payload && 1 + p.taken + |tail| == |payload| && |tail| <= |noise| && tail == noise[..|tail|]
    && payload == [if p.taken == 0 then 1 else 0] + CallerBytes(p) + tail
  }

  lemma {:induction false} FinishSends(m: Tx, tail: Bytes)
    requires Inv(m) && Enabled(m, Finish(tail))
    ensures var t := Step(m, Finish(tail));
      Inv(t) && SentWith(t, [if m.fill.body == [] then 1 else 0] + m.fill.body + tail, tail, tail)
  {
    StepKeepsInv(m, Finish(tail));
    var t := Step(m, Finish(tail));
    var p := t.packets[|m.packets|];
    assert CallerBytes(p) == m.fill.body;
    assert tail[..|tail|] == tail;
  }

  /** A queue after k writers have tried: it takes their chunks in order until 64 wait. */
  function Admitted(queue: seq<Bytes>, chunks: seq<Bytes>, k: nat): seq<Bytes>
    requires k <= |chunks| && |queue| <= 64
  {
    queue + chunks[..Min(k, 64 - |queue|)]
  }

  lemma {:induction false} OneMoreAdmitted(queue: seq<Bytes>, chunks: seq<Bytes>, k: nat)
    requires k < |chunks| && |queue| <= 64
    ensures var q := Admitted(queue, chunks, k);
      Admitted(queue, chunks, k + 1) == q + if |q| < 64 then [chunks[k]] else []
  {
    assert chunks[..k] + [chunks[k]] == chunks[..k + 1];
  }

  class TxLoop {
    var pending: Bytes
    var writeBuf: seq<Bytes>
    var seqNo: uint16
    var ts: uint32
    var done: bool                    // the context has been cancelled
    ghost const origin: Tx
    ghost var st: Tx                  // the machine state these fields stand for
    ghost var history: seq<Event>     // every step since the connection was made

    ghost predicate Coupled()
      reads this
    {
      Inv(st) && st.pending == pending && st.queue == writeBuf && st.seqNo == seqNo && st.ts == ts
    }

    /** `history` leads to the state the fields stand for, so whatever holds of runs holds of the object. */
    ghost predicate Valid()
      reads this
    {
      Coupled() && Run(origin, history) == Some(st)
    }

    constructor (prefix: Bytes, seq0: uint16, ts0: uint32)
      ensures Valid() && origin == Init(prefix, seq0, ts0) && history == [] && !done
    {
      pending, writeBuf, seqNo, ts, done := prefix, [], seq0, ts0, false;
      origin, st, history := Init(prefix, seq0, ts0), Init(prefix, seq0, ts0), [];
    }

    /** `preferDone` resolves the select when both cases are ready. */
    method Write(p: Bytes, preferDone: bool) returns (r: WriteResult)
      requires Valid()
      modifies this`writeBuf, this`st, this`history
      ensures Valid()
      ensures r.Accepted? ==>
        r.n == |p| && writeBuf == old(writeBuf) + [p] && history == old(history) + [Event.Write(p)]
      ensures !r.Accepted? ==> writeBuf == old(writeBuf) && history == old(history)
      ensures r.Blocked? <==> !done && |old(writeBuf)| == 64
      ensures r.ClosedPipe? <==> done && (preferDone || |old(writeBuf)| == 64)
    {
      if done && (preferDone || |writeBuf| == QUEUE_CAP) {
        return ClosedPipe;
      }
      if |writeBuf| == QUEUE_CAP {
        return Blocked;
      }
      RunSnoc(origin, history, Event.Write(p));
      StepKeepsInv(st, Event.Write(p));
      writeBuf, st, history := writeBuf + [p], Step(st, Event.Write(p)), history + [Event.Write(p)];
      return Accepted(|p|);
    }

    /** Close, or the caller's own cancellation. */
    method Cancel()
      requires Valid()
      modifies this`done
      ensures Valid() && done
    {
      done := true;
    }

    /** A writer that tries while the tick is at one point of its loop: it gets through if there is room. */
    method Admit(chunk: Bytes, ghost start: Tx, ghost draw: uint32, ghost es0: seq<Event>)
      returns (ghost es: seq<Event>)
      requires Coupled() && Run(start, es0) == Some(st) && TickSoFar(es0, draw)
      modifies this`writeBuf, this`st
      ensures Coupled() && Run(start, es) == Some(st) && TickSoFar(es, draw) && st.fill == old(st.fill)
      ensures writeBuf == old(writeBuf) + if |old(writeBuf)| < 64 then [chunk] else []
    {
      es := es0;
      if |writeBuf| < QUEUE_CAP {
        Extend(start, draw, es, st, Event.Write(chunk));
        es := es + [Event.Write(chunk)];
        writeBuf, st := writeBuf + [chunk], Step(st, Event.Write(chunk));
      }
    }

    method Arrivals(chunks: seq<Bytes>, ghost start: Tx, ghost draw: uint32, ghost es0: seq<Event>)
      returns (ghost es: seq<Event>)
      requires Coupled() && Run(start, es0) == Some(st) && TickSoFar(es0, draw)
      modifies this`writeBuf, this`st
      ensures Coupled() && Run(start, es) == Some(st) && TickSoFar(es, draw) && st.fill == old(st.fill)
      ensures writeBuf == Admitted(old(writeBuf), chunks, |chunks|)
    {
      es := es0;
      for k := 0 to |chunks|
        invariant Coupled() && Run(start, es) == Some(st) && TickSoFar(es, draw) && st.fill == old(st.fill)
        invariant writeBuf == Admitted(old(writeBuf), chunks, k)
      {
        es := Admit(chunks[k], start, draw, es);
        OneMoreAdmitted(old(writeBuf), chunks, k);
      }
    }

    /** The locals of a tick agree with the packet under construction. */
    ghost predicate Building(payload: array<byte>, n: int, needed: int)
      reads this, payload
    {
      && st.fill.Filling? && payload.Length == st.fill.size
      && 0 <= n < payload.Length && needed == payload.Length - 1 - n
      && payload[0] == FLAG_DATA && payload[1..1 + n] == st.fill.body
    }

    method StartPacket(draw: uint32) returns (payload: array<byte>, n: nat, needed: nat)
      requires Coupled() && st.fill.Idle?
      modifies this`pending, this`st
      ensures Coupled() && st == Step(old(st), Begin(draw))
      ensures fresh(payload) && Building(payload, n, needed)
    {
      var payloadSize := PayloadSize(draw);
      payload := new byte[payloadSize](_ => 0);
      needed := payloadSize - 1;
      payload[0] := FLAG_DATA;
      n := Copy(payload, 1, pending);
      assert payload[1..1 + n] == pending[..n];
      pending := pending[n..];
      needed := needed - n;
      StepKeepsInv(st, Begin(draw));
      st := Step(st, Begin(draw));
    }

    /** One iteration of the drain loop. */
    method TakeChunk(payload: array<byte>, n0: nat, needed0: nat) returns (n: nat, needed: nat)
      requires Coupled() && Building(payload, n0, needed0) && needed0 > 0 && |writeBuf| > 0
      modifies this`pending, this`writeBuf, this`st, payload
      ensures Coupled() && Enabled(old(st), Dequeue) && st == Step(old(st), Dequeue)
      ensures Building(payload, n, needed)
    {
      var chunk := writeBuf[0];
      writeBuf := writeBuf[1..];
      var wrote := CopyChunk(payload, n0, needed0, chunk);
      if wrote < |chunk| {
        pending := pending + chunk[wrote..];
        needed := 0;
      } else {
        needed := needed0 - wrote;
      }
      n := n0 + wrote;
      Dequeued(st, wrote);
      st := Step(st, Dequeue);
    }

    /** The drain loop; `arrivals[j]` get through just before its test is evaluated for the j-th time. */
    method Drain(payload: array<byte>, n0: nat, needed0: nat, arrivals: seq<seq<Bytes>>,
                 ghost start: Tx, ghost draw: uint32) returns (n: nat, needed: nat, ghost es: seq<Event>)
      requires Coupled() && Run(start, [Begin(draw)]) == Some(st) && Building(payload, n0, needed0)
      modifies this`pending, this`writeBuf, this`st, payload
      ensures Coupled() && Run(start, es) == Some(st) && TickSoFar(es, draw)
      ensures Building(payload, n, needed) && (needed == 0 || writeBuf == [])
    {
      n, needed := n0, needed0;
      var j := 0;
      es := [Begin(draw)];
      if j < |arrivals| {
        es := Arrivals(arrivals[j], start, draw, es);
      }
      while needed > 0 && |writeBuf| > 0
        invariant 0 <= j
        invariant Coupled() && Run(start, es) == Some(st) && TickSoFar(es, draw)
        invariant Building(payload, n, needed)
        decreases Max(|arrivals| - j, 0), |writeBuf|
      {
        ghost var before := st;
        n, needed := TakeChunk(payload, n, needed);
        Extend(start, draw, es, before, Dequeue);
        es := es + [Dequeue];
        j := j + 1;
        if j < |arrivals| {
          es := Arrivals(arrivals[j], start, draw, es);
        }
      }
    }

    /** What follows the drain loop when encrypting and sending succeed. */
    method Send(payload: array<byte>, n: nat, tail: Bytes)
      requires Coupled() && Building(payload, n, |tail|) && (tail == [] || writeBuf == [])
      modifies this`seqNo, this`ts, this`st, payload
      ensures Coupled() && Enabled(old(st), Finish(tail)) && st == Step(old(st), Finish(tail))
      ensures SentWith(st, payload[..], tail, tail)
    {
      ghost var m, e := st, Finish(tail);
      Seal(payload, n, tail);
      FinishSends(m, tail);
      seqNo, ts := (seqNo + 1) % 0x1_0000, (ts + OPUS_SAMPLES) % 0x1_0000_0000;
      st := Step(m, e);
    }

    /** The end of a tick: the packet is sent, or encrypting or sending it fails and the loop returns. */
    method SendOrHalt(payload: array<byte>, n: nat, tail: Bytes, sendOk: bool) returns (ghost last: Event)
      requires Coupled() && Building(payload, n, |tail|) && (tail == [] || writeBuf == [])
      modifies this`seqNo, this`ts, this`st, payload
      ensures Coupled() && last == (if sendOk then Finish(tail) else Halt)
      ensures Enabled(old(st), last) && st == Step(old(st), last)
      ensures sendOk ==> SentWith(st, payload[..], tail, tail)
    {
      if sendOk {
        last := Finish(tail);
        Send(payload, n, tail);
      } else {
        last := Halt;
        StepKeepsInv(st, Halt);
        st := Step(st, Halt);
      }
    }

    /** The body of a ticker event, before the history is written. */
    method TickSteps(draw: uint32, noise: Bytes, arrivals: seq<seq<Bytes>>, sendOk: bool)
      returns (payload: array<byte>, ghost es: seq<Event>, ghost m: Tx, ghost last: Event)
      requires Coupled() && st.fill.Idle? && |noise| == MAX_PAYLOAD
      modifies this`pending, this`writeBuf, this`seqNo, this`ts, this`st
      ensures Coupled() && fresh(payload)
      ensures Run(old(st), es) == Some(m) && TickSoFar(es, draw) && Enabled(m, last) && st == Step(m, last)
      ensures if sendOk then last.Finish? && SentWith(st, payload[..], noise, last.noise) else last == Halt
    {
      ghost var start := st;
      var n, needed;
      payload, n, needed := StartPacket(draw);
      RunOne(start, Begin(draw));
      n, needed, es := Drain(payload, n, needed, arrivals, start, draw);
      m := st;
      last := SendOrHalt(payload, n, noise[..needed], sendOk);
    }

    /**
     One ticker event. `noise` is what rand.Read would return, `sendOk` whether encrypting and sending
     succeed. The tick appends to the history a Begin, steps of the drain loop and of writers, and the
     send; on an error the loop returns and the packet's caller bytes are lost.
     */
    method Tick(draw: uint32, noise: Bytes, arrivals: seq<seq<Bytes>>, sendOk: bool)
      returns (payload: array<byte>, ghost es: seq<Event>, ghost last: Event)
      requires Valid() && st.fill.Idle? && |noise| == MAX_PAYLOAD
      modifies this`pending, this`writeBuf, this`seqNo, this`ts, this`st, this`history
      ensures Valid() && fresh(payload)
      ensures history == old(history) + (es + [last]) && TickSoFar(es, draw)
      ensures if sendOk then last.Finish? && st.fill.Idle? else last == Halt && st.fill.Halted?
      ensures sendOk ==> SentWith(st, payload[..], noise, last.noise)
    {
      ghost var start := st;
      ghost var m;
      payload, es, m, last := TickSteps(draw, noise, arrivals, sendOk);
      JoinRuns(origin, history, start, es, m, last);
      history := history + (es + [last]);
    }

    /** One round of the goroutine's select; false when it returns. The history grows by what the round did. */
    method Wake(w: Wakeup) returns (awake: bool, ghost es: seq<Event>, ghost last: Event)
      requires Valid() && st.fill.Idle? && if w.Ticked? then |w.noise| == MAX_PAYLOAD else done
      modifies this`pending, this`writeBuf, this`seqNo, this`ts, this`st, this`history
      ensures Valid() && history == old(history) + (es + [last])
      ensures awake <==> w.Ticked? && w.sendOk
      ensures if w.Ticked? then TickSoFar(es, w.draw) else es == []
      ensures if awake then last.Finish? && st.fill.Idle? else last == Halt && st.fill.Halted?
      ensures awake ==> exists payload :: SentWith(st, payload, w.noise, last.noise)
    {
      match w {
        case Cancelled =>
          RunSnoc(origin, history, Halt);
          es, last := [], Halt;
          assert es + [last] == [Halt];
          st, history := Step(st, Halt), history + (es + [last]);
          return false, es, last;
        case Ticked(draw, noise, arrivals, sendOk) =>
          var payload;
          payload, es, last := Tick(draw, noise, arrivals, sendOk);
          return sendOk, es, last;
      }
    }
  }

  lemma {:induction false} BeforeLast(s: Tx, es: seq<Event>, e: Event)
    requires Run(s, es + [e]).Some?
    ensures Run(s, es).Some? && Enabled(Run(s, es).value, e) && Run(s, es + [e]).value == Step(Run(s, es).value, e)
  {
    assert (es + [e])[..|es|] == es;
  }

  /** What a successful Tick took, from the history it appended: TickTakes for the object. */
  lemma {:induction false} ObjectTick(
      origin: Tx, before: seq<Event>, draw: uint32, es: seq<Event>, tail: Bytes, s: Tx, t: Tx)
    requires Run(origin, before) == Some(s) && Inv(s) && s.fill.Idle? && TickSoFar(es, draw)
    requires Run(origin, before + (es + [Finish(tail)])) == Some(t)
    ensures SentOne(s, t, PayloadSize(draw), Backlog(s) + |Concat(Writes(es))|)
  {
    RunAppend(origin, before, es + [Finish(tail)]);
    BeforeLast(s, es, Finish(tail));
    TickTakes(s, draw, es, Run(s, es).value, tail);
  }

  /** The chunker theorems hold of a connection after any sequence of calls on it. */
  lemma {:induction false} ObjectKeepsPromises(tx: TxLoop, prefix: Bytes, seq0: uint16, ts0: uint32)
    requires tx.Valid() && tx.origin == Init(prefix, seq0, ts0)
    ensures Taken(tx.st.packets) + Held(tx.st) == prefix + Concat(Writes(tx.history))
    ensures AlwaysPrefix(tx.origin, tx.history) <==> EveryTickFed(tx.origin, tx.history)
    ensures prefix <= Received(tx.st.packets) || Received(tx.st.packets) <= prefix
  {
    Conservation(prefix, seq0, ts0, tx.history, tx.st);
    PrefixExactlyWhenFed(prefix, seq0, ts0, tx.history);
    DestinationFirst(prefix, seq0, ts0, tx.history, tx.st);
  }
}
