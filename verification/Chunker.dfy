/**
 The transmit half of the streaming chunker (`txLoop` and `Write` of pkg/lanturn) as a machine of
 atomic steps. Writers and the tick goroutine share only the queue, so a run is any interleaving of
 writes with the steps of a tick: the copy from `pending`, each dequeue, and the send.

 `packets` and `written` are history: what left the sender, and the destination prefix followed by
 every accepted write.
 */
module Chunker {
  import opened Common

  const QUEUE_CAP := 64
  const MIN_PAYLOAD := 110
  const MAX_PAYLOAD := 170
  const FLAG_DATA: byte := 0
  const FLAG_PADDING: byte := 1
  const OPUS_SAMPLES := 960

  /** A sent packet. `taken` (history, not on the wire) counts the caller bytes after the flag. */
  datatype Packet = Packet(seqNo: uint16, ts: uint32, payload: Bytes, taken: nat)

  /**
   Where the tick goroutine is: between ticks, building a packet (its size and the caller bytes copied
   so far), or returned, with the caller bytes of a packet that failed to go out.
   */
  datatype Fill = Idle | Filling(size: nat, body: Bytes) | Halted(lost: Bytes)

  datatype Tx = Tx(pending: Bytes, queue: seq<Bytes>, fill: Fill, seqNo: uint16, ts: uint32,
                   packets: seq<Packet>, written: Bytes)

  datatype Event =
    | Write(chunk: Bytes)     // a Write whose send on the queue went through
    | Begin(draw: uint32)     // ticker fires: draw a size, copy from pending
    | Dequeue                 // one iteration of the drain loop
    | Finish(noise: Bytes)    // the loop test fails: random tail, send, advance the RTP clock
    | Halt                    // cancelled between ticks, or encrypting or sending the packet failed

  function Init(prefix: Bytes, seq0: uint16, ts0: uint32): Tx {
    Tx(prefix, [], Idle, seq0, ts0, [], prefix)
  }

  function PayloadSize(draw: uint32): (n: nat)
    ensures 110 <= n <= 169
  {
    MIN_PAYLOAD + draw % (MAX_PAYLOAD - MIN_PAYLOAD)
  }

  /** Every size from 110 to 169 is drawn, each by one residue modulo 60. */
  lemma {:induction false} SizesDrawn(draw: uint32, n: nat)
    requires 110 <= n <= 169
    ensures PayloadSize(n - 110) == n && (PayloadSize(draw) == n <==> (draw - (n - 110)) % 60 == 0)
  {
  }

  /** The drain loop has ended: the packet is full or the queue empty. */
  ghost predicate Drained(s: Tx) {
    s.fill.Filling? && (|s.fill.body| >= s.fill.size - 1 || s.queue == [])
  }

  ghost predicate Enabled(s: Tx, e: Event) {
    match e
    case Write(_) => |s.queue| < QUEUE_CAP
    case Begin(_) => s.fill.Idle?
    case Dequeue => s.fill.Filling? && |s.fill.body| < s.fill.size - 1 && s.queue != []
    case Finish(noise) => Drained(s) && |s.fill.body| + |noise| == s.fill.size - 1
    case Halt => s.fill.Idle? || Drained(s)
  }

  ghost function InHand(s: Tx): Bytes {
    match s.fill
    case Idle => []
    case Filling(_, body) => body
    case Halted(lost) => lost
  }

  ghost function Step(s: Tx, e: Event): Tx
    requires Enabled(s, e)
  {
    match e
    case Write(chunk) =>
      s.(queue := s.queue + [chunk], written := s.written + chunk)
    case Begin(draw) =>
      var size := PayloadSize(draw);
      var n := Min(size - 1, |s.pending|);
      s.(fill := Filling(size, s.pending[..n]), pending := s.pending[n..])
    case Dequeue =>
      var chunk := s.queue[0];
      var wrote := Min(s.fill.size - 1 - |s.fill.body|, |chunk|);
      s.(fill := Filling(s.fill.size, s.fill.body + chunk[..wrote]),
         pending := s.pending + chunk[wrote..],
         queue := s.queue[1..])
    case Finish(noise) =>
      var n := |s.fill.body|;
      var flag := if n == 0 then FLAG_PADDING else FLAG_DATA;
      var p := Packet(s.seqNo, s.ts, [flag] + s.fill.body + noise, n);
      s.(fill := Idle, packets := s.packets + [p],
         seqNo := (s.seqNo + 1) % 0x1_0000, ts := (s.ts + OPUS_SAMPLES) % 0x1_0000_0000)
    case Halt => s.(fill := Halted(InHand(s)))
  }

  /** The state after a list of events, or None when some event was not enabled. */
  ghost function Run(s: Tx, es: seq<Event>): Option<Tx> {
    if es == [] then Some(s)
    else
      match Run(s, es[..|es| - 1])
      case None => None
      case Some(m) =>
        if Enabled(m, es[|es| - 1]) then Some(Step(m, es[|es| - 1])) else None
  }

  lemma {:induction false} RunSnoc(s: Tx, es: seq<Event>, e: Event)
    requires Run(s, es).Some? && Enabled(Run(s, es).value, e)
    ensures Run(s, es + [e]) == Some(Step(Run(s, es).value, e))
  {
    assert (es + [e])[..|es|] == es;
  }

  /** Runs compose. */
  lemma {:induction false} RunAppend(s: Tx, xs: seq<Event>, ys: seq<Event>)
    requires Run(s, xs).Some?
    ensures Run(s, xs + ys) == Run(Run(s, xs).value, ys)
  {
    if ys == [] {
      assert xs + ys == xs;
    } else {
      RunAppend(s, xs, ys[..|ys| - 1]);
      assert (xs + ys)[..|xs + ys| - 1] == xs + ys[..|ys| - 1];
    }
  }

  // ----- What is on the wire and what the receiver makes of it -----

  /** Caller bytes carried by a packet. */
  ghost function CallerBytes(p: Packet): Bytes {
    if p.taken < |p.payload| then p.payload[1..1 + p.taken] else []
  }

  ghost function Taken(ps: seq<Packet>): Bytes {
    if ps == [] then [] else Taken(ps[..|ps| - 1]) + CallerBytes(ps[|ps| - 1])
  }

  /** `rxLoop`'s treatment of one decrypted payload: data packets are delivered without the flag. */
  function Delivered(payload: Bytes): Bytes {
    if |payload| >= 1 && payload[0] == FLAG_DATA then payload[1..] else []
  }

  ghost function Received(ps: seq<Packet>): Bytes {
    if ps == [] then [] else Received(ps[..|ps| - 1]) + Delivered(ps[|ps| - 1].payload)
  }

  /** A data packet whose tail is random bytes. */
  ghost predicate UnderFilled(p: Packet) {
    p.taken > 0 && p.taken < |p.payload| - 1
  }

  ghost predicate AllFull(ps: seq<Packet>) {
    forall i :: 0 <= i < |ps| ==> !UnderFilled(ps[i])
  }

  /** Random bytes inside data packets: payloadSize - 1 - n for each under-filled one. */
  ghost function Overrun(ps: seq<Packet>): nat {
    if ps == [] then 0
    else
      var p := ps[|ps| - 1];
      Overrun(ps[..|ps| - 1]) + if UnderFilled(p) then |p.payload| - 1 - p.taken else 0
  }

  function Backlog(s: Tx): nat {
    |s.pending| + |Concat(s.queue)|
  }

  ghost predicate WellFormed(p: Packet) {
    && 110 <= |p.payload| <= 169
    && p.taken < |p.payload|
    && p.payload[0] == (if p.taken == 0 then 1 else 0)
  }

  /** Accepted bytes that have not left the sender: packet under construction, `pending`, queue. */
  ghost function Held(s: Tx): Bytes {
    InHand(s) + s.pending + Concat(s.queue)
  }

  /** What every step keeps. */
  ghost predicate Inv(s: Tx) {
    && |s.queue| <= 64
    && (forall i :: 0 <= i < |s.packets| ==> WellFormed(s.packets[i]))
    && (s.fill.Filling? ==>
          && 110 <= s.fill.size <= 169
          && |s.fill.body| <= s.fill.size - 1
          && (|s.fill.body| < s.fill.size - 1 ==> s.pending == []))
    && Taken(s.packets) + Held(s) == s.written
  }

  lemma {:induction false} WriteKeepsInv(s: Tx, chunk: Bytes)
    requires Inv(s) && Enabled(s, Write(chunk))
    ensures Inv(Step(s, Write(chunk)))
  {
    ConcatSnoc(s.queue, chunk);
    Assoc(InHand(s) + s.pending, Concat(s.queue), chunk);
    Assoc(Taken(s.packets), Held(s), chunk);
  }

  lemma {:induction false} BeginKeepsInv(s: Tx, draw: uint32)
    requires Inv(s) && Enabled(s, Begin(draw))
    ensures Inv(Step(s, Begin(draw)))
  {
    var t := Step(s, Begin(draw));
    assert InHand(t) + t.pending == InHand(s) + s.pending;
  }

  /** A chunk split at k goes half to the packet and half to `pending`: the byte order is unchanged. */
  lemma {:induction false} SplitInPlace(body: Bytes, chunk: Bytes, k: nat, rest: Bytes)
    requires k <= |chunk|
    ensures (body + chunk[..k]) + ([] + chunk[k..]) + rest == body + [] + (chunk + rest)
  {
    assert chunk == chunk[..k] + chunk[k..];
  }

  lemma {:induction false} DequeueKeepsInv(s: Tx)
    requires Inv(s) && Enabled(s, Dequeue)
    ensures Inv(Step(s, Dequeue)) && Held(Step(s, Dequeue)) == Held(s)
  {
    var chunk := s.queue[0];
    var wrote := Min(s.fill.size - 1 - |s.fill.body|, |chunk|);
    SplitInPlace(s.fill.body, chunk, wrote, Concat(s.queue[1..]));
  }

  lemma {:induction false} FinishMovesBody(s: Tx, noise: Bytes)
    requires Inv(s) && Enabled(s, Finish(noise))
    ensures var t := Step(s, Finish(noise)); Held(s) == s.fill.body + Held(t)
  {
    var t := Step(s, Finish(noise));
    assert InHand(t) + t.pending == s.pending;
    Assoc(s.fill.body, s.pending, Concat(s.queue));
  }

  lemma {:induction false} FinishKeepsInv(s: Tx, noise: Bytes)
    requires Inv(s) && Enabled(s, Finish(noise))
    ensures Inv(Step(s, Finish(noise)))
  {
    var t := Step(s, Finish(noise));
    var p := t.packets[|s.packets|];
    assert t.packets[..|s.packets|] == s.packets;
    assert CallerBytes(p) == s.fill.body;
    FinishMovesBody(s, noise);
    Assoc(Taken(s.packets), s.fill.body, Held(t));
  }

  lemma {:induction false} StepKeepsInv(s: Tx, e: Event)
    requires Inv(s) && Enabled(s, e)
    ensures Inv(Step(s, e))
  {
    match e
    case Write(chunk) => WriteKeepsInv(s, chunk);
    case Begin(draw) => BeginKeepsInv(s, draw);
    case Dequeue => DequeueKeepsInv(s);
    case Finish(noise) => FinishKeepsInv(s, noise);
    case Halt =>
  }
}
