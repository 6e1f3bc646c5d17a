/**
 streamWithMimicry of cmd/lanturn-phase3: keyframe budgets, DTX, the RTP clock and pacing. One `Draw`
 holds the random numbers and the clock comparison of one packet; a run is a list of them. Times are
 in nanoseconds.
 */
module Mimicry {
  import opened Common
  import RtpClock

  datatype SizeRange = SizeRange(min: nat, max: nat)

  function Sample(r: SizeRange, draw: uint32): (n: nat)
    ensures r.min <= n <= Max(r.min, r.max)
  {
    if r.max <= r.min then r.min else r.min + draw % (r.max - r.min + 1)
  }

  datatype Profile = Profile(payloadType: nat, clockRate: nat, activePPS: nat, activeSize: SizeRange,
                             hasKeyframes: bool, keyframeEvery: SizeRange, keyframeSize: SizeRange,
                             hasDTX: bool, dtxPPS: nat, dtxSize: SizeRange)

  const NONE := SizeRange(0, 0)
  const OPUS_AUDIO := Profile(111, 48000, 50, SizeRange(110, 170), false, NONE, NONE, true, 1, SizeRange(5, 12))
  const VP8_VIDEO :=
    Profile(96, 90000, 30, SizeRange(200, 800), true, SizeRange(60, 150), SizeRange(1000, 1300), false, 0, NONE)
  const VP9_VIDEO :=
    Profile(98, 90000, 30, SizeRange(150, 700), true, SizeRange(90, 180), SizeRange(900, 1200), false, 0, NONE)
  const SCREEN_SHARE :=
    Profile(96, 90000, 10, SizeRange(50, 200), true, SizeRange(30, 90), SizeRange(1100, 1300), false, 0, NONE)

  /** `wireLen` is the length of the encrypted packet; the last fields are those of the report and the sleep. */
  datatype Draw = Draw(stateDue: bool, flip: uint32, size: uint32, keySize: uint32, nextBudget: uint32,
                       sendOk: bool, wireLen: nat, reportDue: bool, reportOk: bool, jitter: uint32)

  datatype Sent = Sent(size: nat, keyframe: bool, quiet: bool, seqNo: uint16, ts: uint32)

  /** An RTCP sender report. */
  datatype Report = Report(rtpTime: uint32, packetCount: uint32, octetCount: uint32)

  datatype Stream = Stream(dtx: bool, sinceKeyframe: nat, budget: nat, keyframes: nat, stateChanges: nat,
                           ts0: uint32, seqNo: uint16, ts: uint32, bytesSent: nat, totalSleep: nat,
                           sent: seq<Sent>, reports: seq<Report>)

  datatype Stats = Stats(srtpSent: nat, srtcpSent: nat, keyframes: nat, bytesSent: nat, stateChanges: nat, avgIPI: nat)

  const SECOND := 1_000_000_000
  const JITTER := 1_500_000

  /** time.Second divided by packets per second, cut to whole nanoseconds. */
  function Interval(pps: nat): nat {
    if pps == 0 then 0 else SECOND / pps
  }

  function Sleep(base: nat, jitter: uint32): nat {
    Max(0, base + (jitter % 3001 - 1500) * 1000)
  }

  function TsIncrement(p: Profile): nat {
    if p.activePPS == 0 then 0 else p.clockRate / p.activePPS
  }

  function BaseIPI(p: Profile, quiet: bool): nat {
    Interval(if quiet then p.dtxPPS else p.activePPS)
  }

  function Begin(p: Profile, budgetDraw: uint32, seq0: uint16, ts0: uint32): Stream {
    var budget := if p.hasKeyframes then Sample(p.keyframeEvery, budgetDraw) else 0;
    Stream(false, budget, budget, 0, 0, ts0, seq0, ts0, 0, 0, [], [])
  }

  function NextState(p: Profile, dtx: bool, d: Draw): bool {
    if p.hasDTX && d.stateDue then (if dtx then d.flip % 100 >= 70 else d.flip % 100 < 30) else dtx
  }

  /** The next packet, as it is built. */
  function Packet(p: Profile, s: Stream, d: Draw): Sent {
    var quiet := p.hasDTX && NextState(p, s.dtx, d);
    var key := !quiet && p.hasKeyframes && s.sinceKeyframe >= s.budget;
    var size :=
      if quiet then Sample(p.dtxSize, d.size)
      else if key then Sample(p.keyframeSize, d.keySize)
      else Sample(p.activeSize, d.size);
    Sent(size, key, quiet, s.seqNo, s.ts)
  }

  /** The stream once the next packet is built and before it is sent. */
  function Prepared(p: Profile, s: Stream, d: Draw): Stream {
    var pkt := Packet(p, s, d);
    s.(dtx := NextState(p, s.dtx, d),
       stateChanges := s.stateChanges + if p.hasDTX && d.stateDue then 1 else 0,
       sinceKeyframe := if pkt.keyframe then 0
                        else if !pkt.quiet && p.hasKeyframes then s.sinceKeyframe + 1
                        else s.sinceKeyframe,
       budget := if pkt.keyframe then Sample(p.keyframeEvery, d.nextBudget) else s.budget,
       keyframes := s.keyframes + if pkt.keyframe then 1 else 0)
  }

  function ReportAt(ts0: uint32, packets: nat, bytes: nat): Report {
    Report(ts0, packets % 0x1_0000_0000, bytes % 0x1_0000_0000)
  }

  /** One round of the loop in which the packet is sent. */
  function Step(p: Profile, s: Stream, d: Draw): Stream {
    var pkt, bytes := Packet(p, s, d), s.bytesSent + d.wireLen;
    Prepared(p, s, d).(
      seqNo := (s.seqNo + 1) % 0x1_0000,
      ts := (s.ts + TsIncrement(p)) % 0x1_0000_0000,
      bytesSent := bytes,
      totalSleep := s.totalSleep + Sleep(BaseIPI(p, pkt.quiet), d.jitter),
      sent := s.sent + [pkt],
      reports := s.reports + if d.reportDue && d.reportOk then [ReportAt(s.ts0, |s.sent| + 1, bytes)] else [])
  }

  function Run(p: Profile, s: Stream, ds: seq<Draw>): Stream {
    if ds == [] then s else Step(p, Run(p, s, ds[..|ds| - 1]), ds[|ds| - 1])
  }

  /** The rounds before the first send that fails. */
  function Sends(ds: seq<Draw>): (n: nat)
    ensures n <= |ds|
  {
    if ds == [] || !ds[0].sendOk then 0 else 1 + Sends(ds[1..])
  }

  /** Where the loop ends: at the deadline, or at a failed send with its packet built and not counted. */
  function Outcome(p: Profile, s: Stream, ds: seq<Draw>): Stream {
    var n := Sends(ds);
    if n == |ds| then Run(p, s, ds) else Prepared(p, Run(p, s, ds[..n]), ds[n])
  }

  function Average(total: nat, n: nat): nat {
    if n == 0 then 0 else total / n
  }

  function StatsOf(s: Stream): Stats {
    Stats(|s.sent|, |s.reports|, s.keyframes, s.bytesSent, s.stateChanges, Average(s.totalSleep, |s.sent|))
  }

  // ----- The loop -----

  /** The DTX state machine: speech goes quiet with probability 30 of 100, and comes back with 70. */
  method Speech(p: Profile, dtx0: bool, d: Draw) returns (dtx: bool, changes: nat)
    ensures dtx == NextState(p, dtx0, d) && changes == if p.hasDTX && d.stateDue then 1 else 0
  {
    dtx, changes := dtx0, 0;
    if p.hasDTX && d.stateDue {
      var r := d.flip % 100;
      if !dtx {
        if r < 30 {
          dtx := true;
        }
      } else if r < 70 {
        dtx := false;
      }
      changes := 1;
    }
  }

  method Jittered(base: nat, jitter: uint32) returns (sleep: nat)
    ensures sleep == Sleep(base, jitter)
  {
    var t: int := base + (jitter % 3001 - 1500) * 1000;
    if t < 0 {
      t := 0;
    }
    return t;
  }

  /** Speech state, pacing, payload size and keyframe decision for one packet. */
  method Prepare(p: Profile, s: Stream, d: Draw) returns (t: Stream, pkt: Sent, baseIPI: nat)
    ensures t == Prepared(p, s, d) && pkt == Packet(p, s, d) && baseIPI == BaseIPI(p, pkt.quiet)
  {
    var dtx, changes := Speech(p, s.dtx, d);
    t := s.(dtx := dtx, stateChanges := s.stateChanges + changes);
    var isKeyframe := false;
    var payloadLen;
    if p.hasDTX && dtx {
      baseIPI := Interval(p.dtxPPS);
      payloadLen := Sample(p.dtxSize, d.size);
    } else {
      baseIPI := Interval(p.activePPS);
      payloadLen := Sample(p.activeSize, d.size);
      if p.hasKeyframes && t.sinceKeyframe >= t.budget {
        isKeyframe := true;
        payloadLen := Sample(p.keyframeSize, d.keySize);
        t := t.(sinceKeyframe := 0, budget := Sample(p.keyframeEvery, d.nextBudget), keyframes := t.keyframes + 1);
      } else if p.hasKeyframes {
        t := t.(sinceKeyframe := t.sinceKeyframe + 1);
      }
    }
    pkt := Sent(payloadLen, isKeyframe, p.hasDTX && dtx, t.seqNo, t.ts);
  }

  /** What follows a successful send: counters, RTP clock, a report when one is due, and the sleep. */
  method Account(p: Profile, t: Stream, pkt: Sent, baseIPI: nat, d: Draw, ghost s: Stream) returns (u: Stream)
    requires t == Prepared(p, s, d) && pkt == Packet(p, s, d) && baseIPI == BaseIPI(p, pkt.quiet)
    ensures u == Step(p, s, d)
  {
    u := t.(sent := t.sent + [pkt], bytesSent := t.bytesSent + d.wireLen);
    u := u.(seqNo := (u.seqNo + 1) % 0x1_0000, ts := (u.ts + TsIncrement(p)) % 0x1_0000_0000);
    if d.reportDue && d.reportOk {
      u := u.(reports := u.reports + [ReportAt(u.ts0, |u.sent|, u.bytesSent)]);
    } else {
      assert u.reports + [] == u.reports;
    }
    var sleep := Jittered(baseIPI, d.jitter);
    u := u.(totalSleep := u.totalSleep + sleep);
  }

  lemma {:induction false} SendsStop(ds: seq<Draw>, n: nat)
    requires n <= |ds| && (forall j :: 0 <= j < n ==> ds[j].sendOk) && (n < |ds| ==> !ds[n].sendOk)
    ensures Sends(ds) == n
  {
    if n > 0 {
      SendsStop(ds[1..], n - 1);
    }
  }

  /** The loop; it runs once per element of `draws`, until the deadline or a failed send ends it. */
  method StreamLoop(p: Profile, budgetDraw: uint32, seq0: uint16, ts0: uint32, draws: seq<Draw>) returns (s: Stream)
    ensures s == Outcome(p, Begin(p, budgetDraw, seq0, ts0), draws)
  {
    s := Stream(false, 0, 0, 0, 0, ts0, seq0, ts0, 0, 0, [], []);
    if p.hasKeyframes {
      var keyframeBudget := Sample(p.keyframeEvery, budgetDraw);
      s := s.(sinceKeyframe := keyframeBudget, budget := keyframeBudget);
    }
    ghost var start := s;
    for i := 0 to |draws|
      invariant forall j :: 0 <= j < i ==> draws[j].sendOk
      invariant s == Run(p, start, draws[..i])
    {
      assert draws[..i + 1][..i] == draws[..i];
      ghost var before := s;
      var pkt, baseIPI;
      s, pkt, baseIPI := Prepare(p, s, draws[i]);
      if !draws[i].sendOk {
        SendsStop(draws, i);
        return;
      }
      s := Account(p, s, pkt, baseIPI, draws[i], before);
    }
    SendsStop(draws, |draws|);
    assert draws[..|draws|] == draws;
  }

  method StreamWithMimicry(p: Profile, budgetDraw: uint32, seq0: uint16, ts0: uint32, draws: seq<Draw>)
    returns (stats: Stats, s: Stream)
    ensures s == Outcome(p, Begin(p, budgetDraw, seq0, ts0), draws) && stats == StatsOf(s)
  {
    s := StreamLoop(p, budgetDraw, seq0, ts0, draws);
    stats := Stats(|s.sent|, |s.reports|, s.keyframes, s.bytesSent, s.stateChanges, Average(s.totalSleep, |s.sent|));
  }

  /**
   A failed send leaves the headers, reports and sleep of the packets sent so far; all it can add is the
   keyframe and the draw of the speech state counted for the packet that was built in vain.
   */
  lemma {:induction false} FailedSend(p: Profile, s: Stream, ds: seq<Draw>)
    ensures var n, t := Sends(ds), Outcome(p, s, ds);
      var r := Run(p, s, ds[..n]);
      && t.sent == r.sent && t.reports == r.reports && t.seqNo == r.seqNo && t.ts == r.ts
      && t.bytesSent == r.bytesSent && t.totalSleep == r.totalSleep
      && t.keyframes == r.keyframes + (if n < |ds| && Packet(p, r, ds[n]).keyframe then 1 else 0)
      && t.stateChanges == r.stateChanges + if n < |ds| && p.hasDTX && ds[n].stateDue then 1 else 0
  {
    assert ds[..|ds|] == ds;
  }

  // ----- Random choices -----

  lemma {:induction false} SmallMod(x: nat, m: nat)
    requires x < m
    ensures x % m == x
  {
  }

  /** Every value of a range is drawn by some random number. */
  lemma {:induction false} SampleReaches(range: SizeRange, n: nat)
    requires range.min <= n <= range.max && range.max - range.min < 0x1_0000_0000
    ensures Sample(range, n - range.min) == n
  {
    SmallMod(n - range.min, range.max - range.min + 1);
  }

  /** The jitter takes every whole number of microseconds from -1500 to 1500, and the sleep is never negative. */
  lemma {:induction false} JitterReaches(base: nat, us: int)
    requires -1500 <= us <= 1500
    ensures Sleep(base, us + 1500) == if base + us * 1000 < 0 then 0 else base + us * 1000
  {
  }

  /** The size ranges of the three kinds of packets; silence and keyframes exclude each other. */
  ghost predicate SizeFits(p: Profile, pkt: Sent) {
    var range := if pkt.quiet then p.dtxSize else if pkt.keyframe then p.keyframeSize else p.activeSize;
    && range.min <= pkt.size <= Max(range.min, range.max)
    && !(pkt.quiet && pkt.keyframe) && (pkt.quiet ==> p.hasDTX) && (pkt.keyframe ==> p.hasKeyframes)
  }

  lemma {:induction false} PacketFits(p: Profile, s: Stream, d: Draw)
    ensures SizeFits(p, Packet(p, s, d))
  {
  }

  /** How many of the residues 0 to n - 1 make a due draw leave the state. */
  ghost function Leaving(p: Profile, dtx: bool, d: Draw, n: nat): nat
    requires n <= 100
  {
    if n == 0 then 0
    else Leaving(p, dtx, d, n - 1) + if NextState(p, dtx, d.(flip := n - 1)) != dtx then 1 else 0
  }

  lemma {:induction false} LeavingUpTo(p: Profile, dtx: bool, d: Draw, n: nat)
    requires p.hasDTX && d.stateDue && n <= 100
    ensures Leaving(p, dtx, d, n) == Min(n, if dtx then 70 else 30)
  {
    if n > 0 {
      LeavingUpTo(p, dtx, d, n - 1);
    }
  }

  /** Of the hundred residues of a due draw 30 end speech and 70 end silence; nothing else matters. */
  lemma {:induction false} SpeechOdds(p: Profile, dtx: bool, d: Draw)
    requires p.hasDTX && d.stateDue
    ensures Leaving(p, dtx, d, 100) == if dtx then 70 else 30
    ensures NextState(p, dtx, d) == NextState(p, dtx, d.(flip := d.flip % 100))
  {
    LeavingUpTo(p, dtx, d, 100);
  }

  /** What each profile's draws are: sizes of speech, silence, frames and keyframes, and keyframe budgets. */
  lemma {:induction false} ProfileDraws(d: uint32)
    ensures Sample(OPUS_AUDIO.activeSize, d) == 110 + d % 61 && Sample(OPUS_AUDIO.dtxSize, d) == 5 + d % 8
    ensures Sample(VP8_VIDEO.activeSize, d) == 200 + d % 601 && Sample(VP8_VIDEO.keyframeSize, d) == 1000 + d % 301
    ensures Sample(VP9_VIDEO.activeSize, d) == 150 + d % 551 && Sample(VP9_VIDEO.keyframeSize, d) == 900 + d % 301
    ensures Sample(SCREEN_SHARE.activeSize, d) == 50 + d % 151 && Sample(SCREEN_SHARE.keyframeSize, d) == 1100 + d % 201
    ensures Sample(VP8_VIDEO.keyframeEvery, d) == 60 + d % 91 && Sample(VP9_VIDEO.keyframeEvery, d) == 90 + d % 91
    ensures Sample(SCREEN_SHARE.keyframeEvery, d) == 30 + d % 61
  {
  }

  // ----- Speech states -----

  ghost predicate Quiet(sent: seq<Sent>) {
    sent != [] && sent[|sent| - 1].quiet
  }

  /** How often the packets go from speech to silence or back; a stream begins with speech. */
  ghost function Flips(sent: seq<Sent>): nat {
    if sent == [] then 0
    else Flips(sent[..|sent| - 1]) + if Quiet(sent) != Quiet(sent[..|sent| - 1]) then 1 else 0
  }

  ghost function Dues(p: Profile, ds: seq<Draw>): nat {
    if ds == [] then 0 else Dues(p, ds[..|ds| - 1]) + if p.hasDTX && ds[|ds| - 1].stateDue then 1 else 0
  }

  /** The counter of state changes counts every draw of the state machine, so it only bounds the changes. */
  lemma {:induction false} StateChanges(p: Profile, budgetDraw: uint32, seq0: uint16, ts0: uint32, ds: seq<Draw>)
    ensures var s := Run(p, Begin(p, budgetDraw, seq0, ts0), ds);
      s.stateChanges == Dues(p, ds) && Flips(s.sent) <= s.stateChanges && Quiet(s.sent) == (p.hasDTX && s.dtx)
  {
    if ds != [] {
      var ds' := ds[..|ds| - 1];
      StateChanges(p, budgetDraw, seq0, ts0, ds');
      var m := Run(p, Begin(p, budgetDraw, seq0, ts0), ds');
      var pkt := Packet(p, m, ds[|ds| - 1]);
      assert (m.sent + [pkt])[..|m.sent|] == m.sent;
    }
  }

  /** Each draw of the state machine changes the state. */
  ghost predicate EveryDueFlips(p: Profile, s: Stream, ds: seq<Draw>) {
    ds == [] ||
    var ds', d := ds[..|ds| - 1], ds[|ds| - 1];
    var dtx := Run(p, s, ds').dtx;
    EveryDueFlips(p, s, ds') && (p.hasDTX && d.stateDue ==> NextState(p, dtx, d) != dtx)
  }

  lemma {:induction false} SentLength(p: Profile, s: Stream, ds: seq<Draw>)
    ensures |Run(p, s, ds).sent| == |s.sent| + |ds|
  {
    if ds != [] {
      SentLength(p, s, ds[..|ds| - 1]);
    }
  }

  /** The counter is the number of changes exactly when no draw left the state as it was. */
  lemma {:induction false} ChangesExactlyWhenAllFlip(
      p: Profile, budgetDraw: uint32, seq0: uint16, ts0: uint32, ds: seq<Draw>)
    ensures var s := Begin(p, budgetDraw, seq0, ts0);
      Run(p, s, ds).stateChanges == Flips(Run(p, s, ds).sent) <==> EveryDueFlips(p, s, ds)
  {
    StateChanges(p, budgetDraw, seq0, ts0, ds);
    if ds != [] {
      var s, ds' := Begin(p, budgetDraw, seq0, ts0), ds[..|ds| - 1];
      StateChanges(p, budgetDraw, seq0, ts0, ds');
      ChangesExactlyWhenAllFlip(p, budgetDraw, seq0, ts0, ds');
      assert Run(p, s, ds).sent[..|ds'|] == Run(p, s, ds').sent by {
        SentLength(p, s, ds');
      }
    }
  }

  /** A run that counts a change and has none: speech goes on, since 50 is not below 30. */
  lemma {:induction false} CountsWithoutChange(seq0: uint16, ts0: uint32) returns (ds: seq<Draw>)
    ensures var s := Run(OPUS_AUDIO, Begin(OPUS_AUDIO, 0, seq0, ts0), ds);
      s.stateChanges == 1 && Flips(s.sent) == 0
  {
    ds := [Draw(true, 50, 0, 0, 0, true, 0, false, false, 0)];
    var s := Begin(OPUS_AUDIO, 0, seq0, ts0);
    assert ds[..0] == [] && Run(OPUS_AUDIO, s, ds) == Step(OPUS_AUDIO, s, ds[0]);
    assert Run(OPUS_AUDIO, s, ds).sent[..0] == [];
  }

  // ----- Keyframes -----

  predicate Video(p: Profile) {
    p.hasKeyframes && !p.hasDTX
  }

  /** After n > 0 packets the latest keyframe is packet n - 1 - sinceKeyframe, and nothing after it is one. */
  ghost predicate LatestKeyframe(p: Profile, s: Stream, ds: seq<Draw>) {
    && |s.sent| == |ds| && s.sinceKeyframe <= s.budget
    && (s.sent == [] ==> s.sinceKeyframe == s.budget)
    && (s.sent != [] ==>
          && s.sinceKeyframe < |s.sent|
          && var k := |s.sent| - 1 - s.sinceKeyframe;
          && s.sent[k].keyframe
          && s.budget == Sample(p.keyframeEvery, ds[k].nextBudget)
          && forall i :: k < i < |s.sent| ==> !s.sent[i].keyframe)
  }

  lemma {:induction false} TracksLatest(p: Profile, s: Stream, ds: seq<Draw>)
    requires Video(p) && LatestKeyframe(p, s, [])
    ensures LatestKeyframe(p, Run(p, s, ds), ds)
  {
    if ds == [] {
    } else {
      TracksLatest(p, s, ds[..|ds| - 1]);
    }
  }

  lemma {:induction false} RunGrows(p: Profile, s: Stream, ds: seq<Draw>, n: nat)
    requires n <= |ds|
    ensures Run(p, s, ds[..n]).sent <= Run(p, s, ds).sent
    decreases |ds|
  {
    if n == |ds| {
      assert ds[..n] == ds;
    } else {
      RunGrows(p, s, ds[..|ds| - 1], n);
      assert ds[..|ds| - 1][..n] == ds[..n];
    }
  }

  /** The state in which packet n is built. */
  lemma {:induction false} BuiltFrom(p: Profile, s: Stream, ds: seq<Draw>, n: nat)
    requires n < |ds| && s.sent == []
    ensures |Run(p, s, ds[..n]).sent| == n && |Run(p, s, ds).sent| == |ds|
    ensures Run(p, s, ds).sent[n] == Step(p, Run(p, s, ds[..n]), ds[n]).sent[n]
    ensures Run(p, s, ds).sent[..n] == Run(p, s, ds[..n]).sent
  {
    SentLength(p, s, ds[..n]);
    SentLength(p, s, ds);
    RunGrows(p, s, ds, n);
    RunGrows(p, s, ds, n + 1);
    assert ds[..n + 1][..n] == ds[..n];
  }

  ghost predicate ConsecutiveKeyframes(sent: seq<Sent>, i: nat, j: nat) {
    && i < j < |sent| && sent[i].keyframe && sent[j].keyframe
    && forall k :: i < k < j ==> !sent[k].keyframe
  }

  lemma {:induction false} LatestIs(p: Profile, m: Stream, ds: seq<Draw>, i: nat)
    requires LatestKeyframe(p, m, ds) && i < |m.sent| && m.sent[i].keyframe
    requires forall k :: i < k < |m.sent| ==> !m.sent[k].keyframe
    ensures i == |m.sent| - 1 - m.sinceKeyframe && m.budget == Sample(p.keyframeEvery, ds[i].nextBudget)
  {
    var k := |m.sent| - 1 - m.sinceKeyframe;
    assert m.sent[k].keyframe;
  }

  lemma {:induction false} SpacingOf(p: Profile, s: Stream, ds: seq<Draw>, i: nat, j: nat)
    requires Video(p) && s.sent == [] && LatestKeyframe(p, s, []) && ConsecutiveKeyframes(Run(p, s, ds).sent, i, j)
    ensures i < |ds| && j - i - 1 == Sample(p.keyframeEvery, ds[i].nextBudget)
  {
    SentLength(p, s, ds);
    BuiltFrom(p, s, ds, j);
    TracksLatest(p, s, ds[..j]);
    var m, sent := Run(p, s, ds[..j]), Run(p, s, ds).sent;
    assert forall k :: 0 <= k < j ==> m.sent[k] == sent[k];
    LatestIs(p, m, ds[..j], i);
  }

  /**
   The first packet of a video stream is a keyframe, and between a keyframe and the next one there are
   exactly as many other packets as the budget drawn with it.
   */
  lemma {:induction false} KeyframeSpacing(p: Profile, budgetDraw: uint32, seq0: uint16, ts0: uint32, ds: seq<Draw>)
    requires Video(p)
    ensures var sent := Run(p, Begin(p, budgetDraw, seq0, ts0), ds).sent;
      && |sent| == |ds|
      && (sent != [] ==> sent[0].keyframe)
      && forall i: nat, j: nat :: ConsecutiveKeyframes(sent, i, j) ==>
           j - i - 1 == Sample(p.keyframeEvery, ds[i].nextBudget)
  {
    var s := Begin(p, budgetDraw, seq0, ts0);
    var sent := Run(p, s, ds).sent;
    SentLength(p, s, ds);
    if sent != [] {
      BuiltFrom(p, s, ds, 0);
    }
    forall i: nat, j: nat | ConsecutiveKeyframes(sent, i, j)
      ensures j - i - 1 == Sample(p.keyframeEvery, ds[i].nextBudget)
    {
      SpacingOf(p, s, ds, i, j);
    }
  }

  ghost predicate Counted(p: Profile, s: Stream) {
    var lo, hi := p.keyframeEvery.min, Max(p.keyframeEvery.min, p.keyframeEvery.max);
    if s.sent == [] then s.keyframes == 0
    else
      && s.keyframes >= 1 && s.sinceKeyframe < |s.sent| && lo <= s.budget <= hi && s.sinceKeyframe <= s.budget
      && (s.keyframes - 1) * (lo + 1) <= |s.sent| - 1 - s.sinceKeyframe <= (s.keyframes - 1) * (hi + 1)
  }

  lemma {:induction false} OneMoreTimes(k: nat, n: nat)
    ensures (k + 1) * n == k * n + n
  {
  }

  lemma {:induction false} StepCounted(p: Profile, s: Stream, d: Draw)
    requires Video(p) && Counted(p, s) && (s.sent == [] ==> s.sinceKeyframe == s.budget)
    ensures Counted(p, Step(p, s, d))
  {
    var lo, hi := p.keyframeEvery.min, Max(p.keyframeEvery.min, p.keyframeEvery.max);
    if s.sent != [] && s.sinceKeyframe >= s.budget {
      OneMoreTimes(s.keyframes - 1, lo + 1);
      OneMoreTimes(s.keyframes - 1, hi + 1);
    }
  }

  lemma {:induction false} RunCounted(p: Profile, s: Stream, ds: seq<Draw>)
    requires Video(p) && LatestKeyframe(p, s, []) && s.keyframes == 0
    ensures Counted(p, Run(p, s, ds))
  {
    if ds != [] {
      RunCounted(p, s, ds[..|ds| - 1]);
      TracksLatest(p, s, ds[..|ds| - 1]);
      StepCounted(p, Run(p, s, ds[..|ds| - 1]), ds[|ds| - 1]);
    }
  }

  /** The number of keyframes among the packets sent. */
  ghost function Keys(sent: seq<Sent>): nat {
    if sent == [] then 0 else Keys(sent[..|sent| - 1]) + if sent[|sent| - 1].keyframe then 1 else 0
  }

  /** The keyframe counter counts the keyframes sent. */
  lemma {:induction false} CounterIsKeys(p: Profile, s: Stream, ds: seq<Draw>)
    requires s.sent == [] && s.keyframes == 0
    ensures Run(p, s, ds).keyframes == Keys(Run(p, s, ds).sent)
  {
    if ds != [] {
      var m := Run(p, s, ds[..|ds| - 1]);
      CounterIsKeys(p, s, ds[..|ds| - 1]);
      assert (m.sent + [Packet(p, m, ds[|ds| - 1])])[..|m.sent|] == m.sent;
    }
  }

  /** Among N >= 1 packets sent the number K of keyframes satisfies (K-1)(lo+1) <= N-1 and N <= K(hi+1). */
  lemma {:induction false} KeyframeCount(p: Profile, budgetDraw: uint32, seq0: uint16, ts0: uint32, ds: seq<Draw>)
    requires Video(p) && ds != []
    ensures var s := Run(p, Begin(p, budgetDraw, seq0, ts0), ds);
      var k := Keys(s.sent);
      && |s.sent| == |ds| && s.keyframes == k
      && k >= 1 && (k - 1) * (p.keyframeEvery.min + 1) <= |ds| - 1
      && |ds| <= k * (Max(p.keyframeEvery.min, p.keyframeEvery.max) + 1)
  {
    var s := Begin(p, budgetDraw, seq0, ts0);
    RunCounted(p, s, ds);
    SentLength(p, s, ds);
    CounterIsKeys(p, s, ds);
    OneMoreTimes(Run(p, s, ds).keyframes - 1, Max(p.keyframeEvery.min, p.keyframeEvery.max) + 1);
  }

  /** The three video profiles give keyframes and other packets disjoint sizes, so size alone tells them apart. */
  lemma {:induction false} SizeTellsKeyframe(p: Profile, s: Stream, ds: seq<Draw>)
    requires p in {VP8_VIDEO, VP9_VIDEO, SCREEN_SHARE} && s.sent == []
    ensures forall i :: 0 <= i < |Run(p, s, ds).sent| ==>
      (Run(p, s, ds).sent[i].keyframe <==> Run(p, s, ds).sent[i].size >= p.keyframeSize.min)
  {
    if ds != [] {
      SizeTellsKeyframe(p, s, ds[..|ds| - 1]);
    }
  }

  // ----- Clock, reports and pacing -----

  ghost predicate Stamped(p: Profile, seq0: uint16, ts0: uint32, k: nat, pkt: Sent) {
    pkt.seqNo == RtpClock.Number(seq0, k) && pkt.ts == RtpClock.Stamp(ts0, TsIncrement(p), k)
  }

  ghost predicate Clocked(p: Profile, seq0: uint16, ts0: uint32, s: Stream) {
    && s.seqNo == RtpClock.Number(seq0, |s.sent|) && s.ts == RtpClock.Stamp(ts0, TsIncrement(p), |s.sent|)
    && forall k :: 0 <= k < |s.sent| ==> Stamped(p, seq0, ts0, k, s.sent[k])
  }

  lemma {:induction false} StepClocked(p: Profile, seq0: uint16, ts0: uint32, s: Stream, d: Draw)
    requires Clocked(p, seq0, ts0, s)
    ensures Clocked(p, seq0, ts0, Step(p, s, d))
  {
    var t, n := Step(p, s, d), |s.sent|;
    RtpClock.NextNumber(seq0, n);
    RtpClock.NextStamp(ts0, TsIncrement(p), n);
    assert t.sent == s.sent + [Packet(p, s, d)];
    forall k | 0 <= k < |t.sent| ensures Stamped(p, seq0, ts0, k, t.sent[k]) {
      assert k < n ==> t.sent[k] == s.sent[k];
    }
  }

  /** In every run packet k has sequence number seq0 + k mod 2^16 and timestamp ts0 + k * increment mod 2^32. */
  lemma {:induction false} HeadersOf(p: Profile, seq0: uint16, ts0: uint32, s: Stream, ds: seq<Draw>)
    requires s.sent == [] && s.seqNo == seq0 && s.ts == ts0
    ensures Clocked(p, seq0, ts0, Run(p, s, ds))
  {
    if ds == [] {
      assert TsIncrement(p) * 0 == 0;
    } else {
      HeadersOf(p, seq0, ts0, s, ds[..|ds| - 1]);
      StepClocked(p, seq0, ts0, Run(p, s, ds[..|ds| - 1]), ds[|ds| - 1]);
    }
  }

  /** Two packets of a stream share a timestamp exactly when they are a multiple of the period apart. */
  lemma {:induction false} TimestampsRepeat(
      p: Profile, budgetDraw: uint32, seq0: uint16, ts0: uint32, ds: seq<Draw>, i: nat, j: nat)
    requires p in {OPUS_AUDIO, VP8_VIDEO, VP9_VIDEO, SCREEN_SHARE} && i < |ds| && j < |ds|
    ensures var sent := Run(p, Begin(p, budgetDraw, seq0, ts0), ds).sent;
      && |sent| == |ds|
      && (sent[i].ts == sent[j].ts <==> (i - j) % (if p == OPUS_AUDIO then 0x400_0000 else 0x2000_0000) == 0)
  {
    var sent := Run(p, Begin(p, budgetDraw, seq0, ts0), ds).sent;
    HeadersOf(p, seq0, ts0, Begin(p, budgetDraw, seq0, ts0), ds);
    SentLength(p, Begin(p, budgetDraw, seq0, ts0), ds);
    assert Stamped(p, seq0, ts0, i, sent[i]) && Stamped(p, seq0, ts0, j, sent[j]);
    RtpClock.OpusPeriod(ts0, i, j);
    RtpClock.VideoPeriod(ts0, i, j);
    RtpClock.ScreenPeriod(ts0, i, j);
  }

  ghost function Octets(ds: seq<Draw>): nat {
    if ds == [] then 0 else Octets(ds[..|ds| - 1]) + ds[|ds| - 1].wireLen
  }

  /** One report for each draw at which one is due and goes through, counting the packets so far. */
  ghost function ReportsOf(ts0: uint32, ds: seq<Draw>): seq<Report> {
    if ds == [] then []
    else
      var d := ds[|ds| - 1];
      ReportsOf(ts0, ds[..|ds| - 1])
      + if d.reportDue && d.reportOk then [Report(ts0, |ds| % 0x1_0000_0000, Octets(ds) % 0x1_0000_0000)] else []
  }

  /**
   The reports of a run count every packet and every encrypted byte sent before them, modulo 2^32, and
   all carry the timestamp of the first packet, however late they are sent.
   */
  lemma {:induction false} Reports(p: Profile, budgetDraw: uint32, seq0: uint16, ts0: uint32, ds: seq<Draw>)
    ensures var s := Run(p, Begin(p, budgetDraw, seq0, ts0), ds);
      |s.sent| == |ds| && s.ts0 == ts0 && s.bytesSent == Octets(ds) && s.reports == ReportsOf(ts0, ds)
  {
    if ds != [] {
      Reports(p, budgetDraw, seq0, ts0, ds[..|ds| - 1]);
    }
  }

  /** The number of packets sent in silence. */
  ghost function Quiets(sent: seq<Sent>): (q: nat)
    ensures q <= |sent|
  {
    if sent == [] then 0 else Quiets(sent[..|sent| - 1]) + if sent[|sent| - 1].quiet then 1 else 0
  }

  lemma {:induction false} QuietsSnoc(sent: seq<Sent>, pkt: Sent)
    ensures Quiets(sent + [pkt]) == Quiets(sent) + if pkt.quiet then 1 else 0
  {
    assert (sent + [pkt])[..|sent|] == sent;
  }

  /** Nanoseconds between packets at some packets per second. */
  ghost function Gap(pps: nat): nat {
    if pps == 0 then 0 else 1_000_000_000 / pps
  }

  /** `speech` and `quiet` packets took `total` nanoseconds, up to 1.5 ms for each of them. */
  ghost predicate Paced(p: Profile, speech: nat, quiet: nat, total: nat) {
    var nominal, slack := speech * Gap(p.activePPS) + quiet * Gap(p.dtxPPS), (speech + quiet) * 1_500_000;
    nominal - slack <= total <= nominal + slack
  }

  lemma {:induction false} PacedStep(p: Profile, speech: nat, quiet: nat, total: nat, isQuiet: bool, sleep: nat)
    requires Paced(p, speech, quiet, total)
    requires var gap := Gap(if isQuiet then p.dtxPPS else p.activePPS); gap - 1_500_000 <= sleep <= gap + 1_500_000
    ensures if isQuiet then Paced(p, speech, quiet + 1, total + sleep) else Paced(p, speech + 1, quiet, total + sleep)
  {
    OneMoreTimes(speech, Gap(p.activePPS));
    OneMoreTimes(quiet, Gap(p.dtxPPS));
  }

  lemma {:induction false} AllSizesFit(p: Profile, s: Stream, ds: seq<Draw>)
    requires s.sent == []
    ensures forall k :: 0 <= k < |Run(p, s, ds).sent| ==> SizeFits(p, Run(p, s, ds).sent[k])
  {
    if ds != [] {
      var m, d := Run(p, s, ds[..|ds| - 1]), ds[|ds| - 1];
      AllSizesFit(p, s, ds[..|ds| - 1]);
      PacketFits(p, m, d);
      assert Run(p, s, ds).sent == m.sent + [Packet(p, m, d)];
    }
  }

  lemma {:induction false} RunPaced(p: Profile, s: Stream, ds: seq<Draw>)
    requires s.totalSleep == 0 && s.sent == []
    ensures var t := Run(p, s, ds);
      |t.sent| == |ds| && Paced(p, |ds| - Quiets(t.sent), Quiets(t.sent), t.totalSleep)
  {
    if ds != [] {
      var n := |ds| - 1;
      var m := Run(p, s, ds[..n]);
      RunPaced(p, s, ds[..n]);
      var pkt := Packet(p, m, ds[n]);
      QuietsSnoc(m.sent, pkt);
      PacedStep(p, n - Quiets(m.sent), Quiets(m.sent), m.totalSleep, pkt.quiet,
                Sleep(BaseIPI(p, pkt.quiet), ds[n].jitter));
    }
  }

  /**
   For every profile the total time slept is that of its speech packets at the active rate and of its
   quiet ones at the DTX rate, up to 1.5 ms per packet; and every packet's size is of its kind's range.
   */
  lemma {:induction false} PacingBounds(p: Profile, s: Stream, ds: seq<Draw>)
    requires s.totalSleep == 0 && s.sent == []
    ensures var t := Run(p, s, ds);
      && |t.sent| == |ds| && Paced(p, |ds| - Quiets(t.sent), Quiets(t.sent), t.totalSleep)
      && forall k :: 0 <= k < |t.sent| ==> SizeFits(p, t.sent[k])
  {
    RunPaced(p, s, ds);
    AllSizesFit(p, s, ds);
  }

  /** Opus: 20 ms and 110 to 170 bytes per speech packet, 1 s and 5 to 12 bytes per quiet one. */
  lemma {:induction false} OpusNumbers(s: Stream, ds: seq<Draw>)
    requires s.totalSleep == 0 && s.sent == []
    ensures var t := Run(OPUS_AUDIO, s, ds);
      var quiet := Quiets(t.sent);
      var nominal, slack := (|ds| - quiet) * 20_000_000 + quiet * 1_000_000_000, |ds| * 1_500_000;
      && |t.sent| == |ds| && nominal - slack <= t.totalSleep <= nominal + slack
      && forall k :: 0 <= k < |t.sent| ==>
           !t.sent[k].keyframe && if t.sent[k].quiet then 5 <= t.sent[k].size <= 12 else 110 <= t.sent[k].size <= 170
  {
    PacingBounds(OPUS_AUDIO, s, ds);
    var sent := Run(OPUS_AUDIO, s, ds).sent;
    assert forall k :: 0 <= k < |sent| ==> SizeFits(OPUS_AUDIO, sent[k]);
  }

  lemma {:induction false} NeverQuiet(p: Profile, s: Stream, ds: seq<Draw>)
    requires !p.hasDTX && s.sent == []
    ensures Quiets(Run(p, s, ds).sent) == 0
  {
    if ds != [] {
      var m := Run(p, s, ds[..|ds| - 1]);
      NeverQuiet(p, s, ds[..|ds| - 1]);
      QuietsSnoc(m.sent, Packet(p, m, ds[|ds| - 1]));
    }
  }

  ghost predicate PacedAt(gap: nat, n: nat, total: nat) {
    n * gap - n * 1_500_000 <= total <= n * gap + n * 1_500_000
  }

  lemma {:induction false} SpeechPaced(p: Profile, s: Stream, ds: seq<Draw>)
    requires !p.hasDTX && s.totalSleep == 0 && s.sent == []
    ensures |Run(p, s, ds).sent| == |ds| && PacedAt(Gap(p.activePPS), |ds|, Run(p, s, ds).totalSleep)
  {
    RunPaced(p, s, ds);
    NeverQuiet(p, s, ds);
  }

  /** A video stream's packets: their interval, sizes of keyframes and others, and keyframe spacing. */
  ghost predicate VideoNumbers(t: Stream, gap: nat, size: SizeRange, keySize: SizeRange, every: SizeRange) {
    && PacedAt(gap, |t.sent|, t.totalSleep)
    && (forall k :: 0 <= k < |t.sent| ==>
          var range := if t.sent[k].keyframe then keySize else size;
          range.min <= t.sent[k].size <= range.max)
    && (t.sent != [] ==> t.sent[0].keyframe)
    && forall i: nat, j: nat :: ConsecutiveKeyframes(t.sent, i, j) ==> every.min <= j - i - 1 <= every.max
  }

  ghost predicate Ordered(range: SizeRange) {
    range.min <= range.max
  }

  lemma {:induction false} VideoSizes(p: Profile, s: Stream, ds: seq<Draw>)
    requires Video(p) && s.sent == [] && Ordered(p.activeSize) && Ordered(p.keyframeSize)
    ensures var sent := Run(p, s, ds).sent;
      forall k :: 0 <= k < |sent| ==>
        var range := if sent[k].keyframe then p.keyframeSize else p.activeSize;
        range.min <= sent[k].size <= range.max
  {
    AllSizesFit(p, s, ds);
    var sent := Run(p, s, ds).sent;
    assert forall k :: 0 <= k < |sent| ==> SizeFits(p, sent[k]);
  }

  lemma {:induction false} VideoRun(p: Profile, budgetDraw: uint32, seq0: uint16, ts0: uint32, ds: seq<Draw>)
    requires Video(p) && Ordered(p.activeSize) && Ordered(p.keyframeSize) && Ordered(p.keyframeEvery)
    ensures var t := Run(p, Begin(p, budgetDraw, seq0, ts0), ds);
      |t.sent| == |ds| && VideoNumbers(t, Gap(p.activePPS), p.activeSize, p.keyframeSize, p.keyframeEvery)
  {
    var s := Begin(p, budgetDraw, seq0, ts0);
    var t := Run(p, s, ds);
    SpeechPaced(p, s, ds);
    VideoSizes(p, s, ds);
    KeyframeSpacing(p, budgetDraw, seq0, ts0, ds);
  }

  /** The three video profiles: 30 or 10 packets a second, and a keyframe every 60 to 150, 90 to 180 or 30 to 90. */
  lemma {:induction false} VideoProfiles(p: Profile, budgetDraw: uint32, seq0: uint16, ts0: uint32, ds: seq<Draw>)
    requires p in {VP8_VIDEO, VP9_VIDEO, SCREEN_SHARE}
    ensures var t := Run(p, Begin(p, budgetDraw, seq0, ts0), ds);
      && |t.sent| == |ds|
      && (p == VP8_VIDEO ==>
            VideoNumbers(t, 33_333_333, SizeRange(200, 800), SizeRange(1000, 1300), SizeRange(60, 150)))
      && (p == VP9_VIDEO ==>
            VideoNumbers(t, 33_333_333, SizeRange(150, 700), SizeRange(900, 1200), SizeRange(90, 180)))
      && (p == SCREEN_SHARE ==>
            VideoNumbers(t, 100_000_000, SizeRange(50, 200), SizeRange(1100, 1300), SizeRange(30, 90)))
  {
    assert Gap(30) == 33_333_333 && Gap(10) == 100_000_000;
    VideoRun(p, budgetDraw, seq0, ts0, ds);
  }

  lemma {:induction false} TimesMonotone(x: int, y: int, n: nat)
    ensures x <= y ==> x * n <= y * n
  {
  }

  lemma {:induction false} Quotient(total: nat, n: nat, base: nat, slack: nat)
    requires n > 0 && n * base - n * slack <= total <= n * base + n * slack
    ensures base - slack <= total / n <= base + slack
  {
    var q := total / n;
    TimesMonotone(q + 1, base - slack, n);
    TimesMonotone(base + slack + 1, q, n);
  }

  /** Without DTX the reported average interval is within 1.5 ms of the nominal one, after a failed send too. */
  lemma {:induction false} AverageInterval(p: Profile, budgetDraw: uint32, seq0: uint16, ts0: uint32, ds: seq<Draw>)
    requires !p.hasDTX && Sends(ds) > 0
    ensures var stats := StatsOf(Outcome(p, Begin(p, budgetDraw, seq0, ts0), ds));
      Gap(p.activePPS) - 1_500_000 <= stats.avgIPI <= Gap(p.activePPS) + 1_500_000
  {
    var s, n := Begin(p, budgetDraw, seq0, ts0), Sends(ds);
    FailedSend(p, s, ds);
    SpeechPaced(p, s, ds[..n]);
    Quotient(Run(p, s, ds[..n]).totalSleep, n, Gap(p.activePPS), 1_500_000);
  }

  lemma {:induction false} Floor(total: nat, n: nat)
    requires n > 0
    ensures total / n * n <= total < (total / n + 1) * n
  {
  }

  /**
   The statistics of a stream, also of one that a failed send ended: packets, reports and bytes are those
   sent; the average interval is the whole nanoseconds of total sleep over packets.
   */
  lemma {:induction false} Statistics(p: Profile, budgetDraw: uint32, seq0: uint16, ts0: uint32, ds: seq<Draw>)
    ensures var s := Outcome(p, Begin(p, budgetDraw, seq0, ts0), ds);
      var sent, stats := ds[..Sends(ds)], StatsOf(s);
      && stats.srtpSent == |sent| == |s.sent| && stats.bytesSent == Octets(sent)
      && stats.srtcpSent == |ReportsOf(ts0, sent)|
      && Keys(s.sent) <= stats.keyframes <= Keys(s.sent) + 1
      && Flips(s.sent) <= stats.stateChanges
      && (sent == [] ==> stats.avgIPI == 0)
      && (sent != [] ==> stats.avgIPI * |sent| <= s.totalSleep < (stats.avgIPI + 1) * |sent|)
  {
    var init, n := Begin(p, budgetDraw, seq0, ts0), Sends(ds);
    FailedSend(p, init, ds);
    Reports(p, budgetDraw, seq0, ts0, ds[..n]);
    CounterIsKeys(p, init, ds[..n]);
    StateChanges(p, budgetDraw, seq0, ts0, ds[..n]);
    if n > 0 {
      Floor(Outcome(p, init, ds).totalSleep, n);
    }
  }
}
