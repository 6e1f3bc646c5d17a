/** `RelayConn` of internal/turn: ChannelData frames (section 12.4 of RFC 8656) over datagrams. */
module ChannelData {
  import opened Common
  import Stun
  import StunTheorems

  const MAX_DATA := 65531
  const READ_BUFFER := 65536

  /** A ChannelData frame with whatever follows its payload. */
  function FrameWith(ch: uint16, p: Bytes, tail: Bytes): Bytes {
    Put16(ch) + Put16(Low16(|p|)) + p + tail
  }

  /** The frame as it is sent: zero-padded to a multiple of four. */
  function Frame(ch: uint16, p: Bytes): Bytes {
    FrameWith(ch, p, Zeros(PadLen(4 + |p|)))
  }

  /** What Read makes of one datagram: its payload, or None when it is dropped. */
  function Accept(ch: uint16, d: Bytes): Option<Bytes> {
    if |d| < 4 then None
    else if d[0] < 0x40 then None  // top two bits 00: a STUN message
    else if Get16(d, 0) != ch then None
    else if 4 + Get16(d, 2) > |d| then None
    else Some(d[4..4 + Get16(d, 2)])
  }

  /** The part of a datagram that UDP.Read stores. */
  function Stored(d: Bytes): Bytes {
    d[..Min(|d|, READ_BUFFER)]
  }

  /** The payloads that successive Reads return for a sequence of datagrams. */
  function Deliver(ch: uint16, ds: seq<Bytes>): seq<Bytes> {
    if ds == [] then []
    else
      match Accept(ch, Stored(ds[0]))
      case None => Deliver(ch, ds[1..])
      case Some(p) => [p] + Deliver(ch, ds[1..])
  }

  /** The frame buffer before padding, built by in-place stores. */
  method StoreFrame(ch: uint16, p: Bytes) returns (frame: Bytes)
    requires |p| <= MAX_DATA
    ensures frame == Put16(ch) + Put16(Low16(|p|)) + p && |frame| == 4 + |p|
  {
    var buf := new byte[4 + |p|](_ => 0);
    PutUint16(buf, 0, ch);
    PutUint16(buf, 2, Low16(|p|));
    assert buf[..4] == Put16(ch) + Put16(Low16(|p|));
    var n := Copy(buf, 4, p);
    assert p[..n] == p;
    return buf[..];
  }

  lemma {:induction false} PaddedFits(n: nat)
    requires n <= 4 + MAX_DATA
    ensures (n + PadLen(n)) % 4 == 0 && n + PadLen(n) <= READ_BUFFER
  {
  }

  method BuildFrame(ch: uint16, p: Bytes) returns (frame: Bytes)
    requires |p| <= MAX_DATA
    ensures frame == Frame(ch, p) && |frame| <= 65536 && |frame| % 4 == 0 && 4 + |p| <= |frame| < 8 + |p|
    ensures frame[..4] == [ch / 256, ch % 256, |p| / 256, |p| % 256] && frame[4..4 + |p|] == p
    ensures forall i :: 4 + |p| <= i < |frame| ==> frame[i] == 0
  {
    frame := StoreFrame(ch, p);
    ghost var bare := frame;
    assert bare[..4] == [ch / 256, ch % 256, |p| / 256, |p| % 256] && bare[4..] == p;
    PaddedFits(|frame|);
    var pad := PadLen(|frame|);
    if pad > 0 {
      frame := frame + Zeros(pad);
    } else {
      assert frame + Zeros(0) == frame;
    }
  }

  datatype ReadResult = Got(n: nat) | SocketError

  class RelayConn {
    const channel: uint16
    const rdBuf: array<byte>
    var inbox: seq<Bytes>   // datagrams the socket will return before its next error
    var outbox: seq<Bytes>  // datagrams sent

    ghost predicate Valid()
      reads this
    {
      rdBuf.Length == READ_BUFFER
    }

    constructor (channel: uint16, inbox: seq<Bytes>)
      ensures Valid() && this.channel == channel && this.inbox == inbox && outbox == [] && fresh(rdBuf)
    {
      this.channel, this.inbox, this.outbox := channel, inbox, [];
      this.rdBuf := new byte[READ_BUFFER](_ => 0);
    }

    method Write(p: Bytes) returns (sent: Option<nat>)
      modifies this`outbox
      ensures sent == if |p| <= 65531 then Some(|p|) else None
      ensures outbox == if |p| <= 65531 then old(outbox) + [Frame(channel, p)] else old(outbox)
    {
      if |p| > 65535 - 4 {
        return None;
      }
      var frame := BuildFrame(channel, p);
      outbox := outbox + [frame];
      return Some(|p|);
    }

    /** UDP.Read into rdBuf: the rest of the buffer keeps the bytes of earlier datagrams. */
    method Refill() returns (n: nat)
      requires Valid() && inbox != []
      modifies this`inbox, rdBuf
      ensures inbox == old(inbox)[1..]
      ensures n <= rdBuf.Length && rdBuf[..n] == Stored(old(inbox)[0])
      ensures rdBuf[n..] == old(rdBuf[..])[n..]
    {
      var d := inbox[0];
      inbox := inbox[1..];
      n := Copy(rdBuf, 0, d);
    }

    /** Returns the next payload for this channel, cut to the caller's buffer, and drops what precedes it. */
    method Read(p: array<byte>) returns (r: ReadResult, ghost payload: Bytes)
      requires Valid() && p != rdBuf
      modifies this`inbox, rdBuf, p
      ensures Valid()
      ensures r.Got? ==>
        && Deliver(channel, old(inbox)) == [payload] + Deliver(channel, inbox)
        && CopiedInto(payload, old(p[..]), p[..], r.n)
      ensures r.SocketError? ==> Deliver(channel, old(inbox)) == [] && inbox == [] && p[..] == old(p[..])
    {
      payload := [];
      while inbox != []
        invariant p[..] == old(p[..])
        invariant Deliver(channel, inbox) == Deliver(channel, old(inbox))
        decreases |inbox|
      {
        ghost var before := inbox;
        var n := Refill();
        ghost var d := rdBuf[..n];
        assert Deliver(channel, before) == match Accept(channel, d) {
          case None => Deliver(channel, inbox)
          case Some(q) => [q] + Deliver(channel, inbox)
        };
        if n < 4 {
          continue;
        }
        assert d[0] == rdBuf[0] && d[1] == rdBuf[1] && d[2] == rdBuf[2] && d[3] == rdBuf[3];
        var first := rdBuf[0];
        if first < 0x40 {
          continue;
        }
        var ch := Get16(rdBuf[0..2], 0);
        if ch != channel {
          continue;
        }
        var bodyLen: int := Get16(rdBuf[2..4], 0);
        if 4 + bodyLen > n {
          continue;
        }
        var body := rdBuf[4..4 + bodyLen];
        payload := body;
        assert forall i :: 0 <= i < bodyLen ==> body[i] == d[4 + i];
        assert body == d[4..4 + bodyLen];
        var m := Copy(p, 0, body);
        return Got(m), payload;
      }
      return SocketError, payload;
    }
  }

  // ----- Mixed traffic -----

  /** Too short for a frame, a STUN message by its leading bits, or of another channel; cut or not. */
  ghost predicate Unrelated(ch: uint16, d: Bytes) {
    |d| < 4 || d[0] < 0x40 || Get16(d, 0) != ch
  }

  /** What may reach the socket while channel `ch` is in use. */
  datatype Traffic =
    | Own(p: Bytes, tail: Bytes)   // a frame for this channel, padded or not, or with anything behind it
    | Truncated(p: Bytes, n: nat)  // the first n bytes of a frame for this channel, cut inside its payload
    | Other(d: Bytes)

  ghost predicate Plausible(ch: uint16, t: Traffic) {
    match t
    case Own(p, _) => 4 + |p| <= READ_BUFFER
    case Truncated(p, n) => |p| < 0x1_0000 && n < 4 + |p|
    case Other(d) => Unrelated(ch, d)
  }

  ghost function Datagram(ch: uint16, t: Traffic): Bytes {
    match t
    case Own(p, tail) => FrameWith(ch, p, tail)
    case Truncated(p, n) => FrameWith(ch, p, [])[..Min(n, 4 + |p|)]
    case Other(d) => d
  }

  lemma {:induction false} FrameHead(h: Bytes, rest: Bytes)
    requires |h| == 4
    ensures var d := h + rest;
      |d| == 4 + |rest| && d[0] == h[0] && d[1] == h[1] && d[2] == h[2] && d[3] == h[3] && d[4..] == rest
  {
  }

  lemma {:induction false} FrameFields(ch: uint16, p: Bytes, tail: Bytes)
    requires |p| < 0x1_0000
    ensures var d := FrameWith(ch, p, tail);
      && |d| == 4 + |p| + |tail| && Get16(d, 0) == ch && Get16(d, 2) == |p| && d[4..4 + |p|] == p
      && d[0] == ch / 256
  {
    var d, h := FrameWith(ch, p, tail), Put16(ch) + Put16(|p|);
    Assoc(h, p, tail);
    FrameHead(h, p + tail);
    assert h[0..2] == Put16(ch) && h[2..4] == Put16(|p|);
    assert d[4..][..|p|] == p;
  }

  /** A frame cut inside its payload is dropped: its length field no longer fits. */
  lemma {:induction false} CutFrame(ch: uint16, p: Bytes, tail: Bytes, n: nat)
    requires |p| < 0x1_0000 && n < 4 + |p|
    ensures Accept(ch, FrameWith(ch, p, tail)[..n]) == None
  {
    var d := FrameWith(ch, p, tail);
    FrameFields(ch, p, tail);
    if n >= 4 {
      assert Get16(d[..n], 2) == Get16(d, 2);
    }
  }

  lemma {:induction false} UnrelatedDropped(ch: uint16, d: Bytes)
    requires Unrelated(ch, d)
    ensures Accept(ch, Stored(d)) == None
  {
    if |d| >= 4 {
      assert Stored(d)[0] == d[0] && Get16(Stored(d), 0) == Get16(d, 0);
    }
  }

  /** No message that Encode prints with a STUN type, whole or cut, is ever taken for ChannelData. */
  lemma {:induction false} StunNotChannelData(
      ch: uint16, c: Stun.Crypto, m: Stun.Msg, key: Option<Bytes>, withFp: bool, n: nat)
    requires m.typ < 0x4000 && n <= |Stun.Wire(c, m, key, withFp)|
    ensures var d := Stun.Wire(c, m, key, withFp)[..n]; Unrelated(ch, d) && Accept(ch, Stored(d)) == None
  {
    StunTheorems.EncodedShape(c, m, key, withFp);
    var w := Stun.Wire(c, m, key, withFp);
    assert n > 0 ==> w[..n][0] == w[0];
    UnrelatedDropped(ch, w[..n]);
  }

  /** Nor is a frame of another channel, padded or not, whole or cut. */
  lemma {:induction false} ForeignFrame(ch: uint16, other: uint16, p: Bytes, tail: Bytes, n: nat)
    requires other != ch && |p| < 0x1_0000 && n <= |FrameWith(other, p, tail)|
    ensures var d := FrameWith(other, p, tail)[..n]; Unrelated(ch, d) && Accept(ch, Stored(d)) == None
  {
    var w := FrameWith(other, p, tail);
    FrameFields(other, p, tail);
    assert n >= 4 ==> Get16(w[..n], 0) == Get16(w, 0);
    UnrelatedDropped(ch, w[..n]);
  }

  lemma {:induction false} OwnAccepted(ch: uint16, p: Bytes, tail: Bytes)
    requires ch >= 0x4000 && 4 + |p| <= READ_BUFFER
    ensures Accept(ch, Stored(FrameWith(ch, p, tail))) == Some(p)
  {
    var kept := tail[..Min(|tail|, READ_BUFFER - 4 - |p|)];
    assert Stored(FrameWith(ch, p, tail)) == FrameWith(ch, p, kept);
    FrameFields(ch, p, kept);
  }

  lemma {:induction false} AcceptOne(ch: uint16, t: Traffic)
    requires 0x4000 <= ch <= 0x7FFF && Plausible(ch, t)
    ensures Accept(ch, Stored(Datagram(ch, t))) == if t.Own? then Some(t.p) else None
  {
    match t
    case Own(p, tail) => OwnAccepted(ch, p, tail);
    case Truncated(p, n) =>
      CutFrame(ch, p, [], Min(n, READ_BUFFER));
      assert Stored(Datagram(ch, t)) == FrameWith(ch, p, [])[..Min(n, READ_BUFFER)];
    case Other(d) => UnrelatedDropped(ch, d);
  }

  lemma {:induction false} FrameOf(d: Bytes, k: nat)
    requires 4 <= k <= |d| && Get16(d, 2) == k - 4
    ensures FrameWith(Get16(d, 0), d[4..k], d[k..]) == d
  {
    StunTheorems.Put16Get16(d, 0);
    StunTheorems.Put16Get16(d, 2);
    StunTheorems.JoinSlices(d, 2, 4);
    StunTheorems.JoinSlices(d, 4, k);
    StunTheorems.JoinSlices(d, k, |d|);
  }

  /** Traffic covers every datagram that a read can store. */
  lemma {:induction false} AnyDatagram(ch: uint16, d: Bytes) returns (t: Traffic)
    requires |d| <= READ_BUFFER
    ensures Plausible(ch, t) && Datagram(ch, t) == d
  {
    if Unrelated(ch, d) {
      return Other(d);
    }
    var k := 4 + Get16(d, 2);
    if k <= |d| {
      FrameOf(d, k);
      return Own(d[4..k], d[k..]);
    }
    var whole := d + Zeros(k - |d|);
    assert Get16(whole, 0) == Get16(d, 0) && Get16(whole, 2) == Get16(d, 2);
    FrameOf(whole, k);
    assert whole[k..] == [] && whole[..|d|] == d;
    return Truncated(whole[4..k], |d|);
  }

  ghost function Datagrams(ch: uint16, ts: seq<Traffic>): seq<Bytes> {
    if ts == [] then [] else [Datagram(ch, ts[0])] + Datagrams(ch, ts[1..])
  }

  ghost function OwnPayloads(ts: seq<Traffic>): seq<Bytes> {
    if ts == [] then [] else (if ts[0].Own? then [ts[0].p] else []) + OwnPayloads(ts[1..])
  }

  /** Successive Reads return exactly this channel's payloads, in order, whatever they are mixed with. */
  lemma {:induction false} DeliversOwn(ch: uint16, ts: seq<Traffic>)
    requires 0x4000 <= ch <= 0x7FFF && forall i :: 0 <= i < |ts| ==> Plausible(ch, ts[i])
    ensures Deliver(ch, Datagrams(ch, ts)) == OwnPayloads(ts)
  {
    if ts == [] {
    } else {
      AcceptOne(ch, ts[0]);
      DeliversOwn(ch, ts[1..]);
      assert Datagrams(ch, ts)[1..] == Datagrams(ch, ts[1..]);
    }
  }
}
