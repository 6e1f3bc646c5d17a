/**
 The TLS side of cmd/lanturn-phase4: STUN requests and ChannelData frames written to one byte stream,
 and the reader that takes one STUN message at a time off it.
 */
module StreamFraming {
  import opened Common
  import opened Stun
  import StunMessage
  import StunTheorems
  import ChannelData

  // ----- What the client writes -----

  datatype Item =
    | Request(c: Crypto, m: Msg, key: Option<Bytes>, withFp: bool)
    | Data(ch: uint16, p: Bytes)

  ghost predicate Sendable(it: Item) {
    match it
    case Request(c, m, key, withFp) => m.typ < 0x4000 && StunTheorems.Fits(c, m, key, withFp)
    case Data(ch, p) => 0x4000 <= ch <= 0x7FFF && |p| <= ChannelData.MAX_DATA
  }

  ghost function ItemWire(it: Item): Bytes {
    match it
    case Request(c, m, key, withFp) => Wire(c, m, key, withFp)
    case Data(ch, p) => ChannelData.Frame(ch, p)
  }

  ghost function StreamOf(its: seq<Item>): Bytes {
    if its == [] then [] else ItemWire(its[0]) + StreamOf(its[1..])
  }

  // ----- A splitter written from section 12.4 and section 12.5 of RFC 8656 -----

  datatype Frame = StunFrame(raw: Bytes) | ChannelFrame(ch: uint16, p: Bytes)

  /** The first frame and the number of stream bytes it takes, told apart by the two leading bits. */
  function SplitOne(b: Bytes): (r: Option<(Frame, nat)>)
    ensures r.Some? ==> 0 < r.value.1 <= |b|
  {
    if |b| < 4 then None
    else if b[0] < 0x40 then
      if |b| < 20 || Get32(b, 4) != 0x2112A442 || |b| < 20 + Get16(b, 2) then None
      else Some((StunFrame(b[..20 + Get16(b, 2)]), 20 + Get16(b, 2)))
    else if b[0] < 0x80 then
      var size := 4 + Get16(b, 2) + PadLen(Get16(b, 2));
      if |b| < size then None
      else Some((ChannelFrame(Get16(b, 0), b[4..4 + Get16(b, 2)]), size))
    else None
  }

  function Split(b: Bytes): Option<seq<Frame>> {
    if b == [] then Some([])
    else
      match SplitOne(b)
      case None => None
      case Some((f, n)) =>
        match Split(b[n..])
        case None => None
        case Some(fs) => Some([f] + fs)
  }

  ghost function FrameOf(it: Item): Frame {
    match it
    case Request(_, _, _, _) => StunFrame(ItemWire(it))
    case Data(ch, p) => ChannelFrame(ch, p)
  }

  ghost function FramesOf(its: seq<Item>): seq<Frame> {
    if its == [] then [] else [FrameOf(its[0])] + FramesOf(its[1..])
  }

  lemma {:induction false} HeadFields(w: Bytes, rest: Bytes)
    requires |w| >= 4
    ensures (w + rest)[0] == w[0] && Get16(w + rest, 0) == Get16(w, 0) && Get16(w + rest, 2) == Get16(w, 2)
    ensures |w| >= 8 ==> Get32(w + rest, 4) == Get32(w, 4)
    ensures (w + rest)[..|w|] == w && (w + rest)[|w|..] == rest
  {
  }

  lemma {:induction false} SplitRequest(c: Crypto, m: Msg, key: Option<Bytes>, withFp: bool, rest: Bytes)
    requires Sendable(Request(c, m, key, withFp))
    ensures var w := Wire(c, m, key, withFp); SplitOne(w + rest) == Some((StunFrame(w), |w|))
  {
    var w, body := Wire(c, m, key, withFp), AttrsWire(FullAttrs(c, m, key, withFp));
    StunTheorems.EncodedShape(c, m, key, withFp);
    HeaderFields(m.typ, |body|, m.txId, body);
    HeadFields(w, rest);
  }

  lemma {:induction false} PadAfterHeader(n: nat)
    ensures PadLen(4 + n) == PadLen(n)
  {
  }

  lemma {:induction false} SliceOfFront(w: Bytes, rest: Bytes, lo: nat, hi: nat)
    requires lo <= hi <= |w|
    ensures (w + rest)[lo..hi] == w[lo..hi]
  {
  }

  lemma {:induction false} SplitData(ch: uint16, p: Bytes, rest: Bytes)
    requires Sendable(Data(ch, p))
    ensures var w := ChannelData.Frame(ch, p); SplitOne(w + rest) == Some((ChannelFrame(ch, p), |w|))
  {
    var w := ChannelData.Frame(ch, p);
    ChannelData.FrameFields(ch, p, Zeros(PadLen(4 + |p|)));
    HeadFields(w, rest);
    SliceOfFront(w, rest, 4, 4 + |p|);
    PadAfterHeader(|p|);
  }

  /** Whatever sequence of requests and frames is written, the stream splits back into exactly those. */
  lemma {:induction false} SplitsBack(its: seq<Item>)
    requires forall i :: 0 <= i < |its| ==> Sendable(its[i])
    ensures Split(StreamOf(its)) == Some(FramesOf(its))
  {
    if its == [] {
    } else {
      var it, rest := its[0], StreamOf(its[1..]);
      SplitsBack(its[1..]);
      match it {
        case Request(c, m, key, withFp) => SplitRequest(c, m, key, withFp, rest);
        case Data(ch, p) => SplitData(ch, p, rest);
      }
      assert (ItemWire(it) + rest)[|ItemWire(it)|..] == rest;
    }
  }

  /** So two different frame sequences never share a byte stream. */
  lemma {:induction false} StreamIsUnambiguous(xs: seq<Item>, ys: seq<Item>)
    requires forall i :: 0 <= i < |xs| ==> Sendable(xs[i])
    requires forall i :: 0 <= i < |ys| ==> Sendable(ys[i])
    ensures StreamOf(xs) == StreamOf(ys) ==> FramesOf(xs) == FramesOf(ys)
  {
    SplitsBack(xs);
    SplitsBack(ys);
  }

  /** Every frame starts at a multiple of four. */
  lemma {:induction false} FramesAligned(its: seq<Item>, i: nat)
    requires i <= |its|
    ensures |StreamOf(its[..i])| % 4 == 0
  {
    if i == 0 {
    } else {
      FramesAligned(its[1..], i - 1);
      assert its[..i][1..] == its[1..][..i - 1];
      match its[0] {
        case Request(c, m, key, withFp) => StunTheorems.EncodedShape(c, m, key, withFp);
        case Data(ch, p) => Padded(4 + |p|);
      }
      SumAligned(|ItemWire(its[0])|, |StreamOf(its[1..][..i - 1])|);
    }
  }

  // ----- The stream reader -----

  datatype ReadError = HeaderCut | BodyCut | Malformed(error: DecodeError)
  datatype Outcome = Message(m: Msg) | Failed(error: ReadError)

  /** One `readSTUNFromStream`: the outcome and the unread rest of the stream. */
  function ReadStun(b: Bytes): (Outcome, Bytes) {
    if |b| < 20 then (Failed(HeaderCut), [])
    else if |b| < 20 + Get16(b, 2) then (Failed(BodyCut), [])
    else
      var n := 20 + Get16(b, 2);
      match Parse(b[..n])
      case Ok(m) => (Message(m), b[n..])
      case Err(e) => (Failed(Malformed(e)), b[n..])
  }

  /** A connection: the bytes written to it and the bytes it has yet to return before end of file. */
  class TlsConn {
    var sent: Bytes
    var inbound: Bytes

    constructor (inbound: Bytes)
      ensures this.inbound == inbound && sent == []
    {
      this.sent, this.inbound := [], inbound;
    }

    method SendChannelData(ch: uint16, payload: Bytes) returns (ok: bool)
      modifies this`sent
      ensures ok <==> |payload| <= 65531
      ensures sent == if ok then old(sent) + ItemWire(Data(ch, payload)) else old(sent)
    {
      if |payload| > 65535 - 4 {
        return false;
      }
      var frame := ChannelData.BuildFrame(ch, payload);
      sent := sent + frame;
      return true;
    }

    /** io.ReadFull: all n bytes, or an error after consuming what there was. */
    method ReadFull(n: nat) returns (r: Option<Bytes>)
      modifies this`inbound
      ensures r == if |old(inbound)| >= n then Some(old(inbound)[..n]) else None
      ensures inbound == if |old(inbound)| >= n then old(inbound)[n..] else []
    {
      if |inbound| < n {
        inbound := [];
        return None;
      }
      r := Some(inbound[..n]);
      inbound := inbound[n..];
    }

    method ReadSTUNFromStream() returns (r: Outcome)
      modifies this`inbound
      ensures (r, inbound) == ReadStun(old(inbound)) && sent == old(sent)
    {
      ghost var b := inbound;
      var hdr := ReadFull(20);
      if hdr.None? {
        return Failed(HeaderCut);
      }
      var declaredLen: int := Get16(hdr.value, 2);
      assert Get16(hdr.value, 2) == Get16(b, 2);
      var body := ReadFull(declaredLen);
      if body.None? {
        return Failed(BodyCut);
      }
      var full := hdr.value + body.value;
      assert full == b[..20 + declaredLen] && inbound == b[20 + declaredLen..];
      var m := StunMessage.Decode(full);
      match m {
        case Ok(v) => return Message(v);
        case Err(e) => return Failed(Malformed(e));
      }
    }
  }

  /** Reading an encoded message off the front of a stream returns it and leaves the rest. */
  lemma {:induction false} ReadOne(c: Crypto, m: Msg, key: Option<Bytes>, withFp: bool, rest: Bytes)
    requires StunTheorems.Fits(c, m, key, withFp)
    ensures ReadStun(Wire(c, m, key, withFp) + rest)
      == (Message(Msg(m.typ, m.txId, FullAttrs(c, m, key, withFp))), rest)
  {
    var w := Wire(c, m, key, withFp);
    StunTheorems.EncodedShape(c, m, key, withFp);
    StunTheorems.RoundTrip(c, m, key, withFp);
    HeadFields(w, rest);
  }

  /** A stream that ends inside a message: the header or the body cannot be read, and all of it is used up. */
  lemma {:induction false} ReadCut(c: Crypto, m: Msg, key: Option<Bytes>, withFp: bool, n: nat)
    requires StunTheorems.Fits(c, m, key, withFp) && n < |Wire(c, m, key, withFp)|
    ensures ReadStun(Wire(c, m, key, withFp)[..n]) == (Failed(if n < 20 then HeaderCut else BodyCut), [])
  {
    var w := Wire(c, m, key, withFp);
    StunTheorems.EncodedShape(c, m, key, withFp);
    if n >= 20 {
      assert Get16(w[..n], 2) == Get16(w, 2);
    }
  }

  /** A message that Decode refuses is still taken off the stream, up to its declared end. */
  lemma {:induction false} ReadRefused(hdr: Bytes, body: Bytes, rest: Bytes)
    requires |hdr| == 20 && |body| == Get16(hdr, 2) && hdr[4..8] != [0x21, 0x12, 0xA4, 0x42]
    ensures ReadStun(hdr + body + rest) == (Failed(Malformed(BadCookie)), rest)
  {
    var w := hdr + body;
    HeadFields(w, rest);
    HeadFields(hdr, body);
    assert w[4..8] == hdr[4..8];
    var offs, attrs := StunTheorems.DecodeVerdict(w);
  }

  /** n calls of readSTUNFromStream. */
  function ReadMany(n: nat, b: Bytes): (seq<Outcome>, Bytes) {
    if n == 0 then ([], b)
    else
      var (first, rest) := ReadStun(b);
      var (more, left) := ReadMany(n - 1, rest);
      ([first] + more, left)
  }

  ghost function Outcomes(its: seq<Item>): seq<Outcome>
    requires forall i :: 0 <= i < |its| ==> its[i].Request?
  {
    if its == [] then []
    else
      var it := its[0];
      [Message(Msg(it.m.typ, it.m.txId, FullAttrs(it.c, it.m, it.key, it.withFp)))] + Outcomes(its[1..])
  }

  /** Repeated reads of concatenated messages return them in order and leave nothing over. */
  lemma {:induction false} ReadsAll(its: seq<Item>)
    requires forall i :: 0 <= i < |its| ==> its[i].Request? && Sendable(its[i])
    ensures ReadMany(|its|, StreamOf(its)) == (Outcomes(its), [])
  {
    if its == [] {
    } else {
      var it := its[0];
      ReadOne(it.c, it.m, it.key, it.withFp, StreamOf(its[1..]));
      ReadsAll(its[1..]);
    }
  }
}
