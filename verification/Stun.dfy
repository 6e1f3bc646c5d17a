/**
 The wire format of internal/stun as functions on values: section 5 and section 14 of RFC 8489.
 HMAC-SHA1, MD5, CRC-32 and base64 are parameters; nothing but their output lengths is assumed.
 Lengths go through `uint16(...)` in the code, so they wrap at 65536 here too.
 */
module Stun {
  import opened Common

  const MAGIC_COOKIE: uint32 := 0x2112A442
  const FINGERPRINT_XOR: uint32 := 0x5354554e
  const ATTR_USERNAME: uint16 := 0x0006
  const ATTR_MESSAGE_INTEGRITY: uint16 := 0x0008
  const ATTR_CHANNEL_NUMBER: uint16 := 0x000c
  const ATTR_LIFETIME: uint16 := 0x000d
  const ATTR_XOR_PEER_ADDRESS: uint16 := 0x0012
  const ATTR_REALM: uint16 := 0x0014
  const ATTR_NONCE: uint16 := 0x0015
  const ATTR_REQUESTED_TRANSPORT: uint16 := 0x0019
  const ATTR_FINGERPRINT: uint16 := 0x8028

  type Digest20 = b: Bytes | |b| == 20 witness seq(20, _ => 0)
  type Digest16 = b: Bytes | |b| == 16 witness seq(16, _ => 0)
  type TxId = b: Bytes | |b| == 12 witness seq(12, _ => 0)

  datatype Crypto = Crypto(hmac: (Bytes, Bytes) -> Digest20, md5: Bytes -> Digest16, crc: Bytes -> uint32,
                           base64: Bytes -> Bytes)

  datatype Attribute = Attribute(typ: uint16, body: Bytes)
  datatype Msg = Msg(typ: uint16, txId: TxId, attrs: seq<Attribute>)
  datatype DecodeError = ShortMessage | BadCookie | LengthExceedsBuffer | TruncatedAttribute | BodyPastEnd
  datatype Result<+T> = Ok(value: T) | Err(error: DecodeError)

  // ----- Printing -----

  function AttrWire(a: Attribute): (w: Bytes)
    ensures |w| == 4 + |a.body| + PadLen(|a.body|)
  {
    Put16(a.typ) + Put16(Low16(|a.body|)) + a.body + Zeros(PadLen(|a.body|))
  }

  function AttrsWire(attrs: seq<Attribute>): Bytes {
    if attrs == [] then [] else AttrWire(attrs[0]) + AttrsWire(attrs[1..])
  }

  function Header(typ: uint16, length: nat, txId: TxId): (h: Bytes)
    ensures |h| == 20
  {
    Put16(typ) + Put16(Low16(length)) + Put32(MAGIC_COOKIE) + txId
  }

  /** The MESSAGE-INTEGRITY attribute: an HMAC over a header whose length ends at that attribute. */
  function Integrity(c: Crypto, m: Msg, key: Bytes): Attribute {
    var attrs := AttrsWire(m.attrs);
    Attribute(ATTR_MESSAGE_INTEGRITY, c.hmac(key, Header(m.typ, |attrs| + 24, m.txId) + attrs))
  }

  function WithIntegrity(c: Crypto, m: Msg, key: Option<Bytes>): seq<Attribute> {
    match key
    case None => m.attrs
    case Some(k) => m.attrs + [Integrity(c, m, k)]
  }

  function Fingerprint(c: Crypto, covered: Bytes): Attribute {
    Attribute(ATTR_FINGERPRINT, Put32(Xor32(c.crc(covered), FINGERPRINT_XOR)))
  }

  function WithFingerprint(c: Crypto, m: Msg, attrs: seq<Attribute>): seq<Attribute> {
    attrs + [Fingerprint(c, Header(m.typ, |AttrsWire(attrs)| + 8, m.txId) + AttrsWire(attrs))]
  }

  /** All attributes of the encoded message: the caller's, then what Encode adds. */
  function FullAttrs(c: Crypto, m: Msg, key: Option<Bytes>, withFp: bool): seq<Attribute> {
    var attrs := WithIntegrity(c, m, key);
    if withFp then WithFingerprint(c, m, attrs) else attrs
  }

  /** The encoded message: one header whose length is that of everything after it, then the TLVs. */
  function Wire(c: Crypto, m: Msg, key: Option<Bytes>, withFp: bool): Bytes {
    var body := AttrsWire(FullAttrs(c, m, key, withFp));
    Header(m.typ, |body|, m.txId) + body
  }

  // ----- Parsing -----

  /** The attribute loop of Decode from offset `pos`; it runs while pos < end but bounds-checks against the buffer. */
  function ParseAttrs(buf: Bytes, pos: nat, end: nat): Result<seq<Attribute>>
    requires end <= |buf|
    decreases end - pos
  {
    if pos >= end then Ok([])
    else if pos + 4 > |buf| then Err(TruncatedAttribute)
    else
      var alen := Get16(buf, pos + 2);
      if pos + 4 + alen > |buf| then Err(BodyPastEnd)
      else
        var a := Attribute(Get16(buf, pos), buf[pos + 4..pos + 4 + alen]);
        match ParseAttrs(buf, pos + 4 + alen + PadLen(alen), end)
        case Err(e) => Err(e)
        case Ok(rest) => Ok([a] + rest)
  }

  function Parse(buf: Bytes): Result<Msg> {
    if |buf| < 20 then Err(ShortMessage)
    else if Get32(buf, 4) != MAGIC_COOKIE then Err(BadCookie)
    else
      var declared := Get16(buf, 2);
      if 20 + declared > |buf| then Err(LengthExceedsBuffer)
      else
        match ParseAttrs(buf, 20, 20 + declared)
        case Err(e) => Err(e)
        case Ok(attrs) => Ok(Msg(Get16(buf, 0), buf[8..20], attrs))
  }

  /** The body of the first attribute of a type. */
  function FirstAttr(attrs: seq<Attribute>, typ: uint16): Option<Bytes> {
    if attrs == [] then None
    else if attrs[0].typ == typ then Some(attrs[0].body)
    else FirstAttr(attrs[1..], typ)
  }

  // ----- Facts about the printer -----

  lemma {:induction false} AttrsWireAppend(xs: seq<Attribute>, ys: seq<Attribute>)
    ensures AttrsWire(xs + ys) == AttrsWire(xs) + AttrsWire(ys)
  {
    if xs == [] {
      assert xs + ys == ys;
    } else {
      AttrsWireAppend(xs[1..], ys);
      assert (xs + ys)[1..] == xs[1..] + ys;
      Assoc(AttrWire(xs[0]), AttrsWire(xs[1..]), AttrsWire(ys));
    }
  }

  lemma {:induction false} SumAligned(a: nat, b: nat)
    requires a % 4 == 0 && b % 4 == 0
    ensures (a + b) % 4 == 0
  {
  }

  lemma {:induction false} AttrWireAligned(a: Attribute)
    ensures |AttrWire(a)| % 4 == 0
  {
    Padded(|a.body|);
    SumAligned(4, |a.body| + PadLen(|a.body|));
  }

  lemma {:induction false} AttrsWireAligned(attrs: seq<Attribute>)
    ensures |AttrsWire(attrs)| % 4 == 0
  {
    if attrs != [] {
      AttrWireAligned(attrs[0]);
      AttrsWireAligned(attrs[1..]);
      SumAligned(|AttrWire(attrs[0])|, |AttrsWire(attrs[1..])|);
    }
  }

  lemma {:induction false} AttrsWireSnoc(xs: seq<Attribute>, a: Attribute)
    ensures AttrsWire(xs + [a]) == AttrsWire(xs) + AttrWire(a)
  {
    AttrsWireAppend(xs, [a]);
    assert AttrsWire([a]) == AttrWire(a);
  }

  /** The fields of an encoded header read back from any message that starts with it. */
  lemma {:induction false} HeaderFields(typ: uint16, length: nat, txId: TxId, body: Bytes)
    ensures var w := Header(typ, length, txId) + body;
      && Get16(w, 0) == typ && Get16(w, 2) == Low16(length) && Get32(w, 4) == MAGIC_COOKIE
      && w[8..20] == txId && w[20..] == body
  {
    var h := Header(typ, length, txId);
    assert h[0..2] == Put16(typ) && h[2..4] == Put16(Low16(length)) && h[4..8] == Put32(MAGIC_COOKIE);
    assert h[8..20] == txId;
    var w := h + body;
    assert forall i :: 0 <= i < 20 ==> w[i] == h[i];
    assert w[8..20] == h[8..20];
  }

  lemma {:induction false} AttrWireHead(a: Attribute)
    requires |a.body| < 0x1_0000
    ensures var w := AttrWire(a); w[0..2] == Put16(a.typ) && w[2..4] == Put16(|a.body|)
  {
    var h, rest := Put16(a.typ) + Put16(|a.body|), a.body + Zeros(PadLen(|a.body|));
    assert AttrWire(a) == h + rest;
    assert (h + rest)[0..2] == Put16(a.typ);
    assert (h + rest)[2..4] == Put16(|a.body|);
  }

  lemma {:induction false} AttrWireBody(a: Attribute)
    ensures AttrWire(a)[4..4 + |a.body|] == a.body
  {
  }

  lemma {:induction false} Embedded(pre: Bytes, w: Bytes, post: Bytes, lo: nat, hi: nat)
    requires lo <= hi <= |w|
    ensures (pre + (w + post))[|pre| + lo..|pre| + hi] == w[lo..hi]
  {
  }

  lemma {:induction false} SliceGet16(buf: Bytes, at: nat, x: uint16)
    requires at + 2 <= |buf| && buf[at..at + 2] == Put16(x)
    ensures Get16(buf, at) == x
  {
    assert buf[at] == buf[at..at + 2][0] && buf[at + 1] == buf[at..at + 2][1];
  }

  /** One attribute printed at an offset reads back, whatever surrounds it, if its length fits 16 bits. */
  lemma {:induction false} AttrFields(pre: Bytes, a: Attribute, post: Bytes)
    requires |a.body| < 0x1_0000
    ensures var buf, p := pre + (AttrWire(a) + post), |pre|;
      && Get16(buf, p) == a.typ && Get16(buf, p + 2) == |a.body|
      && buf[p + 4..p + 4 + |a.body|] == a.body
  {
    var w := AttrWire(a);
    AttrWireHead(a);
    AttrWireBody(a);
    Embedded(pre, w, post, 0, 2);
    Embedded(pre, w, post, 2, 4);
    Embedded(pre, w, post, 4, 4 + |a.body|);
    SliceGet16(pre + (w + post), |pre|, a.typ);
    SliceGet16(pre + (w + post), |pre| + 2, |a.body|);
  }
}
