/** Round trips, the verifiers of RFC 8489, and what Decode accepts. */
module StunTheorems {
  import opened Common
  import opened Stun

  ghost predicate BodiesFit(attrs: seq<Attribute>) {
    forall i :: 0 <= i < |attrs| ==> |attrs[i].body| < 0x1_0000
  }

  /** Offset of the last attribute in the printed list. */
  ghost function LastStart(attrs: seq<Attribute>): nat
    requires attrs != []
  {
    if |attrs| == 1 then 0 else |AttrWire(attrs[0])| + LastStart(attrs[1..])
  }

  lemma {:induction false} LastWire(attrs: seq<Attribute>)
    requires attrs != []
    ensures |AttrsWire(attrs)| == LastStart(attrs) + |AttrWire(attrs[|attrs| - 1])|
  {
    if |attrs| == 1 {
      assert AttrsWire(attrs[1..]) == [];
    } else {
      LastWire(attrs[1..]);
    }
  }

  lemma {:induction false} ParseOne(pre: Bytes, a: Attribute, post: Bytes, end: nat)
    requires |a.body| < 0x1_0000 && |pre| < end <= |pre| + (|AttrWire(a)| + |post|)
    ensures ParseAttrs(pre + (AttrWire(a) + post), |pre|, end) ==
      match ParseAttrs((pre + AttrWire(a)) + post, |pre + AttrWire(a)|, end) {
        case Err(e) => Err(e)
        case Ok(rest) => Ok([a] + rest)
      }
  {
    AttrFields(pre, a, post);
    Assoc(pre, AttrWire(a), post);
  }

  /** A parse limit that lies beyond the start of the last attribute recovers every attribute. */
  lemma {:induction false} ParsePrinted(pre: Bytes, attrs: seq<Attribute>, end: nat)
    requires BodiesFit(attrs) && end <= |pre| + |AttrsWire(attrs)|
    requires attrs != [] ==> |pre| + LastStart(attrs) < end
    ensures ParseAttrs(pre + AttrsWire(attrs), |pre|, end) == Ok(attrs)
    decreases |attrs|
  {
    if attrs == [] {
    } else {
      var a, rest := attrs[0], attrs[1..];
      assert BodiesFit(rest);
      ParsePrinted(pre + AttrWire(a), rest, end);
      ParseOne(pre, a, AttrsWire(rest), end);
      assert [a] + rest == attrs;
    }
  }

  /** A successful parse has started its last attribute before the limit. */
  lemma {:induction false} ParsedLastStarts(buf: Bytes, pos: nat, end: nat)
    requires end <= |buf| && ParseAttrs(buf, pos, end).Ok?
    ensures var attrs := ParseAttrs(buf, pos, end).value;
      BodiesFit(attrs) && (attrs != [] ==> pos + LastStart(attrs) < end)
    decreases end - pos
  {
    if pos < end {
      var attrs := ParseAttrs(buf, pos, end).value;
      var alen := Get16(buf, pos + 2);
      var next := pos + 4 + alen + PadLen(alen);
      ParsedLastStarts(buf, next, end);
      assert attrs[1..] == ParseAttrs(buf, next, end).value;
    }
  }

  lemma {:induction false} Low16Fits(n: nat)
    ensures Low16(n) <= n
  {
  }

  /** Parse, when the header fields are known. */
  lemma {:induction false} ParseHeaded(wire: Bytes, typ: uint16, txId: TxId, declared: nat, attrs: seq<Attribute>)
    requires 20 + declared <= |wire| && Get16(wire, 0) == typ && Get16(wire, 2) == declared
    requires Get32(wire, 4) == MAGIC_COOKIE && wire[8..20] == txId
    ensures Parse(wire) == Ok(Msg(typ, txId, attrs)) <==> ParseAttrs(wire, 20, 20 + declared) == Ok(attrs)
  {
  }

  lemma {:induction false} ParseOfPrinted(typ: uint16, txId: TxId, body: Bytes, attrs: seq<Attribute>)
    ensures var wire := Header(typ, |body|, txId) + body;
      && |wire| == 20 + |body|
      && (Parse(wire) == Ok(Msg(typ, txId, attrs)) <==> ParseAttrs(wire, 20, 20 + Low16(|body|)) == Ok(attrs))
  {
    HeaderFields(typ, |body|, txId, body);
    Low16Fits(|body|);
    ParseHeaded(Header(typ, |body|, txId) + body, typ, txId, Low16(|body|), attrs);
  }

  ghost predicate Fits(c: Crypto, m: Msg, key: Option<Bytes>, withFp: bool) {
    |AttrsWire(FullAttrs(c, m, key, withFp))| < 0x1_0000
  }

  ghost predicate OverlongLast(attrs: seq<Attribute>) {
    attrs != [] && BodiesFit(attrs) && |attrs[|attrs| - 1].body| >= 65533 && |AttrsWire(attrs)| < 0x2_0000
  }

  /**
   The one shape whose length field wraps and which Decode still reads whole: nothing is added after
   the caller's attributes and the last of them alone is longer than the length field can say.
   */
  ghost predicate WrapsOnLast(m: Msg, key: Option<Bytes>, withFp: bool) {
    key.None? && !withFp && OverlongLast(m.attrs)
  }

  lemma {:induction false} BodiesWithinWire(attrs: seq<Attribute>)
    requires |AttrsWire(attrs)| < 0x1_0000
    ensures BodiesFit(attrs)
  {
    if attrs == [] {
    } else {
      BodiesWithinWire(attrs[1..]);
    }
  }

  /** The attribute loop recovers a printed list exactly when its limit lies beyond the last attribute's start. */
  lemma {:induction false} ParseBack(pre: Bytes, attrs: seq<Attribute>, limit: nat)
    requires limit <= |AttrsWire(attrs)|
    ensures ParseAttrs(pre + AttrsWire(attrs), |pre|, |pre| + limit) == Ok(attrs)
      <==> BodiesFit(attrs) && (attrs == [] || LastStart(attrs) < limit)
  {
    if BodiesFit(attrs) && (attrs == [] || LastStart(attrs) < limit) {
      ParsePrinted(pre, attrs, |pre| + limit);
    }
    if ParseAttrs(pre + AttrsWire(attrs), |pre|, |pre| + limit) == Ok(attrs) {
      ParsedLastStarts(pre + AttrsWire(attrs), |pre|, |pre| + limit);
    }
  }

  lemma {:induction false} WrapArithmetic(total: nat, last: nat)
    requires 0 < last <= total && last % 4 == 0 && last <= 65540
    ensures total - last < Low16(total) <==> total < 0x1_0000 || (last == 65540 && total < 0x2_0000)
  {
  }

  lemma {:induction false} AttrSize(n: nat)
    requires n < 0x1_0000
    ensures (4 + n + PadLen(n)) % 4 == 0 && 4 + n + PadLen(n) <= 65540
    ensures 4 + n + PadLen(n) == 65540 <==> n >= 65533
  {
  }

  /** When the wrapped limit reaches the last attribute. */
  lemma {:induction false} WrappedLimit(attrs: seq<Attribute>)
    requires attrs != [] && BodiesFit(attrs)
    ensures var total, last := |AttrsWire(attrs)|, |attrs[|attrs| - 1].body|;
      LastStart(attrs) < Low16(total) <==> total < 0x1_0000 || (last >= 65533 && total < 0x2_0000)
  {
    LastWire(attrs);
    AttrSize(|attrs[|attrs| - 1].body|);
    WrapArithmetic(|AttrsWire(attrs)|, |AttrWire(attrs[|attrs| - 1])|);
  }

  /** Encode adds exactly what was asked for, after the caller's attributes. */
  lemma {:induction false} AddedAttrs(c: Crypto, m: Msg, key: Option<Bytes>, withFp: bool)
    ensures var full := FullAttrs(c, m, key, withFp);
      && m.attrs <= full && |full| == |m.attrs| + (if key.Some? then 1 else 0) + (if withFp then 1 else 0)
      && (key.Some? ==> full[|m.attrs|].typ == 0x0008 && |full[|m.attrs|].body| == 20)
      && (withFp ==> full[|full| - 1].typ == 0x8028 && |full[|full| - 1].body| == 4)
  {
  }

  lemma {:induction false} ReadsBackWhen(attrs: seq<Attribute>)
    ensures BodiesFit(attrs) && (attrs == [] || LastStart(attrs) < Low16(|AttrsWire(attrs)|))
      <==> |AttrsWire(attrs)| < 0x1_0000 || OverlongLast(attrs)
  {
    if |AttrsWire(attrs)| < 0x1_0000 {
      BodiesWithinWire(attrs);
    }
    if attrs != [] && BodiesFit(attrs) {
      WrappedLimit(attrs);
    }
  }

  lemma {:induction false} ParseBackWrapped(header: Bytes, attrs: seq<Attribute>)
    requires |header| == 20
    ensures var body := AttrsWire(attrs);
      ParseAttrs(header + body, 20, 20 + Low16(|body|)) == Ok(attrs) <==> |body| < 0x1_0000 || OverlongLast(attrs)
  {
    ParseBack(header, attrs, Low16(|AttrsWire(attrs)|));
    ReadsBackWhen(attrs);
  }

  lemma {:induction false} PrintedRoundTrip(typ: uint16, txId: TxId, attrs: seq<Attribute>)
    ensures var body := AttrsWire(attrs);
      Parse(Header(typ, |body|, txId) + body) == Ok(Msg(typ, txId, attrs)) <==> |body| < 0x1_0000 || OverlongLast(attrs)
  {
    var body := AttrsWire(attrs);
    ParseOfPrinted(typ, txId, body, attrs);
    ParseBackWrapped(Header(typ, |body|, txId), attrs);
  }

  /**
   Decoding what Encode printed gives back type, transaction id and attributes in order, followed by
   exactly the MESSAGE-INTEGRITY and FINGERPRINT that were asked for, if and only if the attributes
   fit the 16-bit length field or the message has the wrapping shape above.
   */
  lemma {:induction false} RoundTrip(c: Crypto, m: Msg, key: Option<Bytes>, withFp: bool)
    ensures Parse(Wire(c, m, key, withFp)) == Ok(Msg(m.typ, m.txId, FullAttrs(c, m, key, withFp)))
      <==> Fits(c, m, key, withFp) || WrapsOnLast(m, key, withFp)
  {
    AddedAttrs(c, m, key, withFp);
    PrintedRoundTrip(m.typ, m.txId, FullAttrs(c, m, key, withFp));
  }

  lemma {:induction false} Put16Get16(b: Bytes, i: nat)
    requires i + 2 <= |b|
    ensures Put16(Get16(b, i)) == b[i..i + 2]
  {
  }

  lemma {:induction false} Put32Get32(b: Bytes, i: nat)
    requires i + 4 <= |b|
    ensures Put32(Get32(b, i)) == b[i..i + 4]
  {
    Put16Get16(b, i);
    Put16Get16(b, i + 2);
    assert b[i..i + 4] == b[i..i + 2] + b[i + 2..i + 4];
    var hi: int := Get16(b, i);
    var lo: int := Get16(b, i + 2);
    assert (hi * 0x1_0000 + lo) / 0x1_0000 == hi && (hi * 0x1_0000 + lo) % 0x1_0000 == lo;
  }

  lemma {:induction false} PrintedShape(typ: uint16, txId: TxId, attrs: seq<Attribute>)
    ensures var body := AttrsWire(attrs);
      var wire := Header(typ, |body|, txId) + body;
      && |wire| == 20 + |body| && |wire| % 4 == 0 && Get16(wire, 0) == typ
      && (|body| < 0x1_0000 <==> |wire| == 20 + Get16(wire, 2))
      && wire[4..8] == [0x21, 0x12, 0xA4, 0x42] && wire[8..20] == txId
  {
    AttrsWireAligned(attrs);
    SumAligned(20, |AttrsWire(attrs)|);
    HeaderFields(typ, |AttrsWire(attrs)|, txId, AttrsWire(attrs));
    var wire := Header(typ, |AttrsWire(attrs)|, txId) + AttrsWire(attrs);
    Put32Get32(wire, 4);
  }

  /** Length, alignment, type, magic cookie and transaction id of every encoded message. */
  lemma {:induction false} EncodedShape(c: Crypto, m: Msg, key: Option<Bytes>, withFp: bool)
    ensures var wire := Wire(c, m, key, withFp);
      && |wire| >= 20 && |wire| % 4 == 0 && Get16(wire, 0) == m.typ
      && (Fits(c, m, key, withFp) <==> |wire| == 20 + Get16(wire, 2))
      && wire[4..8] == [0x21, 0x12, 0xA4, 0x42] && wire[8..20] == m.txId
  {
    PrintedShape(m.typ, m.txId, FullAttrs(c, m, key, withFp));
  }

  // ----- Verifiers written from section 14.5 and section 14.7 of RFC 8489 -----

  /** Offset of the first attribute of a type, walking the TLVs of buf[pos..end]. */
  function FindAttr(buf: Bytes, pos: nat, end: nat, typ: uint16): Option<nat>
    requires end <= |buf|
    decreases end - pos
  {
    if pos + 4 > end then None
    else if Get16(buf, pos) == typ then Some(pos)
    else FindAttr(buf, pos + 4 + Get16(buf, pos + 2) + PadLen(Get16(buf, pos + 2)), end, typ)
  }

  /**
   Section 14.5: the HMAC is recomputed over the message up to MESSAGE-INTEGRITY, with the length
   field rewritten to the end of that attribute.
   */
  predicate IntegrityOk(c: Crypto, wire: Bytes, key: Bytes) {
    |wire| >= 20 &&
    match FindAttr(wire, 20, |wire|, 0x0008)
    case None => false
    case Some(at) =>
      && 20 <= at && at + 24 <= |wire| && Get16(wire, at + 2) == 20
      && c.hmac(key, wire[..2] + Put16(Low16(at + 24 - 20)) + wire[4..at]) == wire[at + 4..at + 24]
  }

  /** `value` differs from `crc` in exactly the bits that are set in `mask`. */
  predicate DiffersIn(value: uint32, crc: uint32, mask: uint32) {
    forall i :: 0 <= i < 32 ==> (Bit(value, i) != Bit(crc, i) <==> Bit(mask, i) == 1)
  }

  /** Section 14.7: FINGERPRINT is the last attribute and covers everything before it with a masked CRC. */
  predicate FingerprintOk(c: Crypto, wire: Bytes) {
    |wire| >= 28 &&
    var at := |wire| - 8;
    && Get16(wire, at) == 0x8028 && Get16(wire, at + 2) == 4
    && DiffersIn(Get32(wire, at + 4), c.crc(wire[..at]), 0x5354554e)
  }

  lemma {:induction false} XorDiffersIn(crc: uint32, mask: uint32)
    ensures DiffersIn(Xor32(crc, mask), crc, mask)
  {
    Xor32Bits(crc, mask);
  }

  lemma {:induction false} DiffersOnce(v: uint32, w: uint32, crc: uint32, mask: uint32)
    requires DiffersIn(v, crc, mask) && DiffersIn(w, crc, mask)
    ensures v == w
  {
    Pow2Of32();
    forall i | 0 <= i < 32 ensures Bit(v, i) == Bit(w, i) {
      assert Bit(v, i) != Bit(crc, i) <==> Bit(mask, i) == 1;
      assert Bit(w, i) != Bit(crc, i) <==> Bit(mask, i) == 1;
    }
    BitsDetermine(32, v, w);
  }

  /** So the verdict is on one value: the CRC, exclusive or the constant. */
  lemma {:induction false} FingerprintIsXor(c: Crypto, wire: Bytes)
    ensures FingerprintOk(c, wire)
      <==> |wire| >= 28 && var at := |wire| - 8;
           Get16(wire, at) == 0x8028 && Get16(wire, at + 2) == 4
           && Get32(wire, at + 4) == Xor32(c.crc(wire[..at]), 0x5354554e)
  {
    if |wire| >= 28 {
      var at := |wire| - 8;
      var crc := c.crc(wire[..at]);
      XorDiffersIn(crc, 0x5354554e);
      if DiffersIn(Get32(wire, at + 4), crc, 0x5354554e) {
        DiffersOnce(Get32(wire, at + 4), Xor32(crc, 0x5354554e), crc, 0x5354554e);
      }
    }
  }

  ghost predicate FirstOfType(attrs: seq<Attribute>, i: nat, typ: uint16) {
    i < |attrs| && attrs[i].typ == typ && forall j :: 0 <= j < i ==> attrs[j].typ != typ
  }

  lemma {:induction false} FindPast(pre: Bytes, a: Attribute, post: Bytes, end: nat, typ: uint16)
    requires |a.body| < 0x1_0000 && end == |pre| + (|AttrWire(a)| + |post|)
    ensures FindAttr(pre + (AttrWire(a) + post), |pre|, end, typ) ==
      if a.typ == typ then Some(|pre|) else FindAttr((pre + AttrWire(a)) + post, |pre + AttrWire(a)|, end, typ)
  {
    AttrFields(pre, a, post);
    Assoc(pre, AttrWire(a), post);
  }

  /** Offset of attribute i in the printed list. */
  ghost function OffsetOf(attrs: seq<Attribute>, i: nat): nat
    requires i <= |attrs|
  {
    if i == 0 then 0 else |AttrWire(attrs[0])| + OffsetOf(attrs[1..], i - 1)
  }

  lemma {:induction false} OffsetIsLength(attrs: seq<Attribute>, i: nat)
    requires i <= |attrs|
    ensures OffsetOf(attrs, i) == |AttrsWire(attrs[..i])|
  {
    if i == 0 {
    } else {
      OffsetIsLength(attrs[1..], i - 1);
      assert attrs[..i][1..] == attrs[1..][..i - 1];
    }
  }

  lemma {:induction false} FindPrinted(pre: Bytes, attrs: seq<Attribute>, i: nat, end: nat, typ: uint16)
    requires BodiesFit(attrs) && FirstOfType(attrs, i, typ) && end == |pre| + |AttrsWire(attrs)|
    ensures FindAttr(pre + AttrsWire(attrs), |pre|, end, typ) == Some(|pre| + OffsetOf(attrs, i))
    decreases |attrs|
  {
    var a, rest := attrs[0], attrs[1..];
    FindPast(pre, a, AttrsWire(rest), end, typ);
    if i > 0 {
      assert BodiesFit(rest) && FirstOfType(rest, i - 1, typ);
      FindPrinted(pre + AttrWire(a), rest, i - 1, end, typ);
    }
  }

  lemma {:induction false} SplitAt(attrs: seq<Attribute>, i: nat)
    requires i < |attrs|
    ensures AttrsWire(attrs) == AttrsWire(attrs[..i]) + (AttrWire(attrs[i]) + AttrsWire(attrs[i + 1..]))
  {
    assert attrs == attrs[..i] + attrs[i..] && attrs[i..][1..] == attrs[i + 1..];
    AttrsWireAppend(attrs[..i], attrs[i..]);
  }

  /** Rewriting the length field of an encoded message and cutting it at an attribute boundary. */
  lemma {:induction false} Rewritten(typ: uint16, total: nat, txId: TxId, before: Bytes, after: Bytes, length: nat)
    ensures var wire := Header(typ, total, txId) + (before + after);
      wire[..2] + Put16(Low16(length)) + wire[4..20 + |before|] == Header(typ, length, txId) + before
  {
    var wire := Header(typ, total, txId) + (before + after);
    assert wire[..2] == Put16(typ);
    assert wire[4..20 + |before|] == (Put32(MAGIC_COOKIE) + txId) + before;
    var l := Put16(Low16(length));
    assert Header(typ, length, txId) == Put16(typ) + l + (Put32(MAGIC_COOKIE) + txId);
    Assoc(Put16(typ) + l, Put32(MAGIC_COOKIE) + txId, before);
  }

  /** The section 14.5 verdict on a message whose first MESSAGE-INTEGRITY attribute is `a`. */
  lemma {:induction false} VerdictAt(
      c: Crypto, typ: uint16, txId: TxId, total: nat, before: Bytes, a: Attribute, after: Bytes, key: Bytes)
    requires |a.body| < 0x1_0000 && |before| < 0x1_0000 - 24
    requires var wire := Header(typ, total, txId) + (before + (AttrWire(a) + after));
      FindAttr(wire, 20, |wire|, ATTR_MESSAGE_INTEGRITY) == Some(20 + |before|)
    ensures IntegrityOk(c, Header(typ, total, txId) + (before + (AttrWire(a) + after)), key)
      <==> |a.body| == 20 && a.body == c.hmac(key, Header(typ, |before| + 24, txId) + before)
  {
    var head, rest := Header(typ, total, txId), AttrWire(a) + after;
    Assoc(head, before, rest);
    AttrFields(head + before, a, after);
    Rewritten(typ, total, txId, before, rest, |before| + 24);
  }

  lemma {:induction false} PrintedVerdict(c: Crypto, typ: uint16, txId: TxId, attrs: seq<Attribute>, key: Bytes, i: nat)
    requires |AttrsWire(attrs)| < 0x1_0000 && FirstOfType(attrs, i, ATTR_MESSAGE_INTEGRITY)
    ensures var before := AttrsWire(attrs[..i]);
      IntegrityOk(c, Header(typ, |AttrsWire(attrs)|, txId) + AttrsWire(attrs), key)
      <==> |attrs[i].body| == 20 && attrs[i].body == c.hmac(key, Header(typ, |before| + 24, txId) + before)
  {
    var total, before, after := |AttrsWire(attrs)|, AttrsWire(attrs[..i]), AttrsWire(attrs[i + 1..]);
    BodiesWithinWire(attrs);
    FindPrinted(Header(typ, total, txId), attrs, i, 20 + total, ATTR_MESSAGE_INTEGRITY);
    OffsetIsLength(attrs, i);
    SplitAt(attrs, i);
    if |before| < 0x1_0000 - 24 {
      VerdictAt(c, typ, txId, total, before, attrs[i], after, key);
    }
  }

  /** The verdict on an encoded message is the verdict on its first MESSAGE-INTEGRITY attribute. */
  lemma {:induction false} IntegrityVerdict(c: Crypto, m: Msg, mkey: Option<Bytes>, withFp: bool, key: Bytes, i: nat)
    requires Fits(c, m, mkey, withFp)
    requires FirstOfType(FullAttrs(c, m, mkey, withFp), i, ATTR_MESSAGE_INTEGRITY)
    ensures var full := FullAttrs(c, m, mkey, withFp);
      var before := AttrsWire(full[..i]);
      IntegrityOk(c, Wire(c, m, mkey, withFp), key)
      <==> |full[i].body| == 20 && full[i].body == c.hmac(key, Header(m.typ, |before| + 24, m.txId) + before)
  {
    PrintedVerdict(c, m.typ, m.txId, FullAttrs(c, m, mkey, withFp), key, i);
  }

  /**
   Every message Encode signs passes the section 14.5 verifier under the same key, although the length
   in its final header also counts a FINGERPRINT. If the caller had already added a MESSAGE-INTEGRITY
   attribute of its own, the verifier looks at that one instead.
   */
  lemma {:induction false} SignedVerifies(c: Crypto, m: Msg, key: Bytes, withFp: bool)
    requires Fits(c, m, Some(key), withFp)
    requires forall i :: 0 <= i < |m.attrs| ==> m.attrs[i].typ != ATTR_MESSAGE_INTEGRITY
    ensures IntegrityOk(c, Wire(c, m, Some(key), withFp), key)
  {
    var full := FullAttrs(c, m, Some(key), withFp);
    assert full[..|m.attrs|] == m.attrs;
    IntegrityVerdict(c, m, Some(key), withFp, key, |m.attrs|);
  }

  lemma {:induction false} FingerprintAt(c: Crypto, covered: Bytes)
    requires |covered| >= 20
    ensures FingerprintOk(c, covered + AttrWire(Fingerprint(c, covered)))
  {
    var fp := Fingerprint(c, covered);
    var wire := covered + AttrWire(fp);
    AttrFields(covered, fp, []);
    assert AttrWire(fp) + [] == AttrWire(fp);
    assert wire[..|wire| - 8] == covered;
    assert Get32(wire[|covered| + 4..|covered| + 8], 0) == Get32(wire, |covered| + 4);
    FingerprintIsXor(c, wire);
  }

  lemma {:induction false} PrintedSnoc(typ: uint16, txId: TxId, attrs: seq<Attribute>, a: Attribute, size: nat)
    requires |AttrWire(a)| == size
    ensures |AttrsWire(attrs + [a])| == |AttrsWire(attrs)| + size
    ensures Header(typ, |AttrsWire(attrs)| + size, txId) + AttrsWire(attrs + [a])
      == (Header(typ, |AttrsWire(attrs)| + size, txId) + AttrsWire(attrs)) + AttrWire(a)
  {
    AttrsWireSnoc(attrs, a);
    Assoc(Header(typ, |AttrsWire(attrs)| + size, txId), AttrsWire(attrs), AttrWire(a));
  }

  lemma {:induction false} FingerprintLast(c: Crypto, m: Msg, attrs: seq<Attribute>)
    ensures var covered := Header(m.typ, |AttrsWire(attrs)| + 8, m.txId) + AttrsWire(attrs);
      var all := AttrsWire(attrs + [Fingerprint(c, covered)]);
      Header(m.typ, |all|, m.txId) + all == covered + AttrWire(Fingerprint(c, covered))
  {
    var covered := Header(m.typ, |AttrsWire(attrs)| + 8, m.txId) + AttrsWire(attrs);
    PrintedSnoc(m.typ, m.txId, attrs, Fingerprint(c, covered), 8);
  }

  /** Every fingerprinted message passes the section 14.7 verifier, even one whose length field wrapped. */
  lemma {:induction false} FingerprintVerifies(c: Crypto, m: Msg, key: Option<Bytes>)
    ensures FingerprintOk(c, Wire(c, m, key, true))
  {
    FingerprintLast(c, m, WithIntegrity(c, m, key));
    var body := AttrsWire(WithIntegrity(c, m, key));
    FingerprintAt(c, Header(m.typ, |body| + 8, m.txId) + body);
  }

  // ----- What Decode accepts -----

  /** A TLV area with every padding byte set to zero. */
  function ZeroPadding(b: Bytes): (z: Bytes)
    ensures |z| == |b|
  {
    if |b| < 4 then b
    else
      var n := 4 + Get16(b, 2);
      var size := n + PadLen(Get16(b, 2));
      if size > |b| then b
      else b[..n] + Zeros(size - n) + ZeroPadding(b[size..])
  }

  /** Zeroing the padding changes no byte to anything but zero. */
  lemma {:induction false} ZeroPaddingOnlyZeroes(b: Bytes)
    ensures forall i :: 0 <= i < |b| ==> ZeroPadding(b)[i] == b[i] || ZeroPadding(b)[i] == 0
  {
    if |b| >= 4 {
      var n := 4 + Get16(b, 2);
      var size := n + PadLen(Get16(b, 2));
      if size <= |b| {
        var rest := b[size..];
        ZeroPaddingOnlyZeroes(rest);
        forall i | 0 <= i < |b| ensures ZeroPadding(b)[i] == b[i] || ZeroPadding(b)[i] == 0 {
          if i >= size {
            assert ZeroPadding(b)[i] == ZeroPadding(rest)[i - size] && b[i] == rest[i - size];
          }
        }
      }
    }
  }

  lemma {:induction false} PrintedHead(buf: Bytes, pos: nat)
    requires pos + 4 <= |buf| && pos + 4 + Get16(buf, pos + 2) <= |buf|
    ensures var alen := Get16(buf, pos + 2);
      AttrWire(Attribute(Get16(buf, pos), buf[pos + 4..pos + 4 + alen]))
      == buf[pos..pos + 4 + alen] + Zeros(PadLen(alen))
  {
    var alen := Get16(buf, pos + 2);
    Put16Get16(buf, pos);
    Put16Get16(buf, pos + 2);
    assert buf[pos..pos + 4 + alen] == buf[pos..pos + 2] + buf[pos + 2..pos + 4] + buf[pos + 4..pos + 4 + alen];
  }

  lemma {:induction false} Suffix(buf: Bytes, pos: nat, n: nat, size: nat)
    requires pos + 4 <= |buf| && n <= size && pos + size <= |buf|
    ensures Get16(buf[pos..], 2) == Get16(buf, pos + 2)
    ensures buf[pos..][..n] == buf[pos..pos + n] && buf[pos..][size..] == buf[pos + size..]
  {
  }

  /** One TLV of the area starting at pos. */
  lemma {:induction false} ZeroPaddingStep(buf: Bytes, pos: nat, size: nat)
    requires pos + 4 <= |buf| && size == 4 + Get16(buf, pos + 2) + PadLen(Get16(buf, pos + 2)) && pos + size <= |buf|
    ensures ZeroPadding(buf[pos..]) ==
      buf[pos..pos + 4 + Get16(buf, pos + 2)] + Zeros(PadLen(Get16(buf, pos + 2))) + ZeroPadding(buf[pos + size..])
  {
    Suffix(buf, pos, 4 + Get16(buf, pos + 2), size);
  }

  lemma {:induction false} Aligned(room: nat, alen: nat)
    requires room % 4 == 0 && 4 + alen <= room
    ensures 4 + alen + PadLen(alen) <= room && (room - (4 + alen + PadLen(alen))) % 4 == 0
  {
  }

  /** A successful parse of a whole 4-aligned TLV area accounts for every byte of it. */
  lemma {:induction false} ParseTiles(buf: Bytes, pos: nat)
    requires pos <= |buf| && (|buf| - pos) % 4 == 0 && ParseAttrs(buf, pos, |buf|).Ok?
    ensures AttrsWire(ParseAttrs(buf, pos, |buf|).value) == ZeroPadding(buf[pos..])
    decreases |buf| - pos
  {
    if pos < |buf| {
      var attrs := ParseAttrs(buf, pos, |buf|).value;
      var alen := Get16(buf, pos + 2);
      var size := 4 + alen + PadLen(alen);
      Aligned(|buf| - pos, alen);
      ParseTiles(buf, pos + size);
      assert attrs[1..] == ParseAttrs(buf, pos + size, |buf|).value;
      PrintedHead(buf, pos);
      ZeroPaddingStep(buf, pos, size);
    }
  }

  lemma {:induction false} JoinSlices(buf: Bytes, mid: nat, hi: nat)
    requires mid <= hi <= |buf|
    ensures buf[..mid] + buf[mid..hi] == buf[..hi]
  {
  }

  lemma {:induction false} HeaderBytes(buf: Bytes)
    requires |buf| >= 20 && Get32(buf, 4) == MAGIC_COOKIE
    ensures Header(Get16(buf, 0), Get16(buf, 2), buf[8..20]) == buf[..20]
  {
    Put16Get16(buf, 0);
    Put16Get16(buf, 2);
    Put32Get32(buf, 4);
    JoinSlices(buf, 2, 4);
    JoinSlices(buf, 4, 8);
    JoinSlices(buf, 8, 20);
  }

  /**
   A message whose buffer ends where its length field says re-encodes to itself with only padding
   bytes zeroed, if and only if that length is a multiple of four.
   */
  lemma {:induction false} DecodeTiles(c: Crypto, buf: Bytes)
    requires Parse(buf).Ok? && |buf| == 20 + Get16(buf, 2)
    ensures Wire(c, Parse(buf).value, None, false) == buf[..20] + ZeroPadding(buf[20..]) <==> Get16(buf, 2) % 4 == 0
  {
    var m := Parse(buf).value;
    var len: int := Get16(buf, 2);
    if len % 4 == 0 {
      ParseTiles(buf, 20);
      HeaderBytes(buf);
    } else {
      AttrsWireAligned(m.attrs);
      assert |Wire(c, m, None, false)| == 20 + |AttrsWire(m.attrs)|;
      assert |buf[..20] + ZeroPadding(buf[20..])| == 20 + len;
    }
  }

  /** Decode also accepts a last attribute without its padding: here one byte, and a length of five. */
  lemma {:induction false} UnpaddedAccepted(c: Crypto, txId: TxId)
    ensures var buf := Header(0x0101, 5, txId) + [0, 6, 0, 1, 7];
      && |buf| == 20 + Get16(buf, 2) && Parse(buf) == Ok(Msg(0x0101, txId, [Attribute(ATTR_USERNAME, [7])]))
      && Wire(c, Parse(buf).value, None, false) != buf[..20] + ZeroPadding(buf[20..])
  {
    var tlv: Bytes := [0, 6, 0, 1, 7];
    var buf := Header(0x0101, 5, txId) + tlv;
    HeaderFields(0x0101, 5, txId, tlv);
    assert buf[20..] == tlv;
    assert buf[20] == 0 && buf[21] == 6 && buf[22] == 0 && buf[23] == 1 && buf[24] == 7;
    assert Get16(buf, 20) == 6 && Get16(buf, 22) == 1 && buf[24..25] == [7];
    assert PadLen(1) == 3 && ParseAttrs(buf, 28, 25) == Ok([]);
    var a := Attribute(ATTR_USERNAME, [7]);
    assert [a] + [] == [a] && ParseAttrs(buf, 20, 25) == Ok([a]);
    DecodeTiles(c, buf);
  }

  // ----- Every verdict of Decode -----

  /** The start of the next TLV after one at `pos`, rounding its body up to a multiple of four. */
  function NextTlv(buf: Bytes, pos: nat): nat
    requires pos + 4 <= |buf|
  {
    var len: int := Get16(buf, pos + 2);
    pos + 4 + (len + 3) / 4 * 4
  }

  /** A TLV that starts before `end` and whose header and body lie in the buffer. */
  ghost predicate WholeTlv(buf: Bytes, pos: nat, end: nat) {
    pos < end && pos + 4 <= |buf| && pos + 4 + Get16(buf, pos + 2) <= |buf|
  }

  ghost function AttrAt(buf: Bytes, pos: nat): Attribute
    requires WholeTlv(buf, pos, pos + 1)
  {
    Attribute(Get16(buf, pos), buf[pos + 4..pos + 4 + Get16(buf, pos + 2)])
  }

  ghost predicate TlvAt(buf: Bytes, end: nat, pos: nat, next: nat, a: Attribute) {
    WholeTlv(buf, pos, end) && next == NextTlv(buf, pos) && a == AttrAt(buf, pos)
  }

  /** Consecutive whole TLVs from `pos`: their offsets, with that of the one that would follow, and contents. */
  ghost predicate Walk(buf: Bytes, pos: nat, end: nat, offs: seq<nat>, attrs: seq<Attribute>) {
    && |offs| == |attrs| + 1 && offs[0] == pos
    && forall i :: 0 <= i < |attrs| ==> TlvAt(buf, end, offs[i], offs[i + 1], attrs[i])
  }

  lemma {:induction false} RoundUp(n: nat)
    ensures (n + 3) / 4 * 4 == n + PadLen(n)
  {
  }

  lemma {:induction false} CookieBytes(buf: Bytes)
    requires |buf| >= 8
    ensures buf[4..8] == [0x21, 0x12, 0xA4, 0x42] <==> Get32(buf, 4) == 0x2112A442
  {
    var a: int, b: int, c: int, d: int := buf[4], buf[5], buf[6], buf[7];
    assert Get32(buf, 4) == (a * 256 + b) * 0x1_0000 + (c * 256 + d);
    assert buf[4..8] == [buf[4], buf[5], buf[6], buf[7]];
  }

  /** The attribute loop when its next TLV, not a whole one before the declared end, would start at `stop`. */
  function LoopVerdict(buf: Bytes, stop: nat, end: nat, attrs: seq<Attribute>): Result<seq<Attribute>> {
    if stop >= end then Ok(attrs) else if stop + 4 > |buf| then Err(TruncatedAttribute) else Err(BodyPastEnd)
  }

  lemma {:induction false} WalkCons(buf: Bytes, pos: nat, end: nat, offs: seq<nat>, attrs: seq<Attribute>)
    requires WholeTlv(buf, pos, end) && Walk(buf, NextTlv(buf, pos), end, offs, attrs)
    ensures Walk(buf, pos, end, [pos] + offs, [AttrAt(buf, pos)] + attrs)
  {
    var os, xs := [pos] + offs, [AttrAt(buf, pos)] + attrs;
    forall i | 0 <= i < |xs| ensures TlvAt(buf, end, os[i], os[i + 1], xs[i]) {
      if i > 0 {
        assert TlvAt(buf, end, offs[i - 1], offs[i], attrs[i - 1]);
      }
    }
  }

  /** One round of the attribute loop. */
  lemma {:induction false} ParseTlv(buf: Bytes, pos: nat, end: nat)
    requires end <= |buf| && WholeTlv(buf, pos, end)
    ensures ParseAttrs(buf, pos, end) == match ParseAttrs(buf, NextTlv(buf, pos), end) {
      case Err(e) => Err(e)
      case Ok(rest) => Ok([AttrAt(buf, pos)] + rest)
    }
  {
    RoundUp(Get16(buf, pos + 2));
  }

  /** The walk from `pos`, as far as whole TLVs go, and what the attribute loop makes of it. */
  lemma {:induction false} WalkFrom(buf: Bytes, pos: nat, end: nat) returns (offs: seq<nat>, attrs: seq<Attribute>)
    requires end <= |buf|
    ensures Walk(buf, pos, end, offs, attrs) && !WholeTlv(buf, offs[|attrs|], end)
    ensures ParseAttrs(buf, pos, end) == LoopVerdict(buf, offs[|attrs|], end, attrs)
    decreases Max(end - pos, 0)
  {
    if WholeTlv(buf, pos, end) {
      ParseTlv(buf, pos, end);
      offs, attrs := WalkFrom(buf, NextTlv(buf, pos), end);
      WalkCons(buf, pos, end, offs, attrs);
      offs, attrs := [pos] + offs, [AttrAt(buf, pos)] + attrs;
    } else {
      offs, attrs := [pos], [];
    }
  }

  /**
   Decode's verdict on every buffer: short, a wrong cookie, a length field that exceeds the buffer; else
   it walks TLVs, each starting on the next multiple of four after the one before, until one starts at or
   past the declared end, and returns them all; or it stops at one whose header or body is cut.
   */
  lemma {:induction false} DecodeVerdict(buf: Bytes) returns (offs: seq<nat>, attrs: seq<Attribute>)
    ensures |buf| < 20 <==> Parse(buf) == Err(ShortMessage)
    ensures |buf| >= 20 && buf[4..8] != [0x21, 0x12, 0xA4, 0x42] <==> Parse(buf) == Err(BadCookie)
    ensures |buf| >= 20 && buf[4..8] == [0x21, 0x12, 0xA4, 0x42] && 20 + Get16(buf, 2) > |buf|
      <==> Parse(buf) == Err(LengthExceedsBuffer)
    ensures |buf| >= 20 && buf[4..8] == [0x21, 0x12, 0xA4, 0x42] && 20 + Get16(buf, 2) <= |buf| ==>
      var end := 20 + Get16(buf, 2);
      && Walk(buf, 20, end, offs, attrs) && !WholeTlv(buf, offs[|attrs|], end)
      && Parse(buf) == match LoopVerdict(buf, offs[|attrs|], end, attrs) {
        case Err(e) => Err(e)
        case Ok(all) => Ok(Msg(Get16(buf, 0), buf[8..20], all))
      }
  {
    offs, attrs := [], [];
    if |buf| >= 20 {
      CookieBytes(buf);
      if buf[4..8] == [0x21, 0x12, 0xA4, 0x42] && 20 + Get16(buf, 2) <= |buf| {
        offs, attrs := WalkFrom(buf, 20, 20 + Get16(buf, 2));
      }
    }
  }
}
