/**
 internal/stun as the code runs it: a message built by successive AddAttr calls, an encoder that
 rewrites its header's length field in place, and a decoder that loops over a buffer. Each method is
 proved equal to the functions of module Stun, which StunTheorems speaks about.
 */
module StunMessage {
  import opened Common
  import opened Stun

  method EncodeAttr(typ: uint16, body: Bytes) returns (out: Bytes)
    ensures out == AttrWire(Attribute(typ, body))
  {
    var hdr := new byte[4](_ => 0);
    PutUint16(hdr, 0, typ);
    PutUint16(hdr, 2, Low16(|body|));
    assert hdr[..] == Put16(typ) + Put16(Low16(|body|));
    out := hdr[..] + body;
    var pad := (4 - |body| % 4) % 4;
    if pad > 0 {
      out := out + Zeros(pad);
    } else {
      assert Zeros(0) == [] && out == out + Zeros(0);
    }
  }

  method EncodeAttrs(attrs: seq<Attribute>) returns (out: Bytes)
    ensures out == AttrsWire(attrs)
  {
    out := [];
    for i := 0 to |attrs|
      invariant out == AttrsWire(attrs[..i])
    {
      var a := EncodeAttr(attrs[i].typ, attrs[i].body);
      AttrsWireSnoc(attrs[..i], attrs[i]);
      assert attrs[..i] + [attrs[i]] == attrs[..i + 1];
      out := out + a;
    }
    assert attrs[..|attrs|] == attrs;
  }

  lemma {:induction false} HeaderSplit(typ: uint16, length: nat, txId: TxId)
    ensures var h := Header(typ, length, txId);
      h[..2] == Put16(typ) && h[4..] == Put32(MAGIC_COOKIE) + txId
      && h == Put16(typ) + Put16(Low16(length)) + (Put32(MAGIC_COOKIE) + txId)
  {
  }

  method SetLength(h: array<byte>, ghost typ: uint16, ghost before: nat, ghost txId: TxId, length: nat)
    requires h[..] == Header(typ, before, txId)
    modifies h
    ensures h[..] == Header(typ, length, txId)
  {
    HeaderSplit(typ, before, txId);
    HeaderSplit(typ, length, txId);
    assert h.Length == |h[..]| == 20;
    PutUint16(h, 2, Low16(length));
  }

  /** The 20 header bytes, stored with a zero length that is then set. */
  method NewHeader(typ: uint16, txId: TxId, length: nat) returns (h: array<byte>)
    ensures fresh(h) && h[..] == Header(typ, length, txId)
  {
    var bytes := Put16(typ) + Put16(0) + Put32(MAGIC_COOKIE) + txId;
    h := new byte[20](i requires 0 <= i < 20 => bytes[i]);
    assert h[..] == bytes == Header(typ, 0, txId);
    SetLength(h, typ, 0, txId, length);
  }

  method AppendFingerprint(c: Crypto, buf: Bytes, attrBuf: Bytes, ghost attrs: seq<Attribute>) returns (out: Bytes)
    requires attrBuf == AttrsWire(attrs)
    ensures out == AttrsWire(attrs + [Fingerprint(c, buf)]) && |out| == |attrBuf| + 8
  {
    var crc := Xor32(c.crc(buf), FINGERPRINT_XOR);
    var fp := EncodeAttr(ATTR_FINGERPRINT, Put32(crc));
    AttrsWireSnoc(attrs, Fingerprint(c, buf));
    out := attrBuf + fp;
  }

  class Message {
    var typ: uint16
    var txId: TxId
    var attrs: seq<Attribute>

    function View(): Msg
      reads this
    {
      Msg(typ, txId, attrs)
    }

    /** NewRequest; the transaction id is the random input. */
    constructor (typ: uint16, txId: TxId)
      ensures View() == Msg(typ, txId, [])
    {
      this.typ, this.txId, this.attrs := typ, txId, [];
    }

    method AddAttr(t: uint16, body: Bytes)
      modifies this`attrs
      ensures View() == Msg(old(typ), old(txId), old(attrs) + [Attribute(t, body)])
    {
      attrs := attrs + [Attribute(t, body)];
    }

    method Attr(t: uint16) returns (body: Option<Bytes>)
      ensures body == FirstAttr(attrs, t)
      ensures body.None? <==> forall i :: 0 <= i < |attrs| ==> attrs[i].typ != t
      ensures body.Some? ==> exists i ::
        && 0 <= i < |attrs| && attrs[i].typ == t && body.value == attrs[i].body
        && forall j :: 0 <= j < i ==> attrs[j].typ != t
    {
      for i := 0 to |attrs|
        invariant forall j :: 0 <= j < i ==> attrs[j].typ != t
        invariant FirstAttr(attrs, t) == FirstAttr(attrs[i..], t)
      {
        if attrs[i].typ == t {
          return Some(attrs[i].body);
        }
      }
      return None;
    }

    /** MESSAGE-INTEGRITY, over a header whose length is set to end at that attribute. */
    method MakeIntegrity(c: Crypto, key: Bytes, header: array<byte>, attrBuf: Bytes, ghost length: nat)
      returns (mi: Bytes)
      requires attrBuf == AttrsWire(attrs) && header[..] == Header(typ, length, txId)
      modifies header
      ensures mi == AttrWire(Integrity(c, View(), key)) && |mi| == 24
      ensures header[..] == Header(typ, |attrBuf| + 24, txId)
    {
      SetLength(header, typ, length, txId, |attrBuf| + 4 + 20);
      var integrity := c.hmac(key, header[..] + attrBuf);
      mi := EncodeAttr(ATTR_MESSAGE_INTEGRITY, integrity);
    }

    /** The integrity branch of Encode: sign with a temporary length, append, restore the final length. */
    method Sign(c: Crypto, key: Bytes, header: array<byte>, attrBuf0: Bytes, addedLen: nat) returns (attrBuf: Bytes)
      requires attrBuf0 == AttrsWire(attrs) && addedLen >= 24
      requires header[..] == Header(typ, |attrBuf0| + addedLen, txId)
      modifies header
      ensures attrBuf == AttrsWire(WithIntegrity(c, View(), Some(key)))
      ensures |attrBuf| == |attrBuf0| + 24 && header[..] == Header(typ, |attrBuf0| + addedLen, txId)
    {
      var mi := MakeIntegrity(c, key, header, attrBuf0, |attrBuf0| + addedLen);
      AttrsWireSnoc(attrs, Integrity(c, View(), key));
      attrBuf := attrBuf0 + mi;
      SetLength(header, typ, |attrBuf0| + 24, txId, |attrBuf| + (addedLen - 4 - 20));
    }

    method Encode(c: Crypto, integrityKey: Option<Bytes>, withFingerprint: bool) returns (wire: Bytes)
      ensures wire == Wire(c, View(), integrityKey, withFingerprint)
    {
      var attrBuf := EncodeAttrs(attrs);
      var addedLen := 0;
      if integrityKey.Some? {
        addedLen := addedLen + 4 + 20;
      }
      if withFingerprint {
        addedLen := addedLen + 4 + 4;
      }
      var header := NewHeader(typ, txId, |attrBuf| + addedLen);
      if integrityKey.Some? {
        attrBuf := Sign(c, integrityKey.value, header, attrBuf, addedLen);
      }
      if withFingerprint {
        attrBuf := AppendFingerprint(c, header[..] + attrBuf, attrBuf, WithIntegrity(c, View(), integrityKey));
      }
      return header[..] + attrBuf;
    }
  }

  /** The parse of the rest of the buffer after some attributes have been read. */
  ghost function After(done: seq<Attribute>, rest: Result<seq<Attribute>>): Result<seq<Attribute>> {
    match rest
    case Ok(more) => Ok(done + more)
    case Err(e) => Err(e)
  }

  lemma {:induction false} AfterNothing(rest: Result<seq<Attribute>>)
    ensures After([], rest) == rest
  {
    if rest.Ok? {
      assert [] + rest.value == rest.value;
    }
  }

  lemma {:induction false} ReadOne(buf: Bytes, pos: nat, end: nat, done: seq<Attribute>, a: Attribute)
    requires pos < end <= |buf| && pos + 4 <= |buf| && pos + 4 + Get16(buf, pos + 2) <= |buf|
    requires a == Attribute(Get16(buf, pos), buf[pos + 4..pos + 4 + Get16(buf, pos + 2)])
    ensures var next := pos + 4 + Get16(buf, pos + 2) + PadLen(Get16(buf, pos + 2));
      After(done, ParseAttrs(buf, pos, end)) == After(done + [a], ParseAttrs(buf, next, end))
  {
    var next := pos + 4 + Get16(buf, pos + 2) + PadLen(Get16(buf, pos + 2));
    var rest := ParseAttrs(buf, next, end);
    if rest.Ok? {
      assert done + ([a] + rest.value) == done + [a] + rest.value;
    }
  }

  /** The attribute loop of Decode. */
  method DecodeAttrs(buf: Bytes, end: nat) returns (r: Result<seq<Attribute>>)
    requires 20 <= end <= |buf|
    ensures r == ParseAttrs(buf, 20, end)
  {
    var attrs: seq<Attribute> := [];
    var pos: nat := 20;
    AfterNothing(ParseAttrs(buf, 20, end));
    while pos < end
      invariant ParseAttrs(buf, 20, end) == After(attrs, ParseAttrs(buf, pos, end))
    {
      if pos + 4 > |buf| {
        return Err(TruncatedAttribute);
      }
      var atyp := Get16(buf, pos);
      var alen: int := Get16(buf, pos + 2);
      if pos + 4 + alen > |buf| {
        return Err(BodyPastEnd);
      }
      var a := Attribute(atyp, buf[pos + 4..pos + 4 + alen]);
      var pad := (4 - alen % 4) % 4;
      ReadOne(buf, pos, end, attrs, a);
      attrs := attrs + [a];
      pos := pos + 4 + alen + pad;
    }
    assert attrs + [] == attrs;
    return Ok(attrs);
  }

  method Decode(buf: Bytes) returns (r: Result<Msg>)
    ensures r == Parse(buf)
  {
    if |buf| < 20 {
      return Err(ShortMessage);
    }
    if Get32(buf, 4) != MAGIC_COOKIE {
      return Err(BadCookie);
    }
    var declaredLen: int := Get16(buf, 2);
    if 20 + declaredLen > |buf| {
      return Err(LengthExceedsBuffer);
    }
    var attrs := DecodeAttrs(buf, 20 + declaredLen);
    match attrs {
      case Err(e) => return Err(e);
      case Ok(read) => return Ok(Msg(Get16(buf, 0), buf[8..20], read));
    }
  }
}
