/**
 The expiring credentials of internal/stun and the handler that checks them: decimal printing and
 parsing of the expiry, the colon split, and the whole path from a signed request to the server's
 verdict. Strings are bytes.
 */
module Auth {
  import opened Common
  import opened Stun
  import StunTheorems

  const COLON: byte := 58
  const MINUS: byte := 45
  const PLUS: byte := 43

  // ----- fmt's %d and strconv.ParseInt(s, 10, 64) -----

  function Digits(n: nat): Bytes {
    if n < 10 then [48 + n] else Digits(n / 10) + [48 + n % 10]
  }

  function FormatInt(i: int): Bytes {
    if i < 0 then [MINUS] + Digits(-i) else Digits(i)
  }

  predicate AllDigits(s: Bytes) {
    forall i :: 0 <= i < |s| ==> 48 <= s[i] <= 57
  }

  function Value(s: Bytes): nat
    requires AllDigits(s)
  {
    if s == [] then 0
    else
      var d: int := s[|s| - 1];
      var v: int := Value(s[..|s| - 1]);
      10 * v + (d - 48)
  }

  predicate Int64(i: int) {
    -0x8000_0000_0000_0000 <= i < 0x8000_0000_0000_0000
  }

  /** None stands for both a syntax and a range error. */
  function ParseInt(s: Bytes): Option<int> {
    if s == [] then None
    else
      var digits := if s[0] == PLUS || s[0] == MINUS then s[1..] else s;
      if digits == [] || !AllDigits(digits) then None
      else
        var abs: int := Value(digits);
        var v := if s[0] == MINUS then -abs else abs;
        if Int64(v) then Some(v) else None
  }

  lemma {:induction false} DigitsRead(n: nat)
    ensures Digits(n) != [] && AllDigits(Digits(n)) && Value(Digits(n)) == n
    ensures |Digits(n)| > 1 ==> Digits(n)[0] != 48
  {
    if n < 10 {
      assert Digits(n)[..0] == [];
    } else {
      DigitsRead(n / 10);
      assert Digits(n)[..|Digits(n)| - 1] == Digits(n / 10);
    }
  }

  /** Every 64-bit expiry, negative ones included, prints to a colon-free string that parses back to it. */
  lemma {:induction false} ExpiryRoundTrip(exp: int)
    requires Int64(exp)
    ensures ParseInt(FormatInt(exp)) == Some(exp) && COLON !in FormatInt(exp)
  {
    DigitsRead(if exp < 0 then -exp else exp);
    if exp < 0 {
      assert FormatInt(exp)[1..] == Digits(-exp);
    }
  }

  // ----- strings.SplitN(username, ":", 2) -----

  function SplitColon(s: Bytes): Option<(Bytes, Bytes)> {
    if s == [] then None
    else if s[0] == COLON then Some(([], s[1..]))
    else
      match SplitColon(s[1..])
      case None => None
      case Some((head, tail)) => Some(([s[0]] + head, tail))
  }

  /** The split is at the first colon; what follows it may contain more. */
  lemma {:induction false} SplitsAtFirst(head: Bytes, tail: Bytes)
    requires COLON !in head
    ensures SplitColon(head + [COLON] + tail) == Some((head, tail))
  {
    var s := head + [COLON] + tail;
    if head == [] {
      assert s[0] == COLON && s[1..] == tail;
    } else {
      SplitsAtFirst(head[1..], tail);
      assert s[1..] == head[1..] + [COLON] + tail;
      assert [head[0]] + head[1..] == head;
    }
  }

  // ----- Credentials, keys and the handler -----

  /** USERNAME of OAuthCreds, given the expiry it computed from the clock. */
  function Username(exp: int, id: Bytes): Bytes {
    FormatInt(exp) + [COLON] + id
  }

  function Password(c: Crypto, secret: Bytes, username: Bytes): Bytes {
    c.base64(c.hmac(secret, username))
  }

  function LongTermKey(c: Crypto, username: Bytes, realm: Bytes, password: Bytes): Bytes {
    c.md5(username + [COLON] + realm + [COLON] + password)
  }

  /** useAuthSecretHandler at clock reading `now`. */
  function Handler(c: Crypto, secret: Bytes, username: Bytes, realm: Bytes, now: int): Option<Bytes> {
    match SplitColon(username)
    case None => None
    case Some((head, _)) =>
      match ParseInt(head)
      case None => None
      case Some(exp) =>
        if now > exp then None else Some(LongTermKey(c, username, realm, Password(c, secret, username)))
  }

  /** The key the client signs with after OAuthCreds. */
  function ClientKey(c: Crypto, secret: Bytes, id: Bytes, exp: int, realm: Bytes): Bytes {
    LongTermKey(c, Username(exp, id), realm, Password(c, secret, Username(exp, id)))
  }

  /**
   The handler recovers the printed expiry and answers exactly until then, with the client's own key:
   MD5 of username, realm and the base64 of the username's HMAC, separated by colons.
   */
  lemma {:induction false} HandlerAnswers(c: Crypto, secret: Bytes, id: Bytes, exp: int, realm: Bytes, now: int)
    requires Int64(exp)
    ensures Handler(c, secret, Username(exp, id), realm, now)
      == if now <= exp then Some(ClientKey(c, secret, id, exp, realm)) else None
    ensures var u := FormatInt(exp) + [58] + id;
      Username(exp, id) == u
      && ClientKey(c, secret, id, exp, realm) == c.md5(u + [58] + realm + [58] + c.base64(c.hmac(secret, u)))
  {
    ExpiryRoundTrip(exp);
    SplitsAtFirst(FormatInt(exp), id);
  }

  /** An expiry that is not an optional sign and digits, or does not fit 64 bits, is refused. */
  lemma {:induction false} ParseRefuses(s: Bytes, i: nat, n: nat)
    ensures 1 <= i < |s| && !(48 <= s[i] <= 57) ==> ParseInt(s) == None
    ensures ParseInt([]) == None && (|s| == 1 && !(48 <= s[0] <= 57) ==> ParseInt(s) == None)
    ensures ParseInt(Digits(n)) == if n < 0x8000_0000_0000_0000 then Some(n) else None
  {
    if 1 <= i < |s| {
      assert s[1..][i - 1] == s[i];
    }
    DigitsRead(n);
  }

  lemma {:induction false} NoColon(s: Bytes)
    requires COLON !in s
    ensures SplitColon(s) == None
  {
    if s != [] {
      NoColon(s[1..]);
    }
  }

  /** No key for a username without a colon, or whose part before the first colon is no expiry. */
  lemma {:induction false} HandlerRefuses(c: Crypto, secret: Bytes, head: Bytes, tail: Bytes, realm: Bytes, now: int)
    requires 58 !in head
    ensures Handler(c, secret, head, realm, now) == None
    ensures ParseInt(head) == None ==> Handler(c, secret, head + [58] + tail, realm, now) == None
  {
    NoColon(head);
    SplitsAtFirst(head, tail);
  }

  // ----- The authenticated requests of internal/turn -----

  datatype Kind = Allocate | CreatePermission(peer: Bytes) | ChannelBind(channel: uint16, peer: Bytes)

  function Credentials(username: Bytes, realm: Bytes, nonce: Bytes): seq<Attribute> {
    [Attribute(ATTR_USERNAME, username), Attribute(ATTR_REALM, realm), Attribute(ATTR_NONCE, nonce)]
  }

  /** Message types and attribute lists as the client builds them. */
  function RequestMsg(k: Kind, txId: TxId, username: Bytes, realm: Bytes, nonce: Bytes): Msg {
    var creds := Credentials(username, realm, nonce);
    match k
    case Allocate =>
      Msg(0x0003, txId,
          [Attribute(ATTR_REQUESTED_TRANSPORT, [17, 0, 0, 0])] + creds + [Attribute(ATTR_LIFETIME, Put32(600))])
    case CreatePermission(peer) =>
      Msg(0x0008, txId, [Attribute(ATTR_XOR_PEER_ADDRESS, peer)] + creds)
    case ChannelBind(channel, peer) =>
      Msg(0x0009, txId,
          [Attribute(ATTR_CHANNEL_NUMBER, Put16(channel) + [0, 0]), Attribute(ATTR_XOR_PEER_ADDRESS, peer)] + creds)
  }

  /** A server that decodes a request, asks the handler for the key and runs both verifiers. */
  predicate ServerAccepts(c: Crypto, secret: Bytes, wire: Bytes, now: int) {
    match Parse(wire)
    case Err(_) => false
    case Ok(m) =>
      match (FirstAttr(m.attrs, ATTR_USERNAME), FirstAttr(m.attrs, ATTR_REALM))
      case (Some(u), Some(r)) =>
        var key := Handler(c, secret, u, r, now);
        key.Some? && StunTheorems.IntegrityOk(c, wire, key.value) && StunTheorems.FingerprintOk(c, wire)
      case _ => false
  }

  lemma {:induction false} FirstAttrAt(attrs: seq<Attribute>, i: nat, typ: uint16)
    requires StunTheorems.FirstOfType(attrs, i, typ)
    ensures FirstAttr(attrs, typ) == Some(attrs[i].body)
  {
    if i > 0 {
      FirstAttrAt(attrs[1..], i - 1, typ);
    }
  }

  /** Position of the USERNAME attribute in each request; REALM follows it. */
  function UserAt(k: Kind): nat {
    if k.ChannelBind? then 2 else 1
  }

  lemma {:induction false} RequestAttrs(k: Kind, txId: TxId, username: Bytes, realm: Bytes, nonce: Bytes)
    ensures var attrs := RequestMsg(k, txId, username, realm, nonce).attrs;
      && StunTheorems.FirstOfType(attrs, UserAt(k), ATTR_USERNAME) && attrs[UserAt(k)].body == username
      && StunTheorems.FirstOfType(attrs, UserAt(k) + 1, ATTR_REALM) && attrs[UserAt(k) + 1].body == realm
      && forall i :: 0 <= i < |attrs| ==> attrs[i].typ != ATTR_MESSAGE_INTEGRITY
  {
  }

  /** The credentials with literal attribute types: USERNAME, REALM, NONCE. */
  ghost function SentCredentials(username: Bytes, realm: Bytes, nonce: Bytes): seq<Attribute> {
    [Attribute(0x0006, username), Attribute(0x0014, realm), Attribute(0x0015, nonce)]
  }

  /** What each request must carry: section 7, section 10 and section 12 of RFC 8656. */
  ghost predicate Carries(k: Kind, m: Msg, username: Bytes, realm: Bytes, nonce: Bytes) {
    var creds := SentCredentials(username, realm, nonce);
    match k
    case Allocate =>  // UDP, and ten minutes
      m.typ == 3 && |m.attrs| >= 5
      && m.attrs[..5] == [Attribute(0x0019, [17, 0, 0, 0])] + creds + [Attribute(0x000d, [0, 0, 2, 88])]
    case CreatePermission(peer) =>
      m.typ == 8 && |m.attrs| >= 4 && m.attrs[..4] == [Attribute(0x0012, peer)] + creds
    case ChannelBind(channel, peer) =>
      m.typ == 9 && |m.attrs| >= 5
      && m.attrs[..5]
         == [Attribute(0x000c, [channel / 256, channel % 256, 0, 0]), Attribute(0x0012, peer)] + creds
  }

  lemma {:induction false} RequestCarries(k: Kind, txId: TxId, username: Bytes, realm: Bytes, nonce: Bytes)
    ensures var m := RequestMsg(k, txId, username, realm, nonce);
      Carries(k, m, username, realm, nonce) && m.txId == txId && |m.attrs| == if k.CreatePermission? then 4 else 5
  {
    var attrs := RequestMsg(k, txId, username, realm, nonce).attrs;
    match k
    case Allocate =>
      assert Put32(600) == [0, 0, 2, 88];
      assert attrs[..5] == attrs;
    case CreatePermission(peer) =>
      assert attrs[..4] == attrs;
    case ChannelBind(channel, peer) =>
      assert Put16(channel) + [0, 0] == [channel / 256, channel % 256, 0, 0];
      assert attrs[..5] == attrs;
  }

  /** A server decodes from a signed request its type, its transaction id and everything it must carry. */
  lemma {:induction false} RequestOnWire(
      c: Crypto, k: Kind, txId: TxId, username: Bytes, realm: Bytes, nonce: Bytes, key: Bytes)
    requires StunTheorems.Fits(c, RequestMsg(k, txId, username, realm, nonce), Some(key), true)
    ensures var r := Parse(Wire(c, RequestMsg(k, txId, username, realm, nonce), Some(key), true));
      r.Ok? && r.value.txId == txId && Carries(k, r.value, username, realm, nonce)
  {
    var m := RequestMsg(k, txId, username, realm, nonce);
    RequestCarries(k, txId, username, realm, nonce);
    StunTheorems.RoundTrip(c, m, Some(key), true);
    StunTheorems.AddedAttrs(c, m, Some(key), true);
    var full := FullAttrs(c, m, Some(key), true);
    assert full[..|m.attrs|] == m.attrs[..|m.attrs|] == m.attrs;
  }

  lemma {:induction false} FirstInFull(c: Crypto, m: Msg, key: Option<Bytes>, i: nat, typ: uint16)
    requires StunTheorems.FirstOfType(m.attrs, i, typ)
    ensures FirstAttr(FullAttrs(c, m, key, true), typ) == Some(m.attrs[i].body)
  {
    StunTheorems.AddedAttrs(c, m, key, true);
    var full := FullAttrs(c, m, key, true);
    assert forall j :: 0 <= j <= i ==> full[j] == m.attrs[j];
    FirstAttrAt(full, i, typ);
  }

  /** The verdict on a signed message is the handler's, when the handler answers with the signing key. */
  lemma {:induction false} Accepted(c: Crypto, secret: Bytes, m: Msg, i: nat, key: Bytes, now: int)
    requires StunTheorems.Fits(c, m, Some(key), true)
    requires StunTheorems.FirstOfType(m.attrs, i, ATTR_USERNAME) && StunTheorems.FirstOfType(m.attrs, i + 1, ATTR_REALM)
    requires forall j :: 0 <= j < |m.attrs| ==> m.attrs[j].typ != ATTR_MESSAGE_INTEGRITY
    ensures var answer := Handler(c, secret, m.attrs[i].body, m.attrs[i + 1].body, now);
      && (answer == Some(key) ==> ServerAccepts(c, secret, Wire(c, m, Some(key), true), now))
      && (answer == None ==> !ServerAccepts(c, secret, Wire(c, m, Some(key), true), now))
  {
    StunTheorems.RoundTrip(c, m, Some(key), true);
    StunTheorems.SignedVerifies(c, m, key, true);
    StunTheorems.FingerprintVerifies(c, m, Some(key));
    FirstInFull(c, m, Some(key), i, ATTR_USERNAME);
    FirstInFull(c, m, Some(key), i + 1, ATTR_REALM);
  }

  /**
   Every authenticated request the client builds with its credentials, if it fits a STUN message, is
   accepted by a server holding the same secret exactly until the expiry printed in its USERNAME.
   */
  lemma {:induction false} RequestAcceptedUntilExpiry(
      c: Crypto, secret: Bytes, id: Bytes, exp: int, realm: Bytes, nonce: Bytes, k: Kind, txId: TxId, now: int)
    requires Int64(exp)
    requires StunTheorems.Fits(c, RequestMsg(k, txId, Username(exp, id), realm, nonce),
                               Some(ClientKey(c, secret, id, exp, realm)), true)
    ensures ServerAccepts(c, secret, Wire(c, RequestMsg(k, txId, Username(exp, id), realm, nonce),
                                          Some(ClientKey(c, secret, id, exp, realm)), true), now)
      <==> now <= exp
  {
    var m, key := RequestMsg(k, txId, Username(exp, id), realm, nonce), ClientKey(c, secret, id, exp, realm);
    RequestAttrs(k, txId, Username(exp, id), realm, nonce);
    Accepted(c, secret, m, UserAt(k), key, now);
    HandlerAnswers(c, secret, id, exp, realm, now);
  }
}
