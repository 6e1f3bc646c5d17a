/** Byte strings, big-endian integers and the few sequence functions shared by every module. */
module Common {
  type byte = x: int | 0 <= x < 256
  type uint16 = x: int | 0 <= x < 0x1_0000
  type uint32 = x: int | 0 <= x < 0x1_0000_0000
  type Bytes = seq<byte>

  datatype Option<+T> = None | Some(value: T)

  function Min(a: int, b: int): int {
    if a <= b then a else b
  }

  function Max(a: int, b: int): int {
    if a <= b then b else a
  }

  function Zeros(n: nat): (z: Bytes)
    ensures |z| == n && forall i :: 0 <= i < n ==> z[i] == 0
  {
    seq(n, _ => 0)
  }

  /** The low 16 bits of a length, as `uint16(len(x))` keeps them. */
  function Low16(n: nat): uint16 {
    n % 0x1_0000
  }

  function Get16(b: Bytes, i: nat): uint16
    requires i + 2 <= |b|
  {
    var hi: int := b[i];
    hi * 256 + b[i + 1]
  }

  function Put16(x: uint16): (b: Bytes)
    ensures |b| == 2 && Get16(b, 0) == x
  {
    [x / 256, x % 256]
  }

  function Get32(b: Bytes, i: nat): uint32
    requires i + 4 <= |b|
  {
    var hi: int := Get16(b, i);
    hi * 0x1_0000 + Get16(b, i + 2)
  }

  function Put32(x: uint32): (b: Bytes)
    ensures |b| == 4 && Get32(b, 0) == x
  {
    Put16(x / 0x1_0000) + Put16(x % 0x1_0000)
  }

  /** Bytes needed to bring `n` up to a multiple of four. */
  function PadLen(n: nat): (p: nat)
    ensures p < 4
  {
    (4 - n % 4) % 4
  }

  lemma {:induction false} Padded(n: nat)
    ensures (n + PadLen(n)) % 4 == 0
  {
  }

  function Concat(xs: seq<Bytes>): Bytes {
    if xs == [] then [] else xs[0] + Concat(xs[1..])
  }

  lemma {:induction false} Assoc(a: Bytes, b: Bytes, c: Bytes)
    ensures (a + b) + c == a + (b + c)
  {
  }

  lemma {:induction false} ConcatAppend(xs: seq<Bytes>, ys: seq<Bytes>)
    ensures Concat(xs + ys) == Concat(xs) + Concat(ys)
  {
    if xs == [] {
      assert xs + ys == ys;
    } else {
      ConcatAppend(xs[1..], ys);
      assert (xs + ys)[1..] == xs[1..] + ys;
      Assoc(xs[0], Concat(xs[1..]), Concat(ys));
    }
  }

  lemma {:induction false} ConcatSnoc(xs: seq<Bytes>, x: Bytes)
    ensures Concat(xs + [x]) == Concat(xs) + x
  {
    ConcatAppend(xs, [x]);
    assert Concat([x]) == x;
  }

  function Pow2(n: nat): nat {
    if n == 0 then 1 else 2 * Pow2(n - 1)
  }

  lemma {:induction false} Pow2Of32()
    ensures Pow2(32) == 0x1_0000_0000
  {
    assert Pow2(8) == 256;
    assert Pow2(16) == 256 * Pow2(8);
    assert Pow2(24) == 256 * Pow2(16);
    assert Pow2(32) == 256 * Pow2(24);
  }

  /** Bitwise exclusive or of the low `bits` bits. */
  function Xor(bits: nat, a: nat, b: nat): (r: nat)
    ensures r < Pow2(bits)
  {
    if bits == 0 then 0 else 2 * Xor(bits - 1, a / 2, b / 2) + (a % 2 + b % 2) % 2
  }

  /** Bit i of a, counted from the least significant. */
  function Bit(a: nat, i: nat): (r: nat)
    ensures r < 2
  {
    if i == 0 then a % 2 else Bit(a / 2, i - 1)
  }

  /** Bit i of the exclusive or is set exactly when the two differ there. */
  lemma {:induction false} XorBit(bits: nat, a: nat, b: nat, i: nat)
    requires i < bits
    ensures Bit(Xor(bits, a, b), i) == 1 <==> Bit(a, i) != Bit(b, i)
  {
    var x, low := Xor(bits - 1, a / 2, b / 2), (a % 2 + b % 2) % 2;
    assert (2 * x + low) % 2 == low && (2 * x + low) / 2 == x;
    if i > 0 {
      XorBit(bits - 1, a / 2, b / 2, i - 1);
    }
  }

  lemma {:induction false} BitsDetermine(bits: nat, a: nat, b: nat)
    requires a < Pow2(bits) && b < Pow2(bits)
    requires forall i :: 0 <= i < bits ==> Bit(a, i) == Bit(b, i)
    ensures a == b
  {
    if bits > 0 {
      assert Bit(a, 0) == Bit(b, 0);
      forall i | 0 <= i < bits - 1 ensures Bit(a / 2, i) == Bit(b / 2, i) {
        assert Bit(a, i + 1) == Bit(b, i + 1);
      }
      BitsDetermine(bits - 1, a / 2, b / 2);
    }
  }

  function Xor32(a: uint32, b: uint32): uint32 {
    Pow2Of32();
    Xor(32, a, b)
  }

  lemma {:induction false} Xor32Bits(a: uint32, b: uint32)
    ensures forall i :: 0 <= i < 32 ==> (Bit(Xor32(a, b), i) == 1 <==> Bit(a, i) != Bit(b, i))
  {
    forall i | 0 <= i < 32 ensures Bit(Xor32(a, b), i) == 1 <==> Bit(a, i) != Bit(b, i) {
      XorBit(32, a, b, i);
    }
  }

  /** binary.BigEndian.PutUint16(b[at:at+2], x). */
  method PutUint16(b: array<byte>, at: nat, x: uint16)
    requires at + 2 <= b.Length
    modifies b
    ensures b[..] == old(b[..at]) + Put16(x) + old(b[at + 2..])
  {
    b[at], b[at + 1] := x / 256, x % 256;
  }

  /** Go's `copy(dst[off:], src)`. */
  method Copy(dst: array<byte>, off: nat, src: Bytes) returns (n: nat)
    requires off <= dst.Length
    modifies dst
    ensures n == Min(dst.Length - off, |src|)
    ensures dst[..] == old(dst[..off]) + src[..n] + old(dst[off + n..])
  {
    n := Min(dst.Length - off, |src|);
    forall i | 0 <= i < n {
      dst[off + i] := src[i];
    }
  }

  /** The front of a buffer overwritten by as much of a packet as fits. */
  ghost predicate CopiedInto(pkt: Bytes, before: Bytes, after: Bytes, n: nat) {
    && n == Min(|before|, |pkt|) && |after| == |before|
    && after[..n] == pkt[..n] && after[n..] == before[n..]
  }
}
