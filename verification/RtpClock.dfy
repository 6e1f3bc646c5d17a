/** How long RTP timestamps take to repeat, for the increments the media profiles use. */
module RtpClock {
  import opened Common

  function Stamp(ts0: uint32, inc: nat, k: nat): uint32 {
    (ts0 + inc * k) % 0x1_0000_0000
  }

  function Number(seq0: uint16, k: nat): uint16 {
    (seq0 + k) % 0x1_0000
  }

  /** One packet later, as the loops compute it: `seq++` on 16 bits. */
  lemma {:induction false} NextNumber(seq0: uint16, k: nat)
    ensures (Number(seq0, k) + 1) % 0x1_0000 == Number(seq0, k + 1)
  {
    var x: nat := seq0 + k;
    var q := x / 0x1_0000;
    assert x + 1 == (x % 0x1_0000 + 1) + 0x1_0000 * q;
  }

  lemma {:induction false} WrapOnce(x: nat, y: nat)
    ensures (x % 0x1_0000_0000 + y) % 0x1_0000_0000 == (x + y) % 0x1_0000_0000
  {
    var q := x / 0x1_0000_0000;
    assert x + y == (x % 0x1_0000_0000 + y) + 0x1_0000_0000 * q;
  }

  /** One packet later, as the loops compute it: `ts += inc` on 32 bits. */
  lemma {:induction false} NextStamp(ts0: uint32, inc: nat, k: nat)
    ensures (Stamp(ts0, inc, k) + inc) % 0x1_0000_0000 == Stamp(ts0, inc, k + 1)
  {
    var x: nat := ts0 + inc * k;
    assert inc * (k + 1) == inc * k + inc;
    WrapOnce(x, inc);
  }

  lemma {:induction false} SameStamp(ts0: uint32, x: nat, y: nat)
    ensures (ts0 + x) % 0x1_0000_0000 == (ts0 + y) % 0x1_0000_0000 <==> (x - y) % 0x1_0000_0000 == 0
  {
  }

  lemma {:induction false} OpusDivides(d: int)
    requires (960 * d) % 0x1_0000_0000 == 0
    ensures d % 0x400_0000 == 0
  {
    var q := (960 * d) / 0x1_0000_0000;
    assert 15 * d == 0x400_0000 * q;
    var k := 49213167 * q - 11 * d;  // 49213167 inverts 15 modulo 0x400_0000
    assert d == 0x400_0000 * k;
  }

  lemma {:induction false} OpusMultiple(d: int)
    ensures (960 * d) % 0x1_0000_0000 == 0 <==> d % 0x400_0000 == 0
  {
    if (960 * d) % 0x1_0000_0000 == 0 {
      OpusDivides(d);
    }
    if d % 0x400_0000 == 0 {
      assert 960 * d == 0x1_0000_0000 * (15 * (d / 0x400_0000));
    }
  }

  /** Opus, 960 samples per packet: two packets share a timestamp iff they are a multiple of 2^26 apart. */
  lemma {:induction false} OpusPeriod(ts0: uint32, i: nat, j: nat)
    ensures Stamp(ts0, 960, i) == Stamp(ts0, 960, j) <==> (i - j) % 0x400_0000 == 0
  {
    SameStamp(ts0, 960 * i, 960 * j);
    OpusMultiple(i - j);
  }

  lemma {:induction false} VideoDivides(d: int)
    requires (3000 * d) % 0x1_0000_0000 == 0
    ensures d % 0x2000_0000 == 0
  {
    var q := (3000 * d) / 0x1_0000_0000;
    assert 375 * d == 0x2000_0000 * q;
    var k := 396568647 * q - 277 * d;  // 396568647 inverts 375 modulo 0x2000_0000
    assert d == 0x2000_0000 * k;
  }

  lemma {:induction false} VideoMultiple(d: int)
    ensures (3000 * d) % 0x1_0000_0000 == 0 <==> d % 0x2000_0000 == 0
  {
    if (3000 * d) % 0x1_0000_0000 == 0 {
      VideoDivides(d);
    }
    if d % 0x2000_0000 == 0 {
      assert 3000 * d == 0x1_0000_0000 * (375 * (d / 0x2000_0000));
    }
  }

  /** 30 frames per second, 3000 ticks per packet: the period is exactly 2^29 packets. */
  lemma {:induction false} VideoPeriod(ts0: uint32, i: nat, j: nat)
    ensures Stamp(ts0, 3000, i) == Stamp(ts0, 3000, j) <==> (i - j) % 0x2000_0000 == 0
  {
    SameStamp(ts0, 3000 * i, 3000 * j);
    VideoMultiple(i - j);
  }

  lemma {:induction false} ScreenDivides(d: int)
    requires (9000 * d) % 0x1_0000_0000 == 0
    ensures d % 0x2000_0000 == 0
  {
    var q := (9000 * d) / 0x1_0000_0000;
    assert 1125 * d == 0x2000_0000 * q;
    var k := 132189549 * q - 277 * d;  // 132189549 inverts 1125 modulo 0x2000_0000
    assert d == 0x2000_0000 * k;
  }

  lemma {:induction false} ScreenMultiple(d: int)
    ensures (9000 * d) % 0x1_0000_0000 == 0 <==> d % 0x2000_0000 == 0
  {
    if (9000 * d) % 0x1_0000_0000 == 0 {
      ScreenDivides(d);
    }
    if d % 0x2000_0000 == 0 {
      assert 9000 * d == 0x1_0000_0000 * (1125 * (d / 0x2000_0000));
    }
  }

  /** 10 frames per second, 9000 ticks per packet: the period is exactly 2^29 packets. */
  lemma {:induction false} ScreenPeriod(ts0: uint32, i: nat, j: nat)
    ensures Stamp(ts0, 9000, i) == Stamp(ts0, 9000, j) <==> (i - j) % 0x2000_0000 == 0
  {
    SameStamp(ts0, 9000 * i, 9000 * j);
    ScreenMultiple(i - j);
  }
}
