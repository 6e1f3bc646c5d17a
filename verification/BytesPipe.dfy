/** The receive half: the byte pipe between `rxLoop` and the caller's Read, and `rxLoop` itself. */
module BytesPipe {
  import opened Common
  import Chunker

  datatype ReadResult = Got(n: nat) | Eof | Blocked

  class Pipe {
    var buf: Bytes
    var closed: bool
    ghost var accepted: Bytes  // written before the pipe closed
    ghost var taken: Bytes     // returned by reads

    ghost predicate Valid()
      reads this
    {
      taken + buf == accepted
    }

    constructor ()
      ensures Valid() && !closed && accepted == [] && taken == []
    {
      buf, closed, accepted, taken := [], false, [], [];
    }

    method Write(data: Bytes)
      requires Valid()
      modifies this`buf, this`accepted
      ensures Valid()
      ensures accepted == if closed then old(accepted) else old(accepted) + data
    {
      if closed {
        return;
      }
      buf, accepted := buf + data, accepted + data;
    }

    /** Bytes come out in the order they went in, also after Close; EOF only once the buffer is empty. */
    method Read(out: array<byte>) returns (r: ReadResult)
      requires Valid()
      modifies this`buf, this`taken, out
      ensures Valid() && accepted == old(accepted)
      ensures r.Eof? <==> old(taken) == accepted && closed
      ensures r.Blocked? <==> old(taken) == accepted && !closed
      ensures r.Got? ==>
        && CopiedInto(accepted[|old(taken)|..], old(out[..]), out[..], r.n)
        && taken == old(taken) + out[..r.n]
      ensures !r.Got? ==> taken == old(taken) && out[..] == old(out[..])
    {
      if |buf| == 0 {
        return if closed then Eof else Blocked;
      }
      var n := Copy(out, 0, buf);
      assert out[..n] == buf[..n];
      buf, taken := buf[n..], taken + buf[..n];
      return Got(n);
    }

    method Close()
      requires Valid()
      modifies this`closed
      ensures Valid() && closed
    {
      closed := true;
    }
  }

  /**
   RTP marshalling and SRTP, which are library code: `seal` makes the datagram of an RTP packet and
   `open` decrypts and unmarshals one, or fails.
   */
  datatype Media = Media(seal: (uint16, uint32, Bytes) -> Bytes, open: Bytes -> Option<Bytes>)

  /** What is assumed of them: they are inverse, and the first RTP byte (version 2) stays in clear. */
  ghost predicate Inverse(media: Media) {
    forall q, ts, payload ::
      var raw := media.seal(q, ts, payload);
      raw != [] && raw[0] == 0x80 && media.open(raw) == Some(payload)
  }

  ghost function Sealed(media: Media, ps: seq<Chunker.Packet>): (raws: seq<Bytes>)
    ensures |raws| == |ps|
  {
    seq(|ps|, i requires 0 <= i < |ps| => media.seal(ps[i].seqNo, ps[i].ts, ps[i].payload))
  }

  function Opened(media: Media, raw: Bytes): Bytes {
    match media.open(raw)
    case None => []
    case Some(payload) => Chunker.Delivered(payload)
  }

  /** The bytes that a sequence of SRTP datagrams puts into the pipe. */
  ghost function RxStream(media: Media, raws: seq<Bytes>): Bytes {
    if raws == [] then []
    else RxStream(media, raws[..|raws| - 1]) + Opened(media, raws[|raws| - 1])
  }

  lemma {:induction false} RxSnoc(media: Media, raws: seq<Bytes>, raw: Bytes)
    ensures RxStream(media, raws + [raw]) == RxStream(media, raws) + Opened(media, raw)
  {
    assert (raws + [raw])[..|raws|] == raws;
  }

  lemma {:induction false} RxNext(media: Media, raws: seq<Bytes>, i: nat)
    requires i < |raws|
    ensures RxStream(media, raws[..i + 1]) == RxStream(media, raws[..i]) + Opened(media, raws[i])
  {
    assert raws[..i + 1][..i] == raws[..i];
  }

  /** One datagram in `rxLoop`: dropped unless it opens, is non-empty and carries the data flag. */
  method RxPacket(media: Media, raw: Bytes, pipe: Pipe)
    requires pipe.Valid()
    modifies pipe`buf, pipe`accepted
    ensures pipe.Valid()
    ensures pipe.accepted == if pipe.closed then old(pipe.accepted) else old(pipe.accepted) + Opened(media, raw)
  {
    var decrypted := media.open(raw);
    if decrypted.None? {
      return;
    }
    var payload := decrypted.value;
    if |payload| < 1 {
      return;
    }
    if payload[0] == Chunker.FLAG_DATA {
      pipe.Write(payload[1..]);
    }
  }

  /**
   `rxLoop`, run over the datagrams that arrive before it stops. Another goroutine closes the pipe just
   before datagram `closeAt` is handled, if there is one; what comes later is dropped.
   */
  method RxLoop(media: Media, raws: seq<Bytes>, pipe: Pipe, closeAt: nat)
    requires pipe.Valid()
    modifies pipe`buf, pipe`accepted, pipe`closed
    ensures pipe.Valid() && pipe.closed == (old(pipe.closed) || closeAt < |raws|)
    ensures pipe.accepted == old(pipe.accepted)
      + if old(pipe.closed) then [] else RxStream(media, raws[..Min(closeAt, |raws|)])
  {
    ghost var begun := if pipe.closed then 0 else closeAt;
    for i := 0 to |raws|
      invariant pipe.Valid() && pipe.closed == (old(pipe.closed) || closeAt < i)
      invariant pipe.accepted == old(pipe.accepted) + RxStream(media, raws[..Min(begun, i)])
    {
      if i == closeAt {
        pipe.Close();
      }
      if !pipe.closed {
        RxNext(media, raws, i);
        Assoc(old(pipe.accepted), RxStream(media, raws[..i]), Opened(media, raws[i]));
      }
      RxPacket(media, raws[i], pipe);
    }
  }

  /** Unsealing what was sealed gives the stream that the chunker theorems speak about. */
  lemma {:induction false} RxOfSealed(media: Media, ps: seq<Chunker.Packet>)
    requires Inverse(media)
    ensures RxStream(media, Sealed(media, ps)) == Chunker.Received(ps)
  {
    if ps == [] {
    } else {
      var n := |ps| - 1;
      RxOfSealed(media, ps[..n]);
      assert Sealed(media, ps)[..n] == Sealed(media, ps[..n]);
    }
  }
}
