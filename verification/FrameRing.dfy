/**
 The receptor's use of the ring buffer: it is created for whole frames of `nch` float
 samples, prefilled with silence, written and read one whole frame at a time.
 */
module FrameRing {
  import Division
  import opened RingBuffers

  const FLOAT: nat := 4
  const INT_MAX: nat := 0x7FFF_FFFF

  type FrameBytes = seq<Byte>

  function Larger(a: nat, b: nat): (c: nat)
    ensures a <= c && b <= c && (c == a || c == b)
  {
    if a > b then a else b
  }

  /** `frames` frames of f bytes. */
  function Bytes(frames: nat, f: nat): nat {
    frames * f
  }

  lemma BytesGrow(k: nat, f: nat)
    ensures Bytes(0, f) == 0 && Bytes(k + 1, f) == Bytes(k, f) + f
  {
  }

  lemma BytesWider(k: nat, stride: nat, f: nat)
    requires stride <= f
    ensures Bytes(k, stride) <= Bytes(k, f)
  {
    assert k * (f - stride) >= 0;
  }

  lemma BytesMore(k: nat, n: nat, f: nat)
    requires k <= n
    ensures Bytes(k, f) <= Bytes(n, f)
  {
    assert (n - k) * f >= 0;
  }

  ghost predicate Aligned(p: nat, f: nat)
    requires f > 0
  {
    p % f == 0
  }

  ghost function Flat(q: seq<FrameBytes>): seq<Byte> {
    if q == [] then [] else q[0] + Flat(q[1..])
  }

  ghost predicate AllOf(q: seq<FrameBytes>, f: nat) {
    forall k :: 0 <= k < |q| ==> |q[k]| == f
  }

  /** The ring holds the frames q, in room for cap - 1 frames. */
  ghost predicate Holds(rb: RingBuffer, f: nat, cap: nat, q: seq<FrameBytes>)
    reads rb, rb.buf
  {
    && rb.Valid() && f > 0 && rb.buf.Length == Bytes(cap, f)
    && Aligned(rb.readPtr, f) && Aligned(rb.writePtr, f)
    && AllOf(q, f) && rb.Contents() == Flat(q)
  }

  // ---- alignment ------------------------------------------------------------------

  lemma MultipleAligned(n: nat, f: nat)
    requires f > 0
    ensures Aligned(Bytes(n, f), f)
  {
    Division.DivMod(n * f, f, n, 0);
  }

  /** From an aligned offset a whole frame fits before the end of the buffer. */
  lemma FrameFits(p: nat, f: nat, cap: nat)
    requires f > 0 && Aligned(p, f) && p < Bytes(cap, f)
    ensures p + f <= Bytes(cap, f) && Aligned(p + f, f) && Aligned((p + f) % Bytes(cap, f), f)
  {
    hide Bytes, Aligned;
    var k := AlignedIs(p, f);
    if k >= cap {
      BytesMore(cap, k, f);
    }
    BytesGrow(k, f);
    BytesMore(k + 1, cap, f);
    MultipleAligned(k + 1, f);
    MultipleAligned(0, f);
    BytesGrow(0, f);
    Wrap(p + f, Bytes(cap, f));
  }

  lemma AlignedIs(p: nat, f: nat) returns (k: nat)
    requires f > 0 && Aligned(p, f)
    ensures p == Bytes(k, f)
  {
    k := p / f;
  }

  lemma {:induction false} FlatLength(q: seq<FrameBytes>, f: nat)
    requires AllOf(q, f)
    ensures |Flat(q)| == Bytes(|q|, f)
  {
    if q != [] {
      FlatLength(q[1..], f);
      assert (|q| - 1) * f + f == |q| * f;
    }
  }

  lemma {:induction false} FlatAppend(q: seq<FrameBytes>, x: FrameBytes)
    ensures Flat(q + [x]) == Flat(q) + x
  {
    if q == [] {
      assert Flat([x]) == x + Flat([]);
    } else {
      FlatAppend(q[1..], x);
      assert (q + [x])[1..] == q[1..] + [x];
    }
  }

  /** Room for a frame's bytes is room for a frame: one frame of the ring always stays unused. */
  lemma RoomInFrames(n: nat, cap: nat, f: nat)
    requires f > 0 && Bytes(n, f) < Bytes(cap, f)
    ensures Bytes(cap, f) - 1 - Bytes(n, f) >= f <==> n + 1 < cap
  {
    hide Bytes;
    BytesGrow(n, f);
    BytesGrow(n + 1, f);
    if n + 2 <= cap {
      BytesMore(n + 2, cap, f);
    } else {
      BytesMore(cap, n + 1, f);
    }
  }

  lemma FillInFrames(n: nat, f: nat)
    requires f > 0
    ensures Bytes(n, f) >= f <==> n > 0
  {
    assert n > 0 ==> (n - 1) * f >= 0;
    assert (n - 1) * f == n * f - f;
  }

  // ---- the operations -------------------------------------------------------------

  function ZeroFrame(f: nat): FrameBytes {
    seq(f, _ => 0)
  }

  function ZeroFrames(n: nat, f: nat): (q: seq<FrameBytes>)
    ensures AllOf(q, f)
  {
    seq(n, _ => ZeroFrame(f))
  }

  lemma {:induction false} FlatOfZeros(n: nat, f: nat)
    ensures Flat(ZeroFrames(n, f)) == seq(Bytes(n, f), _ => 0)
  {
    if n > 0 {
      FlatOfZeros(n - 1, f);
      assert ZeroFrames(n, f)[1..] == ZeroFrames(n - 1, f);
      assert (n - 1) * f + f == n * f;
    }
  }

  /** Frames of silence put into a new ring. */
  function Prefill(frames: nat, redundancy: nat): nat {
    if redundancy == 0 then 0 else frames * (redundancy + 1) / (if redundancy < 2 then 2 else 1)
  }

  /** Nothing without redundancy, a quarter of the ring with one copy more, half of it with several. */
  lemma PrefillShare(frames: nat, redundancy: nat)
    ensures var cap := 2 * frames * (redundancy + 1);
      && (redundancy == 0 ==> Prefill(frames, redundancy) == 0)
      && (redundancy == 1 ==> 4 * Prefill(frames, redundancy) == cap)
      && (redundancy >= 2 ==> 2 * Prefill(frames, redundancy) == cap)
  {
    assert 2 * frames * (redundancy + 1) == 2 * (frames * (redundancy + 1));
  }

  lemma Sizes(frames: nat, nch: nat, redundancy: nat)
    requires frames > 0 && nch > 0
    ensures var f := nch * FLOAT; var cap := 2 * frames * (redundancy + 1);
      && f > 0 && cap >= 2 && 2 * frames * nch * (redundancy + 1) * FLOAT == Bytes(cap, f)
      && Bytes(cap, f) / 2 == Bytes(frames * (redundancy + 1), f)
      && (redundancy == 1 ==> Bytes(cap, f) / 4 == Bytes(frames, f) && Prefill(frames, 1) == frames)
  {
    var f, r := nch * FLOAT, redundancy + 1;
    assert frames * r >= 1;
    assert 2 * frames * r == 2 * (frames * r);
    assert 2 * frames * nch * r * FLOAT == (2 * frames * r) * (nch * FLOAT) by {
      assert 2 * frames * nch * r == (2 * frames * r) * nch;
    }
    assert Bytes(2 * (frames * r), f) == 2 * Bytes(frames * r, f);
  }

  method ComputeRxRingbuffer(nframes: nat, nframesPac: nat, nch: nat, redundancy: nat) returns (rb: RingBuffer)
    requires Larger(nframes, nframesPac) > 0 && nch > 0
    requires 2 * Larger(nframes, nframesPac) * nch * (redundancy + 1) * FLOAT <= INT_MAX
    ensures fresh(rb) && fresh(rb.buf)
    ensures var n := Larger(nframes, nframesPac);
      Holds(rb, nch * FLOAT, 2 * n * (redundancy + 1), ZeroFrames(Prefill(n, redundancy), nch * FLOAT))
  {
    var n := Larger(nframes, nframesPac);
    ghost var f, cap := nch * FLOAT, 2 * n * (redundancy + 1);
    Sizes(n, nch, redundancy);
    var rbsize := 2 * n * nch * (redundancy + 1) * FLOAT;
    rb := new RingBuffer(rbsize);
    MultipleAligned(0, f);
    MultipleAligned(Prefill(n, redundancy), f);
    FlatOfZeros(Prefill(n, redundancy), f);
    if redundancy > 0 {
      var part := if redundancy < 2 then rbsize / 4 else rbsize / 2;
      var zeros := new Byte[part](_ => 0);
      var wrote := rb.Write(zeros, 0, part);
      Division.DivMod(part, rbsize, 0, part);
      assert zeros[..part] == seq(part, _ => 0);
    }
  }

  /** One frame of the receive loop: dropped as a whole when there is no room for it. */
  method WriteFrame(rb: RingBuffer, src: array<Byte>, at: nat, f: nat, ghost cap: nat, ghost q: seq<FrameBytes>)
    returns (ghost r: seq<FrameBytes>)
    requires Holds(rb, f, cap, q) && src != rb.buf && at + f <= src.Length
    modifies rb`writePtr, rb.buf
    ensures Holds(rb, f, cap, r) && |q| < cap && r == if |q| + 1 < cap then q + [src[at..at + f]] else q
    ensures |q| + 1 < cap <==> old(rb.WriteSpace()) >= f
    ensures r != q ==> old(rb.writePtr) + f <= rb.buf.Length
  {
    RoomForFrames(rb, f, cap, q);
    FlatLength(q, f);
    RoomInFrames(|q|, cap, f);
    FrameFits(rb.writePtr, f, cap);
    FlatAppend(q, src[at..at + f]);
    r := q;
    if rb.WriteSpace() >= f {
      r := q + [src[at..at + f]];
      var n := rb.Write(src, at, f);
    }
  }

  lemma RoomForFrames(rb: RingBuffer, f: nat, cap: nat, q: seq<FrameBytes>)
    requires Holds(rb, f, cap, q)
    ensures |q| < cap
  {
    FlatLength(q, f);
    if cap <= |q| {
      BytesMore(cap, |q|, f);
    }
  }

  /** The loop that stores the resampled frames; frame k is taken at k times `stride`. */
  method StoreOutputs(rb: RingBuffer, out: array<Byte>, count: nat, stride: nat, f: nat, ghost cap: nat,
                      ghost q: seq<FrameBytes>)
    returns (ghost r: seq<FrameBytes>)
    requires Holds(rb, f, cap, q) && out != rb.buf && Bytes(count, f) <= out.Length && stride <= f
    modifies rb`writePtr, rb.buf
    ensures Holds(rb, f, cap, r) && |q| < cap
    ensures r == q + Slices(out[..], count, stride, f)[..Min(count, cap - 1 - |q|)]
  {
    hide Holds, Bytes;
    RoomForFrames(rb, f, cap, q);
    r := q;
    var k := 0;
    BytesMore(0, count, f);
    while k < count
      invariant k <= count && Bytes(k, f) <= out.Length
      invariant Holds(rb, f, cap, r) && r == q + Slices(out[..], k, stride, f)[..Min(k, cap - 1 - |q|)]
    {
      SlicesMore(out[..], k, count, stride, f);
      r := WriteFrame(rb, out, Bytes(k, stride), f, cap, r);
      k := k + 1;
    }
  }

  lemma SliceInside(k: nat, count: nat, stride: nat, f: nat)
    requires k < count && stride <= f
    ensures Bytes(k, stride) + f <= Bytes(count, f)
  {
    hide Bytes;
    BytesWider(k, stride, f);
    BytesGrow(k, f);
    BytesMore(k + 1, count, f);
  }

  /** The stretches of f bytes at 0, stride, 2*stride, ... */
  ghost function Slices(out: seq<Byte>, count: nat, stride: nat, f: nat): (fs: seq<FrameBytes>)
    requires Bytes(count, f) <= |out| && stride <= f
    ensures |fs| == count
  {
    seq(count, k requires 0 <= k < count =>
      SliceInside(k, count, stride, f);
      out[Bytes(k, stride)..Bytes(k, stride) + f])
  }

  lemma SlicesMore(out: seq<Byte>, k: nat, count: nat, stride: nat, f: nat)
    requires k < count && Bytes(count, f) <= |out| && stride <= f
    ensures Bytes(k + 1, f) <= |out| && Bytes(k, f) <= |out| && Bytes(k, stride) + f <= |out|
    ensures Slices(out, k + 1, stride, f) == Slices(out, k, stride, f) + [out[Bytes(k, stride)..Bytes(k, stride) + f]]
  {
    hide Bytes;
    BytesMore(k + 1, count, f);
    BytesMore(k, count, f);
    SliceInside(k, count, stride, f);
  }

  /** The frames at multiples of f bytes, as the resampler laid them out. */
  ghost function Laid(out: seq<Byte>, count: nat, f: nat): seq<FrameBytes>
    requires Bytes(count, f) <= |out|
  {
    Slices(out, count, f, f)
  }

  /** Bytes from one stored frame to the next: the packet's channels, or the output's if the packet has more. */
  function Stride(packetChannels: nat, outputs: nat): nat {
    (if packetChannels < outputs then packetChannels else outputs) * FLOAT
  }

  /** Byte i of frame k of the resampler's output. */
  function At(k: nat, i: nat, f: nat): nat {
    Bytes(k, f) + i
  }

  /** What the resampler can have made: channels that no packet fills are silent. */
  ghost predicate SilentBehind(out: seq<Byte>, count: nat, stride: nat, f: nat) {
    && |out| == Bytes(count, f)
    && forall k, i :: 0 <= k < count && stride <= i < f && At(k, i, f) < |out| ==> out[At(k, i, f)] == 0
  }

  /** The stored frames are the resampled ones, whatever the samples, exactly when the packet has at least as many
      channels as there are outputs, or at most one frame is stored. */
  lemma StrideCondition(count: nat, packetChannels: nat, outputs: nat)
    requires packetChannels > 0 && outputs > 0
    ensures var stride, f := Stride(packetChannels, outputs), outputs * FLOAT;
      (forall out: seq<Byte> | SilentBehind(out, count, stride, f) ::
        Slices(out, count, stride, f) == Laid(out, count, f))
      <==> packetChannels >= outputs || count <= 1
  {
    var stride, f := Stride(packetChannels, outputs), outputs * FLOAT;
    if packetChannels < outputs && count > 1 {
      StrideWitness(count, stride, f);
    } else if count <= 1 {
      forall out: seq<Byte> | SilentBehind(out, count, stride, f)
        ensures Slices(out, count, stride, f) == Laid(out, count, f)
      {
        assert Bytes(0, stride) == Bytes(0, f) == 0;
      }
    }
  }

  /** A single sample in the first channel of the second frame is not found where the second frame is looked for. */
  lemma StrideWitness(count: nat, stride: nat, f: nat)
    requires 0 < stride < f && count > 1
    ensures exists out: seq<Byte> ::
      SilentBehind(out, count, stride, f) && Slices(out, count, stride, f) != Laid(out, count, f)
  {
    var out: seq<Byte> := seq(Bytes(count, f), i => if i == f then 1 else 0);
    SliceInside(1, count, stride, f);
    SliceInside(1, count, f, f);
    forall k, i | 0 <= k < count && stride <= i < f && At(k, i, f) < |out|
      ensures out[At(k, i, f)] == 0
    {
      if k > 0 {
        BytesMore(1, k, f);
      }
    }
    assert Slices(out, count, stride, f)[1][0] == 0;
    assert Laid(out, count, f)[1][0] == 1;
  }

  method ReadFrame(rb: RingBuffer, dst: array<Byte>, f: nat, ghost cap: nat, ghost q: seq<FrameBytes>)
    returns (err: int, ghost r: seq<FrameBytes>)
    requires Holds(rb, f, cap, q) && dst != rb.buf && f <= dst.Length
    modifies rb`readPtr, dst
    ensures Holds(rb, f, cap, r) && err == (if q == [] then 1 else 0)
    ensures q == [] ==> r == q && dst[..] == old(dst[..])
    ensures q != [] ==> r == q[1..] && dst[..f] == q[0] && dst[f..] == old(dst[f..])
    ensures q != [] ==> old(rb.readPtr) + f <= rb.buf.Length
  {
    FlatLength(q, f);
    FillInFrames(|q|, f);
    FrameFits(rb.readPtr, f, cap);
    err, r := 1, q;
    if rb.ReadSpace() >= f {
      r := q[1..];
      var n := rb.Read(dst, f);
      err := 0;
    }
  }

  // ---- runs -----------------------------------------------------------------------

  datatype Event = Put(x: FrameBytes) | Take

  /** Frames in the ring, accepted so far and read so far. */
  datatype Log = Log(queue: seq<FrameBytes>, accepted: seq<FrameBytes>, read: seq<FrameBytes>)

  /** What `WriteFrame` and `ReadFrame` do to the frames. */
  function After(s: Log, cap: nat, e: Event): Log {
    match e
    case Put(x) => if |s.queue| + 1 < cap then s.(queue := s.queue + [x], accepted := s.accepted + [x]) else s
    case Take => if s.queue == [] then s else s.(queue := s.queue[1..], read := s.read + [s.queue[0]])
  }

  function AfterAll(s: Log, cap: nat, es: seq<Event>): Log
    decreases |es|
  {
    if es == [] then s else AfterAll(After(s, cap, es[0]), cap, es[1..])
  }

  /** Over any run the frames read are the prefill and the accepted frames in order, with nothing
      lost once accepted, and the fill stays below the capacity. */
  lemma {:induction false} FramesInOrder(s: Log, cap: nat, es: seq<Event>, prefill: seq<FrameBytes>)
    requires prefill + s.accepted == s.read + s.queue && |s.queue| < cap
    ensures var t := AfterAll(s, cap, es);
      prefill + t.accepted == t.read + t.queue && |t.queue| < cap && s.accepted <= t.accepted && s.read <= t.read
    decreases |es|
  {
    if es != [] {
      var t := After(s, cap, es[0]);
      match es[0] {
        case Put(x) =>
          assert prefill + (s.accepted + [x]) == (prefill + s.accepted) + [x];
          assert s.read + (s.queue + [x]) == (s.read + s.queue) + [x];
        case Take =>
          if s.queue != [] {
            assert s.read + s.queue == (s.read + [s.queue[0]]) + s.queue[1..];
          }
      }
      FramesInOrder(t, cap, es[1..], prefill);
    }
  }
}
