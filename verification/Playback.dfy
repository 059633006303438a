/**
 The audio callback on the ring of frames: what reaches the port buffers, in terms of what
 the receiving thread has put into the ring. `value` reads a float from its four bytes.
 A frame put into the ring during a callback is behind those the callback reads first.
 */
module Playback {
  import opened SlidingWindow
  import opened RingBuffers
  import Ring = FrameRing
  import opened FrameReader

  type FrameBytes = seq<Byte>

  function Width(nb: nat): nat {
    nb * Ring.FLOAT
  }

  function Decoded(value: seq<Byte> -> real, x: FrameBytes, nb: nat): (f: Frame)
    requires |x| == Width(nb)
    ensures |f| == nb
  {
    seq(nb, c requires 0 <= c < nb => value(x[c * Ring.FLOAT..c * Ring.FLOAT + Ring.FLOAT]))
  }

  /** The bytes of a frame, its floats one behind the other. */
  ghost function Packed(floats: seq<seq<Byte>>): FrameBytes {
    if floats == [] then [] else Packed(floats[..|floats| - 1]) + floats[|floats| - 1]
  }

  /** Decoding a packed frame gives its floats, channel by channel. */
  lemma DecodedPacked(value: seq<Byte> -> real, floats: seq<seq<Byte>>, c: nat)
    requires c < |floats| && forall k :: 0 <= k < |floats| ==> |floats[k]| == Ring.FLOAT
    ensures |Packed(floats)| == Width(|floats|)
    ensures Decoded(value, Packed(floats), |floats|)[c] == value(floats[c])
  {
    PackedAt(floats, c);
  }

  lemma {:induction false} PackedAt(floats: seq<seq<Byte>>, c: nat)
    requires c < |floats| && forall k :: 0 <= k < |floats| ==> |floats[k]| == Ring.FLOAT
    ensures |Packed(floats)| == Width(|floats|)
    ensures Packed(floats)[c * Ring.FLOAT..c * Ring.FLOAT + Ring.FLOAT] == floats[c]
  {
    var n := |floats| - 1;
    if n > 0 {
      PackedAt(floats[..n], if c < n then c else 0);
    }
    if c < n {
      var p := Packed(floats[..n]);
      assert Packed(floats)[..|p|] == p;
      assert Packed(floats)[c * Ring.FLOAT..c * Ring.FLOAT + Ring.FLOAT]
        == p[c * Ring.FLOAT..c * Ring.FLOAT + Ring.FLOAT];
    }
  }

  ghost function DecodedAll(value: seq<Byte> -> real, q: seq<FrameBytes>, nb: nat): (fs: seq<Frame>)
    requires Ring.AllOf(q, Width(nb))
    ensures |fs| == |q| && AllWide(fs, nb)
  {
    seq(|q|, k requires 0 <= k < |q| => Decoded(value, q[k], nb))
  }

  /** What n reads find in a ring that holds q. */
  ghost function SlotsOf(value: seq<Byte> -> real, q: seq<FrameBytes>, n: nat, nb: nat): (slots: seq<Slot>)
    requires Ring.AllOf(q, Width(nb))
    ensures |slots| == n && SlotsWide(slots, nb)
  {
    seq(n, k requires 0 <= k => if k < |q| then Got(Decoded(value, q[k], nb)) else Missing)
  }

  /** What n reads leave of q. */
  function Rest(q: seq<FrameBytes>, n: nat): seq<FrameBytes> {
    if n < |q| then q[n..] else []
  }

  /** One read of the loop, into the cell of a frame. */
  method ReadSlot(rb: RingBuffer, cell: array<Byte>, nb: nat, value: seq<Byte> -> real, ghost cap: nat,
                  ghost q: seq<FrameBytes>)
    returns (slot: Slot, ghost r: seq<FrameBytes>)
    requires Ring.Holds(rb, Width(nb), cap, q) && cell != rb.buf && cell.Length == Width(nb)
    modifies rb`readPtr, cell
    ensures Ring.Holds(rb, Width(nb), cap, r) && r == Rest(q, 1)
    ensures slot == if q == [] then Missing else Got(Decoded(value, q[0], nb))
  {
    slot, r := Missing, q;
    if rb.ReadSpace() >= Width(nb) {
      var err;
      err, r := Ring.ReadFrame(rb, cell, Width(nb), cap, q);
      if err == 0 {
        assert cell[..] == cell[..Width(nb)];
        slot := Got(Decoded(value, cell[..], nb));
      }
    } else {
      Ring.FlatLength(q, Width(nb));
      Ring.FillInFrames(|q|, Width(nb));
    }
  }

  lemma RestStep(value: seq<Byte> -> real, q: seq<FrameBytes>, n: nat, nb: nat, b: nat)
    requires Ring.AllOf(q, Width(nb)) && b < n
    ensures Rest(Rest(q, b), 1) == Rest(q, b + 1)
    ensures SlotsOf(value, q, n, nb)[b] == if Rest(q, b) == [] then Missing else Got(Decoded(value, Rest(q, b)[0], nb))
  {
    hide Decoded;
  }

  /** One turn of the callback's loop: a read of the ring, and what becomes of it. */
  method Turn(rb: RingBuffer, cell: array<Byte>, rxbuf: array2<real>, buffers: array2<real>, nb: nat,
              value: seq<Byte> -> real,
              n: nat, gap: nat, ghost cap: nat, ghost q: seq<FrameBytes>, ghost u: Track, ghost was: (int, int) -> real)
    returns (missing: bool, lframe: nat, llost: nat, ghost slot: Slot)
    requires Ring.Holds(rb, Width(nb), cap, q) && cell != rb.buf && cell.Length == Width(nb)
    requires Playing(rxbuf, buffers, nb, u, n, was) && gap == u.gap
    requires n + 3 < rxbuf.Length0 && n < buffers.Length1 && rxbuf != buffers
    modifies rb`readPtr, cell, rxbuf, buffers
    ensures Ring.Holds(rb, Width(nb), cap, Rest(q, 1)) && missing == slot.Missing?
    ensures slot == if q == [] then Missing else Got(Decoded(value, q[0], nb))
    ensures Playing(rxbuf, buffers, nb, AfterSlot(u, slot, nb), lframe, was)
    ensures lframe <= n + 1 && llost == AfterSlot(u, slot, nb).gap
  {
    hide AfterSlot, Playing, Ring.Holds, Rest;
    var s;
    ghost var r;
    s, r := ReadSlot(rb, cell, nb, value, cap, q);
    slot, missing := s, s.Missing?;
    lframe, llost := Place(rxbuf, buffers, nb, s, n, gap, u, was);
  }

  lemma HoldsFrames(rb: RingBuffer, nb: nat, cap: nat, q: seq<FrameBytes>)
    requires Ring.Holds(rb, Width(nb), cap, q)
    ensures Ring.AllOf(q, Width(nb))
  {
  }

  /** One callback on a ring that holds the frames q, up to its loss handling. */
  method Callback(rb: RingBuffer, cell: array<Byte>, rxbuf: array2<real>, buffers: array2<real>, nframes: nat, nb: nat,
                  value: seq<Byte> -> real, ghost cap: nat, ghost q: seq<FrameBytes>, ghost tail: seq<Frame>,
                  ghost was: (int, int) -> real)
    returns (lframe: nat, lost: nat)
    requires Ring.Holds(rb, Width(nb), cap, q) && cell != rb.buf && cell.Length == Width(nb)
    requires Ready(rxbuf, buffers, nframes, nb, tail, was)
    modifies rb`readPtr, cell, rxbuf, buffers
    ensures Ring.Holds(rb, Width(nb), cap, Rest(q, nframes))
    ensures var slots := SlotsOf(value, q, nframes, nb);
      Playing(rxbuf, buffers, nb, AfterSlots(tail, slots, nb), lframe, was) && lost == Losses(slots)
  {
    hide AfterSlot, AfterSlots, Losses, Playing, Ready, AllWide, Ring.Holds, SlotsOf, Rest, Decoded, Width;
    HoldsFrames(rb, nb, cap, q);
    ghost var slots := SlotsOf(value, q, nframes, nb);
    ReadyMeans(rxbuf, buffers, nframes, nb, tail, was);
    Begin(rxbuf, buffers, nframes, nb, tail, was);
    RestNone(q);
    SlotsNone(tail, nb);
    var bframe, llost := 0, 0;
    lframe, lost := 0, 0;
    ghost var u := Track(tail, 0);
    while bframe < nframes
      invariant lframe <= bframe <= nframes && u == AfterSlots(tail, slots[..bframe], nb)
      invariant Ring.Holds(rb, Width(nb), cap, Rest(q, bframe))
      invariant Playing(rxbuf, buffers, nb, u, lframe, was) && llost == u.gap && lost == Losses(slots[..bframe])
    {
      SlotsMore(tail, slots, bframe, nb);
      RestStep(value, q, nframes, nb, bframe);
      var missing;
      ghost var slot;
      missing, lframe, llost, slot :=
        Turn(rb, cell, rxbuf, buffers, nb, value, lframe, llost, cap, Rest(q, bframe), u, was);
      if missing {
        lost := lost + 1;
      }
      u := AfterSlot(u, slot, nb);
      bframe := bframe + 1;
    }
    assert slots[..nframes] == slots;
  }

  lemma RestNone(q: seq<FrameBytes>)
    ensures Rest(q, 0) == q
  {
  }

  // ---- runs -------------------------------------------------------------------------

  datatype Event = Arrives(x: FrameBytes) | Plays

  /** The frames of the ring, the history in `rxbuf`, and what the port buffers have got. */
  datatype Player = Player(log: Ring.Log, tail: seq<Frame>, played: seq<Frame>)

  /** Frames of one size throughout, and three frames of history. */
  ghost predicate Fed(s: Player, nb: nat) {
    && Ring.AllOf(s.log.queue, Width(nb)) && Ring.AllOf(s.log.read, Width(nb)) && Ring.AllOf(s.log.accepted, Width(nb))
    && |s.tail| == 3 && AllWide(s.tail, nb)
  }

  /** The ring holds enough frames for the callback. */
  ghost predicate Possible(s: Player, nframes: nat, nb: nat, e: Event) {
    match e
    case Arrives(x) => |x| == Width(nb)
    case Plays => nframes <= |s.log.queue|
  }

  /** What `FrameRing.WriteFrame` and `Callback` do. */
  ghost function After(value: seq<Byte> -> real, s: Player, cap: nat, nframes: nat, nb: nat, e: Event): (t: Player)
    requires Fed(s, nb) && Possible(s, nframes, nb, e)
    ensures Fed(t, nb)
  {
    match e
    case Arrives(x) => s.(log := Ring.After(s.log, cap, Ring.Put(x)))
    case Plays =>
      var (q, slots) := (s.log.queue, SlotsOf(value, s.log.queue, nframes, nb));
      PlaysInFull(value, s, nframes, nb);
      var h := AfterSlots(s.tail, slots, nb).h;
      var log := Ring.Log(Rest(q, nframes), s.log.accepted, s.log.read + q[..nframes]);
      Player(log, h[nframes..], s.played + h[..nframes])
  }

  /** With enough frames in the ring a callback adds just these to the history. */
  lemma PlaysInFull(value: seq<Byte> -> real, s: Player, nframes: nat, nb: nat)
    requires Fed(s, nb) && nframes <= |s.log.queue|
    ensures AfterSlots(s.tail, SlotsOf(value, s.log.queue, nframes, nb), nb).h
         == s.tail + DecodedAll(value, s.log.queue[..nframes], nb)
  {
    var slots := SlotsOf(value, s.log.queue, nframes, nb);
    hide Decoded;
    PlainHistory(s.tail, slots, nb);
    FramesOfGot(slots, DecodedAll(value, s.log.queue[..nframes], nb));
  }

  lemma {:induction false} FramesOfGot(slots: seq<Slot>, fs: seq<Frame>)
    requires |slots| == |fs| && forall k :: 0 <= k < |slots| ==> slots[k] == Got(fs[k])
    ensures FramesOf(slots) == fs
  {
    var n := |slots|;
    if n > 0 {
      FramesOfGot(slots[..n - 1], fs[..n - 1]);
      assert fs == fs[..n - 1] + [fs[n - 1]];
    }
  }

  /** Every event of the run finds what it needs. */
  ghost predicate Runs(value: seq<Byte> -> real, s: Player, cap: nat, nframes: nat, nb: nat, es: seq<Event>)
    requires Fed(s, nb)
    decreases |es|
  {
    es == [] || (
      && Possible(s, nframes, nb, es[0])
      && Runs(value, After(value, s, cap, nframes, nb, es[0]), cap, nframes, nb, es[1..]))
  }

  ghost function AfterAll(value: seq<Byte> -> real, s: Player, cap: nat, nframes: nat, nb: nat,
                          es: seq<Event>): (t: Player)
    requires Fed(s, nb) && Runs(value, s, cap, nframes, nb, es)
    ensures Fed(t, nb)
    decreases |es|
  {
    if es == [] then s else AfterAll(value, After(value, s, cap, nframes, nb, es[0]), cap, nframes, nb, es[1..])
  }

  /** Nothing lost, nothing repeated: the initial history and all frames that went into the ring are what was
      played, the history and the frames still in the ring, in this order. */
  ghost predicate Conserved(value: seq<Byte> -> real, s: Player, nb: nat, tail0: seq<Frame>, prefill: seq<FrameBytes>)
    requires Fed(s, nb) && Ring.AllOf(prefill, Width(nb))
  {
    tail0 + DecodedAll(value, prefill + s.log.accepted, nb) == s.played + s.tail + DecodedAll(value, s.log.queue, nb)
  }

  lemma DecodedSplit(value: seq<Byte> -> real, a: seq<FrameBytes>, b: seq<FrameBytes>, nb: nat)
    requires Ring.AllOf(a, Width(nb)) && Ring.AllOf(b, Width(nb))
    ensures Ring.AllOf(a + b, Width(nb))
    ensures DecodedAll(value, a + b, nb) == DecodedAll(value, a, nb) + DecodedAll(value, b, nb)
  {
    hide Decoded;
  }

  lemma ArrivalConserves(value: seq<Byte> -> real, s: Player, cap: nat, nframes: nat, nb: nat, x: FrameBytes,
                         tail0: seq<Frame>, prefill: seq<FrameBytes>)
    requires Fed(s, nb) && |x| == Width(nb) && Ring.AllOf(prefill, Width(nb)) && Conserved(value, s, nb, tail0, prefill)
    ensures Conserved(value, After(value, s, cap, nframes, nb, Arrives(x)), nb, tail0, prefill)
  {
    hide DecodedAll;
    var t := After(value, s, cap, nframes, nb, Arrives(x));
    if t != s {
      DecodedSplit(value, prefill + s.log.accepted, [x], nb);
      DecodedSplit(value, s.log.queue, [x], nb);
      assert prefill + (s.log.accepted + [x]) == (prefill + s.log.accepted) + [x];
      var a, b := DecodedAll(value, prefill + s.log.accepted, nb), DecodedAll(value, s.log.queue, nb);
      var d := DecodedAll(value, [x], nb);
      assert tail0 + (a + d) == (tail0 + a) + d;
      assert s.played + s.tail + (b + d) == (s.played + s.tail + b) + d;
    }
  }

  lemma PlayConserves(value: seq<Byte> -> real, s: Player, cap: nat, nframes: nat, nb: nat,
                      tail0: seq<Frame>, prefill: seq<FrameBytes>)
    requires Fed(s, nb) && Possible(s, nframes, nb, Plays) && Ring.AllOf(prefill, Width(nb))
    requires Conserved(value, s, nb, tail0, prefill)
    ensures Conserved(value, After(value, s, cap, nframes, nb, Plays), nb, tail0, prefill)
  {
    hide DecodedAll, SlotsOf, AfterSlots;
    var q := s.log.queue;
    PlaysInFull(value, s, nframes, nb);
    assert q == q[..nframes] + Rest(q, nframes);
    DecodedSplit(value, q[..nframes], Rest(q, nframes), nb);
    var h := s.tail + DecodedAll(value, q[..nframes], nb);
    assert h == h[..nframes] + h[nframes..];
  }

  /** Over any run of frames arriving and callbacks that find enough of them, the port buffers carry the ring's frame
      stream, decoded, three frames late. */
  lemma {:induction false} PlayedInOrder(value: seq<Byte> -> real, s: Player, cap: nat, nframes: nat, nb: nat,
                                         es: seq<Event>, tail0: seq<Frame>, prefill: seq<FrameBytes>)
    requires Fed(s, nb) && Runs(value, s, cap, nframes, nb, es) && Ring.AllOf(prefill, Width(nb))
    requires Conserved(value, s, nb, tail0, prefill)
    ensures var t := AfterAll(value, s, cap, nframes, nb, es);
      Conserved(value, t, nb, tail0, prefill) && s.played <= t.played
    decreases |es|
  {
    if es != [] {
      hide Conserved;
      match es[0] {
        case Arrives(x) => ArrivalConserves(value, s, cap, nframes, nb, x, tail0, prefill);
        case Plays => PlayConserves(value, s, cap, nframes, nb, tail0, prefill);
      }
      PlayedInOrder(value, After(value, s, cap, nframes, nb, es[0]), cap, nframes, nb, es[1..], tail0, prefill);
    }
  }

  /** From the start: what has been played is a prefix of the initial history followed by the prefill and the accepted
      frames, and lags three frames and the fill of the ring behind them. */
  lemma DelayOfThree(value: seq<Byte> -> real, cap: nat, nframes: nat, nb: nat, es: seq<Event>,
                     tail0: seq<Frame>, prefill: seq<FrameBytes>)
    requires |tail0| == 3 && AllWide(tail0, nb) && Ring.AllOf(prefill, Width(nb))
    requires Runs(value, Player(Ring.Log(prefill, [], []), tail0, []), cap, nframes, nb, es)
    ensures var t := AfterAll(value, Player(Ring.Log(prefill, [], []), tail0, []), cap, nframes, nb, es);
      && t.played <= tail0 + DecodedAll(value, prefill + t.log.accepted, nb)
      && |t.played| + |t.log.queue| == |prefill| + |t.log.accepted|
  {
    hide DecodedAll, Runs;
    var s := Player(Ring.Log(prefill, [], []), tail0, []);
    assert prefill + [] == prefill && [] + tail0 == tail0;
    PlayedInOrder(value, s, cap, nframes, nb, es, tail0, prefill);
    var t := AfterAll(value, s, cap, nframes, nb, es);
    assert t.played + t.tail + DecodedAll(value, t.log.queue, nb)
        == t.played + (t.tail + DecodedAll(value, t.log.queue, nb));
  }
}
