/**
 The reader that hands ring frames to the audio callback, with three frames of history.
 Row t of `rxbuf` is the source's `rxbuf[t * nboutputs ..]`. What each attempt to read a
 frame from the ring finds is an input: a frame, or nothing when the ring has run dry.
 */
module FrameReader {
  import opened SlidingWindow

  datatype Slot = Missing | Got(x: Frame)

  const LAGRANGE: nat := 3

  function Extrapolated(a: real, b: real, c: real): real {
    0.8 * 3.0 * a - 0.8 * 3.0 * b + 0.8 * c
  }

  function Smoothed(x: real, a: real, b: real, c: real): real {
    0.3 * x + 0.9 * a - 0.9 * b + 0.3 * c
  }

  ghost predicate SlotsWide(slots: seq<Slot>, nb: nat) {
    forall k :: 0 <= k < |slots| ==> slots[k].Got? ==> |slots[k].x| == nb
  }

  ghost function ExtrapolatedFrame(h: seq<Frame>, nb: nat): (f: Frame)
    requires |h| >= 3 && AllWide(h, nb)
    ensures |f| == nb
  {
    seq(nb, c requires 0 <= c < nb => Extrapolated(h[|h| - 1][c], h[|h| - 2][c], h[|h| - 3][c]))
  }

  ghost function SmoothedFrame(x: Frame, h: seq<Frame>, nb: nat): (f: Frame)
    requires |h| >= 3 && AllWide(h, nb) && |x| == nb
    ensures |f| == nb
  {
    seq(nb, c requires 0 <= c < nb => Smoothed(x[c], h[|h| - 1][c], h[|h| - 2][c], h[|h| - 3][c]))
  }

  /** The history after some reads, and how many reads in a row have just failed. */
  datatype Track = Track(h: seq<Frame>, gap: nat)

  ghost function AfterSlot(t: Track, s: Slot, nb: nat): (u: Track)
    requires |t.h| >= 3 && AllWide(t.h, nb) && (s.Got? ==> |s.x| == nb)
    ensures |t.h| <= |u.h| <= |t.h| + 1 && t.h <= u.h && AllWide(u.h, nb)
  {
    match s
    case Missing => Track(if t.gap + 1 < 3 then t.h + [ExtrapolatedFrame(t.h, nb)] else t.h, t.gap + 1)
    case Got(x) => Track(t.h + [if 0 < t.gap < 3 then SmoothedFrame(x, t.h, nb) else x], 0)
  }

  /** A whole callback: the frames of `tail`, then what the reads add. */
  ghost function AfterSlots(tail: seq<Frame>, slots: seq<Slot>, nb: nat): (u: Track)
    requires |tail| == 3 && AllWide(tail, nb) && SlotsWide(slots, nb)
    ensures 3 <= |u.h| <= 3 + |slots| && tail <= u.h && AllWide(u.h, nb)
  {
    if slots == [] then Track(tail, 0)
    else AfterSlot(AfterSlots(tail, slots[..|slots| - 1], nb), slots[|slots| - 1], nb)
  }

  ghost predicate Rows(rxbuf: array2<real>, h: seq<Frame>, nb: nat)
    requires AllWide(h, nb)
    reads rxbuf
  {
    && |h| <= rxbuf.Length0 && rxbuf.Length1 == nb
    && forall t, c :: 0 <= t < |h| && 0 <= c < nb ==> rxbuf[t, c] == h[t][c]
  }

  method WriteExtrapolated(rxbuf: array2<real>, ghost h: seq<Frame>, nb: nat, row: nat)
    requires AllWide(h, nb) && row == |h| >= 3 && row < rxbuf.Length0 && Rows(rxbuf, h, nb)
    modifies rxbuf
    ensures Rows(rxbuf, h + [ExtrapolatedFrame(h, nb)], nb)
    ensures forall t, c :: row < t < rxbuf.Length0 && 0 <= c < nb ==> rxbuf[t, c] == old(rxbuf[t, c])
  {
    var c := 0;
    while c < nb
      invariant c <= nb && Rows(rxbuf, h, nb)
      invariant forall k :: 0 <= k < c ==> rxbuf[row, k] == Extrapolated(h[row - 1][k], h[row - 2][k], h[row - 3][k])
      invariant forall t, k :: row < t < rxbuf.Length0 && 0 <= k < nb ==> rxbuf[t, k] == old(rxbuf[t, k])
    {
      rxbuf[row, c] := Extrapolated(rxbuf[row - 1, c], rxbuf[row - 2, c], rxbuf[row - 3, c]);
      c := c + 1;
    }
  }

  method WriteGot(rxbuf: array2<real>, ghost h: seq<Frame>, nb: nat, row: nat, x: Frame)
    requires AllWide(h, nb) && |x| == nb && row == |h| && row < rxbuf.Length0 && Rows(rxbuf, h, nb)
    modifies rxbuf
    ensures Rows(rxbuf, h + [x], nb)
    ensures forall t, c :: row < t < rxbuf.Length0 && 0 <= c < nb ==> rxbuf[t, c] == old(rxbuf[t, c])
  {
    var c := 0;
    while c < nb
      invariant c <= nb && Rows(rxbuf, h, nb)
      invariant forall k :: 0 <= k < c ==> rxbuf[row, k] == x[k]
      invariant forall t, k :: row < t < rxbuf.Length0 && 0 <= k < nb ==> rxbuf[t, k] == old(rxbuf[t, k])
    {
      rxbuf[row, c] := x[c];
      c := c + 1;
    }
  }

  method SmoothRow(rxbuf: array2<real>, ghost h: seq<Frame>, nb: nat, row: nat, ghost x: Frame)
    requires AllWide(h, nb) && |x| == nb && row == |h| >= 3 && row < rxbuf.Length0 && Rows(rxbuf, h + [x], nb)
    modifies rxbuf
    ensures Rows(rxbuf, h + [SmoothedFrame(x, h, nb)], nb)
    ensures forall t, c :: row < t < rxbuf.Length0 && 0 <= c < nb ==> rxbuf[t, c] == old(rxbuf[t, c])
  {
    assert forall t, k :: 0 <= t < row && 0 <= k < nb ==> rxbuf[t, k] == (h + [x])[t][k] == h[t][k];
    assert forall k :: 0 <= k < nb ==> rxbuf[row, k] == (h + [x])[row][k] == x[k];
    var c := 0;
    while c < nb
      invariant c <= nb && Rows(rxbuf, h, nb)
      invariant forall k :: 0 <= k < c ==> rxbuf[row, k] == Smoothed(x[k], h[row - 1][k], h[row - 2][k], h[row - 3][k])
      invariant forall k :: c <= k < nb ==> rxbuf[row, k] == x[k]
      invariant forall t, k :: row < t < rxbuf.Length0 && 0 <= k < nb ==> rxbuf[t, k] == old(rxbuf[t, k])
    {
      rxbuf[row, c] := Smoothed(rxbuf[row, c], rxbuf[row - 1, c], rxbuf[row - 2, c], rxbuf[row - 3, c]);
      c := c + 1;
    }
  }

  /** Copies row t to the callback's port buffers. */
  method Output(rxbuf: array2<real>, buffers: array2<real>, nb: nat, t: nat, ghost h: seq<Frame>)
    requires AllWide(h, nb) && Rows(rxbuf, h, nb) && t < |h| && rxbuf != buffers
    requires buffers.Length0 == nb && t < buffers.Length1
    requires forall c, k :: 0 <= c < nb && 0 <= k < t ==> buffers[c, k] == h[k][c]
    modifies buffers
    ensures forall c, k :: 0 <= c < nb && 0 <= k <= t ==> buffers[c, k] == h[k][c]
    ensures forall c, k :: 0 <= c < nb && t < k < buffers.Length1 ==> buffers[c, k] == old(buffers[c, k])
  {
    var c := 0;
    while c < nb
      invariant c <= nb
      invariant forall d, k :: 0 <= d < nb && 0 <= k < buffers.Length1 && (k != t || d >= c) ==>
        buffers[d, k] == old(buffers[d, k])
      invariant forall d :: 0 <= d < c ==> buffers[d, t] == h[t][d]
    {
      buffers[c, t] := rxbuf[t, c];
      c := c + 1;
    }
  }

  /** The newest three frames become the oldest three; the two stretches do not overlap from 3 frames on. */
  method TailToHead(rxbuf: array2<real>, nframes: nat, nb: nat, ghost tail: seq<Frame>)
    requires nframes >= LAGRANGE && rxbuf.Length0 >= nframes + LAGRANGE && rxbuf.Length1 == nb
    requires |tail| == 3 && AllWide(tail, nb)
    requires forall t, c :: nframes <= t < nframes + 3 && 0 <= c < nb ==> rxbuf[t, c] == tail[t - nframes][c]
    modifies rxbuf
    ensures Rows(rxbuf, tail, nb)
  {
    forall t, c | 0 <= t < LAGRANGE && 0 <= c < nb {
      rxbuf[t, c] := rxbuf[nframes + t, c];
    }
  }

  lemma SlotsNone(tail: seq<Frame>, nb: nat)
    requires |tail| == 3 && AllWide(tail, nb)
    ensures AfterSlots(tail, [], nb) == Track(tail, 0) && Losses([]) == 0
  {
  }

  lemma SlotsMore(tail: seq<Frame>, slots: seq<Slot>, b: nat, nb: nat)
    requires |tail| == 3 && AllWide(tail, nb) && SlotsWide(slots, nb) && b < |slots|
    ensures AfterSlots(tail, slots[..b + 1], nb) == AfterSlot(AfterSlots(tail, slots[..b], nb), slots[b], nb)
    ensures Losses(slots[..b + 1]) == Losses(slots[..b]) + if slots[b].Missing? then 1 else 0
  {
    hide AfterSlot;
    assert slots[..b + 1][..b] == slots[..b];
  }

  /** The middle of a callback: the history is in rxbuf, and the port buffers hold its frames up to slot n and beyond
      that what they held before, which is `was`. */
  ghost predicate Playing(rxbuf: array2<real>, buffers: array2<real>, nb: nat, u: Track, n: nat,
                          was: (int, int) -> real)
    reads rxbuf, buffers
  {
    && |u.h| == n + 3 && AllWide(u.h, nb) && Rows(rxbuf, u.h, nb)
    && buffers.Length0 == nb && n <= buffers.Length1
    && (forall c, k :: 0 <= c < nb && 0 <= k < n ==> buffers[c, k] == u.h[k][c])
    && forall c, k :: 0 <= c < nb && n <= k < buffers.Length1 ==> buffers[c, k] == was(c, k)
  }

  /** One turn of the callback's loop; u is the history so far. */
  method Place(rxbuf: array2<real>, buffers: array2<real>, nb: nat, slot: Slot, n: nat, gap: nat,
               ghost u: Track, ghost was: (int, int) -> real)
    returns (lframe: nat, llost: nat)
    requires Playing(rxbuf, buffers, nb, u, n, was) && gap == u.gap && (slot.Got? ==> |slot.x| == nb)
    requires n + 3 < rxbuf.Length0 && n < buffers.Length1 && rxbuf != buffers
    modifies rxbuf, buffers
    ensures Playing(rxbuf, buffers, nb, AfterSlot(u, slot, nb), lframe, was)
    ensures lframe <= n + 1 && llost == AfterSlot(u, slot, nb).gap
  {
    hide ExtrapolatedFrame, SmoothedFrame, Extrapolated, Smoothed;
    ghost var h := AfterSlot(u, slot, nb).h;
    lframe, llost := n, gap;
    match slot {
      case Missing =>
        llost := llost + 1;
        if llost < 3 {
          WriteExtrapolated(rxbuf, u.h, nb, lframe + LAGRANGE);
          Output(rxbuf, buffers, nb, lframe, h);
          lframe := lframe + 1;
        }
      case Got(x) =>
        WriteGot(rxbuf, u.h, nb, lframe + LAGRANGE, x);
        if 0 < llost < 3 {
          SmoothRow(rxbuf, u.h, nb, lframe + LAGRANGE, x);
        }
        llost := 0;
        Output(rxbuf, buffers, nb, lframe, h);
        lframe := lframe + 1;
    }
  }

  /** Between callbacks: the newest three frames are at the end of rxbuf, and the port buffers hold `was`. */
  ghost predicate Ready(rxbuf: array2<real>, buffers: array2<real>, nframes: nat, nb: nat, tail: seq<Frame>,
                        was: (int, int) -> real)
    reads rxbuf, buffers
  {
    && nframes >= LAGRANGE && rxbuf.Length0 >= nframes + LAGRANGE && rxbuf.Length1 == nb && rxbuf != buffers
    && buffers.Length0 == nb && buffers.Length1 == nframes && |tail| == 3 && AllWide(tail, nb)
    && (forall t, c :: nframes <= t < nframes + 3 && 0 <= c < nb ==> rxbuf[t, c] == tail[t - nframes][c])
    && forall c, k :: 0 <= c < nb && 0 <= k < nframes ==> buffers[c, k] == was(c, k)
  }

  lemma ReadyMeans(rxbuf: array2<real>, buffers: array2<real>, nframes: nat, nb: nat, tail: seq<Frame>,
                   was: (int, int) -> real)
    requires Ready(rxbuf, buffers, nframes, nb, tail, was)
    ensures |tail| == 3 && AllWide(tail, nb) && buffers.Length1 == nframes && rxbuf != buffers
    ensures rxbuf.Length0 >= nframes + LAGRANGE
  {
  }

  /** A callback begins: the newest three frames are the history. */
  method Begin(rxbuf: array2<real>, buffers: array2<real>, nframes: nat, nb: nat, ghost tail: seq<Frame>,
               ghost was: (int, int) -> real)
    requires Ready(rxbuf, buffers, nframes, nb, tail, was)
    modifies rxbuf
    ensures Playing(rxbuf, buffers, nb, Track(tail, 0), 0, was)
  {
    TailToHead(rxbuf, nframes, nb, tail);
  }

  /** One callback, up to its loss handling: returns how many output slots were filled. The slots are what the reads
      of the ring find; `Playback.Callback` reads a ring itself. */
  method Callback(rxbuf: array2<real>, buffers: array2<real>, nframes: nat, nb: nat, slots: seq<Slot>,
                  ghost tail: seq<Frame>, ghost was: (int, int) -> real)
    returns (lframe: nat, lost: nat)
    requires Ready(rxbuf, buffers, nframes, nb, tail, was) && |slots| == nframes && SlotsWide(slots, nb)
    modifies rxbuf, buffers
    ensures Playing(rxbuf, buffers, nb, AfterSlots(tail, slots, nb), lframe, was) && lost == Losses(slots)
  {
    hide AfterSlot, AfterSlots, Losses, Playing, Ready, AllWide;
    ReadyMeans(rxbuf, buffers, nframes, nb, tail, was);
    SlotsNone(tail, nb);
    Begin(rxbuf, buffers, nframes, nb, tail, was);
    var bframe, llost := 0, 0;
    lframe, lost := 0, 0;
    ghost var u := Track(tail, 0);
    while bframe < nframes
      invariant lframe <= bframe <= nframes && u == AfterSlots(tail, slots[..bframe], nb)
      invariant Playing(rxbuf, buffers, nb, u, lframe, was) && llost == u.gap && lost == Losses(slots[..bframe])
    {
      SlotsMore(tail, slots, bframe, nb);
      if slots[bframe].Missing? {
        lost := lost + 1;
      }
      lframe, llost := Place(rxbuf, buffers, nb, slots[bframe], lframe, llost, u, was);
      u := AfterSlot(u, slots[bframe], nb);
      bframe := bframe + 1;
    }
    assert slots[..nframes] == slots;
  }

  /** A callback that has filled every slot leaves things ready for the next one. */
  lemma ReadyAgain(rxbuf: array2<real>, buffers: array2<real>, nframes: nat, nb: nat, u: Track,
                   was: (int, int) -> real, now: (int, int) -> real)
    requires Playing(rxbuf, buffers, nb, u, nframes, was) && rxbuf != buffers && buffers.Length1 == nframes >= LAGRANGE
    requires forall c, k :: 0 <= c < nb && 0 <= k < nframes ==> buffers[c, k] == now(c, k)
    ensures Ready(rxbuf, buffers, nframes, nb, u.h[nframes..], now)
  {
  }

  function Losses(slots: seq<Slot>): nat {
    if slots == [] then 0
    else Losses(slots[..|slots| - 1]) + if slots[|slots| - 1].Missing? then 1 else 0
  }

  // ---- when every slot is filled, and with what -----------------------------------

  /** No three reads in a row fail. */
  predicate ShortGaps(slots: seq<Slot>) {
    forall k :: 0 <= k && k + 2 < |slots| ==> slots[k].Got? || slots[k + 1].Got? || slots[k + 2].Got?
  }

  /** How many reads fail in a row at the end. */
  function TrailingGap(slots: seq<Slot>): nat {
    if slots == [] || slots[|slots| - 1].Got? then 0 else TrailingGap(slots[..|slots| - 1]) + 1
  }

  lemma {:induction false} GapIsTrailing(tail: seq<Frame>, slots: seq<Slot>, nb: nat)
    requires |tail| == 3 && AllWide(tail, nb) && SlotsWide(slots, nb)
    ensures AfterSlots(tail, slots, nb).gap == TrailingGap(slots)
  {
    hide ExtrapolatedFrame, SmoothedFrame;
    if slots != [] {
      GapIsTrailing(tail, slots[..|slots| - 1], nb);
    }
  }

  lemma {:induction false} LongTrailingGap(slots: seq<Slot>)
    ensures TrailingGap(slots) <= |slots|
    ensures TrailingGap(slots) >= 3 <==> |slots| >= 3 && forall k :: |slots| - 3 <= k < |slots| ==> slots[k].Missing?
  {
    var n := |slots|;
    if n > 0 {
      LongTrailingGap(slots[..n - 1]);
      if n > 1 {
        assert slots[..n - 1][..n - 2] == slots[..n - 2];
        if n > 2 {
          assert slots[..n - 2][..n - 3] == slots[..n - 3];
        }
      }
    }
  }

  // ---- what fills a gap -------------------------------------------------------------

  function Quadratic(a: real, b: real, c: real, t: real): real {
    (a * t + b) * t + c
  }

  /** A missing sample is replaced by 0.8 times the next value of the parabola through the last three. */
  lemma ExtrapolatesParabolas(a: real, b: real, c: real)
    ensures Extrapolated(Quadratic(a, b, c, 2.0), Quadratic(a, b, c, 1.0), Quadratic(a, b, c, 0.0))
         == 0.8 * Quadratic(a, b, c, 3.0)
  {
  }

  /** The sample behind a gap is mixed, 0.3 to 0.3, with the next value of the parabola through the last three. */
  lemma SmoothsTowardsParabolas(x: real, a: real, b: real, c: real)
    ensures Smoothed(x, Quadratic(a, b, c, 2.0), Quadratic(a, b, c, 1.0), Quadratic(a, b, c, 0.0))
         == 0.3 * (x + Quadratic(a, b, c, 3.0))
  {
  }

  /** The value that the parabola through samples s0, s1, s2 takes next. */
  function Predicted(s0: real, s1: real, s2: real): real {
    3.0 * s2 - 3.0 * s1 + s0
  }

  /** Any three samples lie on a parabola, so this is what fills gaps of any signal. */
  lemma OnParabola(s0: real, s1: real, s2: real) returns (a: real, b: real, c: real)
    ensures Quadratic(a, b, c, 0.0) == s0 && Quadratic(a, b, c, 1.0) == s1 && Quadratic(a, b, c, 2.0) == s2
    ensures Quadratic(a, b, c, 3.0) == Predicted(s0, s1, s2)
  {
    a := (s2 - 2.0 * s1 + s0) / 2.0;
    b := s1 - s0 - a;
    c := s0;
  }

  /** The history after g failed reads in a row. */
  ghost function Missed(t: Track, g: nat, nb: nat): (u: Track)
    requires |t.h| >= 3 && AllWide(t.h, nb)
    ensures |u.h| >= 3 && AllWide(u.h, nb)
  {
    if g == 0 then t else AfterSlot(Missed(t, g - 1, nb), Missing, nb)
  }

  lemma {:induction false} MissedSlots(tail: seq<Frame>, before: seq<Slot>, g: nat, nb: nat)
    requires |tail| == 3 && AllWide(tail, nb) && SlotsWide(before, nb)
    ensures SlotsWide(before + seq(g, _ => Missing), nb)
    ensures AfterSlots(tail, before + seq(g, _ => Missing), nb) == Missed(AfterSlots(tail, before, nb), g, nb)
  {
    hide AfterSlot;
    var slots := before + seq(g, _ => Missing);
    if g == 0 {
      assert slots == before;
    } else {
      MissedSlots(tail, before, g - 1, nb);
      assert slots[..|slots| - 1] == before + seq(g - 1, _ => Missing);
      assert slots[|slots| - 1] == Missing;
    }
  }

  lemma MissedOnce(t: Track, nb: nat, ch: nat)
    requires |t.h| >= 3 && AllWide(t.h, nb) && ch < nb
    ensures var u, n := AfterSlot(t, Missing, nb), |t.h|;
      && u.gap == t.gap + 1
      && (t.gap >= 2 ==> u.h == t.h)
      && (t.gap < 2 ==>
          && |u.h| == n + 1 && u.h[..n] == t.h
          && u.h[n][ch] == 0.8 * Predicted(t.h[n - 3][ch], t.h[n - 2][ch], t.h[n - 1][ch]))
  {
  }

  /** The first two failures of a row are filled with extrapolations, further ones are not filled. */
  lemma {:induction false} GapIsBridged(t: Track, g: nat, nb: nat, ch: nat)
    requires |t.h| >= 3 && AllWide(t.h, nb) && t.gap == 0 && ch < nb
    ensures var h, n := Missed(t, g, nb).h, |t.h|;
      && Missed(t, g, nb).gap == g && |h| == n + (if g < 2 then g else 2) && h[..n] == t.h
      && (g >= 1 ==> h[n][ch] == 0.8 * Predicted(h[n - 3][ch], h[n - 2][ch], h[n - 1][ch]))
      && (g >= 2 ==> h[n + 1][ch] == 0.8 * Predicted(h[n - 2][ch], h[n - 1][ch], h[n][ch]))
  {
    hide AfterSlot, Predicted;
    if g > 0 {
      GapIsBridged(t, g - 1, nb, ch);
      MissedOnce(Missed(t, g - 1, nb), nb, ch);
      if g == 2 {
        var n, h1, h2 := |t.h|, Missed(t, 1, nb).h, Missed(t, 2, nb).h;
        assert h2[..n] == h2[..n + 1][..n] == h1[..n];
        assert h2[n] == h2[..n + 1][n] == h1[n];
        assert h2[n - 1] == h2[..n + 1][n - 1] && h2[n - 2] == h2[..n + 1][n - 2] && h2[n - 3] == h2[..n + 1][n - 3];
      }
    }
  }

  /** The frame behind a gap is smoothed if the gap was one or two frames long, and kept as it is otherwise. */
  lemma BehindGap(t: Track, g: nat, x: Frame, nb: nat, ch: nat)
    requires |t.h| >= 3 && AllWide(t.h, nb) && t.gap == 0 && |x| == nb && ch < nb
    ensures var h, u := Missed(t, g, nb).h, AfterSlot(Missed(t, g, nb), Got(x), nb);
      var n := |h|;
      && u.gap == 0 && |u.h| == n + 1 && u.h[..n] == h
      && u.h[n][ch] == if 0 < g < 3 then 0.3 * (x[ch] + Predicted(h[n - 3][ch], h[n - 2][ch], h[n - 1][ch])) else x[ch]
  {
    GapIsBridged(t, g, nb, ch);
    GotBehind(Missed(t, g, nb), x, nb, ch);
  }

  lemma GotBehind(t: Track, x: Frame, nb: nat, ch: nat)
    requires |t.h| >= 3 && AllWide(t.h, nb) && |x| == nb && ch < nb
    ensures var u, n := AfterSlot(t, Got(x), nb), |t.h|;
      && u.gap == 0 && |u.h| == n + 1 && u.h[..n] == t.h
      && u.h[n][ch] ==
         if 0 < t.gap < 3 then 0.3 * (x[ch] + Predicted(t.h[n - 3][ch], t.h[n - 2][ch], t.h[n - 1][ch])) else x[ch]
  {
  }

  lemma {:induction false} LossesAreCounted(slots: seq<Slot>)
    ensures Losses(slots) + |FramesOf(slots)| == |slots|
  {
    if slots != [] {
      LossesAreCounted(slots[..|slots| - 1]);
    }
  }

  /** Every output slot of a callback is filled, once and in order, exactly when no three reads in a row fail. */
  lemma {:induction false} EverySlotFilled(tail: seq<Frame>, slots: seq<Slot>, nb: nat)
    requires |tail| == 3 && AllWide(tail, nb) && SlotsWide(slots, nb)
    ensures |AfterSlots(tail, slots, nb).h| == 3 + |slots| <==> ShortGaps(slots)
  {
    hide ExtrapolatedFrame, SmoothedFrame;
    var n := |slots|;
    if n > 0 {
      EverySlotFilled(tail, slots[..n - 1], nb);
      GapIsTrailing(tail, slots[..n - 1], nb);
      LongTrailingGap(slots);
      assert TrailingGap(slots) == if slots[n - 1].Got? then 0 else TrailingGap(slots[..n - 1]) + 1;
      if ShortGaps(slots[..n - 1]) && TrailingGap(slots) < 3 && n >= 3 {
        assert !(slots[n - 3].Missing? && slots[n - 2].Missing? && slots[n - 1].Missing?);
        forall k | 0 <= k && k + 2 < n
          ensures slots[k].Got? || slots[k + 1].Got? || slots[k + 2].Got?
        {
          if k + 2 < n - 1 {
            var p := slots[..n - 1];
            assert p[k].Got? || p[k + 1].Got? || p[k + 2].Got?;
          }
        }
      }
      if ShortGaps(slots) {
        var p := slots[..n - 1];
        forall k | 0 <= k && k + 2 < |p|
          ensures p[k].Got? || p[k + 1].Got? || p[k + 2].Got?
        {
          assert p[k] == slots[k] && p[k + 1] == slots[k + 1] && p[k + 2] == slots[k + 2];
          assert slots[k].Got? || slots[k + 1].Got? || slots[k + 2].Got?;
        }
        if n >= 3 {
          assert slots[n - 3].Got? || slots[n - 3 + 1].Got? || slots[n - 3 + 2].Got?;
        }
      }
    }
  }

  function FramesOf(slots: seq<Slot>): seq<Frame> {
    if slots == [] then []
    else FramesOf(slots[..|slots| - 1]) + match slots[|slots| - 1] case Missing => [] case Got(x) => [x]
  }

  predicate NoUnderrun(slots: seq<Slot>) {
    forall k :: 0 <= k < |slots| ==> slots[k].Got?
  }

  lemma {:induction false} PlainHistory(tail: seq<Frame>, slots: seq<Slot>, nb: nat)
    requires |tail| == 3 && AllWide(tail, nb) && SlotsWide(slots, nb) && NoUnderrun(slots)
    ensures AfterSlots(tail, slots, nb) == Track(tail + FramesOf(slots), 0) && |FramesOf(slots)| == |slots|
  {
    if slots != [] {
      PlainHistory(tail, slots[..|slots| - 1], nb);
      assert (tail + FramesOf(slots[..|slots| - 1])) + [slots[|slots| - 1].x] == tail + FramesOf(slots);
    } else {
      assert tail + [] == tail;
    }
  }

  // ---- runs of callbacks ----------------------------------------------------------

  ghost predicate Callbacks(cbs: seq<seq<Slot>>, nframes: nat, nb: nat) {
    forall k :: 0 <= k < |cbs| ==> |cbs[k]| == nframes && SlotsWide(cbs[k], nb) && ShortGaps(cbs[k])
  }

  /** What the port buffers get over a series of callbacks, and the history left in `rxbuf`. */
  ghost function Played(tail: seq<Frame>, cbs: seq<seq<Slot>>, nframes: nat, nb: nat): (r: (seq<Frame>, seq<Frame>))
    requires |tail| == 3 && AllWide(tail, nb) && Callbacks(cbs, nframes, nb)
    ensures |r.1| == 3 && AllWide(r.1, nb)
    decreases |cbs|
  {
    if cbs == [] then ([], tail)
    else
      EverySlotFilled(tail, cbs[0], nb);
      var h := AfterSlots(tail, cbs[0], nb).h;
      var rest := Played(h[nframes..], cbs[1..], nframes, nb);
      (h[..nframes] + rest.0, rest.1)
  }

  ghost function Concat(cbs: seq<seq<Slot>>): seq<Frame> {
    if cbs == [] then [] else FramesOf(cbs[0]) + Concat(cbs[1..])
  }

  lemma Splice(h: seq<Frame>, n: nat, r0: seq<Frame>, r1: seq<Frame>, t: seq<Frame>, f: seq<Frame>, c: seq<Frame>)
    requires n <= |h| && h == t + f && r0 + r1 == h[n..] + c
    ensures (h[..n] + r0) + r1 == t + (f + c)
  {
    assert (h[..n] + r0) + r1 == h[..n] + (r0 + r1) == (h[..n] + h[n..]) + c;
    assert h[..n] + h[n..] == h;
    assert (t + f) + c == t + (f + c);
  }

  /** Without underruns the reader is a delay line of three frames: what was played, followed by the
      history, is the initial history followed by the frames read. */
  lemma {:induction false} DelayLine(tail: seq<Frame>, cbs: seq<seq<Slot>>, nframes: nat, nb: nat)
    requires |tail| == 3 && AllWide(tail, nb) && Callbacks(cbs, nframes, nb)
    requires forall k :: 0 <= k < |cbs| ==> NoUnderrun(cbs[k])
    ensures var r := Played(tail, cbs, nframes, nb);
      r.0 + r.1 == tail + Concat(cbs) && |r.1| == 3
    decreases |cbs|
  {
    if cbs == [] {
      assert [] + tail == tail + [];
    } else {
      hide SlotsWide, ShortGaps, NoUnderrun, AfterSlots, AllWide, FramesOf;
      EverySlotFilled(tail, cbs[0], nb);
      PlainHistory(tail, cbs[0], nb);
      var h := AfterSlots(tail, cbs[0], nb).h;
      DelayLine(h[nframes..], cbs[1..], nframes, nb);
      var rest := Played(h[nframes..], cbs[1..], nframes, nb);
      Splice(h, nframes, rest.0, rest.1, tail, FramesOf(cbs[0]), Concat(cbs[1..]));
    }
  }
}
