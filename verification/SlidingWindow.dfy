/**
 The buffer handling that the two polyphase resamplers have in common. `_buff` has one
 row per channel (row j is the stretch starting at `_buff + j * di`) and a column for
 each buffered frame; a window of 2*hl columns slides to the right and is moved back to
 column 0 when its start passes `_inmax`.
 */
module SlidingWindow {
  import opened Options

  type Frame = seq<real>

  /** The value added to, and taken off, every accumulated sample. */
  const BIAS: real := 0.000000000000000000000000000001

  function Silence(nchan: nat): Frame {
    seq(nchan, _ => 0.0)
  }

  ghost predicate AllWide(x: seq<Frame>, nchan: nat) {
    forall k :: 0 <= k < |x| ==> |x[k]| == nchan
  }

  /** Columns lo..hi of `buff` are the newest hi-lo frames of the stream x. */
  ghost predicate Holds(buff: array2<real>, lo: nat, hi: nat, x: seq<Frame>)
    requires AllWide(x, buff.Length0)
    reads buff
  {
    && lo <= hi <= buff.Length1
    && hi - lo <= |x|
    && forall j, c :: 0 <= j < buff.Length0 && lo <= c < hi ==> buff[j, c] == x[|x| - hi + c][j]
  }

  /** The newest n frames of x are silent. */
  ghost predicate Quiet(x: seq<Frame>, n: nat, nchan: nat) {
    n <= |x| && forall k :: |x| - n <= k < |x| ==> x[k] == Silence(nchan)
  }

  lemma QuietGrows(x: seq<Frame>, n: nat, nchan: nat, f: Frame)
    requires Quiet(x, n, nchan)
    ensures Quiet(x + [f], 0, nchan)
    ensures f == Silence(nchan) ==> Quiet(x + [f], n + 1, nchan) && Quiet(x + [f], n, nchan)
  {
  }

  // ---- what one output sample is --------------------------------------------------

  /** Sum over i < n of x[m+i]*c1[i] + x[m+2*hl-1-i]*c2[i] on channel j. */
  ghost function Dot(x: seq<Frame>, m: nat, hl: nat, c1: seq<real>, c2: seq<real>, j: nat, n: nat): real
    requires n <= hl <= |c1| && hl <= |c2| && m + 2 * hl <= |x|
    requires forall k :: m <= k < m + 2 * hl ==> j < |x[k]|
  {
    if n == 0 then 0.0
    else Dot(x, m, hl, c1, c2, j, n - 1) + (x[m + n - 1][j] * c1[n - 1] + x[m + 2 * hl - n][j] * c2[n - 1])
  }

  ghost function Filtered(x: seq<Frame>, m: nat, hl: nat, c1: seq<real>, c2: seq<real>, nchan: nat): (f: Frame)
    requires hl <= |c1| && hl <= |c2| && m + 2 * hl <= |x| && AllWide(x, nchan)
    ensures |f| == nchan
  {
    seq(nchan, j requires 0 <= j < nchan => Dot(x, m, hl, c1, c2, j, hl))
  }

  lemma {:induction false} DotLocal(x: seq<Frame>, y: seq<Frame>, m: nat, hl: nat, c1: seq<real>, c2: seq<real>,
                                    j: nat, n: nat)
    requires n <= hl <= |c1| && hl <= |c2| && m + 2 * hl <= |x|
    requires forall k :: m <= k < m + 2 * hl ==> j < |x[k]|
    ensures Dot(x + y, m, hl, c1, c2, j, n) == Dot(x, m, hl, c1, c2, j, n)
  {
    if n != 0 {
      DotLocal(x, y, m, hl, c1, c2, j, n - 1);
    }
  }

  /** Frames fed later do not change an output whose window is complete. */
  lemma FilteredLocal(x: seq<Frame>, y: seq<Frame>, m: nat, hl: nat, c1: seq<real>, c2: seq<real>, nchan: nat)
    requires hl <= |c1| && hl <= |c2| && m + 2 * hl <= |x| && AllWide(x, nchan) && AllWide(x + y, nchan)
    ensures Filtered(x + y, m, hl, c1, c2, nchan) == Filtered(x, m, hl, c1, c2, nchan)
  {
    forall j | 0 <= j < nchan
      ensures Dot(x + y, m, hl, c1, c2, j, hl) == Dot(x, m, hl, c1, c2, j, hl)
    {
      DotLocal(x, y, m, hl, c1, c2, j, hl);
    }
  }

  lemma {:induction false} DotQuiet(x: seq<Frame>, m: nat, hl: nat, c1: seq<real>, c2: seq<real>, j: nat, n: nat)
    requires n <= hl <= |c1| && hl <= |c2| && m + 2 * hl <= |x|
    requires forall k :: m <= k < m + 2 * hl ==> j < |x[k]| && x[k][j] == 0.0
    ensures Dot(x, m, hl, c1, c2, j, n) == 0.0
  {
    if n != 0 {
      DotQuiet(x, m, hl, c1, c2, j, n - 1);
    }
  }

  /** The recent-zeros shortcut: a silent window gives a silent output, whatever the coefficients. */
  lemma FilteredQuiet(x: seq<Frame>, m: nat, hl: nat, c1: seq<real>, c2: seq<real>, nchan: nat)
    requires hl <= |c1| && hl <= |c2| && m + 2 * hl == |x| && AllWide(x, nchan)
    requires Quiet(x, 2 * hl, nchan)
    ensures Filtered(x, m, hl, c1, c2, nchan) == Silence(nchan)
  {
    forall j | 0 <= j < nchan
      ensures Dot(x, m, hl, c1, c2, j, hl) == 0.0
    {
      DotQuiet(x, m, hl, c1, c2, j, hl);
    }
  }

  // ---- what the filter is, said by what it does ------------------------------------

  /** Channel j of x is 1.0 in frame p and silent everywhere else. */
  ghost predicate OnlyAt(x: seq<Frame>, j: nat, p: nat) {
    forall t :: 0 <= t < |x| ==> j < |x[t]| && x[t][j] == if t == p then 1.0 else 0.0
  }

  /** The coefficient that meets frame p of the window that starts at frame m: the first row runs forwards over the
      first half, the second row backwards over the second half. */
  function Meets(m: nat, hl: nat, c1: seq<real>, c2: seq<real>, p: nat): real
    requires hl <= |c1| && hl <= |c2|
  {
    if m <= p < m + hl then c1[p - m] else if m + hl <= p < m + 2 * hl then c2[m + 2 * hl - 1 - p] else 0.0
  }

  lemma {:induction false} DotImpulse(x: seq<Frame>, m: nat, hl: nat, c1: seq<real>, c2: seq<real>, j: nat, n: nat,
                                      p: nat)
    requires n <= hl <= |c1| && hl <= |c2| && m + 2 * hl <= |x| && OnlyAt(x, j, p)
    ensures Dot(x, m, hl, c1, c2, j, n)
      == (if m <= p < m + n then c1[p - m] else 0.0) + (if m + 2 * hl - n <= p < m + 2 * hl
        then c2[m + 2 * hl - 1 - p] else 0.0)
  {
    if n != 0 {
      DotImpulse(x, m, hl, c1, c2, j, n - 1, p);
    }
  }

  /** A single sample comes out multiplied by the coefficient that meets it. */
  lemma FilteredImpulse(x: seq<Frame>, m: nat, hl: nat, c1: seq<real>, c2: seq<real>, nchan: nat, j: nat, p: nat)
    requires hl <= |c1| && hl <= |c2| && m + 2 * hl <= |x| && AllWide(x, nchan) && j < nchan && OnlyAt(x, j, p)
    ensures Filtered(x, m, hl, c1, c2, nchan)[j] == Meets(m, hl, c1, c2, p)
  {
    DotImpulse(x, m, hl, c1, c2, j, hl, p);
  }

  /** Channel j of z is a times that of x plus b times that of y. */
  ghost predicate Superposed(z: seq<Frame>, x: seq<Frame>, y: seq<Frame>, j: nat, a: real, b: real) {
    && |z| == |x| == |y|
    && forall t :: 0 <= t < |z| ==>
      && j < |z[t]| && j < |x[t]| && j < |y[t]|
      && z[t][j] == Weighted(a, x[t][j], b, y[t][j])
  }

  function Weighted(a: real, u: real, b: real, v: real): real {
    a * u + b * v
  }

  /** The two samples that one step of the convolution adds. */
  function Taps(u: real, c: real, v: real, d: real): real {
    u * c + v * d
  }

  lemma TapsSuperposed(a: real, b: real, xf: real, yf: real, xg: real, yg: real, c: real, d: real)
    ensures Taps(Weighted(a, xf, b, yf), c, Weighted(a, xg, b, yg), d)
      == Weighted(a, Taps(xf, c, xg, d), b, Taps(yf, c, yg, d))
  {
  }

  lemma WeightedSum(a: real, u: real, b: real, v: real, s: real, t: real)
    ensures Weighted(a, u, b, v) + Weighted(a, s, b, t) == Weighted(a, u + s, b, v + t)
    ensures Weighted(a, 0.0, b, 0.0) == 0.0
  {
  }

  lemma DotStep(x: seq<Frame>, m: nat, hl: nat, c1: seq<real>, c2: seq<real>, j: nat, n: nat)
    requires n < hl <= |c1| && hl <= |c2| && m + 2 * hl <= |x| && forall k :: m <= k < m + 2 * hl ==> j < |x[k]|
    ensures Dot(x, m, hl, c1, c2, j, n + 1)
      == Dot(x, m, hl, c1, c2, j, n) + Taps(x[m + n][j], c1[n], x[m + 2 * hl - n - 1][j], c2[n])
  {
  }

  lemma {:induction false} DotSuperposed(z: seq<Frame>, x: seq<Frame>, y: seq<Frame>, m: nat, hl: nat, c1: seq<real>,
                                         c2: seq<real>, j: nat, n: nat, a: real, b: real)
    requires n <= hl <= |c1| && hl <= |c2| && m + 2 * hl <= |x| && Superposed(z, x, y, j, a, b)
    ensures Dot(z, m, hl, c1, c2, j, n) == Weighted(a, Dot(x, m, hl, c1, c2, j, n), b, Dot(y, m, hl, c1, c2, j, n))
  {
    hide Weighted, Taps, Dot;
    if n == 0 {
      DotNone(x, m, hl, c1, c2, j);
      DotNone(y, m, hl, c1, c2, j);
      DotNone(z, m, hl, c1, c2, j);
      WeightedSum(a, 0.0, b, 0.0, 0.0, 0.0);
    } else {
      DotSuperposed(z, x, y, m, hl, c1, c2, j, n - 1, a, b);
      DotStep(x, m, hl, c1, c2, j, n - 1);
      DotStep(y, m, hl, c1, c2, j, n - 1);
      DotStep(z, m, hl, c1, c2, j, n - 1);
      var f, g, c, d := m + n - 1, m + 2 * hl - n, c1[n - 1], c2[n - 1];
      TapsSuperposed(a, b, x[f][j], y[f][j], x[g][j], y[g][j], c, d);
      WeightedSum(a, Dot(x, m, hl, c1, c2, j, n - 1), b, Dot(y, m, hl, c1, c2, j, n - 1),
                  Taps(x[f][j], c, x[g][j], d), Taps(y[f][j], c, y[g][j], d));
    }
  }

  lemma DotNone(x: seq<Frame>, m: nat, hl: nat, c1: seq<real>, c2: seq<real>, j: nat)
    requires hl <= |c1| && hl <= |c2| && m + 2 * hl <= |x| && forall k :: m <= k < m + 2 * hl ==> j < |x[k]|
    ensures Dot(x, m, hl, c1, c2, j, 0) == 0.0
  {
  }

  /** Streams that are added and multiplied come out added and multiplied. */
  lemma FilteredSuperposed(z: seq<Frame>, x: seq<Frame>, y: seq<Frame>, m: nat, hl: nat, c1: seq<real>, c2: seq<real>,
                           nchan: nat, j: nat, a: real, b: real)
    requires hl <= |c1| && hl <= |c2| && m + 2 * hl <= |x| && j < nchan && Superposed(z, x, y, j, a, b)
    requires AllWide(x, nchan) && AllWide(y, nchan) && AllWide(z, nchan)
    ensures Filtered(z, m, hl, c1, c2, nchan)[j]
      == a * Filtered(x, m, hl, c1, c2, nchan)[j] + b * Filtered(y, m, hl, c1, c2, nchan)[j]
  {
    DotSuperposed(z, x, y, m, hl, c1, c2, j, hl, a, b);
  }

  // ---- the caller's interleaved sample blocks -------------------------------------

  /** n interleaved frames fit in a block of len samples. */
  ghost predicate Enough(n: nat, nchan: nat, len: int) {
    n * nchan <= len
  }

  /** The first n frames behind an input pointer; a null pointer stands for silence. */
  ghost function Frames(data: Option<seq<real>>, nchan: nat, n: nat): (fs: seq<Frame>)
    requires data.Some? ==> Enough(n, nchan, |data.value|)
    ensures |fs| == n && AllWide(fs, nchan)
    decreases n
  {
    if n == 0 then []
    else
      Peel(n, nchan);
      match data
      case None => [Silence(nchan)] + Frames(None, nchan, n - 1)
      case Some(d) => [d[..nchan]] + Frames(Some(d[nchan..]), nchan, n - 1)
  }

  lemma FramesHead(data: Option<seq<real>>, nchan: nat, n: nat)
    requires n > 0 && (data.Some? ==> Enough(n, nchan, |data.value|))
    ensures data.None? ==> Frames(data, nchan, n) == [Silence(nchan)] + Frames(data, nchan, n - 1)
    ensures data.Some? ==>
      && nchan <= |data.value| && Enough(n - 1, nchan, |data.value| - nchan)
      && Frames(data, nchan, n) == [data.value[..nchan]] + Frames(Some(data.value[nchan..]), nchan, n - 1)
  {
    Peel(n, nchan);
  }

  lemma Peel(n: nat, nchan: nat)
    ensures n > 0 ==> n * nchan == (n - 1) * nchan + nchan && n * nchan >= nchan
  {
  }

  ghost function Flat(fs: seq<Frame>): seq<real> {
    if fs == [] then [] else Flat(fs[..|fs| - 1]) + fs[|fs| - 1]
  }

  lemma FlatOne(f: Frame)
    ensures Flat([f]) == f
  {
    assert [f][..0] == [];
  }

  /** Where sample j of frame k lies in interleaved frames. */
  function Interleaved(k: nat, nchan: nat, j: nat): nat {
    k * nchan + j
  }

  lemma InterleavedNext(k: nat, nchan: nat, j: nat)
    ensures Interleaved(k + 1, nchan, j) == nchan + Interleaved(k, nchan, j) && Interleaved(0, nchan, j) == j
    ensures Interleaved(k + 1, nchan, j) == Interleaved(k, nchan, nchan) + j
  {
  }

  /** Sample j of frame k of an input block is the caller's sample k * nchan + j, or silence behind a null pointer. */
  lemma {:induction false} FramesAt(data: Option<seq<real>>, nchan: nat, n: nat, k: nat, j: nat)
    requires (data.Some? ==> Enough(n, nchan, |data.value|)) && k < n && j < nchan
    ensures data.None? ==> Frames(data, nchan, n)[k][j] == 0.0
    ensures data.Some? ==>
      && Interleaved(k, nchan, j) < |data.value|
      && Frames(data, nchan, n)[k][j] == data.value[Interleaved(k, nchan, j)]
    decreases n
  {
    hide Enough, Interleaved, Frames;
    FramesHead(data, nchan, n);
    if k == 0 {
      InterleavedNext(0, nchan, j);
    } else {
      InterleavedNext(k - 1, nchan, j);
      FramesAt(if data.None? then None else Some(data.value[nchan..]), nchan, n - 1, k - 1, j);
    }
  }

  lemma {:induction false} FlatAt(fs: seq<Frame>, nchan: nat)
    requires AllWide(fs, nchan)
    ensures |Flat(fs)| == Interleaved(|fs|, nchan, 0)
    ensures forall k, j :: 0 <= k < |fs| && 0 <= j < nchan ==>
      Interleaved(k, nchan, j) < |Flat(fs)| && Flat(fs)[Interleaved(k, nchan, j)] == fs[k][j]
  {
    hide Interleaved;
    if fs == [] {
      InterleavedNext(0, nchan, 0);
    } else {
      var n := |fs| - 1;
      FlatAt(fs[..n], nchan);
      forall k, j | 0 <= k < |fs| && 0 <= j < nchan
        ensures Interleaved(k, nchan, j) < |Flat(fs)| && Flat(fs)[Interleaved(k, nchan, j)] == fs[k][j]
      {
        if k == n {
          InterleavedShift(n, nchan, j);
        } else {
          assert fs[..n][k] == fs[k];
        }
        InterleavedShift(n, nchan, 0);
      }
      InterleavedShift(n, nchan, 0);
    }
  }

  lemma InterleavedShift(k: nat, nchan: nat, j: nat)
    ensures Interleaved(k, nchan, j) == Interleaved(k, nchan, 0) + j
      && Interleaved(k + 1, nchan, 0) == Interleaved(k, nchan, 0) + nchan
  {
  }

  /** A caller's block: the frames fs sit behind the first pos samples, the rest is as before. */
  ghost predicate Put(fs: seq<Frame>, before: seq<real>, pos: nat, after: seq<real>, end: nat) {
    && pos <= end <= |after| == |before|
    && after[..end] == before[..pos] + Flat(fs)
    && after[end..] == before[end..]
  }

  /** Sample j of frame k of what was written lies k * nchan + j behind where writing began; nothing else changed. */
  lemma PutAt(fs: seq<Frame>, nchan: nat, before: seq<real>, pos: nat, after: seq<real>, end: nat, k: nat, j: nat)
    requires Put(fs, before, pos, after, end) && AllWide(fs, nchan) && k < |fs| && j < nchan
    ensures end == pos + |fs| * nchan && pos + k * nchan + j < end && after[pos + k * nchan + j] == fs[k][j]
    ensures after[..pos] == before[..pos] && after[end..] == before[end..]
  {
    FlatAt(fs, nchan);
    var i := Interleaved(k, nchan, j);
    assert i == k * nchan + j && Interleaved(|fs|, nchan, 0) == |fs| * nchan;
    assert after[pos + i] == after[..end][pos + i] == Flat(fs)[i];
    assert after[..pos] == after[..end][..pos];
  }

  lemma PutMore(fs: seq<Frame>, f: Frame, before: seq<real>, pos: nat, mid: seq<real>, p: nat, after: seq<real>,
                end: nat)
    requires Put(fs, before, pos, mid, p) && Put([f], mid, p, after, end)
    ensures Put(fs + [f], before, pos, after, end)
  {
    FlatOne(f);
    FlatMore(fs, f);
    PutSpliced(Flat(fs), f, before, pos, mid, p, after, end);
  }

  lemma FlatMore(fs: seq<Frame>, f: Frame)
    ensures Flat(fs + [f]) == Flat(fs) + f
  {
    assert (fs + [f])[..|fs|] == fs;
  }

  lemma PutSpliced(a: seq<real>, b: seq<real>, before: seq<real>, pos: nat, mid: seq<real>, p: nat, after: seq<real>,
                   end: nat)
    requires pos <= p <= end <= |after| == |mid| == |before|
    requires mid[..p] == before[..pos] + a && mid[p..] == before[p..]
    requires after[..end] == mid[..p] + b && after[end..] == mid[end..]
    ensures after[..end] == before[..pos] + (a + b) && after[end..] == before[end..]
  {
    assert (before[..pos] + a) + b == before[..pos] + (a + b);
    assert mid[end..] == mid[p..][end - p..] && before[end..] == before[p..][end - p..];
  }

  /** What a caller must supply for a call: enough samples to read and room to write. */
  ghost predicate CallSupplied(nchan: nat, inp: Option<seq<real>>, inpCount: nat, out: array?<real>, outPos: nat,
                               outCount: nat) {
    && (inp.Some? ==> Enough(inpCount, nchan, |inp.value|))
    && (out != null ==> outPos <= out.Length && Enough(outCount, nchan, out.Length - outPos))
  }

  /** Takes the next frame off the caller's block; `present` says that the pointer was not null. */
  method TakeFrame(inp: Option<seq<real>>, count: nat, nchan: nat)
    returns (f: Frame, present: bool, rest: Option<seq<real>>)
    requires count > 0 && (inp.Some? ==> Enough(count, nchan, |inp.value|))
    ensures present == inp.Some? == rest.Some? && (rest.Some? ==> Enough(count - 1, nchan, |rest.value|))
    ensures |f| == nchan && (!present ==> f == Silence(nchan))
    ensures Frames(inp, nchan, count) == [f] + Frames(rest, nchan, count - 1)
  {
    hide Frames;
    FramesHead(inp, nchan, count);
    present, f, rest := inp.Some?, Silence(nchan), inp;
    if present {
      f := inp.value[..nchan];
      rest := Some(inp.value[nchan..]);
    }
  }

  // ---- the operations on the buffer -----------------------------------------------

  method StoreFrame(buff: array2<real>, col: nat, f: Frame, ghost lo: nat, ghost x: seq<Frame>)
    requires |f| == buff.Length0 && col < buff.Length1
    requires AllWide(x, buff.Length0) && Holds(buff, lo, col, x)
    modifies buff
    ensures AllWide(x + [f], buff.Length0) && Holds(buff, lo, col + 1, x + [f])
  {
    var j := 0;
    while j < buff.Length0
      invariant j <= buff.Length0
      invariant forall i :: 0 <= i < j ==> buff[i, col] == f[i]
      invariant forall i, c :: 0 <= i < buff.Length0 && 0 <= c < buff.Length1 && c != col ==>
        buff[i, c] == old(buff[i, c])
    {
      buff[j, col] := f[j];
      j := j + 1;
    }
  }

  /** Moves n columns starting at `from` to column 0, row by row, as memmove does. */
  method Relocate(buff: array2<real>, from: nat, n: nat, ghost x: seq<Frame>)
    requires AllWide(x, buff.Length0) && Holds(buff, from, from + n, x)
    modifies buff
    ensures Holds(buff, 0, n, x)
  {
    var j := 0;
    while j < buff.Length0
      invariant j <= buff.Length0
      invariant forall i, c :: 0 <= i < j && 0 <= c < n ==> buff[i, c] == old(buff[i, from + c])
      invariant forall i, c :: j <= i < buff.Length0 && 0 <= c < buff.Length1 ==> buff[i, c] == old(buff[i, c])
    {
      forall c | 0 <= c < n {
        buff[j, c] := buff[j, from + c];
      }
      j := j + 1;
    }
  }

  /** One sample: the two pointers start at the ends of the window and run towards each other. */
  method Convolve(buff: array2<real>, p1: nat, p2: nat, j: nat, hl: nat, c1: seq<real>, c2: seq<real>,
                  ghost x: seq<Frame>)
    returns (r: real)
    requires hl <= |c1| && hl <= |c2| && p2 == p1 + 2 * hl && j < buff.Length0
    requires AllWide(x, buff.Length0) && Holds(buff, p1, p2, x)
    ensures r == Dot(x, |x| - 2 * hl, hl, c1, c2, j, hl)
  {
    var s, q1, q2, i := BIAS, p1, p2, 0;
    while i < hl
      invariant i <= hl && q1 == p1 + i && q2 == p2 - i
      invariant s == BIAS + Dot(x, |x| - 2 * hl, hl, c1, c2, j, i)
    {
      q2 := q2 - 1;
      s := s + (buff[j, q1] * c1[i] + buff[j, q2] * c2[i]);
      q1 := q1 + 1;
      i := i + 1;
    }
    r := s - BIAS;
  }

  /** Writes one filtered frame at `pos` of the caller's output block. */
  method WriteFiltered(buff: array2<real>, p1: nat, p2: nat, hl: nat, c1: seq<real>, c2: seq<real>,
                       out: array<real>, pos: nat, ghost x: seq<Frame>)
    requires hl <= |c1| && hl <= |c2| && p2 == p1 + 2 * hl && pos + buff.Length0 <= out.Length
    requires AllWide(x, buff.Length0) && Holds(buff, p1, p2, x)
    modifies out
    ensures out[..pos + buff.Length0] == old(out[..pos]) + Filtered(x, |x| - 2 * hl, hl, c1, c2, buff.Length0)
    ensures out[pos + buff.Length0..] == old(out[pos + buff.Length0..])
  {
    var j := 0;
    while j < buff.Length0
      invariant j <= buff.Length0
      invariant forall k :: 0 <= k < out.Length && !(pos <= k < pos + j) ==> out[k] == old(out[k])
      invariant forall k :: pos <= k < pos + j ==> out[k] == Dot(x, |x| - 2 * hl, hl, c1, c2, k - pos, hl)
    {
      var s := Convolve(buff, p1, p2, j, hl, c1, c2, x);
      out[pos + j] := s;
      j := j + 1;
    }
  }

  method WriteSilence(nchan: nat, out: array<real>, pos: nat)
    requires pos + nchan <= out.Length
    modifies out
    ensures out[..pos + nchan] == old(out[..pos]) + Silence(nchan)
    ensures out[pos + nchan..] == old(out[pos + nchan..])
  {
    var j := 0;
    while j < nchan
      invariant j <= nchan
      invariant forall k :: 0 <= k < out.Length && !(pos <= k < pos + j) ==> out[k] == old(out[k])
      invariant forall k :: pos <= k < pos + j ==> out[k] == 0.0
    {
      out[pos + j] := 0.0;
      j := j + 1;
    }
  }
}
