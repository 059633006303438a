/**
 The variable-ratio polyphase resampler, in exact arithmetic. The object is specified by
 a stream of whole frames fed since `Reset` and by a `Motion`, which says where in that
 stream the next outputs lie; the bounded buffer, the fractional phase, the move back
 at the wrap point and the recent-zeros shortcut do not appear in the specification.
 */
module VariableResampler {
  import opened Options
  import opened SlidingWindow
  import opened Schedule

  const NPHASE: nat := 120

  // ---- where the outputs lie ------------------------------------------------------

  /** The next output lies `phase` phases after frame m; NPHASE phases are one frame. */
  datatype Motion = Motion(m: int, phase: real, step: real, target: real, weight: real, hl: nat) {
    ghost function Position(): real { m as real * NPHASE as real + phase }

    ghost predicate Bounded() {
      0 <= m && 0.0 <= phase < NPHASE as real && SoundSteps()
    }

    ghost predicate SoundSteps() {
      && 0.0 < weight <= 1.0
      && 0.0 < step <= 16.0 * hl as real && 0.0 < target <= 16.0 * hl as real
    }
  }

  /** Frames that must have been fed before the output at `mo` can be computed. */
  ghost function Need(mo: Motion): int {
    mo.m + 2 * mo.hl
  }

  /** The part of a difference that one step makes up for. */
  function Part(weight: real, d: real): real {
    weight * d
  }

  function DriftedStep(step: real, target: real, weight: real): real {
    var d := target - step;
    if -0.00000000000000000001 < d < 0.00000000000000000001 then target else step + Part(weight, d)
  }

  ghost function Next(mo: Motion): Motion {
    var s := DriftedStep(mo.step, mo.target, mo.weight);
    var shift := ((mo.phase + s) / NPHASE as real).Floor;
    mo.(m := mo.m + shift, phase := mo.phase + s - shift as real * NPHASE as real, step := s)
  }

  ghost function Iter(mo: Motion, n: nat): Motion {
    if n == 0 then mo else Next(Iter(mo, n - 1))
  }

  ghost function Path(mo: Motion, n: nat): seq<Motion> {
    seq(n, i requires 0 <= i => Iter(mo, i))
  }

  lemma PathMore(mo: Motion, n: nat)
    ensures Path(mo, n + 1) == Path(mo, n) + [Iter(mo, n)] && Iter(mo, n + 1) == Next(Iter(mo, n))
  {
  }

  // ---- what the outputs are -------------------------------------------------------

  /** The coefficient table: NPHASE + 1 rows of hl values. */
  ghost predicate IsTable(rows: seq<seq<real>>, hl: nat) {
    |rows| == NPHASE + 1 && forall n :: 0 <= n <= NPHASE ==> |rows[n]| == hl
  }

  function Mix(b: real, p: real, q: real): real {
    (1.0 - b) * p + b * q
  }

  function Blend(b: real, p: seq<real>, q: seq<real>): (c: seq<real>)
    requires |p| == |q|
    ensures |c| == |p|
  {
    seq(|p|, i requires 0 <= i < |p| => Mix(b, p[i], q[i]))
  }

  /** The interpolated row for the first half of the window. */
  function Row1(rows: seq<seq<real>>, hl: nat, phase: real): (c: seq<real>)
    requires IsTable(rows, hl) && 0.0 <= phase < NPHASE as real
    ensures |c| == hl
  {
    var n := phase.Floor;
    Blend(phase - n as real, rows[n], rows[n + 1])
  }

  /** The interpolated row for the second half, which is read backwards. */
  function Row2(rows: seq<seq<real>>, hl: nat, phase: real): (c: seq<real>)
    requires IsTable(rows, hl) && 0.0 <= phase < NPHASE as real
    ensures |c| == hl
  {
    var n := phase.Floor;
    Blend(phase - n as real, rows[NPHASE - n], rows[NPHASE - n - 1])
  }

  /** At a whole phase the rows are those of the table, the second one mirrored. */
  lemma RowsAtWholePhase(rows: seq<seq<real>>, hl: nat, n: nat)
    requires IsTable(rows, hl) && n < NPHASE
    ensures Row1(rows, hl, n as real) == rows[n] && Row2(rows, hl, n as real) == rows[NPHASE - n]
  {
    assert (n as real).Floor == n;
    MixNone(rows[n], rows[n + 1]);
    MixNone(rows[NPHASE - n], rows[NPHASE - n - 1]);
  }

  lemma MixNone(p: seq<real>, q: seq<real>)
    requires |p| == |q|
    ensures Blend(0.0, p, q) == p
  {
  }

  /** Between two whole phases every coefficient lies on the line between those of the two rows. */
  lemma RowsBetween(rows: seq<seq<real>>, hl: nat, phase: real, i: nat)
    requires IsTable(rows, hl) && 0.0 <= phase < NPHASE as real && i < hl
    ensures var n := phase.Floor; var b := phase - n as real;
      && 0 <= n < NPHASE && 0.0 <= b < 1.0
      && Row1(rows, hl, phase)[i] - rows[n][i] == b * (rows[n + 1][i] - rows[n][i])
      && Row2(rows, hl, phase)[i] - rows[NPHASE - n][i] == b * (rows[NPHASE - n - 1][i] - rows[NPHASE - n][i])
  {
    var n := phase.Floor;
    MixOnLine(phase - n as real, rows[n][i], rows[n + 1][i]);
    MixOnLine(phase - n as real, rows[NPHASE - n][i], rows[NPHASE - n - 1][i]);
    hide Mix;
  }

  lemma MixOnLine(b: real, p: real, q: real)
    ensures Mix(b, p, q) - p == b * (q - p)
  {
  }

  ghost predicate InReach(x: seq<Frame>, mo: Motion) {
    0 <= mo.m && mo.m + 2 * mo.hl <= |x| && 0.0 <= mo.phase < NPHASE as real
  }

  /** The output at `mo`: the fixed kernel, its rows interpolated at the fractional phase,
      laid over 2*hl frames of the unbounded stream. */
  ghost function OutFrame(x: seq<Frame>, rows: seq<seq<real>>, nchan: nat, mo: Motion): (f: Frame)
    requires IsTable(rows, mo.hl) && AllWide(x, nchan) && InReach(x, mo)
    ensures |f| == nchan
  {
    Filtered(x, mo.m, mo.hl, Row1(rows, mo.hl, mo.phase), Row2(rows, mo.hl, mo.phase), nchan)
  }

  ghost predicate Renderable(x: seq<Frame>, rows: seq<seq<real>>, track: seq<Motion>) {
    forall k :: 0 <= k < |track| ==> InReach(x, track[k]) && IsTable(rows, track[k].hl)
  }

  /** The frames an unbounded resampler would make at the places on `track`. */
  ghost function Outs(x: seq<Frame>, rows: seq<seq<real>>, nchan: nat, track: seq<Motion>): (fs: seq<Frame>)
    requires AllWide(x, nchan) && Renderable(x, rows, track)
    ensures |fs| == |track|
  {
    seq(|track|, k requires 0 <= k < |track| => OutFrame(x, rows, nchan, track[k]))
  }

  lemma OutsLocal(x: seq<Frame>, y: seq<Frame>, rows: seq<seq<real>>, nchan: nat, track: seq<Motion>)
    requires AllWide(x, nchan) && AllWide(y, nchan) && x <= y && Renderable(x, rows, track)
    ensures Renderable(y, rows, track) && Outs(y, rows, nchan, track) == Outs(x, rows, nchan, track)
  {
    hide Row1, Row2, Filtered;
    assert y == x + y[|x|..];
    forall k | 0 <= k < |track|
      ensures InReach(y, track[k]) && OutFrame(y, rows, nchan, track[k]) == OutFrame(x, rows, nchan, track[k])
    {
      assert InReach(x, track[k]);
      var mo := track[k];
      FilteredLocal(x, y[|x|..], mo.m, mo.hl, Row1(rows, mo.hl, mo.phase), Row2(rows, mo.hl, mo.phase), nchan);
    }
  }

  /** A caller's block after the outputs on `track` have been written behind its first pos samples. */
  ghost predicate Written(x: seq<Frame>, rows: seq<seq<real>>, nchan: nat, track: seq<Motion>,
                          before: seq<real>, pos: nat, after: seq<real>, end: nat) {
    AllWide(x, nchan) && Renderable(x, rows, track) && Put(Outs(x, rows, nchan, track), before, pos, after, end)
  }

  lemma WrittenNone(x: seq<Frame>, rows: seq<seq<real>>, nchan: nat, mo: Motion, before: seq<real>, pos: nat)
    requires AllWide(x, nchan) && pos <= |before|
    ensures Written(x, rows, nchan, Path(mo, 0), before, pos, before, pos)
  {
  }

  lemma WrittenMore(x: seq<Frame>, rows: seq<seq<real>>, nchan: nat, track: seq<Motion>, mo: Motion,
                    before: seq<real>, pos: nat, mid: seq<real>, p: nat, after: seq<real>, end: nat)
    requires Written(x, rows, nchan, track, before, pos, mid, p)
    requires Written(x, rows, nchan, [mo], mid, p, after, end)
    ensures Written(x, rows, nchan, track + [mo], before, pos, after, end)
  {
    hide Put, OutFrame, AllWide, IsTable;
    assert InReach(x, [mo][0]) && IsTable(rows, [mo][0].hl);
    var f := OutFrame(x, rows, nchan, mo);
    assert Outs(x, rows, nchan, [mo]) == [f];
    assert Outs(x, rows, nchan, track + [mo]) == Outs(x, rows, nchan, track) + [f];
    PutMore(Outs(x, rows, nchan, track), f, before, pos, mid, p, after, end);
  }

  lemma WrittenLocal(x: seq<Frame>, y: seq<Frame>, rows: seq<seq<real>>, nchan: nat, track: seq<Motion>,
                     before: seq<real>, pos: nat, after: seq<real>, end: nat)
    requires Written(x, rows, nchan, track, before, pos, after, end) && x <= y && AllWide(y, nchan)
    ensures Written(y, rows, nchan, track, before, pos, after, end)
  {
    OutsLocal(x, y, rows, nchan, track);
  }

  // ---- step arithmetic ------------------------------------------------------------

  lemma Product(a: real, b: real)
    requires a >= 0.0 && b >= 0.0
    ensures a * b >= 0.0
  {
  }

  lemma PartBetween(weight: real, d: real)
    requires 0.0 < weight <= 1.0
    ensures if d >= 0.0 then 0.0 <= Part(weight, d) <= d else d <= Part(weight, d) <= 0.0
  {
    var e := if d >= 0.0 then d else -d;
    Product(weight, e);
    Product(1.0 - weight, e);
  }

  /** The drift never leaves the interval between the old step and the target. */
  lemma DriftStaysBetween(step: real, target: real, weight: real)
    requires 0.0 < weight <= 1.0
    ensures var s := DriftedStep(step, target, weight);
      if step <= target then step <= s <= target else target <= s <= step
  {
    hide Part;
    PartBetween(weight, target - step);
  }

  /** A step of the first-order filter of `SetRRFilt`, but for the last 1e-20. */
  lemma DriftIsFirstOrder(step: real, target: real, weight: real)
    requires 0.0 < weight <= 1.0
    ensures var e := DriftedStep(step, target, weight) - (step + weight * (target - step));
      -0.00000000000000000001 < e < 0.00000000000000000001
  {
    PartBetween(weight, target - step);
  }

  /** The window is at least eight output frames long at any ratio `Setup` accepts. */
  ghost predicate Tuned(ratio: real, hl: nat) {
    ratio > 0.0 && hl as real * ratio >= 8.0
  }

  function Clamp(r: real): real {
    if r > 16.0 then 16.0 else if r < 0.95 then 0.95 else r
  }

  /** Phases per output when the nominal ratio is corrected by a factor r. */
  function StepFor(ratio: real, r: real): real
    requires ratio > 0.0
  {
    var d := ratio * Clamp(r);
    if d > 0.0 then NPHASE as real / d else 0.0
  }

  /** Whatever factor is asked for, the step is positive and at most 16*hl phases. */
  lemma StepWithinWindow(ratio: real, r: real, hl: nat)
    requires Tuned(ratio, hl) && hl >= 8
    ensures 0.0 < StepFor(ratio, r) <= 16.0 * hl as real
    ensures StepFor(ratio, r) * (ratio * Clamp(r)) == NPHASE as real
  {
    var d, s := ratio * Clamp(r), StepFor(ratio, r);
    assert d >= 0.95 * ratio;
    assert s * d == 120.0;
    assert hl as real * d >= 0.95 * (hl as real * ratio);
    assert (16.0 * hl as real - s) * d > 0.0;
  }

  /** What one step does to the window: it moves on by at most 2*hl frames. */
  lemma StepKeepsBounds(mo: Motion)
    requires mo.Bounded() && mo.hl >= 8
    ensures Next(mo).Bounded() && mo.m <= Next(mo).m <= mo.m + 2 * mo.hl
    ensures Next(mo).Position() == mo.Position() + Next(mo).step
    ensures Next(mo).m == mo.m <==> mo.phase + Next(mo).step < NPHASE as real
  {
    DriftStaysBetween(mo.step, mo.target, mo.weight);
  }

  class VResampler {
    // set by the caller before a call; an input pointer moves by dropping samples
    var inpCount: nat
    var outCount: nat
    var inpData: Option<seq<real>>
    var outData: array?<real>
    var outPos: nat

    var ready: bool
    var hl: nat
    var rows: seq<seq<real>>
    var nchan: nat
    var inmax: nat
    var index: nat
    var nread: nat
    var nzero: nat
    var ratio: real
    var phase: real
    var pstep: real
    var qstep: real
    var wstep: real
    var buff: array2<real>
    var c1: array<real>
    var c2: array<real>

    ghost var stream: seq<Frame>

    ghost predicate Sized()
      reads this
    {
      && hl >= 8 && IsTable(rows, hl) && nchan > 0 && inmax > 0
      && buff.Length0 == nchan && buff.Length1 == 2 * hl + inmax
      && c1 != c2 && c1.Length == c2.Length == hl
    }

    ghost predicate Shape()
      reads this
    {
      && Sized() && outData != c1 && outData != c2
      && index < inmax && nread <= 2 * hl && nzero <= 2 * hl <= |stream| + nread
      && AllWide(stream, nchan)
    }

    ghost predicate Window()
      requires Shape()
      reads this, buff
    {
      Holds(buff, index, index + 2 * hl - nread, stream) && Quiet(stream, nzero, nchan)
    }

    ghost predicate Sound()
      reads this, buff
    {
      Shape() && Window() && MotionNow().Bounded()
    }

    ghost predicate Valid()
      reads this, buff
    {
      ready ==> Sound() && Tuned(ratio, hl)
    }

    /** What the caller must supply: enough samples to read and room to write. */
    ghost predicate Supplied()
      reads this
    {
      CallSupplied(nchan, inpData, inpCount, outData, outPos, outCount)
    }

    ghost function MotionNow(): Motion
      reads this
    {
      Motion(|stream| + nread - 2 * hl, phase, pstep, qstep, wstep, hl)
    }

    ghost function StateNow(): State<Motion>
      reads this
    {
      State(|stream|, MotionNow(), inpCount, outCount)
    }

    ghost function Pending(): seq<Frame>
      requires Supplied()
      reads this
    {
      Frames(inpData, nchan, inpCount)
    }

    constructor ()
      ensures Valid() && !ready && fresh(buff) && fresh(c1) && fresh(c2)
    {
      ready, hl, rows, nchan, inmax, index, nread, nzero := false, 0, [], 0, 0, 0, 0, 0;
      inpCount, outCount, inpData, outData, outPos := 0, 0, None, null, 0;
      ratio, phase, pstep, qstep, wstep := 0.0, 0.0, 0.0, 0.0, 1.0;
      buff, c1, c2 := new real[0, 0], new real[0], new real[0];
      stream := [];
    }

    /** Forgets the caller's sample blocks. */
    method DropBlocks()
      modifies this`inpCount, this`outCount, this`inpData, this`outData, this`outPos
      ensures inpCount == outCount == 0 && inpData == None && outData == null
    {
      inpCount, outCount, inpData, outData, outPos := 0, 0, None, null, 0;
    }

    method Reset() returns (err: int)
      requires ready ==> Sized() && MotionNow().SoundSteps() && Tuned(ratio, hl)
      modifies this`inpCount, this`outCount, this`inpData, this`outData, this`outPos, this`index, this`nread,
               this`nzero, this`phase, this`stream
      ensures Valid() && err == (if ready then 0 else 1)
      ensures ready ==> inpData == None && outData == null && stream == []
      ensures ready ==> StateNow() == State(0, Motion(0, 0.0, pstep, qstep, wstep, hl), 0, 0)
    {
      err := 1;
      if ready {
        DropBlocks();
        index, nread, nzero, phase := 0, 2 * hl, 0, 0.0;
        stream := [];
        err := 0;
      }
    }

    method Clear()
      modifies this
      ensures Valid() && !ready && fresh(buff) && fresh(c1) && fresh(c2)
      ensures nchan == inmax == 0 && pstep == qstep == 0.0 && wstep == 1.0
    {
      AllocateBuffers(0, 0, 0);
      ClearSettings();
      var _ := Reset();
    }

    method ClearSettings()
      modifies this`ready, this`nchan, this`inmax, this`pstep, this`qstep, this`wstep
      ensures !ready && nchan == inmax == 0 && pstep == qstep == 0.0 && wstep == 1.0
    {
      ready, nchan, inmax, pstep, qstep, wstep := false, 0, 0, 0.0, 0.0, 1.0;
    }

    method AllocateBuffers(channels: nat, columns: nat, len: nat)
      modifies this`buff, this`c1, this`c2
      ensures fresh(buff) && fresh(c1) && fresh(c2) && c1 != c2
      ensures buff.Length0 == channels && buff.Length1 == columns && c1.Length == c2.Length == len
    {
      buff, c1, c2 := new real[channels, columns], new real[len], new real[len];
    }

    method StartSteps(r: real)
      requires r > 0.0
      modifies this`ratio, this`pstep, this`qstep, this`wstep
      ensures ratio == r && pstep == qstep == StepFor(r, 1.0) && wstep == 1.0
    {
      ratio, wstep := r, 1.0;
      pstep, qstep := StepFor(r, 1.0), StepFor(r, 1.0);
    }

    /** `coef` stands for the contents of the shared coefficient table. */
    method Setup(r: real, channels: nat, hlen: nat, coef: (nat, nat, nat) -> real) returns (err: int)
      modifies this
      ensures Valid() && fresh(buff) && fresh(c1) && fresh(c2)
      ensures err == (if channels == 0 || hlen < 8 || hlen > 96 || 64.0 * r < 1.0 || r > 256.0 then 1 else 0)
      ensures ready <==> err == 0
      ensures err == 0 ==>
        && nchan == channels && ratio == r && stream == [] && rows == Rows(coef, hl)
        && hl == ScaledLength(hlen, r) && inmax == ScaledLength(32, r)
        && StateNow() == State(0, Motion(0, 0.0, StepFor(r, 1.0), StepFor(r, 1.0), 1.0, hl), 0, 0)
    {
      hide StepFor, ScaledLength, Rows, Tuned, IsTable, Sized, Sound;
      Clear();
      err := 1;
      if channels != 0 && 8 <= hlen <= 96 && 64.0 * r >= 1.0 && r <= 256.0 {
        Start(r, channels, hlen, coef);
        err := 0;
      }
    }

    method Start(r: real, channels: nat, hlen: nat, coef: (nat, nat, nat) -> real)
      requires r > 0.0 && channels > 0 && hlen >= 8
      modifies this
      ensures Valid() && ready && fresh(buff) && fresh(c1) && fresh(c2)
      ensures nchan == channels && ratio == r && stream == [] && rows == Rows(coef, hl)
      ensures hl == ScaledLength(hlen, r) && inmax == ScaledLength(32, r)
      ensures StateNow() == State(0, Motion(0, 0.0, StepFor(r, 1.0), StepFor(r, 1.0), 1.0, hl), 0, 0)
    {
      hide StepFor, ScaledLength, Rows, Tuned, IsTable, Sized, Sound;
      ScaledLengthBounds(hlen, r);
      ScaledLengthBounds(32, r);
      var len, mi := ScaledLength(hlen, r), ScaledLength(32, r);
      StepWithinWindow(r, 1.0, len);
      Configure(r, channels, len, mi, Rows(coef, len));
      var _ := Reset();
    }

    method Configure(r: real, channels: nat, len: nat, mi: nat, table: seq<seq<real>>)
      requires r > 0.0 && channels > 0 && len >= 8 && mi > 0 && IsTable(table, len)
      modifies this`ready, this`nchan, this`hl, this`inmax, this`rows, this`buff, this`c1, this`c2,
               this`ratio, this`pstep, this`qstep, this`wstep
      ensures ready && Sized() && fresh(buff) && fresh(c1) && fresh(c2)
      ensures nchan == channels && rows == table && hl == len && inmax == mi
      ensures ratio == r && pstep == qstep == StepFor(r, 1.0) && wstep == 1.0
    {
      hide StepFor, IsTable;
      AllocateBuffers(channels, 2 * len + mi, len);
      StartSteps(r);
      ready, nchan, hl, inmax, rows := true, channels, len, mi, table;
    }

    method SetRRatio(r: real)
      requires Valid()
      modifies this`qstep
      ensures Valid() && (!ready ==> qstep == old(qstep))
      ensures ready ==> ratio > 0.0 && qstep == StepFor(ratio, r) && 0.0 < qstep <= 16.0 * hl as real
      ensures ready && 0.95 <= r <= 16.0 ==> qstep * (ratio * r) == NPHASE as real
      ensures ready && r < 0.95 ==> qstep * (ratio * 0.95) == NPHASE as real
      ensures ready && r > 16.0 ==> qstep * (ratio * 16.0) == NPHASE as real
    {
      if ready {
        hide StepFor;
        StepWithinWindow(ratio, r, hl);
        qstep := StepFor(ratio, r);
      }
    }

    /** The value 1 - exp(-1/t) is the parameter `weight`, of which its bounds 1/(t+1) and 1/t are known. */
    method SetRRFilt(t: real, weight: real)
      requires Valid() && (t >= 1.0 ==> 1.0 / (t + 1.0) < weight < 1.0 / t)
      modifies this`wstep
      ensures Valid() && wstep == if !ready then old(wstep) else if t < 1.0 then 1.0 else weight
      ensures ready ==> 0.0 < wstep <= 1.0 && (t >= 1.0 ==> 1.0 / (t + 1.0) < wstep < 1.0 / t)
    {
      if t >= 1.0 {
        assert 1.0 / t <= 1.0 && 1.0 / (t + 1.0) > 0.0;
      }
      if ready {
        wstep := if t < 1.0 then 1.0 else weight;
      }
    }

    method SetPhase(p: real)
      requires Valid()
      modifies this`phase
      ensures Valid() && phase == if ready then (p - p.Floor as real) * NPHASE as real else old(phase)
    {
      if ready {
        phase := (p - p.Floor as real) * NPHASE as real;
      }
    }

    /** Stores one input frame, or one frame of silence, at the end of the window. */
    method FeedFrame()
      requires Shape() && Window() && Supplied() && nread > 0 && inpCount > 0
      modifies this`stream, this`inpData, this`inpCount, this`nread, this`nzero, buff
      ensures Shape() && Window() && Supplied()
      ensures inpCount == old(inpCount) - 1 && nread == old(nread) - 1
      ensures |stream| == |old(stream)| + 1 && old(stream) <= stream
      ensures stream + Pending() == old(stream + Pending())
    {
      hide Frames, IsTable, Enough, Holds, Quiet, AllWide;
      var f, present, rest := TakeFrame(inpData, inpCount, nchan);
      inpData, inpCount := rest, inpCount - 1;
      QuietGrows(stream, nzero, nchan, f);
      if present {
        nzero := 0;
      } else if nzero < 2 * hl {
        nzero := nzero + 1;
      }
      Store(f);
    }

    /** Stores a frame at the end of the window. */
    method Store(f: Frame)
      requires Shape() && Holds(buff, index, index + 2 * hl - nread, stream) && Quiet(stream + [f], nzero, nchan)
      requires nread > 0 && |f| == nchan
      modifies this`stream, this`nread, buff
      ensures Shape() && Window() && stream == old(stream) + [f] && nread == old(nread) - 1
    {
      hide IsTable, Holds, Quiet;
      StoreFrame(buff, index + 2 * hl - nread, f, index, stream);
      stream := stream + [f];
      nread := nread - 1;
    }

    /** Writes the frame at the current position, or silence when the window is known to be silent. */
    method WriteFrame()
      requires Sound() && nread == 0
      requires outData != null && outPos + nchan <= outData.Length
      modifies this`outPos, c1, c2, outData
      ensures Shape() && Window() && outPos == old(outPos) + nchan
      ensures outData[..outPos] == old(outData[..outPos]) + OutFrame(stream, rows, nchan, MotionNow())
      ensures outData[outPos..] == old(outData[outPos + nchan..])
    {
      hide Row1, Row2, Filtered, IsTable;
      if nzero < 2 * hl {
        Interpolate(rows, hl, phase, c1, c2);
        WriteFiltered(buff, index, index + 2 * hl, hl, c1[..], c2[..], outData, outPos, stream);
      } else {
        FilteredQuiet(stream, |stream| - 2 * hl, hl, Row1(rows, hl, phase), Row2(rows, hl, phase), nchan);
        WriteSilence(nchan, outData, outPos);
      }
      outPos := outPos + nchan;
    }

    /** Moves on to the next output position, sliding the window and moving it back when it is far right. */
    method Advance()
      requires Sound() && nread == 0 && outCount > 0
      modifies this`outCount, this`pstep, this`phase, this`nread, this`index, buff
      ensures Sound() && outCount == old(outCount) - 1
      ensures MotionNow() == Next(old(MotionNow()))
    {
      hide Holds, Quiet, IsTable, AllWide;
      StepKeepsBounds(MotionNow());
      outCount := outCount - 1;
      pstep := DriftedStep(pstep, qstep, wstep);
      phase := phase + pstep;
      if phase >= NPHASE as real {
        var nr := (phase / NPHASE as real).Floor;
        phase := phase - nr as real * NPHASE as real;
        Slide(nr);
      }
    }

    method Slide(nr: nat)
      requires Shape() && Window() && nread == 0 && nr <= 2 * hl
      modifies this`nread, this`index, buff
      ensures Shape() && Window() && nread == nr
    {
      hide IsTable;
      nread := nr;
      index := index + nr;
      if index >= inmax {
        Relocate(buff, index, 2 * hl - nr, stream);
        index := 0;
      }
    }

    /** Stores frames until the next output can be made or the input runs out. */
    method Feed()
      requires Sound() && Supplied() && outCount > 0
      modifies this`stream, this`inpData, this`inpCount, this`nread, this`nzero, buff
      ensures Shape() && Window() && Supplied()
      ensures (nread == 0 || inpCount == 0) && MotionNow() == old(MotionNow())
      ensures Run(Need, Next, StateNow()) == Run(Need, Next, old(StateNow()))
      ensures old(stream) <= stream && stream + Pending() == old(stream + Pending())
    {
      hide Frames, Window, Shape, Supplied, Run, Next;
      while nread > 0 && inpCount > 0
        invariant Shape() && Window() && Supplied() && MotionNow() == old(MotionNow())
        invariant Run(Need, Next, StateNow()) == Run(Need, Next, old(StateNow()))
        invariant old(stream) <= stream && stream + Pending() == old(stream + Pending())
        invariant outCount > 0
      {
        Unfold(Need, Next, StateNow());
        FeedFrame();
      }
    }

    /** Makes the output at the current position, if the caller wants to have it, and moves on. */
    method Emit()
      requires Sound() && Supplied() && nread == 0 && outCount > 0
      modifies this`outPos, this`outCount, this`pstep, this`phase, this`nread, this`index, buff, c1, c2, outData
      ensures Sound() && Supplied() && outCount == old(outCount) - 1
      ensures MotionNow() == Next(old(MotionNow())) && InReach(stream, old(MotionNow()))
      ensures outData != null ==> Written(stream, rows, nchan, [old(MotionNow())],
                                          old(outData[..]), old(outPos), outData[..], outPos)
    {
      hide IsTable, Holds, Quiet, AllWide, OutFrame, Next;
      Peel(outCount, nchan);
      if outData != null {
        WriteFrame();
        assert Outs(stream, rows, nchan, [MotionNow()]) == [OutFrame(stream, rows, nchan, MotionNow())];
        FlatOne(OutFrame(stream, rows, nchan, MotionNow()));
      }
      Advance();
    }

    /** Progress of a call that began with `fed` frames in the stream, `total` frames fed or pending, and
        the motion mo, and that has made n outputs: the caller's block `before` now reads as it should. */
    ghost predicate Progress(x0: seq<Frame>, total: seq<Frame>, mo: Motion, n: nat, before: seq<real>, pos: nat)
      requires Supplied()
      reads this, outData
    {
      && x0 <= stream && stream + Pending() == total && MotionNow() == Iter(mo, n)
      && (outData != null ==> Written(stream, rows, nchan, Path(mo, n), before, pos, outData[..], outPos))
    }

    /** `Feed`, in the middle of a call. */
    method FeedOn(ghost x0: seq<Frame>, ghost total: seq<Frame>, ghost mo: Motion, ghost n: nat,
                  ghost before: seq<real>, ghost pos: nat)
      requires Sound() && Supplied() && outCount > 0 && Progress(x0, total, mo, n, before, pos)
      modifies this`stream, this`inpData, this`inpCount, this`nread, this`nzero, buff
      ensures Sound() && Supplied() && Progress(x0, total, mo, n, before, pos)
      ensures Run(Need, Next, StateNow()) == Run(Need, Next, old(StateNow()))
      ensures nread > 0 ==> Run(Need, Next, StateNow()) == StateNow()
    {
      hide IsTable, Holds, Quiet, Written, Path, Frames, Enough, Next;
      ghost var x := stream;
      Feed();
      if outData != null {
        WrittenLocal(x, stream, rows, nchan, Path(mo, n), before, pos, outData[..], outPos);
      }
    }

    /** `Emit`, in the middle of a call. */
    method EmitOn(ghost x0: seq<Frame>, ghost total: seq<Frame>, ghost mo: Motion, ghost n: nat,
                  ghost before: seq<real>, ghost pos: nat)
      requires Sound() && Supplied() && nread == 0 && outCount > 0 && Progress(x0, total, mo, n, before, pos)
      modifies this`outPos, this`outCount, this`pstep, this`phase, this`nread, this`index, buff, c1, c2, outData
      ensures Sound() && Supplied() && Progress(x0, total, mo, n + 1, before, pos) && outCount == old(outCount) - 1
      ensures Run(Need, Next, StateNow()) == Run(Need, Next, old(StateNow()))
    {
      hide IsTable, Holds, Quiet, Written, Path, Frames, Enough, Next, Sound;
      ghost var mid: seq<real> := if outData == null then [] else outData[..];
      ghost var p := outPos;
      Emit();
      PathMore(mo, n);
      if outData != null {
        WrittenMore(stream, rows, nchan, Path(mo, n), Iter(mo, n), before, pos, mid, p, outData[..], outPos);
      }
    }

    /** One round of the loop of `Process`; `short` says that the next output lacks input. */
    method Round(ghost x0: seq<Frame>, ghost total: seq<Frame>, ghost mo: Motion, ghost n: nat,
                 ghost before: seq<real>, ghost pos: nat)
      returns (short: bool)
      requires Sound() && Supplied() && outCount > 0 && Progress(x0, total, mo, n, before, pos)
      modifies this`stream, this`inpData, this`inpCount, this`nread, this`nzero, this`outPos, this`outCount,
               this`pstep, this`phase, this`index, buff, c1, c2, outData
      ensures Sound() && Supplied() && Progress(x0, total, mo, if short then n else n + 1, before, pos)
      ensures Run(Need, Next, StateNow()) == Run(Need, Next, old(StateNow()))
      ensures outCount == old(outCount) - if short then 0 else 1
      ensures short || outCount == 0 ==> Run(Need, Next, StateNow()) == StateNow()
    {
      hide Sound, Supplied, Progress, MotionNow, Need, Next;
      FeedOn(x0, total, mo, n, before, pos);
      short := nread > 0;
      if !short {
        EmitOn(x0, total, mo, n, before, pos);
      }
    }

    method Process() returns (err: int)
      requires Valid() && Supplied()
      modifies this`stream, this`inpData, this`inpCount, this`nread, this`nzero, this`outPos, this`outCount,
               this`pstep, this`phase, this`index, buff, c1, c2, outData
      ensures Valid() && Supplied() && err == if ready then 0 else 1
      ensures err == 1 ==> unchanged(this) && (outData != null ==> unchanged(outData))
      ensures err == 0 ==> StateNow() == Run(Need, Next, old(StateNow()))
      ensures err == 0 ==> old(stream) <= stream && stream + Pending() == old(stream + Pending())
      ensures err == 0 && outData != null ==>
        Written(stream, rows, nchan, Path(old(MotionNow()), old(outCount) - outCount),
                old(outData[..]), old(outPos), outData[..], outPos)
    {
      hide Window, Enough, Written, Tuned, Next, IsTable;
      err := 1;
      if ready {
        err := 0;
        ghost var before: seq<real> := if outData == null then [] else outData[..];
        if outData != null {
          WrittenNone(stream, rows, nchan, MotionNow(), before, outPos);
        }
        if outCount > 0 {
          Stream(stream, stream + Pending(), MotionNow(), before, outPos);
        }
      }
    }

    /** The loop of `Process`. */
    method Stream(ghost x0: seq<Frame>, ghost total: seq<Frame>, ghost mo: Motion, ghost before: seq<real>,
                  ghost pos: nat)
      requires Sound() && Supplied() && outCount > 0 && Progress(x0, total, mo, 0, before, pos)
      modifies this`stream, this`inpData, this`inpCount, this`nread, this`nzero, this`outPos, this`outCount,
               this`pstep, this`phase, this`index, buff, c1, c2, outData
      ensures Sound() && Supplied() && outCount <= old(outCount)
      ensures Progress(x0, total, mo, old(outCount) - outCount, before, pos)
      ensures StateNow() == Run(Need, Next, old(StateNow()))
    {
      hide *;
      ghost var wanted := outCount;
      var short := false;
      while outCount > 0 && !short
        invariant Sound() && Supplied() && outCount <= wanted && Progress(x0, total, mo, wanted - outCount, before, pos)
        invariant Run(Need, Next, StateNow()) == Run(Need, Next, old(StateNow()))
        invariant short || outCount == 0 ==> Run(Need, Next, StateNow()) == StateNow()
        decreases outCount, !short
      {
        short := Round(x0, total, mo, wanted - outCount, before, pos);
      }
    }
  }

  function Rows(coef: (nat, nat, nat) -> real, hl: nat): (rows: seq<seq<real>>)
    ensures IsTable(rows, hl)
    ensures forall n, i :: 0 <= n <= NPHASE && 0 <= i < hl ==> rows[n][i] == coef(hl, n, i)
  {
    seq(NPHASE + 1, n requires 0 <= n => seq(hl, i requires 0 <= i => coef(hl, n, i)))
  }

  /** A length of h frames at the lower rate when downsampling, rounded up. */
  function ScaledLength(h: nat, r: real): int
    requires r > 0.0
  {
    if r < 1.0 then -(-(h as real / r)).Floor else h
  }

  /** ... and no longer than that. */
  lemma ScaledLengthLeast(h: nat, r: real)
    requires h > 0 && r > 0.0
    ensures if r >= 1.0 then ScaledLength(h, r) == h else (ScaledLength(h, r) - 1) as real * r < h as real
  {
    if r < 1.0 {
      var q, c := h as real / r, ScaledLength(h, r);
      assert q * r == h as real;
      assert (q - (c - 1) as real) * r > 0.0;
    }
  }

  /** The scaled length is long enough ... */
  lemma ScaledLengthBounds(h: nat, r: real)
    requires h > 0 && r > 0.0
    ensures ScaledLength(h, r) >= h && ScaledLength(h, r) as real * r >= h as real
    ensures h >= 8 ==> Tuned(r, ScaledLength(h, r))
  {
    if r < 1.0 {
      var q := h as real / r;
      assert q * r == h as real;
      assert q >= h as real;
      var c := ScaledLength(h, r);
      assert c as real * r >= q * r;
    } else {
      assert h as real * r >= h as real;
    }
  }

  /** Fills the two scratch rows with the coefficients interpolated at the phase. */
  method Interpolate(rows: seq<seq<real>>, hl: nat, phase: real, c1: array<real>, c2: array<real>)
    requires IsTable(rows, hl) && 0.0 <= phase < NPHASE as real && c1 != c2 && c1.Length == c2.Length == hl
    modifies c1, c2
    ensures c1[..] == Row1(rows, hl, phase) && c2[..] == Row2(rows, hl, phase)
  {
    hide Mix;
    var n := phase.Floor;
    var b := phase - n as real;
    var q1, q1n, q2, q2n := rows[n], rows[n + 1], rows[NPHASE - n], rows[NPHASE - n - 1];
    var i := 0;
    while i < hl
      invariant i <= hl
      invariant forall k :: 0 <= k < i ==> c1[k] == Mix(b, q1[k], q1n[k])
      invariant forall k :: 0 <= k < i ==> c2[k] == Mix(b, q2[k], q2n[k])
    {
      c1[i] := Mix(b, q1[i], q1n[i]);
      c2[i] := Mix(b, q2[i], q2n[i]);
      i := i + 1;
    }
    assert c1[..] == Blend(b, q1, q1n);
    assert c2[..] == Blend(b, q2, q2n);
  }
}
