/** What a run of the cubic resampler computes, and the step up to which it is defined at all. */
module CubicResamplerRuns {
  import opened Division
  import opened SlidingWindow
  import opened Schedule
  import opened CubicResampler

  /** Output n lies n steps after the first one, however the position was split along the way. */
  lemma {:induction false} SpotsOnGrid(p: Spot, n: nat)
    requires 0.0 <= p.phase < 1.0 && p.step > 0.0
    ensures 0.0 <= Iter(p, n).phase < 1.0 && Iter(p, n).step == p.step && Iter(p, n).m >= p.m
    ensures Iter(p, n).Position() == p.Position() + Times(n, p.step)
    ensures Iter(p, n).m == (p.Position() + Times(n, p.step)).Floor
  {
    hide Times;
    if n == 0 {
      TimesSteps(0, p.step);
    } else {
      SpotsOnGrid(p, n - 1);
      TimesSteps(n - 1, p.step);
    }
  }

  function Quad(a: real, b: real, c: real, t: real): real {
    (a * t + b) * t + c
  }

  /** The weights are those of interpolation at 1 + a: exact for 1, t and t*t on the nodes 0, 1, 2, 3. */
  lemma WeightMoments(a: real)
    ensures M0(a) + M1(a) + M2(a) + M3(a) == 1.0
    ensures M1(a) + 2.0 * M2(a) + 3.0 * M3(a) == 1.0 + a
    ensures M1(a) + 4.0 * M2(a) + 9.0 * M3(a) == (1.0 + a) * (1.0 + a)
  {
  }

  lemma BlendOfQuad(a: real, p: real, q: real, r: real)
    ensures Blend4(a, r, p + q + r, 4.0 * p + 2.0 * q + r, 9.0 * p + 3.0 * q + r) == Quad(p, q, r, 1.0 + a)
  {
    WeightMoments(a);
    hide M0, M1, M2, M3;
    var m0, m1, m2, m3 := M0(a), M1(a), M2(a), M3(a);
    assert m0 * r + m1 * (p + q + r) + m2 * (4.0 * p + 2.0 * q + r) + m3 * (9.0 * p + 3.0 * q + r)
        == p * (m1 + 4.0 * m2 + 9.0 * m3) + q * (m1 + 2.0 * m2 + 3.0 * m3) + r * (m0 + m1 + m2 + m3);
  }

  lemma ShiftQuad(a: real, b: real, c: real, m: real, i: real)
    ensures Quad(a, b, c, m + i) == a * (i * i) + (2.0 * a * m + b) * i + Quad(a, b, c, m)
  {
  }

  /** Interpolating samples of a quadratic polynomial gives its value one frame behind the window start plus phase. */
  lemma ReproducesQuadratics(x: seq<Frame>, nchan: nat, p: Spot, ch: nat, a: real, b: real, c: real)
    requires AllWide(x, nchan) && InReach(x, p) && ch < nchan
    requires forall t :: p.m <= t < p.m + 4 ==> x[t][ch] == Quad(a, b, c, t as real)
    ensures OutFrame(x, nchan, p)[ch] == Quad(a, b, c, p.Position() + 1.0)
  {
    hide Blend4, Quad;
    var m := p.m as real;
    var q, r := 2.0 * a * m + b, Quad(a, b, c, m);
    ShiftQuad(a, b, c, m, 1.0);
    ShiftQuad(a, b, c, m, 2.0);
    ShiftQuad(a, b, c, m, 3.0);
    ShiftQuad(a, b, c, m, 1.0 + p.phase);
    assert x[p.m][ch] == r;
    assert (p.m + 1) as real == m + 1.0 && (p.m + 2) as real == m + 2.0 && (p.m + 3) as real == m + 3.0;
    assert x[p.m + 1][ch] == a + q + r;
    assert x[p.m + 2][ch] == 4.0 * a + 2.0 * q + r;
    assert x[p.m + 3][ch] == 9.0 * a + 3.0 * q + r;
    assert Blend4(p.phase, x[p.m][ch], x[p.m + 1][ch], x[p.m + 2][ch], x[p.m + 3][ch])
        == Blend4(p.phase, r, a + q + r, 4.0 * a + 2.0 * q + r, 9.0 * a + 3.0 * q + r);
    BlendOfQuad(p.phase, a, q, r);
    QuadAt(a, q, r, 1.0 + p.phase);
    assert p.Position() + 1.0 == m + (1.0 + p.phase);
  }

  lemma QuadAt(a: real, q: real, r: real, i: real)
    ensures Quad(a, q, r, i) == a * (i * i) + q * i + r
  {
  }

  // ---- the interpolation, said in other words --------------------------------------

  /** The parabola through y0, y1 and y2 at 0, 1 and 2, in Newton's form. */
  function Parabola(y0: real, y1: real, y2: real, t: real): real {
    y0 + (y1 - y0) * t + (y2 - 2.0 * y1 + y0) * (t * (t - 1.0) / 2.0)
  }

  lemma ParabolaThrough(y0: real, y1: real, y2: real)
    ensures Parabola(y0, y1, y2, 0.0) == y0 && Parabola(y0, y1, y2, 1.0) == y1 && Parabola(y0, y1, y2, 2.0) == y2
  {
  }

  /** Between the two frames in the middle: the mean of two parabolas, one through the first three frames and one
      through the last three, the second gaining weight with the phase. */
  function TwoParabolas(a: real, x0: real, x1: real, x2: real, x3: real): real {
    (1.0 - a) * Parabola(x0, x1, x2, 1.0 + a) + a * Parabola(x1, x2, x3, a)
  }

  /** This is what the four weights compute, so it fixes all of them. */
  lemma BlendOfParabolas(a: real, x0: real, x1: real, x2: real, x3: real)
    ensures Blend4(a, x0, x1, x2, x3) == TwoParabolas(a, x0, x1, x2, x3)
  {
  }

  /** What the first and the last frame of the window contribute, and that time has no direction. */
  lemma OuterFrames(a: real)
    ensures Blend4(a, 1.0, 0.0, 0.0, 0.0) == -(a * ((1.0 - a) * (1.0 - a))) / 2.0
    ensures Blend4(a, 0.0, 0.0, 0.0, 1.0) == -(a * (a * (1.0 - a))) / 2.0
  {
  }

  lemma Mirrored(a: real, x0: real, x1: real, x2: real, x3: real)
    ensures Blend4(a, x0, x1, x2, x3) == Blend4(1.0 - a, x3, x2, x1, x0)
  {
    hide M0, M1, M2, M3;
    MirroredWeights(a);
  }

  lemma MirroredWeights(a: real)
    ensures M0(a) == M3(1.0 - a) && M1(a) == M2(1.0 - a) && M2(a) == M1(1.0 - a) && M3(a) == M0(1.0 - a)
  {
  }

  lemma BlendOnFrame(x0: real, x1: real, x2: real, x3: real)
    ensures Blend4(0.0, x0, x1, x2, x3) == x1
  {
    hide M0, M1, M2, M3;
    WeightsOnFrame();
    assert 0.0 * x0 == 0.0 && 1.0 * x1 == x1 && 0.0 * x2 == 0.0 && 0.0 * x3 == 0.0;
  }

  lemma WeightsOnFrame()
    ensures M0(0.0) == 0.0 && M1(0.0) == 1.0 && M2(0.0) == 0.0 && M3(0.0) == 0.0
  {
  }

  /** On a frame the output is that frame. */
  lemma OnFrames(x: seq<Frame>, nchan: nat, p: Spot, ch: nat)
    requires AllWide(x, nchan) && InReach(x, p) && p.phase == 0.0 && ch < nchan
    ensures OutFrame(x, nchan, p)[ch] == x[p.m + 1][ch]
  {
    hide Blend4;
    BlendOnFrame(x[p.m][ch], x[p.m + 1][ch], x[p.m + 2][ch], x[p.m + 3][ch]);
  }

  /** Every output of a run from reset, whatever was fed: k steps from frame 1, that is with m = floor(k * step)
      between frames m + 1 and m + 2. */
  lemma OutputsOfRun(r: CResampler, k: nat, ch: nat)
    requires r.nchan > 0 && r.Valid() && r.OnGrid() && k < |r.made| && ch < r.nchan
    ensures var m := Times(k, r.pstep).Floor;
      && 0 <= m && m + 4 <= |r.stream| && AllWide(r.stream, r.nchan) && |r.made[k]| == r.nchan
      && r.made[k][ch] == TwoParabolas(Times(k, r.pstep) - m as real, r.stream[m][ch], r.stream[m + 1][ch],
                                       r.stream[m + 2][ch], r.stream[m + 3][ch])
  {
    hide Blend4, TwoParabolas, Times;
    var p := Path(Spot(0, 0.0, r.pstep), |r.made|)[k];
    SpotsOnGrid(Spot(0, 0.0, r.pstep), k);
    var x := r.stream;
    BlendOfParabolas(p.phase, x[p.m][ch], x[p.m + 1][ch], x[p.m + 2][ch], x[p.m + 3][ch]);
  }

  /** On a grid from frame 0, with one quadratic per channel sampled at 0, 1, 2, ..., output k is the polynomial
      at k*step + 1. */
  lemma QuadraticGrid(x: seq<Frame>, nchan: nat, step: real, made: seq<Frame>, poly: seq<(real, real, real)>, k: nat,
                      ch: nat)
    requires 0.0 < step && |poly| == nchan && AllWide(x, nchan) && k < |made| && ch < nchan
    requires Faithful(x, nchan, Path(Spot(0, 0.0, step), |made|), made)
    requires forall t, c :: 0 <= t < |x| && 0 <= c < nchan ==>
      x[t][c] == Quad(poly[c].0, poly[c].1, poly[c].2, t as real)
    ensures |made[k]| == nchan
    ensures made[k][ch] == Quad(poly[ch].0, poly[ch].1, poly[ch].2, Times(k, step) + 1.0)
  {
    hide Quad, Times, OutFrame;
    var p := Path(Spot(0, 0.0, step), |made|)[k];
    SpotsOnGrid(Spot(0, 0.0, step), k);
    ReproducesQuadratics(x, nchan, p, ch, poly[ch].0, poly[ch].1, poly[ch].2);
  }

  /** A resampler that was reset, kept its step and has been called any number of times in any way: if it was
      fed a quadratic per channel, output k since the reset is the polynomial at k*step + 1. `Reset` and `Setup`
      start such a run, and every `Process` goes on with it. */
  lemma QuadraticRun(r: CResampler, poly: seq<(real, real, real)>, k: nat, ch: nat)
    requires r.nchan > 0 && r.Valid() && r.OnGrid() && |poly| == r.nchan && k < |r.made| && ch < r.nchan
    requires forall t, c :: 0 <= t < |r.stream| && 0 <= c < r.nchan ==>
      r.stream[t][c] == Quad(poly[c].0, poly[c].1, poly[c].2, t as real)
    ensures |r.made[k]| == r.nchan
    ensures r.made[k][ch] == Quad(poly[ch].0, poly[ch].1, poly[ch].2, Times(k, r.pstep) + 1.0)
  {
    hide Quad, Times, Path, OutFrame;
    QuadraticGrid(r.stream, r.nchan, r.pstep, r.made, poly, k, ch);
  }

  /** A call moves on by the outputs it makes. */
  lemma {:induction false} RunSpot(s: State<Spot>)
    ensures Run(Need, Next, s).at == Iter(s.at, s.out - Run(Need, Next, s).out)
    decreases s.inp + s.out
  {
    hide Next, Run;
    Unfold(Need, Next, s);
    if s.out != 0 {
      if s.fed < Need(s.at) {
        if s.inp != 0 {
          RunSpot(s.(fed := s.fed + 1, inp := s.inp - 1));
        }
      } else {
        var s1 := s.(at := Next(s.at), out := s.out - 1);
        RunSpot(s1);
        IterZero(s.at);
        assert Iter(s.at, 1) == Next(Iter(s.at, 0));
        IterSplit(s.at, 1, s1.out - Run(Need, Next, s1).out);
      }
    }
  }

  /** However the same totals are cut into calls, as many outputs are made as in one call, and the run has moved on
      by as many steps. */
  lemma CallsOnGrid(step: real, grants: seq<Grant>)
    requires grants != []
    ensures var s, t := State(0, Spot(0, 0.0, step), 0, 0), Total(grants);
      var r := Calls(Need, Next, s, grants);
      r == Run(Need, Next, Granted(s, t)) && r.out <= t.out && r.at == Iter(Spot(0, 0.0, step), t.out - r.out)
  {
    hide Next, Need, Iter;
    var s := State(0, Spot(0, 0.0, step), 0, 0);
    ChunkingIsInvisible(Need, Next, s, grants);
    RunSpot(Granted(s, Total(grants)));
  }

  /** The move after output k of a run that starts on a frame. */
  ghost function Shift(step: real, k: nat): int {
    Iter(Spot(0, 0.0, step), k + 1).m - Iter(Spot(0, 0.0, step), k).m
  }

  /** `4 - nr` stays non-negative throughout every run exactly when the step is at most four. */
  lemma StepLimit(step: real)
    requires step > 0.0
    ensures (forall k: nat :: Shift(step, k) <= 4) <==> step <= 4.0
  {
    if step <= 4.0 {
      forall k: nat
        ensures Shift(step, k) <= 4
      {
        SpotsOnGrid(Spot(0, 0.0, step), k);
      }
    } else {
      var n := (1.0 / (step - 4.0)).Floor + 1;
      assert n as real * (step - 4.0) >= 1.0 by {
        assert 1.0 / (step - 4.0) * (step - 4.0) == 1.0;
        assert n as real >= 1.0 / (step - 4.0);
        assert (n as real - 1.0 / (step - 4.0)) * (step - 4.0) >= 0.0;
      }
      SpotsOnGrid(Spot(0, 0.0, step), n);
      assert Times(n, step) >= 4.0 * n as real + 1.0;
      if forall k: nat :: Shift(step, k) <= 4 {
        SlowStart(step, n);
      }
    }
  }

  lemma {:induction false} SlowStart(step: real, n: nat)
    requires forall k: nat :: Shift(step, k) <= 4
    ensures Iter(Spot(0, 0.0, step), n).m <= 4 * n
  {
    if n > 0 {
      SlowStart(step, n - 1);
      assert Shift(step, n - 1) <= 4;
    }
  }
}
