/**
 What whole runs of the variable-ratio resampler amount to: where its outputs lie on the
 time axis of the input, and that cutting the same input and output into other calls
 changes neither the samples nor the final state.
 */
module VariableResamplerRuns {
  import opened Division
  import opened SlidingWindow
  import opened Schedule
  import opened VariableResampler

  /** The k-th step taken after `mo`. */
  ghost function StepAt(mo: Motion, k: nat): real {
    DriftedStep(Iter(mo, k).step, mo.target, mo.weight)
  }

  ghost function SumOfSteps(mo: Motion, n: nat): real {
    if n == 0 then 0.0 else SumOfSteps(mo, n - 1) + StepAt(mo, n - 1)
  }

  /** Splitting a position into whole frames and a phase loses nothing, however often it is done. */
  lemma {:induction false} PositionsAccumulate(mo: Motion, n: nat)
    requires mo.Bounded() && mo.hl >= 8
    ensures Iter(mo, n).Bounded() && Iter(mo, n).hl == mo.hl
    ensures Iter(mo, n).target == mo.target && Iter(mo, n).weight == mo.weight
    ensures Iter(mo, n).Position() == mo.Position() + SumOfSteps(mo, n)
    ensures Iter(mo, n).m == ((mo.Position() + SumOfSteps(mo, n)) / NPHASE as real).Floor
  {
    if n != 0 {
      PositionsAccumulate(mo, n - 1);
      StepKeepsBounds(Iter(mo, n - 1));
    }
    WholeFrames(Iter(mo, n));
  }

  lemma WholeFrames(mo: Motion)
    requires 0.0 <= mo.phase < NPHASE as real
    ensures mo.m == (mo.Position() / NPHASE as real).Floor
  {
    assert mo.Position() / 120.0 == mo.m as real + mo.phase / 120.0;
  }

  lemma SettledStep(mo: Motion)
    requires mo.Bounded() && mo.hl >= 8 && mo.step == mo.target
    ensures Next(mo).step == mo.step && Next(mo).Position() == mo.Position() + mo.step
  {
    StepKeepsBounds(mo);
  }

  /** Once the step has settled, output n lies at floor(n * step): the two-line specification. */
  lemma {:induction false} SettledPositions(mo: Motion, n: nat)
    requires mo.Bounded() && mo.hl >= 8 && mo.step == mo.target
    ensures Iter(mo, n).step == mo.step
    ensures Iter(mo, n).Position() == mo.Position() + Times(n, mo.step)
    ensures Iter(mo, n).m == ((mo.Position() + Times(n, mo.step)) / NPHASE as real).Floor
  {
    hide Times, SumOfSteps, Motion.Bounded, Motion.Position, Next;
    PositionsAccumulate(mo, n);
    BoundedPlace(Iter(mo, n));
    WholeFrames(Iter(mo, n));
    if n == 0 {
      TimesSteps(0, mo.step);
    } else {
      SettledPositions(mo, n - 1);
      PositionsAccumulate(mo, n - 1);
      SettledStep(Iter(mo, n - 1));
      TimesSteps(n - 1, mo.step);
    }
  }

  ghost function Shrunk(weight: real, d: real): real {
    (1.0 - weight) * d
  }

  /** What is left of a distance d after n steps of the first-order filter. */
  ghost function Decayed(weight: real, d: real, n: nat): real {
    if n == 0 then d else Shrunk(weight, Decayed(weight, d, n - 1))
  }

  lemma DriftError(step: real, target: real, weight: real)
    requires DriftedStep(step, target, weight) != target
    ensures step != target && DriftedStep(step, target, weight) - target == Shrunk(weight, step - target)
  {
  }

  /** The step approaches its target geometrically until the last difference is cut to zero. */
  lemma {:induction false} StepConverges(mo: Motion, n: nat)
    requires Iter(mo, n).step != mo.target
    ensures Iter(mo, n).step - mo.target == Decayed(mo.weight, mo.step - mo.target, n)
  {
    if n != 0 {
      hide DriftedStep, Shrunk;
      var prev := Iter(mo, n - 1);
      IterSettings(mo, n - 1);
      assert Iter(mo, n).step == DriftedStep(prev.step, mo.target, mo.weight);
      DriftError(prev.step, mo.target, mo.weight);
      StepConverges(mo, n - 1);
    }
  }

  lemma {:induction false} IterSettings(mo: Motion, n: nat)
    ensures Iter(mo, n).target == mo.target && Iter(mo, n).weight == mo.weight && Iter(mo, n).hl == mo.hl
  {
    if n != 0 {
      IterSettings(mo, n - 1);
    }
  }

  lemma {:induction false} IterSplit(mo: Motion, a: nat, b: nat)
    ensures Iter(Iter(mo, a), b) == Iter(mo, a + b)
  {
    if b != 0 {
      IterSplit(mo, a, b - 1);
    }
  }

  /** One call makes the outputs that lie next, each with a complete window. */
  lemma {:induction false} RunReach(s: State<Motion>, k: nat)
    requires k < s.out - Run(Need, Next, s).out
    ensures Need(Iter(s.at, k)) <= Run(Need, Next, s).fed
    decreases s.inp + s.out
  {
    hide Run, Next;
    Unfold(Need, Next, s);
    if s.fed < Need(s.at) {
      RunReach(s.(fed := s.fed + 1, inp := s.inp - 1), k);
    } else if k > 0 {
      RunReach(s.(at := Next(s.at), out := s.out - 1), k - 1);
      IterSplit(s.at, 1, k - 1);
      assert Iter(s.at, 1) == Next(Iter(s.at, 0));
    }
  }

  lemma {:induction false} RunMotion(s: State<Motion>)
    ensures Run(Need, Next, s).at == Iter(s.at, s.out - Run(Need, Next, s).out)
    decreases s.inp + s.out
  {
    hide Next, Run;
    Unfold(Need, Next, s);
    if s.out != 0 {
      if s.fed < Need(s.at) {
        if s.inp != 0 {
          RunMotion(s.(fed := s.fed + 1, inp := s.inp - 1));
        }
      } else {
        var s1 := s.(at := Next(s.at), out := s.out - 1);
        RunMotion(s1);
        assert Iter(s.at, 1) == Next(Iter(s.at, 0));
        IterSplit(s.at, 1, s1.out - Run(Need, Next, s1).out);
      }
    }
  }

  /** x is the whole input offered during the run, behind the frames fed before it. */
  ghost predicate Offered(x: seq<Frame>, rows: seq<seq<real>>, nchan: nat, s: State<Motion>) {
    && s.at.Bounded() && s.at.hl >= 8 && IsTable(rows, s.at.hl) && AllWide(x, nchan)
    && s.fed + s.inp <= |x|
  }

  lemma BoundedPlace(mo: Motion)
    requires mo.Bounded()
    ensures 0 <= mo.m && 0.0 <= mo.phase < NPHASE as real
  {
  }

  lemma RunRenderable(x: seq<Frame>, rows: seq<seq<real>>, nchan: nat, s: State<Motion>)
    requires Offered(x, rows, nchan, s)
    ensures Renderable(x, rows, Path(s.at, s.out - Run(Need, Next, s).out))
    ensures Offered(x, rows, nchan, Run(Need, Next, s))
  {
    hide Motion.Bounded, IsTable, AllWide, Next, Iter, Run;
    var n := s.out - Run(Need, Next, s).out;
    forall k | 0 <= k < n
      ensures InReach(x, Iter(s.at, k)) && IsTable(rows, Iter(s.at, k).hl)
    {
      RunReach(s, k);
      PositionsAccumulate(s.at, k);
      BoundedPlace(Iter(s.at, k));
    }
    RunMotion(s);
    PositionsAccumulate(s.at, n);
  }

  /** The frames one call makes. */
  ghost function CallOutput(x: seq<Frame>, rows: seq<seq<real>>, nchan: nat, s: State<Motion>): seq<Frame>
    requires Offered(x, rows, nchan, s)
  {
    RunRenderable(x, rows, nchan, s);
    Outs(x, rows, nchan, Path(s.at, s.out - Run(Need, Next, s).out))
  }

  lemma CallOutputIs(x: seq<Frame>, rows: seq<seq<real>>, nchan: nat, s: State<Motion>, n: nat)
    requires Offered(x, rows, nchan, s) && n == s.out - Run(Need, Next, s).out
    ensures Renderable(x, rows, Path(s.at, n)) && CallOutput(x, rows, nchan, s) == Outs(x, rows, nchan, Path(s.at, n))
  {
    hide Run, Path, Outs;
    RunRenderable(x, rows, nchan, s);
  }

  /** The point at the fraction b on the way from p to q. */
  function Between(b: real, p: real, q: real): real {
    p + b * (q - p)
  }

  /** What meets what: a stream that is 1.0 in frame p of channel j, and silent elsewhere in this channel, comes out as
      the coefficient for this frame, interpolated between the table rows on both sides of the phase: forwards over
      the first half of the window, backwards in the mirrored rows over the second half, nothing outside. */
  lemma OutputImpulse(x: seq<Frame>, rows: seq<seq<real>>, nchan: nat, mo: Motion, j: nat, p: nat)
    requires IsTable(rows, mo.hl) && AllWide(x, nchan) && InReach(x, mo) && j < nchan && OnlyAt(x, j, p)
    ensures var m, hl, n := mo.m, mo.hl, mo.phase.Floor;
      var b := mo.phase - n as real;
      OutFrame(x, rows, nchan, mo)[j] ==
        if m <= p < m + hl then Between(b, rows[n][p - m], rows[n + 1][p - m])
        else if m + hl <= p < m + 2 * hl then
          Between(b, rows[NPHASE - n][m + 2 * hl - 1 - p], rows[NPHASE - n - 1][m + 2 * hl - 1 - p])
        else 0.0
  {
    hide Filtered, Row1, Row2;
    var m, hl := mo.m, mo.hl;
    FilteredImpulse(x, m, hl, Row1(rows, hl, mo.phase), Row2(rows, hl, mo.phase), nchan, j, p);
    if m <= p < m + hl {
      RowsBetween(rows, hl, mo.phase, p - m);
    } else if m + hl <= p < m + 2 * hl {
      RowsBetween(rows, hl, mo.phase, m + 2 * hl - 1 - p);
    }
  }

  /** If a stream is a times one plus b times another in a channel, so are the outputs at the same place. */
  lemma OutputsSuperpose(z: seq<Frame>, x: seq<Frame>, y: seq<Frame>, rows: seq<seq<real>>, nchan: nat, mo: Motion,
                         j: nat, a: real, b: real)
    requires IsTable(rows, mo.hl) && AllWide(x, nchan) && AllWide(y, nchan) && AllWide(z, nchan) && j < nchan
    requires InReach(x, mo) && InReach(y, mo) && InReach(z, mo) && Superposed(z, x, y, j, a, b)
    ensures OutFrame(z, rows, nchan, mo)[j] == a * OutFrame(x, rows, nchan, mo)[j] + b * OutFrame(y, rows, nchan, mo)[j]
  {
    hide Filtered, Superposed, Row1, Row2;
    FilteredSuperposed(z, x, y, mo.m, mo.hl, Row1(rows, mo.hl, mo.phase), Row2(rows, mo.hl, mo.phase), nchan, j, a, b);
  }

  /** Where the outputs are: what a call leaves in the caller's block, k frames and j samples behind where it began to
      write, is sample j of the output at the k-th place of its track; the rest of the block is as it was. */
  lemma WrittenAt(x: seq<Frame>, rows: seq<seq<real>>, nchan: nat, track: seq<Motion>,
                  before: seq<real>, pos: nat, after: seq<real>, end: nat, k: nat, j: nat)
    requires Written(x, rows, nchan, track, before, pos, after, end) && k < |track| && j < nchan
    ensures InReach(x, track[k]) && IsTable(rows, track[k].hl)
    ensures end == pos + |track| * nchan && pos + k * nchan + j < end
    ensures after[pos + k * nchan + j] == OutFrame(x, rows, nchan, track[k])[j]
    ensures after[..pos] == before[..pos] && after[end..] == before[end..]
  {
    hide OutFrame;
    PutAt(Outs(x, rows, nchan, track), nchan, before, pos, after, end, k, j);
  }

  /** What `Process` writes from the frames y it has been fed are the frames of this call over the whole input x. */
  lemma CallWrites(x: seq<Frame>, y: seq<Frame>, rows: seq<seq<real>>, nchan: nat, s: State<Motion>,
                   before: seq<real>, pos: nat, after: seq<real>, end: nat)
    requires Offered(x, rows, nchan, s) && y <= x
    requires Written(y, rows, nchan, Path(s.at, s.out - Run(Need, Next, s).out), before, pos, after, end)
    ensures Put(CallOutput(x, rows, nchan, s), before, pos, after, end)
  {
    hide Put, OutFrame, InReach, IsTable, Motion.Bounded, Run, Iter, Path;
    WrittenLocal(y, x, rows, nchan, Path(s.at, s.out - Run(Need, Next, s).out), before, pos, after, end);
  }

  /** The frames a series of calls makes. */
  ghost function CallsOutput(x: seq<Frame>, rows: seq<seq<real>>, nchan: nat, s: State<Motion>,
                             grants: seq<Grant>): seq<Frame>
    requires Offered(x, rows, nchan, Granted(s, Total(grants)))
    decreases |grants|
  {
    if grants == [] then []
    else
      var s0 := Granted(s, grants[0]);
      RunRenderable(x, rows, nchan, s0);
      CallOutput(x, rows, nchan, s0) + CallsOutput(x, rows, nchan, Run(Need, Next, s0), grants[1..])
  }

  lemma PathSplit(mo: Motion, a: nat, b: nat)
    ensures Path(mo, a + b) == Path(mo, a) + Path(Iter(mo, a), b)
  {
    forall k | 0 <= k < b
      ensures Iter(mo, a + k) == Iter(Iter(mo, a), k)
    {
      IterSplit(mo, a, k);
    }
  }

  lemma OutsSplit(x: seq<Frame>, rows: seq<seq<real>>, nchan: nat, a: seq<Motion>, b: seq<Motion>)
    requires AllWide(x, nchan) && Renderable(x, rows, a) && Renderable(x, rows, b)
    ensures Renderable(x, rows, a + b)
    ensures Outs(x, rows, nchan, a + b) == Outs(x, rows, nchan, a) + Outs(x, rows, nchan, b)
  {
    hide OutFrame, InReach, IsTable;
  }

  /** Two calls make the frames of one call with both grants. */
  lemma OutputMerge(x: seq<Frame>, rows: seq<seq<real>>, nchan: nat, s: State<Motion>, g: Grant)
    requires Offered(x, rows, nchan, Granted(s, g)) && Offered(x, rows, nchan, Granted(Run(Need, Next, s), g))
    ensures Offered(x, rows, nchan, s)
    ensures CallOutput(x, rows, nchan, Granted(s, g))
         == CallOutput(x, rows, nchan, s) + CallOutput(x, rows, nchan, Granted(Run(Need, Next, s), g))
  {
    hide InReach, IsTable, OutFrame, Outs, Iter, Need, Next, Path, Motion.Bounded, AllWide, Renderable, Run, CallOutput;
    var s1 := Run(Need, Next, s);
    var a, b := s.out - s1.out, Granted(s1, g).out - Run(Need, Next, Granted(s1, g)).out;
    Merge(Need, Next, s, g);
    RunMotion(s);
    PathSplit(s.at, a, b);
    CallOutputIs(x, rows, nchan, s, a);
    CallOutputIs(x, rows, nchan, Granted(s1, g), b);
    CallOutputIs(x, rows, nchan, Granted(s, g), a + b);
    OutsSplit(x, rows, nchan, Path(s.at, a), Path(s1.at, b));
  }

  /** However the same totals are cut into calls, the frames made are those of a single call. */
  lemma {:induction false} ChunkedOutputs(x: seq<Frame>, rows: seq<seq<real>>, nchan: nat, s: State<Motion>,
                                          grants: seq<Grant>)
    requires grants != [] && Offered(x, rows, nchan, Granted(s, Total(grants)))
    ensures CallsOutput(x, rows, nchan, s, grants) == CallOutput(x, rows, nchan, Granted(s, Total(grants)))
    decreases |grants|
  {
    hide InReach, IsTable, OutFrame, Outs, Iter, Need, Next, Path, Motion.Bounded, AllWide, Run, CallOutput;
    var s0, rest := Granted(s, grants[0]), grants[1..];
    var s1 := Run(Need, Next, s0);
    RunRenderable(x, rows, nchan, s0);
    if rest == [] {
      assert CallsOutput(x, rows, nchan, s1, rest) == [];
    } else {
      ChunkedOutputs(x, rows, nchan, s1, rest);
      OutputMerge(x, rows, nchan, s0, Total(rest));
    }
  }
}
