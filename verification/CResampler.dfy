/**
 The cubic interpolating resampler, in exact arithmetic. Cell (c, f) of the buffer is the
 source's `_buff[f * nchan + c]`; the window is four frames long.
 */
module CubicResampler {
  import opened Options
  import opened SlidingWindow
  import opened Schedule

  const INMAX: nat := 50

  // ---- where the outputs lie ------------------------------------------------------

  /** The next output lies `phase` of a frame behind frame m + 1, the second of its window. */
  datatype Spot = Spot(m: int, phase: real, step: real) {
    ghost predicate Bounded() { 0 <= m && 0.0 <= phase < 1.0 && 0.0 < step }

    ghost function Position(): real { m as real + phase }
  }

  ghost function Need(p: Spot): int {
    p.m + 4
  }

  ghost function Next(p: Spot): Spot {
    var shift := (p.phase + p.step).Floor;
    p.(m := p.m + shift, phase := p.phase + p.step - shift as real)
  }

  ghost function Iter(p: Spot, n: nat): Spot {
    if n == 0 then p else Next(Iter(p, n - 1))
  }

  ghost function Path(p: Spot, n: nat): seq<Spot> {
    seq(n, i requires 0 <= i => Iter(p, i))
  }

  // ---- what the outputs are -------------------------------------------------------

  function M0(a: real): real { var b := 1.0 - a; var d := a * b / 2.0; -d * b }
  function M1(a: real): real { var b := 1.0 - a; var d := a * b / 2.0; b + (3.0 * b - 1.0) * d }
  function M2(a: real): real { var b := 1.0 - a; var d := a * b / 2.0; a + (3.0 * a - 1.0) * d }
  function M3(a: real): real { var b := 1.0 - a; var d := a * b / 2.0; -d * a }

  function Blend4(a: real, x0: real, x1: real, x2: real, x3: real): real {
    M0(a) * x0 + M1(a) * x1 + M2(a) * x2 + M3(a) * x3
  }

  ghost predicate InReach(x: seq<Frame>, p: Spot) {
    0 <= p.m && p.m + 4 <= |x|
  }

  ghost function OutFrame(x: seq<Frame>, nchan: nat, p: Spot): (f: Frame)
    requires AllWide(x, nchan) && InReach(x, p)
    ensures |f| == nchan
  {
    seq(nchan, c requires 0 <= c < nchan => Blend4(p.phase, x[p.m][c], x[p.m + 1][c], x[p.m + 2][c], x[p.m + 3][c]))
  }

  /** The frames made so far are the interpolations of x at the recorded spots. */
  ghost predicate Faithful(x: seq<Frame>, nchan: nat, spots: seq<Spot>, made: seq<Frame>)
    requires AllWide(x, nchan)
  {
    && |spots| == |made|
    && forall k :: 0 <= k < |made| ==> InReach(x, spots[k]) && made[k] == OutFrame(x, nchan, spots[k])
  }

  lemma FaithfulLocal(x: seq<Frame>, y: seq<Frame>, nchan: nat, spots: seq<Spot>, made: seq<Frame>)
    requires AllWide(x, nchan) && AllWide(y, nchan) && x <= y && Faithful(x, nchan, spots, made)
    ensures Faithful(y, nchan, spots, made)
  {
    hide Blend4;
    forall k | 0 <= k < |made|
      ensures InReach(y, spots[k]) && made[k] == OutFrame(y, nchan, spots[k])
    {
      assert InReach(x, spots[k]) && made[k] == OutFrame(x, nchan, spots[k]);
    }
  }

  lemma BlendOfSilence(a: real)
    ensures Blend4(a, 0.0, 0.0, 0.0, 0.0) == 0.0
  {
    hide M0, M1, M2, M3;
  }

  lemma QuietWindow(x: seq<Frame>, nchan: nat, p: Spot)
    requires AllWide(x, nchan) && InReach(x, p) && p.m + 4 == |x| && Quiet(x, 4, nchan)
    ensures OutFrame(x, nchan, p) == Silence(nchan)
  {
    hide Blend4;
    BlendOfSilence(p.phase);
  }

  class CResampler {
    // set by the caller before a call; an input pointer moves by dropping samples
    var inpCount: nat
    var outCount: nat
    var inpData: Option<seq<real>>
    var outData: array?<real>
    var outPos: nat

    var nchan: nat
    var index: nat
    var nread: nat
    var nzero: nat
    var phase: real
    var pstep: real
    var buff: array2<real>

    ghost var stream: seq<Frame>  // frames fed since Reset
    ghost var spots: seq<Spot>    // where the outputs made since Reset lie
    ghost var made: seq<Frame>    // those outputs, whether or not they were written out

    ghost predicate Shape()
      reads this
    {
      && nchan > 0 && buff.Length0 == nchan && buff.Length1 == 3 + INMAX
      && index < INMAX && nread <= 4 && nzero <= 4 <= |stream| + nread && AllWide(stream, nchan)
    }

    ghost predicate Window()
      requires Shape()
      reads this, buff
    {
      Holds(buff, index, index + 4 - nread, stream) && Quiet(stream, nzero, nchan)
    }

    ghost predicate Sound()
      reads this, buff
    {
      Shape() && Window() && SpotNow().Bounded() && Faithful(stream, nchan, spots, made)
    }

    ghost predicate Valid()
      reads this, buff
    {
      nchan > 0 ==> Sound()
    }

    /** Since `Reset` the step has not changed: the outputs made lie on a grid that starts at frame 0. */
    ghost predicate OnGrid()
      reads this
    {
      && spots == Path(Spot(0, 0.0, pstep), |spots|)
      && SpotNow() == Iter(Spot(0, 0.0, pstep), |spots|)
    }

    ghost function SpotNow(): Spot
      reads this
    {
      Spot(|stream| + nread - 4, phase, pstep)
    }

    ghost function StateNow(): State<Spot>
      reads this
    {
      State(|stream|, SpotNow(), inpCount, outCount)
    }

    ghost function AfterRun(): State<Spot>
      reads this
    {
      Run(Need, Next, StateNow())
    }

    /** What the caller must supply: enough samples to read and room to write. */
    ghost predicate Supplied()
      reads this
    {
      CallSupplied(nchan, inpData, inpCount, outData, outPos, outCount)
    }

    ghost function Pending(): seq<Frame>
      requires Supplied()
      reads this
    {
      Frames(inpData, nchan, inpCount)
    }

    constructor ()
      ensures Valid() && nchan == 0 && fresh(buff)
    {
      nchan, pstep := 0, 0.0;
      buff := new real[0, 0];
      inpCount, outCount, inpData, outData, outPos := 0, 0, None, null, 0;
      index, phase, nread, nzero := 0, 0.0, 4, 0;
      stream, spots, made := [], [], [];
    }

    method Clear()
      modifies this
      ensures Valid() && nchan == 0 && pstep == 0.0 && fresh(buff)
    {
      buff := new real[0, 0];
      nchan, pstep := 0, 0.0;
      Reset();
    }

    /** Without channels nothing changes. The source does not look at the ratio; see `StepLimit`. */
    method Setup(ratio: real, channels: nat) returns (err: int)
      requires Valid() && ratio > 0.0
      modifies this
      ensures Valid() && err == (if channels == 0 then 1 else 0)
      ensures err == 1 ==> unchanged(this)
      ensures err == 0 ==> Sound() && OnGrid() && fresh(buff) && nchan == channels && spots == []
      ensures err == 0 ==> StateNow() == State(0, Spot(0, 0.0, 1.0 / ratio), 0, 0)
    {
      err := 1;
      if channels != 0 {
        Clear();
        buff := new real[channels, 3 + INMAX];
        nchan, pstep := channels, 1.0 / ratio;
        Reset();
        err := 0;
      }
    }

    method Reset()
      requires nchan > 0 ==> buff.Length0 == nchan && buff.Length1 == 3 + INMAX && pstep > 0.0
      modifies this`inpCount, this`outCount, this`inpData, this`outData, this`index, this`phase, this`nread, this`nzero,
               this`stream, this`spots, this`made
      ensures Valid() && (nchan > 0 ==> OnGrid()) && spots == [] && inpData == None && outData == null
      ensures StateNow() == State(0, Spot(0, 0.0, pstep), 0, 0)
    {
      inpCount, outCount, inpData, outData := 0, 0, None, null;
      ResetWindow();
      IterZero(SpotNow());
    }

    method ResetWindow()
      modifies this`index, this`phase, this`nread, this`nzero, this`stream, this`spots, this`made
      ensures index == nzero == 0 && nread == 4 && phase == 0.0 && spots == [] && made == [] && stream == []
    {
      index, phase, nread, nzero := 0, 0.0, 4, 0;
      stream, spots, made := [], [], [];
    }

    method SetRatio(r: real)
      requires Valid() && r > 0.0
      modifies this`pstep
      ensures Valid() && pstep == 1.0 / r
    {
      pstep := 1.0 / r;
    }

    method SetPhase(p: real)
      requires Valid()
      modifies this`phase
      ensures Valid() && phase == p - p.Floor as real
    {
      phase := p - p.Floor as real;
    }

    /** The first branch of the loop: one input frame, or silence, goes to the end of the window. */
    method FeedFrame()
      requires Sound() && Supplied() && nread > 0 && inpCount > 0
      modifies this`stream, this`inpData, this`inpCount, this`nread, this`nzero, buff
      ensures Sound() && Supplied() && SpotNow() == old(SpotNow()) && inpCount == old(inpCount) - 1
      ensures |stream| == |old(stream)| + 1 && old(stream) <= stream && stream + Pending() == old(stream + Pending())
    {
      hide Frames, Enough, Holds, Quiet, AllWide, Faithful, Next;
      var f, present, rest := TakeFrame(inpData, inpCount, nchan);
      inpData, inpCount := rest, inpCount - 1;
      QuietGrows(stream, nzero, nchan, f);
      if present {
        nzero := 0;
      } else if nzero < 4 {
        nzero := nzero + 1;
      }
      Store(f);
    }

    /** Stores a frame at the end of the window. */
    method Store(f: Frame)
      requires Shape() && Holds(buff, index, index + 4 - nread, stream) && Quiet(stream + [f], nzero, nchan)
      requires SpotNow().Bounded() && Faithful(stream, nchan, spots, made) && nread > 0 && |f| == nchan
      modifies this`stream, this`nread, buff
      ensures Sound() && stream == old(stream) + [f] && nread == old(nread) - 1
    {
      hide Holds, Quiet, Faithful;
      StoreFrame(buff, index + 4 - nread, f, index, stream);
      FaithfulLocal(stream, stream + [f], nchan, spots, made);
      stream := stream + [f];
      nread := nread - 1;
    }

    /** Writes the interpolated frame, or silence when the window is known to be silent. */
    method WriteFrame()
      requires Sound() && nread == 0 && outData != null && outPos + nchan <= outData.Length
      modifies this`outPos, outData
      ensures Sound() && outPos == old(outPos) + nchan && InReach(stream, SpotNow())
      ensures outData[..outPos] == old(outData[..outPos]) + OutFrame(stream, nchan, SpotNow())
      ensures outData[outPos..] == old(outData[outPos + nchan..])
    {
      hide Blend4, Faithful, Spot.Bounded;
      assert InReach(stream, SpotNow());
      if nzero < 4 {
        WriteBlend(buff, index, phase, outData, outPos, stream, SpotNow());
      } else {
        QuietWindow(stream, nchan, SpotNow());
        WriteSilence(nchan, outData, outPos);
      }
      outPos := outPos + nchan;
    }

    /** Moves on by one step; the window goes back to the start of the buffer when it is far right. */
    method Advance()
      requires Sound() && pstep <= 4.0 && nread == 0 && outCount > 0
      modifies this`outCount, this`phase, this`nread, this`index, this`spots, this`made, buff
      ensures Sound() && outCount == old(outCount) - 1 && SpotNow() == Next(old(SpotNow()))
      ensures spots == old(spots) + [old(SpotNow())] && made == old(made) + [OutFrame(stream, nchan, old(SpotNow()))]
    {
      hide Holds, Quiet, AllWide, OutFrame;
      assert InReach(stream, SpotNow());
      made := made + [OutFrame(stream, nchan, SpotNow())];
      spots := spots + [SpotNow()];
      outCount := outCount - 1;
      phase := phase + pstep;
      var nr := 0;
      if phase >= 1.0 {
        nr := phase.Floor;
        phase := phase - nr as real;
      }
      Slide(nr);
    }

    method Slide(nr: nat)
      requires index < INMAX && nr <= 4 && buff.Length0 == nchan && buff.Length1 == 3 + INMAX
      requires AllWide(stream, nchan) && Holds(buff, index, index + 4, stream)
      modifies this`nread, this`index, buff
      ensures nread == nr && index < INMAX && Holds(buff, index, index + 4 - nread, stream)
    {
      nread := nr;
      index := index + nr;
      if index >= INMAX {
        assert 4 - nr <= index;  // the two stretches of the memcpy are apart
        Relocate(buff, index, 4 - nr, stream);
        index := 0;
      }
    }

    /** The second branch of the loop: one output. */
    method Emit()
      requires Sound() && pstep <= 4.0 && Supplied() && nread == 0 && outCount > 0
      modifies this`outPos, this`outCount, this`phase, this`nread, this`index, this`spots, this`made, buff, outData
      ensures Sound() && Supplied() && outCount == old(outCount) - 1 && AfterRun() == old(AfterRun())
      ensures spots == old(spots) + [old(SpotNow())] && SpotNow() == Next(old(SpotNow()))
      ensures |made| == |old(made)| + 1 && old(made) <= made
      ensures outData != null ==> Put([made[|old(made)|]], old(outData[..]), old(outPos), outData[..], outPos)
    {
      hide Holds, Quiet, AllWide, OutFrame, Faithful, Spot.Bounded;
      Peel(outCount, nchan);
      if outData != null {
        WriteFrame();
      }
      Advance();
      FlatOne(made[|old(made)|]);
    }

    /** Progress of a call that began with x0 fed, `total` fed or pending, spots0 visited, made0 made, at `start`. */
    ghost predicate Progress(x0: seq<Frame>, total: seq<Frame>, spots0: seq<Spot>, made0: seq<Frame>, start: Spot,
                             before: seq<real>, pos: nat)
      requires Supplied()
      reads this, outData
    {
      && x0 <= stream && stream + Pending() == total
      && |spots0| <= |spots| && spots == spots0 + Path(start, |spots| - |spots0|)
      && SpotNow() == Iter(start, |spots| - |spots0|)
      && |made0| + |spots| - |spots0| == |made| && made0 <= made
      && (outData != null ==> Put(made[|made0|..], before, pos, outData[..], outPos))
    }

    method EmitOn(ghost x0: seq<Frame>, ghost total: seq<Frame>, ghost spots0: seq<Spot>, ghost made0: seq<Frame>,
                  ghost start: Spot,
                  ghost before: seq<real>, ghost pos: nat)
      requires Sound() && pstep <= 4.0 && Supplied() && nread == 0 && outCount > 0
      requires Progress(x0, total, spots0, made0, start, before, pos)
      modifies this`outPos, this`outCount, this`phase, this`nread, this`index, this`spots, this`made, buff, outData
      ensures Sound() && Supplied() && outCount == old(outCount) - 1 && AfterRun() == old(AfterRun())
      ensures Progress(x0, total, spots0, made0, start, before, pos) && |made| + outCount == old(|made| + outCount)
    {
      hide Sound, Supplied, Frames, Put, Next;
      ghost var mid: seq<real> := if outData == null then [] else outData[..];
      ghost var done, p, n := made, outPos, |spots| - |spots0|;
      Emit();
      assert Path(start, n + 1) == Path(start, n) + [Iter(start, n)];
      if outData != null {
        PutMore(done[|made0|..], made[|done|], before, pos, mid, p, outData[..], outPos);
        assert made[|made0|..] == done[|made0|..] + [made[|done|]];
      }
    }

    /** One turn of the loop of `Process`; `short` says that input is wanted and there is none. */
    method Turn(ghost x0: seq<Frame>, ghost total: seq<Frame>, ghost spots0: seq<Spot>, ghost made0: seq<Frame>,
                ghost start: Spot,
                ghost before: seq<real>, ghost pos: nat) returns (short: bool)
      requires Sound() && pstep <= 4.0 && Supplied() && outCount > 0
        && Progress(x0, total, spots0, made0, start, before, pos)
      modifies this`stream, this`inpData, this`inpCount, this`nzero, this`outPos, this`outCount, this`phase, this`nread,
               this`index, this`spots, this`made, buff, outData
      ensures Sound() && Supplied() && AfterRun() == old(AfterRun())
      ensures Progress(x0, total, spots0, made0, start, before, pos) && |made| + outCount == old(|made| + outCount)
      ensures short || outCount == 0 ==> AfterRun() == StateNow()
      ensures inpCount + outCount == old(inpCount + outCount) - if short then 0 else 1
    {
      hide Sound, Supplied, Frames, Put, Path, Iter, Next;
      short := false;
      if nread > 0 {
        if inpCount == 0 {
          short := true;
        } else {
          FeedFrame();
        }
      } else {
        EmitOn(x0, total, spots0, made0, start, before, pos);
      }
    }

    method Loop(ghost x0: seq<Frame>, ghost total: seq<Frame>, ghost spots0: seq<Spot>, ghost made0: seq<Frame>,
                ghost start: Spot,
                ghost before: seq<real>, ghost pos: nat)
      requires Sound() && pstep <= 4.0 && Supplied() && outCount > 0
        && Progress(x0, total, spots0, made0, start, before, pos)
      modifies this`stream, this`inpData, this`inpCount, this`nzero, this`outPos, this`outCount, this`phase, this`nread,
               this`index, this`spots, this`made, buff, outData
      ensures Sound() && Supplied() && StateNow() == old(AfterRun())
      ensures Progress(x0, total, spots0, made0, start, before, pos) && |made| + outCount == old(|made| + outCount)
    {
      hide *;
      var short := false;
      while outCount > 0 && !short
        invariant Sound() && Supplied() && AfterRun() == old(AfterRun())
        invariant Progress(x0, total, spots0, made0, start, before, pos) && |made| + outCount == old(|made| + outCount)
        invariant short || outCount == 0 ==> AfterRun() == StateNow()
        decreases inpCount + outCount, !short
      {
        short := Turn(x0, total, spots0, made0, start, before, pos);
      }
    }

    method Process()
      requires Valid() && nchan > 0 && pstep <= 4.0 && Supplied()
      modifies this`stream, this`inpData, this`inpCount, this`nzero, this`outPos, this`outCount, this`phase, this`nread,
               this`index, this`spots, this`made, buff, outData
      ensures Valid() && Supplied() && StateNow() == old(AfterRun())
      ensures old(stream) <= stream && stream + Pending() == old(stream + Pending())
      ensures outCount <= old(outCount) && spots == old(spots) + Path(old(SpotNow()), old(outCount) - outCount)
      ensures SpotNow() == Iter(old(SpotNow()), old(outCount) - outCount)
      ensures |made| == |old(made)| + old(outCount) - outCount && old(made) <= made
      ensures outData != null ==> Put(made[|old(made)|..], old(outData[..]), old(outPos), outData[..], outPos)
      ensures old(OnGrid()) ==> OnGrid()
    {
      hide Sound, Enough, Frames, Next, Iter;
      ghost var before: seq<real> := if outData == null then [] else outData[..];
      ghost var spots0, start, wanted := spots, SpotNow(), outCount;
      assert made[|made|..] == [];
      assert Path(SpotNow(), 0) == [];
      IterZero(SpotNow());
      if outCount > 0 {
        Loop(stream, stream + Pending(), spots, made, SpotNow(), before, outPos);
      }
      GridGoesOn(Spot(0, 0.0, pstep), spots0, start, wanted - outCount);
    }
  }

  lemma {:induction false} IterSplit(p: Spot, a: nat, b: nat)
    ensures Iter(Iter(p, a), b) == Iter(p, a + b)
  {
    if b != 0 {
      IterSplit(p, a, b - 1);
    }
  }

  lemma PathSplit(p: Spot, a: nat, b: nat)
    ensures Path(p, a + b) == Path(p, a) + Path(Iter(p, a), b)
  {
    forall k | 0 <= k < b
      ensures Iter(p, a + k) == Iter(Iter(p, a), k)
    {
      IterSplit(p, a, k);
    }
  }

  /** n more outputs continue a grid. */
  lemma GridGoesOn(origin: Spot, spots: seq<Spot>, p: Spot, n: nat)
    ensures spots == Path(origin, |spots|) && p == Iter(origin, |spots|) ==>
      spots + Path(p, n) == Path(origin, |spots| + n) && Iter(p, n) == Iter(origin, |spots| + n)
  {
    hide Path;
    IterSplit(origin, |spots|, n);
    PathSplit(origin, |spots|, n);
  }

  lemma IterZero(p: Spot)
    ensures Iter(p, 0) == p
  {
  }

  method WriteBlend(buff: array2<real>, p: nat, a: real, out: array<real>, pos: nat, ghost x: seq<Frame>,
                    ghost spot: Spot)
    requires pos + buff.Length0 <= out.Length && spot.m == |x| - 4 && spot.phase == a
    requires AllWide(x, buff.Length0) && Holds(buff, p, p + 4, x)
    modifies out
    ensures spot.m >= 0 && out[..pos + buff.Length0] == old(out[..pos]) + OutFrame(x, buff.Length0, spot)
    ensures out[pos + buff.Length0..] == old(out[pos + buff.Length0..])
  {
    hide M0, M1, M2, M3;
    var m0, m1, m2, m3 := M0(a), M1(a), M2(a), M3(a);
    var c := 0;
    while c < buff.Length0
      invariant c <= buff.Length0
      invariant forall k :: 0 <= k < out.Length && !(pos <= k < pos + c) ==> out[k] == old(out[k])
      invariant forall k :: pos <= k < pos + c ==>
        out[k] == Blend4(a, x[|x| - 4][k - pos], x[|x| - 3][k - pos], x[|x| - 2][k - pos], x[|x| - 1][k - pos])
    {
      out[pos + c] := m0 * buff[c, p] + m1 * buff[c, p + 1] + m2 * buff[c, p + 2] + m3 * buff[c, p + 3];
      c := c + 1;
    }
  }
}
