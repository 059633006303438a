/**
 The fixed-ratio polyphase resampler, in exact arithmetic. Output k since `Reset` is a
 filter laid over the fed stream at frame k*dp/np, the filter being chosen by the phase
 k*dp mod np; nothing of the buffer handling shows in this specification.
 */
module FixedResampler {
  import opened Options
  import opened SlidingWindow
  import opened Schedule
  import opened Division
  import opened Gcd

  // ---- where the outputs lie ------------------------------------------------------

  /** First frame of the window of output k. */
  function First(k: nat, np: nat, dp: nat): nat {
    if np == 0 then 0 else k * dp / np
  }

  function PhaseOf(k: nat, np: nat, dp: nat): nat {
    if np == 0 then 0 else k * dp % np
  }

  ghost function NeedFor(hl: nat, np: nat, dp: nat): nat -> int {
    (k: nat) => First(k, np, dp) + 2 * hl
  }

  /** One output moves on by less than the length of the filter. */
  ghost predicate SmallStep(hl: nat, np: nat, dp: nat) {
    np > 0 && hl >= 8 && dp <= hl * np
  }

  lemma NextPlace(k: nat, hl: nat, np: nat, dp: nat)
    requires SmallStep(hl, np, dp)
    ensures var ph := PhaseOf(k, np, dp) + dp;
      && ph / np <= 2 * hl && (ph < np ==> ph / np == 0)
      && First(k + 1, np, dp) == First(k, np, dp) + ph / np
      && PhaseOf(k + 1, np, dp) == ph - (ph / np) * np
      && 0 <= ph - (ph / np) * np < np
  {
    assert (k + 1) * dp == k * dp + dp;
    DivAdd(k * dp, dp, np);
    CarryBound(k * dp % np, dp, np, hl);
  }

  // ---- what the outputs are -------------------------------------------------------

  /** np + 1 rows of hl coefficients. */
  ghost predicate IsBank(rows: seq<seq<real>>, hl: nat, np: nat) {
    |rows| == np + 1 && forall n :: 0 <= n <= np ==> |rows[n]| == hl
  }

  ghost predicate InReach(x: seq<Frame>, hl: nat, np: nat, dp: nat, k: nat) {
    np > 0 && First(k, np, dp) + 2 * hl <= |x|
  }

  ghost function OutFrame(x: seq<Frame>, rows: seq<seq<real>>, hl: nat, np: nat, dp: nat, nchan: nat,
                          k: nat): (f: Frame)
    requires IsBank(rows, hl, np) && AllWide(x, nchan) && InReach(x, hl, np, dp, k)
    ensures |f| == nchan
  {
    var ph := PhaseOf(k, np, dp);
    Filtered(x, First(k, np, dp), hl, rows[ph], rows[np - ph], nchan)
  }

  /** The frames made so far are outputs 0, 1, 2, ... of the stream x. */
  ghost predicate Faithful(x: seq<Frame>, rows: seq<seq<real>>, hl: nat, np: nat, dp: nat, nchan: nat, made: seq<Frame>)
    requires IsBank(rows, hl, np) && AllWide(x, nchan)
  {
    forall k :: 0 <= k < |made| ==> InReach(x, hl, np, dp, k) && made[k] == OutFrame(x, rows, hl, np, dp, nchan, k)
  }

  lemma FaithfulLocal(x: seq<Frame>, y: seq<Frame>, rows: seq<seq<real>>, hl: nat, np: nat, dp: nat, nchan: nat,
                      made: seq<Frame>)
    requires IsBank(rows, hl, np) && AllWide(x, nchan) && AllWide(y, nchan) && x <= y
    requires Faithful(x, rows, hl, np, dp, nchan, made)
    ensures Faithful(y, rows, hl, np, dp, nchan, made)
  {
    hide First, PhaseOf;
    assert y == x + y[|x|..];
    forall k | 0 <= k < |made|
      ensures InReach(y, hl, np, dp, k) && made[k] == OutFrame(y, rows, hl, np, dp, nchan, k)
    {
      assert InReach(x, hl, np, dp, k);
      PhaseBelow(k, np, dp);
      var ph := PhaseOf(k, np, dp);
      FilteredLocal(x, y[|x|..], First(k, np, dp), hl, rows[ph], rows[np - ph], nchan);
    }
  }

  lemma PhaseBelow(k: nat, np: nat, dp: nat)
    ensures np > 0 ==> PhaseOf(k, np, dp) < np
  {
  }

  lemma FaithfulMore(x: seq<Frame>, rows: seq<seq<real>>, hl: nat, np: nat, dp: nat, nchan: nat, made: seq<Frame>)
    requires IsBank(rows, hl, np) && AllWide(x, nchan) && InReach(x, hl, np, dp, |made|)
    requires Faithful(x, rows, hl, np, dp, nchan, made)
    ensures Faithful(x, rows, hl, np, dp, nchan, made + [OutFrame(x, rows, hl, np, dp, nchan, |made|)])
  {
    hide OutFrame, InReach;
  }

  class Resampler {
    // set by the caller before a call; an input pointer moves by dropping samples
    var inpCount: nat
    var outCount: nat
    var inpData: Option<seq<real>>
    var outData: array?<real>
    var outPos: nat

    var ready: bool
    var hl: nat
    var np: nat
    var rows: seq<seq<real>>
    var nchan: nat
    var inmax: nat
    var index: nat
    var nread: nat
    var nzero: nat
    var phase: nat
    var pstep: nat
    var buff: array2<real>

    ghost var stream: seq<Frame>  // frames fed since Reset
    ghost var made: seq<Frame>    // frames made since Reset, whether or not they were written out

    ghost predicate Sized()
      reads this
    {
      && nchan > 0 && inmax > 0 && np > 0 && SmallStep(hl, np, pstep) && IsBank(rows, hl, np)
      && buff.Length0 == nchan && buff.Length1 == 2 * hl + inmax
    }

    ghost predicate Shape()
      reads this
    {
      && Sized() && index < inmax && nread <= 2 * hl && nzero <= 2 * hl && AllWide(stream, nchan)
      && |stream| + nread == First(|made|, np, pstep) + 2 * hl && phase == PhaseOf(|made|, np, pstep)
    }

    ghost predicate Window()
      requires Shape()
      reads this, buff
    {
      Holds(buff, index, index + 2 * hl - nread, stream) && Quiet(stream, nzero, nchan)
    }

    ghost predicate Sound()
      reads this, buff
    {
      Shape() && Window() && Faithful(stream, rows, hl, np, pstep, nchan, made)
    }

    ghost predicate Valid()
      reads this, buff
    {
      ready ==> Sound()
    }

    /** What the caller must supply: enough samples to read and room to write. */
    ghost predicate Supplied()
      reads this
    {
      CallSupplied(nchan, inpData, inpCount, outData, outPos, outCount)
    }

    ghost function StateNow(): State<nat>
      reads this
    {
      State(|stream|, |made|, inpCount, outCount)
    }

    ghost function Pending(): seq<Frame>
      requires Supplied()
      reads this
    {
      Frames(inpData, nchan, inpCount)
    }

    ghost function AfterRun(): State<nat>
      reads this
    {
      Run(NeedFor(hl, np, pstep), Succ, StateNow())
    }

    constructor ()
      ensures Valid() && !ready && fresh(buff)
    {
      ready, hl, np, rows, nchan, inmax, index, nread, nzero, phase, pstep := false, 0, 0, [], 0, 0, 0, 0, 0, 0, 0;
      inpCount, outCount, inpData, outData, outPos := 0, 0, None, null, 0;
      buff := new real[0, 0];
      stream, made := [], [];
    }

    method Reset() returns (err: int)
      requires ready ==> Sized()
      modifies this`inpCount, this`outCount, this`inpData, this`outData, this`outPos, this`index, this`nread,
               this`nzero, this`phase, this`stream, this`made
      ensures Valid() && err == (if ready then 0 else 1)
      ensures ready ==> inpData == None && outData == null && stream == made == [] && inpCount == outCount == 0
    {
      hide SmallStep, IsBank;
      err := 1;
      if ready {
        DropBlocks();
        ResetWindow();
        err := 0;
      }
    }

    method DropBlocks()
      modifies this`inpCount, this`outCount, this`inpData, this`outData, this`outPos
      ensures inpCount == outCount == 0 && inpData == None && outData == null
    {
      inpCount, outCount, inpData, outData, outPos := 0, 0, None, null, 0;
    }

    method ResetWindow()
      requires Sized()
      modifies this`index, this`nread, this`nzero, this`phase, this`stream, this`made
      ensures Sound() && stream == made == []
    {
      hide SmallStep, IsBank;
      index, nread, nzero, phase, stream, made := 0, 2 * hl, 0, 0, [], [];
      assert First(0, np, pstep) == 0 && PhaseOf(0, np, pstep) == 0;
    }

    method Clear()
      modifies this
      ensures Valid() && !ready && fresh(buff) && nchan == inmax == pstep == 0
    {
      buff := new real[0, 0];
      ready, nchan, inmax, pstep := false, 0, 0, 0;
      var _ := Reset();
    }

    /** `coef` stands for the contents of the shared coefficient table. */
    method Setup(fsInp: nat, fsOut: nat, channels: nat, hlen: nat, coef: (nat, nat, nat, nat) -> real)
      returns (err: int)
      requires fsInp > 0 || fsOut > 0
      modifies this
      ensures Valid() && fresh(buff) && (ready <==> err == 0)
      ensures err == 0 || err == 1
      ensures err == 0 ==>
        && channels > 0 && 8 <= hlen <= 96 && fsInp <= 64 * fsOut && np <= 1000
        && nchan == channels && stream == made == [] && rows == Bank(coef, hl, np)
        && hl == ScaledUp(hlen, fsInp, fsOut) && inmax == ScaledUp(32, fsInp, fsOut)
        && IsGcd(1, np, pstep) && np * fsInp == pstep * fsOut
      ensures err == 1 ==> channels == 0 || hlen < 8 || hlen > 96 || fsInp > 64 * fsOut
                           || forall g: nat :: IsGcd(g, fsOut, fsInp) && g > 0 ==> fsOut / g > 1000
    {
      hide Bank, ScaledUp, IsGcd;
      Clear();
      err := 1;
      if channels != 0 && 8 <= hlen <= 96 && fsInp <= 64 * fsOut {
        var g := ComputeGcd(fsOut, fsInp);
        Reduced(g, fsInp, fsOut);
        var n, d := fsOut / g, fsInp / g;
        if n <= 1000 {
          Start(fsInp, fsOut, channels, hlen, n, d, coef);
          err := 0;
        } else {
          OneGcd(g, fsOut, fsInp);
        }
      }
    }

    method Start(fsInp: nat, fsOut: nat, channels: nat, hlen: nat, n: nat, d: nat, coef: (nat, nat, nat, nat) -> real)
      requires channels > 0 && hlen >= 8 && fsOut > 0 && n > 0 && n * fsInp == d * fsOut
      modifies this
      ensures Valid() && ready && fresh(buff) && nchan == channels && stream == made == [] && np == n && pstep == d
      ensures hl == ScaledUp(hlen, fsInp, fsOut) && inmax == ScaledUp(32, fsInp, fsOut) && rows == Bank(coef, hl, np)
    {
      hide Bank, ScaledUp;
      ScaledUpBounds(hlen, fsInp, fsOut);
      ScaledUpBounds(32, fsInp, fsOut);
      StepIsSmall(ScaledUp(hlen, fsInp, fsOut), n, d, fsInp, fsOut);
      Configure(channels, ScaledUp(hlen, fsInp, fsOut), ScaledUp(32, fsInp, fsOut), n, d, coef);
      var _ := Reset();
    }

    method Configure(channels: nat, len: nat, mi: nat, n: nat, d: nat, coef: (nat, nat, nat, nat) -> real)
      requires channels > 0 && mi > 0 && n > 0 && SmallStep(len, n, d)
      modifies this`ready, this`nchan, this`hl, this`inmax, this`np, this`pstep, this`rows, this`buff
      ensures ready && Sized() && fresh(buff)
      ensures nchan == channels && hl == len && inmax == mi && np == n && pstep == d && rows == Bank(coef, len, n)
    {
      hide SmallStep, IsBank;
      buff := new real[channels, 2 * len + mi];
      ready, nchan, hl, inmax, np, pstep, rows := true, channels, len, mi, n, d, Bank(coef, len, n);
    }

    /** Stores one input frame, or one frame of silence, at the end of the window. */
    method FeedFrame()
      requires Sound() && Supplied() && nread > 0 && inpCount > 0
      modifies this`stream, this`inpData, this`inpCount, this`nread, this`nzero, buff
      ensures Sound() && Supplied()
      ensures inpCount == old(inpCount) - 1 && nread == old(nread) - 1
      ensures |stream| == |old(stream)| + 1 && old(stream) <= stream
      ensures stream + Pending() == old(stream + Pending())
    {
      hide Frames, IsBank, SmallStep, Enough, Holds, Quiet, AllWide, Faithful, First, PhaseOf;
      var f, present, rest := TakeFrame(inpData, inpCount, nchan);
      inpData, inpCount := rest, inpCount - 1;
      QuietGrows(stream, nzero, nchan, f);
      if present {
        nzero := 0;
      } else if nzero < 2 * hl {
        nzero := nzero + 1;
      }
      Store(f);
    }

    /** Stores a frame at the end of the window. */
    method Store(f: Frame)
      requires Shape() && Holds(buff, index, index + 2 * hl - nread, stream) && Quiet(stream + [f], nzero, nchan)
      requires Faithful(stream, rows, hl, np, pstep, nchan, made) && nread > 0 && |f| == nchan
      modifies this`stream, this`nread, buff
      ensures Sound() && stream == old(stream) + [f] && nread == old(nread) - 1
    {
      hide IsBank, SmallStep, Holds, Quiet, Faithful, First, PhaseOf;
      StoreFrame(buff, index + 2 * hl - nread, f, index, stream);
      FaithfulLocal(stream, stream + [f], rows, hl, np, pstep, nchan, made);
      stream := stream + [f];
      nread := nread - 1;
    }

    /** Stores frames until the next output can be made or the input runs out. */
    method Feed()
      requires Sound() && Supplied() && outCount > 0
      modifies this`stream, this`inpData, this`inpCount, this`nread, this`nzero, buff
      ensures Sound() && Supplied() && AfterRun() == old(AfterRun())
      ensures nread > 0 ==> AfterRun() == StateNow()
      ensures old(stream) <= stream && stream + Pending() == old(stream + Pending())
    {
      hide Frames, Window, Sized, Supplied, Faithful, First, PhaseOf, AllWide;
      while nread > 0 && inpCount > 0
        invariant Sound() && Supplied() && AfterRun() == old(AfterRun())
        invariant old(stream) <= stream && stream + Pending() == old(stream + Pending())
      {
        FeedFrame();
      }
    }

    /** Writes the frame at the current position, or silence when the window is known to be silent. */
    method WriteFrame()
      requires Shape() && Window() && nread == 0 && outData != null && outPos + nchan <= outData.Length
      modifies this`outPos, outData
      ensures Shape() && Window() && outPos == old(outPos) + nchan && InReach(stream, hl, np, pstep, |made|)
      ensures outData[..outPos] == old(outData[..outPos]) + OutFrame(stream, rows, hl, np, pstep, nchan, |made|)
      ensures outData[outPos..] == old(outData[outPos + nchan..])
    {
      hide Filtered, First, PhaseOf, Holds, Quiet, AllWide, SmallStep;
      PhaseBelow(|made|, np, pstep);
      if nzero < 2 * hl {
        WriteFiltered(buff, index, index + 2 * hl, hl, rows[phase], rows[np - phase], outData, outPos, stream);
      } else {
        FilteredQuiet(stream, |stream| - 2 * hl, hl, rows[phase], rows[np - phase], nchan);
        WriteSilence(nchan, outData, outPos);
      }
      outPos := outPos + nchan;
    }

    /** Moves on to the next output, sliding the window and moving it back when it is far right. */
    method Advance()
      requires Sound() && nread == 0 && outCount > 0
      modifies this`outCount, this`phase, this`nread, this`index, this`made, buff
      ensures Sound() && outCount == old(outCount) - 1
      ensures |made| == |old(made)| + 1 && old(made) <= made
    {
      hide IsBank, SmallStep, Holds, Quiet, AllWide, First, PhaseOf, OutFrame, Faithful;
      FaithfulMore(stream, rows, hl, np, pstep, nchan, made);
      NextPlace(|made|, hl, np, pstep);
      ghost var f := OutFrame(stream, rows, hl, np, pstep, nchan, |made|);
      phase := phase + pstep;
      var nr := 0;
      if phase >= np {
        nr := phase / np;
        phase := phase - nr * np;
      }
      made := made + [f];
      outCount := outCount - 1;
      Slide(nr);
    }

    method Slide(nr: nat)
      requires index < inmax && nr <= 2 * hl && buff.Length0 == nchan && buff.Length1 == 2 * hl + inmax
      requires AllWide(stream, nchan) && Holds(buff, index, index + 2 * hl, stream)
      modifies this`nread, this`index, buff
      ensures nread == nr && index < inmax && Holds(buff, index, index + 2 * hl - nread, stream)
    {
      nread := nr;
      index := index + nr;
      if index >= inmax {
        Relocate(buff, index, 2 * hl - nr, stream);
        index := 0;
      }
    }

    /** Makes one output, if the caller wants to have it, and moves on. */
    method Emit()
      requires Sound() && Supplied() && nread == 0 && outCount > 0
      modifies this`outPos, this`outCount, this`phase, this`nread, this`index, this`made, buff, outData
      ensures Sound() && Supplied() && outCount == old(outCount) - 1
      ensures |made| == |old(made)| + 1 && old(made) <= made && AfterRun() == old(AfterRun())
      ensures outData != null ==>
        Put(made[|old(made)|..], old(outData[..]), old(outPos), outData[..], outPos)
    {
      hide IsBank, SmallStep, Holds, Quiet, AllWide, First, PhaseOf, OutFrame;
      Peel(outCount, nchan);
      if outData != null {
        WriteFrame();
      }
      Advance();
      assert made[|old(made)|..] == [made[|old(made)|]];
      FlatOne(made[|old(made)|]);
    }

    /** Progress of a call that began with x0 fed, `total` fed or pending and `made0` made. */
    ghost predicate Progress(x0: seq<Frame>, total: seq<Frame>, made0: seq<Frame>, before: seq<real>, pos: nat)
      requires Supplied()
      reads this, outData
    {
      && x0 <= stream && stream + Pending() == total && made0 <= made
      && (outData != null ==> Put(made[|made0|..], before, pos, outData[..], outPos))
    }

    /** `Emit`, in the middle of a call. */
    method EmitOn(ghost x0: seq<Frame>, ghost total: seq<Frame>, ghost made0: seq<Frame>, ghost before: seq<real>,
                  ghost pos: nat)
      requires Sound() && Supplied() && nread == 0 && outCount > 0 && Progress(x0, total, made0, before, pos)
      modifies this`outPos, this`outCount, this`phase, this`nread, this`index, this`made, buff, outData
      ensures Sound() && Supplied() && outCount == old(outCount) - 1 && AfterRun() == old(AfterRun())
      ensures Progress(x0, total, made0, before, pos)
    {
      hide Sound, Supplied, Frames, Put;
      ghost var mid: seq<real> := if outData == null then [] else outData[..];
      ghost var done, p := made, outPos;
      Emit();
      if outData != null {
        PutMore(done[|made0|..], made[|done|], before, pos, mid, p, outData[..], outPos) by {
          assert made[|done|..] == [made[|done|]];
        }
        assert made[|made0|..] == done[|made0|..] + [made[|done|]];
      }
    }

    /** One round of the loop of `Process`; `short` says that the next output lacks input. */
    method Round(ghost x0: seq<Frame>, ghost total: seq<Frame>, ghost made0: seq<Frame>, ghost before: seq<real>,
                 ghost pos: nat)
      returns (short: bool)
      requires Sound() && Supplied() && outCount > 0 && Progress(x0, total, made0, before, pos)
      modifies this`stream, this`inpData, this`inpCount, this`nread, this`nzero, this`outPos, this`outCount,
               this`phase, this`index, this`made, buff, outData
      ensures Sound() && Supplied() && Progress(x0, total, made0, before, pos) && AfterRun() == old(AfterRun())
      ensures outCount == old(outCount) - if short then 0 else 1
      ensures short || outCount == 0 ==> AfterRun() == StateNow()
    {
      hide Sound, Supplied, Put, Frames, NeedFor;
      Feed();
      short := nread > 0;
      if !short {
        EmitOn(x0, total, made0, before, pos);
      }
    }

    /** The loop of `Process`. */
    method Stream(ghost x0: seq<Frame>, ghost total: seq<Frame>, ghost made0: seq<Frame>, ghost before: seq<real>,
                  ghost pos: nat)
      requires Sound() && Supplied() && outCount > 0 && Progress(x0, total, made0, before, pos)
      modifies this`stream, this`inpData, this`inpCount, this`nread, this`nzero, this`outPos, this`outCount,
               this`phase, this`index, this`made, buff, outData
      ensures Sound() && Supplied() && Progress(x0, total, made0, before, pos) && StateNow() == old(AfterRun())
    {
      hide *;
      var short := false;
      while outCount > 0 && !short
        invariant Sound() && Supplied() && Progress(x0, total, made0, before, pos) && AfterRun() == old(AfterRun())
        invariant short || outCount == 0 ==> AfterRun() == StateNow()
        decreases outCount, !short
      {
        short := Round(x0, total, made0, before, pos);
      }
    }

    method Process() returns (err: int)
      requires Valid() && Supplied()
      modifies this`stream, this`inpData, this`inpCount, this`nread, this`nzero, this`outPos, this`outCount,
               this`phase, this`index, this`made, buff, outData
      ensures Valid() && Supplied() && err == if ready then 0 else 1
      ensures err == 1 ==> unchanged(this) && (outData != null ==> unchanged(outData))
      ensures err == 0 ==> StateNow() == old(AfterRun())
      ensures err == 0 ==> old(stream) <= stream && stream + Pending() == old(stream + Pending())
      ensures err == 0 ==> old(made) <= made
      ensures err == 0 && outData != null ==>
        Put(made[|old(made)|..], old(outData[..]), old(outPos), outData[..], outPos)
    {
      hide Shape, Window, Enough, Frames, NeedFor;
      err := 1;
      if ready {
        err := 0;
        ghost var before: seq<real> := if outData == null then [] else outData[..];
        assert made[|made|..] == [];
        if outCount > 0 {
          Stream(stream, stream + Pending(), made, before, outPos);
        }
      }
    }
  }

  // ---- setup arithmetic -----------------------------------------------------------

  function Bank(coef: (nat, nat, nat, nat) -> real, hl: nat, np: nat): (rows: seq<seq<real>>)
    ensures IsBank(rows, hl, np)
    ensures forall n, i :: 0 <= n <= np && 0 <= i < hl ==> rows[n][i] == coef(hl, np, n, i)
  {
    seq(np + 1, n requires 0 <= n => seq(hl, i requires 0 <= i => coef(hl, np, n, i)))
  }

  /** A length of h output frames in input frames when downsampling, rounded up. */
  function ScaledUp(h: nat, fsInp: nat, fsOut: nat): nat
    requires fsOut > 0
  {
    if fsOut < fsInp then (h * fsInp + fsOut - 1) / fsOut else h
  }

  /** ... and no longer than that. */
  lemma ScaledUpLeast(h: nat, fsInp: nat, fsOut: nat)
    requires h > 0 && fsOut > 0
    ensures if fsOut < fsInp then (ScaledUp(h, fsInp, fsOut) - 1) * fsOut < h * fsInp
      else ScaledUp(h, fsInp, fsOut) == h
  {
    if fsOut < fsInp {
      var x, s := h * fsInp + fsOut - 1, ScaledUp(h, fsInp, fsOut);
      assert x == s * fsOut + x % fsOut;
      assert (s - 1) * fsOut == s * fsOut - fsOut;
    }
  }

  /** The scaled length is long enough ... */
  lemma ScaledUpBounds(h: nat, fsInp: nat, fsOut: nat)
    requires h > 0 && fsOut > 0
    ensures ScaledUp(h, fsInp, fsOut) >= h && ScaledUp(h, fsInp, fsOut) * fsOut >= h * fsInp
  {
    var s := ScaledUp(h, fsInp, fsOut);
    if fsOut < fsInp {
      var x := h * fsInp + fsOut - 1;
      assert x == s * fsOut + x % fsOut;
      assert h * fsInp >= h * fsOut;
      assert s < h ==> (h - s) * fsOut >= fsOut;
      assert (h - s) * fsOut == h * fsOut - s * fsOut;
    } else {
      assert h * fsOut >= h * fsInp;
    }
  }

  lemma Reduced(g: nat, fsInp: nat, fsOut: nat)
    requires IsGcd(g, fsOut, fsInp) && fsOut > 0
    ensures g > 0 && IsGcd(1, fsOut / g, fsInp / g) && fsOut / g > 0
    ensures (fsOut / g) * g == fsOut && (fsInp / g) * g == fsInp
    ensures (fsOut / g) * fsInp == (fsInp / g) * fsOut
  {
    LowestTerms(g, fsOut, fsInp);
    var n, d := fsOut / g, fsInp / g;
    assert n * (d * g) == d * (n * g);
  }

  lemma OneGcd(g: nat, a: nat, b: nat)
    requires IsGcd(g, a, b) && g > 0
    ensures forall h: nat :: IsGcd(h, a, b) && h > 0 ==> h == g
  {
    forall h: nat | IsGcd(h, a, b) && h > 0
      ensures h == g
    {
      assert Divides(h, g) && Divides(g, h);
      var p, q :| g == Mul(p, h) && h == Mul(q, g);
      assert (p * q) * h == p * (q * h) && p * (q * g) == (p * q) * g;
      Cancel(p * q, g);
      UnitFactors(p, q, h);
    }
  }

  lemma UnitFactors(p: int, q: int, h: nat)
    requires p * q == 1 && p * h > 0 && h > 0
    ensures p == 1
  {
    assert p > 0 by {
      assert p <= 0 ==> p * h <= 0;
    }
    UnitFactor(q, p);
  }

  lemma StepIsSmall(len: nat, n: nat, d: nat, fsInp: nat, fsOut: nat)
    requires len >= 8 && n > 0 && fsOut > 0 && len * fsOut >= 8 * fsInp && n * fsInp == d * fsOut
    ensures SmallStep(len, n, d)
  {
    ScaledRates(len, n, fsInp, fsOut);
    LessFactor(d, len * n, fsOut);
  }

  lemma ScaledRates(len: nat, n: nat, fsInp: nat, fsOut: nat)
    requires len * fsOut >= 8 * fsInp
    ensures (len * n) * fsOut >= n * fsInp
  {
    assert n * (len * fsOut - fsInp) >= 0;
    assert n * (len * fsOut - fsInp) == n * (len * fsOut) - n * fsInp;
    assert n * (len * fsOut) == (len * n) * fsOut;
  }
}
