/**
 The packet handler gives the resampler one packet of input at a time and room for
 inbuflen * samplerate / samplerate_resampler + 1 frames of output. When is the packet
 used up? Here p is the sample rate of the host, q that of the stream, and the
 correction factor stays 1.
 */
module ReceiveBudget {
  import opened Schedule
  import opened VariableResampler
  import Division
  import Runs = VariableResamplerRuns

  /** Frames needed before output k can be made. */
  function NeedAt(p: nat, q: nat, hl: nat, k: nat): nat
    requires p > 0
  {
    k * q / p + 2 * hl
  }

  ghost function NeedOf(p: nat, q: nat, hl: nat): nat -> int
    requires p > 0
  {
    (k: nat) => NeedAt(p, q, hl, k)
  }

  /** Outputs that M stream frames allow behind the prefill: M * p / q, rounded up. */
  function Made(p: nat, q: nat, M: nat): nat
    requires q > 0
  {
    (M * p + q - 1) / q
  }

  /** Room for output that the handler gives for a packet of N frames. */
  function OutBufLen(p: nat, q: nat, N: nat): nat
    requires q > 0
  {
    N * p / q + 1
  }

  ghost function CallOn(p: nat, q: nat, hl: nat, s: State<nat>): State<nat>
    requires p > 0
  {
    Run<nat>(NeedOf(p, q, hl), Succ, s)
  }

  // ---- rounding -------------------------------------------------------------------

  /** k lies below x/q rounded up exactly when k*q < x. */
  lemma BelowCeiling(x: nat, q: nat, k: nat)
    requires q > 0
    ensures k < (x + q - 1) / q <==> k * q < x
  {
    var y := x + q - 1;
    var c := y / q;
    assert y == c * q + y % q;
    assert (c - k) * q == c * q - k * q;
    assert c - k <= 0 ==> (c - k) * q <= 0;
    assert c - k >= 1 ==> (c - k - 1) * q >= 0;
    assert (c - k - 1) * q == (c - k) * q - q;
  }

  /** x/d stays below M exactly when x < M*d. */
  lemma BelowQuotient(x: nat, d: nat, M: nat)
    requires d > 0
    ensures x / d < M <==> x < M * d
  {
    var c := x / d;
    assert x == c * d + x % d;
    assert (M - c) * d == M * d - c * d;
    assert M - c <= 0 ==> (M - c) * d <= 0;
    assert M - c >= 1 ==> (M - c - 1) * d >= 0;
    assert (M - c - 1) * d == (M - c) * d - d;
  }

  /** With M stream frames behind a prefill of 2*hl - 1, exactly the outputs below Made(M) can be made. */
  lemma Possible(p: nat, q: nat, hl: nat, M: nat, k: nat)
    requires p > 0 && q > 0 && hl > 0
    ensures NeedAt(p, q, hl, k) <= 2 * hl - 1 + M <==> k < Made(p, q, M)
  {
    BelowQuotient(k * q, p, M);
    BelowCeiling(M * p, q, k);
  }

  lemma MadeGrows(p: nat, q: nat, a: nat, b: nat)
    requires q > 0
    ensures Made(p, q, a) <= Made(p, q, a + b) <= Made(p, q, a) + Made(p, q, b)
    ensures Made(p, q, 0) == 0
  {
    hide Made;
    MadeBounds(p, q, a);
    MadeBounds(p, q, b);
    MadeBounds(p, q, a + b);
    MadeBounds(p, q, 0);
    var A, B, C := Made(p, q, a), Made(p, q, b), Made(p, q, a + b);
    assert (a + b) * p == a * p + b * p;
    assert (A + B) * q == A * q + B * q;
    Division.LessFactor(C, A + B, q);
    Division.LessFactor(A, C, q);
    Division.LessFactor(Made(p, q, 0), 0, q);
  }

  lemma MadeBounds(p: nat, q: nat, M: nat)
    requires q > 0
    ensures M * p <= Made(p, q, M) * q < M * p + q
  {
    var y := M * p + q - 1;
    assert y == (y / q) * q + y % q;
  }

  /** The room is never too small by more than nothing: what a packet adds fits. */
  lemma OutputsFit(p: nat, q: nat, M: nat, N: nat)
    requires q > 0
    ensures Made(p, q, M + N) - Made(p, q, M) <= OutBufLen(p, q, N)
  {
    hide Made;
    MadeGrows(p, q, M, N);
    MadeBounds(p, q, N);
    var f := N * p / q;
    assert N * p == f * q + N * p % q;
    assert (f + 1) * q == f * q + q;
    Division.LessFactor(Made(p, q, N), f + 1, q);
  }

  // ---- one packet -----------------------------------------------------------------

  /** Where a call ends, for a need that grows with the output index. */
  lemma {:induction false} CallEnd(p: nat, q: nat, hl: nat, s: State<nat>)
    requires p > 0
    ensures var r := CallOn(p, q, hl, s);
      && s.at <= r.at && r.at + r.out == s.at + s.out && r.fed + r.inp == s.fed + s.inp
      && (r.out == 0 || (r.inp == 0 && r.fed < NeedAt(p, q, hl, r.at)))
      && (r.at > s.at ==> NeedAt(p, q, hl, r.at - 1) <= r.fed)
      && (r.out == 0 && s.out > 0 ==> r.fed == s.fed || r.fed == NeedAt(p, q, hl, r.at - 1))
      && (r.out == 0 && s.out > 0 ==> r.fed >= s.fed && r.fed >= NeedAt(p, q, hl, r.at - 1))
    decreases s.inp + s.out
  {
    hide NeedAt;
    if s.out != 0 {
      if s.fed < NeedAt(p, q, hl, s.at) {
        if s.inp != 0 {
          var s1 := s.(fed := s.fed + 1, inp := s.inp - 1);
          CallEnd(p, q, hl, s1);
          assert CallOn(p, q, hl, s) == CallOn(p, q, hl, s1);
          NeedGrows(p, q, hl, s.at, s.at + s.out - 1);
        }
      } else {
        var s1 := s.(at := s.at + 1, out := s.out - 1);
        CallEnd(p, q, hl, s1);
        assert CallOn(p, q, hl, s) == CallOn(p, q, hl, s1);
      }
    }
  }

  lemma NeedGrows(p: nat, q: nat, hl: nat, j: nat, k: nat)
    requires p > 0
    ensures j <= k ==> NeedAt(p, q, hl, j) <= NeedAt(p, q, hl, k)
  {
    if j <= k {
      assert (k - j) * q >= 0;
      assert (k - j) * q == k * q - j * q;
      BelowQuotient(k * q, p, j * q / p);
      assert (j * q / p) * p <= j * q;
    }
  }

  /** The resampler behind M used-up stream frames, given a packet of N frames. */
  function Handed(p: nat, q: nat, hl: nat, M: nat, N: nat): State<nat>
    requires q > 0 && hl > 0
  {
    State(2 * hl - 1 + M, Made(p, q, M), N, OutBufLen(p, q, N))
  }

  /** A packet is used up unless the room is exhausted by an output that the last frame is not needed for. */
  lemma PacketUsedUp(p: nat, q: nat, hl: nat, M: nat, N: nat)
    requires p > 0 && q > 0 && hl > 0 && N > 0
    ensures var r := CallOn(p, q, hl, Handed(p, q, hl, M, N));
      && r.at == Made(p, q, M + N) && r.out == OutBufLen(p, q, N) - (Made(p, q, M + N) - Made(p, q, M))
      && (r.inp != 0 <==>
          && Made(p, q, M + N) - Made(p, q, M) == OutBufLen(p, q, N)
          && Made(p, q, M + N - 1) == Made(p, q, M + N))
  {
    hide NeedAt, Made, CallOn;
    var s := Handed(p, q, hl, M, N);
    var r := CallOn(p, q, hl, s);
    CallEnd(p, q, hl, s);
    OutputsFit(p, q, M, N);
    MadeGrows(p, q, M, N);
    if r.at > s.at {
      Possible(p, q, hl, M + N, r.at - 1);
    }
    Possible(p, q, hl, M + N, r.at);
    if r.out == 0 {
      Possible(p, q, hl, M + N - 1, r.at - 1);
      MadeGrows(p, q, M + N - 1, 1);
    }
  }

  /** The condition a receptor could check: a packet less its last frame takes no more room than is given. */
  predicate Roomy(p: nat, q: nat, N: nat)
    requires q > 0
  {
    (N - 1) * p <= (N * p / q) * q
  }

  /** Packets of N frames are used up at every point of a run if and only if they are roomy. */
  lemma AlwaysUsedUp(p: nat, q: nat, hl: nat, N: nat)
    requires p > 0 && q > 0 && hl > 0 && N > 0
    ensures (forall M: nat :: CallOn(p, q, hl, Handed(p, q, hl, M, N)).inp == 0) <==> Roomy(p, q, N)
  {
    hide Made, CallOn;
    if Roomy(p, q, N) {
      forall M: nat
        ensures CallOn(p, q, hl, Handed(p, q, hl, M, N)).inp == 0
      {
        RoomyUsedUp(p, q, hl, M, N);
      }
    } else {
      PacketUsedUp(p, q, hl, 0, N);
      TightFirstPacket(p, q, N);
      assert CallOn(p, q, hl, Handed(p, q, hl, 0, N)).inp != 0;
    }
  }

  lemma RoomyUsedUp(p: nat, q: nat, hl: nat, M: nat, N: nat)
    requires p > 0 && q > 0 && hl > 0 && N > 0 && Roomy(p, q, N)
    ensures CallOn(p, q, hl, Handed(p, q, hl, M, N)).inp == 0
  {
    hide Made, CallOn;
    PacketUsedUp(p, q, hl, M, N);
    MadeGrows(p, q, M, N - 1);
    MadeBounds(p, q, N - 1);
    Division.LessFactor(Made(p, q, N - 1), N * p / q, q);
  }

  lemma TightFirstPacket(p: nat, q: nat, N: nat)
    requires p > 0 && q > 0 && N > 0 && !Roomy(p, q, N)
    ensures Made(p, q, N) - Made(p, q, 0) == OutBufLen(p, q, N) && Made(p, q, N - 1) == Made(p, q, N)
  {
    hide Made;
    MadeGrows(p, q, N - 1, 1);
    MadeBounds(p, q, N - 1);
    OutputsFit(p, q, 0, N);
    MadeGrows(p, q, 0, 0);
    var f := N * p / q;
    assert (f + 1) * q == f * q + q;
    Division.LessFactor(f + 1, Made(p, q, N - 1), q);
  }

  /** A host rate not below the stream rate makes every packet roomy. */
  lemma UpsamplingIsRoomy(p: nat, q: nat, N: nat)
    requires p >= q > 0 && N > 0
    ensures Roomy(p, q, N)
  {
    assert N * p == (N * p / q) * q + N * p % q;
    assert (N - 1) * p == N * p - p;
  }

  // ---- runs of packets ------------------------------------------------------------

  function Sum(packets: seq<nat>): nat {
    if packets == [] then 0 else packets[0] + Sum(packets[1..])
  }

  /** The packet handler over a series of packets; an unread rest of a packet is overwritten by the next. */
  ghost function AfterPackets(p: nat, q: nat, hl: nat, fed: nat, at: nat, packets: seq<nat>): (nat, nat)
    requires p > 0 && q > 0
    decreases |packets|
  {
    if packets == [] then (fed, at)
    else
      var r := CallOn(p, q, hl, State(fed, at, packets[0], OutBufLen(p, q, packets[0])));
      AfterPackets(p, q, hl, r.fed, r.at, packets[1..])
  }

  /** Over any run of roomy packets nothing is lost, and the outputs are the stream length times p/q, rounded up. */
  lemma {:induction false} NothingIsLost(p: nat, q: nat, hl: nat, M: nat, packets: seq<nat>)
    requires p > 0 && q > 0 && hl > 0
    requires forall k :: 0 <= k < |packets| ==> packets[k] > 0 && Roomy(p, q, packets[k])
    ensures AfterPackets(p, q, hl, 2 * hl - 1 + M, Made(p, q, M), packets)
         == (2 * hl - 1 + M + Sum(packets), Made(p, q, M + Sum(packets)))
    decreases |packets|
  {
    if packets != [] {
      hide Made, CallOn, Roomy;
      var N := packets[0];
      RoomyUsedUp(p, q, hl, M, N);
      PacketUsedUp(p, q, hl, M, N);
      assert forall k :: 0 <= k < |packets[1..]| ==> packets[1..][k] == packets[k + 1];
      NothingIsLost(p, q, hl, M + N, packets[1..]);
      assert M + N + Sum(packets[1..]) == M + Sum(packets);
    }
  }

  // ---- the same for the resampler itself ------------------------------------------

  lemma RealQuotient(x: nat, d: nat)
    requires d > 0
    ensures (x as real / d as real).Floor == x / d
  {
    var c, r := x / d, x % d;
    assert x == c * d + r;
    assert x as real == c as real * d as real + r as real;
    assert x as real / d as real == c as real + r as real / d as real;
    assert 0.0 <= r as real / d as real < 1.0 by {
      assert r as real / d as real * d as real == r as real;
    }
  }

  /** The motion after `Setup` with the ratio p/q and no correction. */
  ghost function Start(p: nat, q: nat, hl: nat): Motion
    requires p > 0 && q > 0
  {
    var step := StepFor(p as real / q as real, 1.0);
    Motion(0, 0.0, step, step, 1.0, hl)
  }

  lemma QuotientIs(t: real, d: real, x: real)
    requires d > 0.0 && t * d == x
    ensures t == x / d
  {
    var u := x / d;
    assert (t - u) * d == 0.0;
  }

  lemma StartStep(p: nat, q: nat, k: nat)
    requires p > 0 && q > 0
    ensures Division.Times(k, StepFor(p as real / q as real, 1.0)) / NPHASE as real == (k * q) as real / p as real
  {
    var ratio := p as real / q as real;
    var step := StepFor(ratio, 1.0);
    assert ratio * q as real == p as real;
    assert ratio > 0.0;
    assert step * ratio == 120.0;
    var t := k as real * step / 120.0;
    assert t * ratio == k as real;
    assert t * p as real == (t * ratio) * q as real == k as real * q as real == (k * q) as real;
    QuotientIs(t, p as real, (k * q) as real);
  }

  lemma StartBounded(p: nat, q: nat, hl: nat)
    requires p > 0 && q > 0 && hl >= 8 && Tuned(p as real / q as real, hl)
    ensures Start(p, q, hl).Bounded()
  {
    StepWithinWindow(p as real / q as real, 1.0, hl);
  }

  /** The real-valued motion visits the frames k*q/p of the integer model. */
  lemma StartPlaces(p: nat, q: nat, hl: nat, k: nat)
    requires p > 0 && q > 0 && hl >= 8 && Tuned(p as real / q as real, hl)
    ensures Iter(Start(p, q, hl), k).hl == hl && Need(Iter(Start(p, q, hl), k)) == NeedAt(p, q, hl, k)
  {
    hide StepFor, Tuned, Iter, Motion.Bounded, Division.Times;
    StartBounded(p, q, hl);
    Runs.SettledPositions(Start(p, q, hl), k);
    Runs.IterSettings(Start(p, q, hl), k);
    StartStep(p, q, k);
    RealQuotient(k * q, p);
  }

  /** A call of the resampler takes in, and makes, what the integer model says. */
  lemma {:induction false} ResamplerFollows(p: nat, q: nat, hl: nat, fed: nat, k: nat, inp: nat, out: nat)
    requires p > 0 && q > 0 && hl >= 8 && Tuned(p as real / q as real, hl)
    ensures var r := CallOn(p, q, hl, State(fed, k, inp, out));
      Run(Need, Next, State(fed, Iter(Start(p, q, hl), k), inp, out))
        == State(r.fed, Iter(Start(p, q, hl), r.at), r.inp, r.out)
    decreases inp + out
  {
    hide StepFor, Tuned, NeedAt, Next, Start;
    if out != 0 {
      StartPlaces(p, q, hl, k);
      if fed < NeedAt(p, q, hl, k) {
        if inp != 0 {
          ResamplerFollows(p, q, hl, fed + 1, k, inp - 1, out);
        }
      } else {
        assert Iter(Start(p, q, hl), k + 1) == Next(Iter(Start(p, q, hl), k));
        ResamplerFollows(p, q, hl, fed, k + 1, inp, out - 1);
      }
    }
  }

  lemma PrefillCounts(p: nat, q: nat, hl: nat, out: nat)
    requires p > 0 && q > 0 && hl > 0 && out > 0
    ensures CallOn(p, q, hl, State(0, 0, 2 * hl - 1, out)) == State(2 * hl - 1, 0, 0, out)
  {
    assert NeedAt(p, q, hl, 0) == 2 * hl;
    hide NeedAt, CallOn;
    CallEnd(p, q, hl, State(0, 0, 2 * hl - 1, out));
    var r := CallOn(p, q, hl, State(0, 0, 2 * hl - 1, out));
    if r.at > 0 {
      NeedGrows(p, q, hl, 0, r.at - 1);
    }
  }

  /** The receptor's prefill with 2*hl - 1 frames of silence is stored completely and makes no output. */
  lemma Prefill(p: nat, q: nat, hl: nat, out: nat)
    requires p > 0 && q > 0 && hl >= 8 && Tuned(p as real / q as real, hl) && out > 0
    ensures Run(Need, Next, State(0, Start(p, q, hl), 2 * hl - 1, out)) == State(2 * hl - 1, Start(p, q, hl), 0, out)
  {
    hide Start, CallOn, Tuned, Next, Need, Run;
    PrefillCounts(p, q, hl, out);
    ResamplerFollows(p, q, hl, 0, 0, 2 * hl - 1, out);
    assert Iter(Start(p, q, hl), 0) == Start(p, q, hl);
  }

  /** Room left over when a packet has been used up. */
  function Spare(p: nat, q: nat, M: nat, N: nat): nat
    requires q > 0
  {
    var made := Made(p, q, M + N) - Made(p, q, M);
    if made <= OutBufLen(p, q, N) then OutBufLen(p, q, N) - made else 0
  }

  /** With the host no slower than the stream, a packet handed to the resampler in the middle of a run
      is read to its last frame and makes the next ceil((M+N)*p/q) - ceil(M*p/q) outputs. */
  lemma ResamplerUsesUpPacket(p: nat, q: nat, hl: nat, M: nat, N: nat)
    requires p >= q > 0 && N > 0 && hl >= 8 && Tuned(p as real / q as real, hl)
    ensures Run(Need, Next, State(2 * hl - 1 + M, Iter(Start(p, q, hl), Made(p, q, M)), N, OutBufLen(p, q, N)))
         == State(2 * hl - 1 + M + N, Iter(Start(p, q, hl), Made(p, q, M + N)), 0,
                  Spare(p, q, M, N))
    ensures Spare(p, q, M, N) + Made(p, q, M + N) == OutBufLen(p, q, N) + Made(p, q, M)
  {
    hide Made, Start, OutBufLen, CallOn, Roomy, Tuned;
    UpsamplingIsRoomy(p, q, N);
    RoomyUsedUp(p, q, hl, M, N);
    PacketUsedUp(p, q, hl, M, N);
    OutputsFit(p, q, M, N);
    CallEnd(p, q, hl, Handed(p, q, hl, M, N));
    ResamplerFollows(p, q, hl, 2 * hl - 1 + M, Made(p, q, M), N, OutBufLen(p, q, N));
  }
}
