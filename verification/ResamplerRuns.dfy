/** The periodic pattern in which a fixed-ratio conversion in lowest terms visits the filter phases. */
module FixedResamplerRuns {
  import opened Division
  import opened Gcd
  import opened SlidingWindow
  import opened FixedResampler

  /** Remainders agree exactly when the divisor divides the difference. */
  lemma SameRemainder(x: int, y: int, n: nat)
    requires n > 0
    ensures x % n == y % n <==> Divides(n, x - y)
  {
    assert x == (x / n) * n + x % n && y == (y / n) * n + y % n;
    var k := x / n - y / n;
    assert k * n == (x / n) * n - (y / n) * n;
    if x % n == y % n {
      assert x - y == Mul(k, n);
    }
    if Divides(n, x - y) {
      var q :| x - y == Mul(q, n);
      assert (k - q) * n + (x % n - y % n) == 0 by {
        assert (k - q) * n == k * n - q * n;
      }
      SmallMultiple(k - q, n, x % n - y % n);
    }
  }

  /** Any np consecutive outputs move the window on by exactly dp frames and come back to the same phase. */
  lemma FullTurn(k: nat, np: nat, dp: nat)
    requires np > 0
    ensures First(k + np, np, dp) == First(k, np, dp) + dp && PhaseOf(k + np, np, dp) == PhaseOf(k, np, dp)
  {
    assert (k + np) * dp == k * dp + np * dp;
    assert k * dp == (k * dp / np) * np + k * dp % np;
    assert (k * dp / np + dp) * np == (k * dp / np) * np + np * dp;
    DivMod((k + np) * dp, np, k * dp / np + dp, k * dp % np);
  }

  /** ... and meet no phase twice ... */
  lemma NoPhaseTwice(j: nat, k: nat, np: nat, dp: nat)
    requires np > 0 && IsGcd(1, np, dp) && j < k < j + np
    ensures PhaseOf(j, np, dp) != PhaseOf(k, np, dp)
  {
    if PhaseOf(j, np, dp) == PhaseOf(k, np, dp) {
      SameRemainder(k * dp, j * dp, np);
      assert k * dp - j * dp == (k - j) * dp;
      CoprimeDivides(np, dp, k - j);
      var q :| k - j == Mul(q, np);
      SmallMultiple(q, np, j - k);
      assert false;
    }
  }

  /** ... and leave none out. */
  lemma EveryPhaseOnce(k: nat, p: nat, np: nat, dp: nat) returns (i: nat)
    requires p < np && IsGcd(1, np, dp)
    ensures i < np && PhaseOf(k + i, np, dp) == p
  {
    var x, y := UnitCombination(np, dp);
    i := (y * p - k) % np;
    PhaseReached(k, p, np, dp, x, y, (y * p - k) / np, i);
  }

  /** What meets what: a stream that is 1.0 in frame p of channel j, and silent elsewhere in this channel, makes output
      k the coefficient that filter k*dp mod np has for this frame: forwards over the first half of the window, which
      starts at frame k*dp/np, backwards in the mirrored filter over the second half, nothing outside. */
  lemma ImpulseResponse(r: Resampler, k: nat, j: nat, p: nat)
    requires r.ready && r.Valid() && k < |r.made| && j < r.nchan && OnlyAt(r.stream, j, p)
    ensures |r.made[k]| == r.nchan && r.np > 0 && IsBank(r.rows, r.hl, r.np)
    ensures var m, phase := k * r.pstep / r.np, k * r.pstep % r.np;
      r.made[k][j] ==
        if m <= p < m + r.hl then r.rows[phase][p - m]
        else if m + r.hl <= p < m + 2 * r.hl then r.rows[r.np - phase][m + 2 * r.hl - 1 - p]
        else 0.0
  {
    OutputImpulse(r.stream, r.rows, r.hl, r.np, r.pstep, r.nchan, k, j, p);
  }

  lemma OutputImpulse(x: seq<Frame>, rows: seq<seq<real>>, hl: nat, np: nat, dp: nat, nchan: nat, k: nat, j: nat,
                      p: nat)
    requires IsBank(rows, hl, np) && AllWide(x, nchan) && InReach(x, hl, np, dp, k) && j < nchan && OnlyAt(x, j, p)
    ensures var m, phase := k * dp / np, k * dp % np;
      OutFrame(x, rows, hl, np, dp, nchan, k)[j] ==
        if m <= p < m + hl then rows[phase][p - m]
        else if m + hl <= p < m + 2 * hl then rows[np - phase][m + 2 * hl - 1 - p]
        else 0.0
  {
    hide Filtered;
    PhaseBelow(k, np, dp);
    var phase := PhaseOf(k, np, dp);
    FilteredImpulse(x, First(k, np, dp), hl, rows[phase], rows[np - phase], nchan, j, p);
  }

  /** Three runs of the same settings: if the input of the third is a times the first plus b times the second in a
      channel, so are its outputs. */
  lemma OutputsSuperpose(z: seq<Frame>, x: seq<Frame>, y: seq<Frame>, rows: seq<seq<real>>, hl: nat, np: nat, dp: nat,
                         nchan: nat, c: seq<Frame>, a: seq<Frame>, b: seq<Frame>, k: nat, j: nat, u: real, v: real)
    requires IsBank(rows, hl, np) && AllWide(x, nchan) && AllWide(y, nchan) && AllWide(z, nchan)
    requires Faithful(z, rows, hl, np, dp, nchan, c) && Faithful(x, rows, hl, np, dp, nchan, a)
    requires Faithful(y, rows, hl, np, dp, nchan, b) && Superposed(z, x, y, j, u, v)
    requires k < |a| && k < |b| && k < |c| && j < nchan
    ensures |a[k]| == |b[k]| == |c[k]| == nchan && c[k][j] == u * a[k][j] + v * b[k][j]
  {
    hide Filtered, Superposed;
    PhaseBelow(k, np, dp);
    assert InReach(x, hl, np, dp, k) && InReach(y, hl, np, dp, k) && InReach(z, hl, np, dp, k);
    var phase := PhaseOf(k, np, dp);
    FilteredSuperposed(z, x, y, First(k, np, dp), hl, rows[phase], rows[np - phase], nchan, j, u, v);
  }

  /** Two runs over the same input, cut into calls in any way, make the same outputs; one that has been fed
      and asked for less is a prefix of the other. */
  lemma OutputsAreDetermined(x: seq<Frame>, y: seq<Frame>, rows: seq<seq<real>>, hl: nat, np: nat, dp: nat, nchan: nat,
                             a: seq<Frame>, b: seq<Frame>)
    requires IsBank(rows, hl, np) && AllWide(x, nchan) && AllWide(y, nchan) && x <= y && |a| <= |b|
    requires Faithful(x, rows, hl, np, dp, nchan, a) && Faithful(y, rows, hl, np, dp, nchan, b)
    ensures a <= b
  {
    hide OutFrame, InReach;
    FaithfulLocal(x, y, rows, hl, np, dp, nchan, a);
  }

  lemma UnitCombination(a: nat, b: nat) returns (x: int, y: int)
    requires IsGcd(1, a, b)
    ensures x * a + y * b == 1
  {
    x, y := Bezout(a, b);
    var u :| 1 == Mul(u, x * a + y * b);
    UnitFactor(u, x * a + y * b);
  }

  lemma PhaseReached(k: nat, p: nat, np: nat, dp: nat, x: int, y: int, w: int, i: nat)
    requires p < np && x * np + y * dp == 1 && k + i == y * p - w * np
    ensures PhaseOf(k + i, np, dp) == p
  {
    PhaseAlgebra(x, y, np, dp, p, w);
    assert (k + i) * dp - p == Mul(-(x * p) - w * dp, np);
    SameRemainder((k + i) * dp, p, np);
    SameRemainderSmall(p, np);
  }

  lemma SameRemainderSmall(p: nat, n: nat)
    requires p < n
    ensures p % n == p
  {
  }

  lemma PhaseAlgebra(x: int, y: int, n: int, d: int, p: int, w: int)
    requires x * n + y * d == 1
    ensures (y * p - w * n) * d - p == (-(x * p) - w * d) * n
  {
    Regroup(y, p, d);
    Regroup(w, n, d);
    Regroup(x, p, n);
    assert (y * p - w * n) * d == (y * p) * d - (w * n) * d;
    assert (-(x * p) - w * d) * n == -((x * p) * n) - (w * d) * n;
    assert (x * n) * p + (y * d) * p == (x * n + y * d) * p == p;
  }

  lemma Regroup(a: int, b: int, c: int)
    ensures (a * b) * c == (a * c) * b
  {
  }
}
