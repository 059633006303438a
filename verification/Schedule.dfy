/**
 The order in which a streaming resampler consumes input and makes output, with
 samples and buffers left out. `fed` frames have been stored so far, `at` says where
 the next output lies, `need(at)` frames must have been stored before it can be
 computed, and `inp` / `out` are the two counters the caller sets before a call.
 */
module Schedule {

  datatype State<M> = State(fed: nat, at: M, inp: nat, out: nat)

  /** The next output, when outputs are numbered. */
  function Succ(k: nat): nat {
    k + 1
  }

  /** One call: store frames only while the next output lacks some, make outputs
      while any are wanted, and stop when the wanted outputs are made or input is short. */
  ghost function Run<M(!new)>(need: M -> int, next: M -> M, s: State<M>): (r: State<M>)
    ensures r.fed + r.inp == s.fed + s.inp && r.fed >= s.fed && r.out <= s.out
    ensures r.out == 0 || (r.inp == 0 && r.fed < need(r.at))
    decreases s.inp + s.out
  {
    if s.out == 0 then s
    else if s.fed < need(s.at) then
      if s.inp == 0 then s else Run(need, next, s.(fed := s.fed + 1, inp := s.inp - 1))
    else Run(need, next, s.(at := next(s.at), out := s.out - 1))
  }

  /** What the caller adds to the two counters before one call. */
  datatype Grant = Grant(inp: nat, out: nat)

  ghost function Granted<M>(s: State<M>, g: Grant): State<M> {
    s.(inp := s.inp + g.inp, out := s.out + g.out)
  }

  /** A series of calls, unread input and unmade output being carried to the next call. */
  ghost function Calls<M(!new)>(need: M -> int, next: M -> M, s: State<M>, grants: seq<Grant>): State<M>
    decreases |grants|
  {
    if grants == [] then s
    else Calls(need, next, Run(need, next, Granted(s, grants[0])), grants[1..])
  }

  function Total(grants: seq<Grant>): Grant {
    if grants == [] then Grant(0, 0)
    else var t := Total(grants[1..]); Grant(grants[0].inp + t.inp, grants[0].out + t.out)
  }

  lemma Unfold<M(!new)>(need: M -> int, next: M -> M, s: State<M>)
    ensures s.out == 0 ==> Run(need, next, s) == s
    ensures s.out > 0 && s.fed < need(s.at) && s.inp == 0 ==> Run(need, next, s) == s
    ensures s.out > 0 && s.fed < need(s.at) && s.inp > 0 ==>
      Run(need, next, s) == Run(need, next, s.(fed := s.fed + 1, inp := s.inp - 1))
    ensures s.out > 0 && s.fed >= need(s.at) ==>
      Run(need, next, s) == Run(need, next, s.(at := next(s.at), out := s.out - 1))
  {
  }

  /** A call followed by a second one equals a single call with both grants. */
  lemma {:induction false} Merge<M(!new)>(need: M -> int, next: M -> M, s: State<M>, g: Grant)
    ensures Run(need, next, Granted(Run(need, next, s), g)) == Run(need, next, Granted(s, g))
    decreases s.inp + s.out
  {
    hide Run;
    Unfold(need, next, s);
    Unfold(need, next, Granted(s, g));
    if s.out > 0 {
      if s.fed >= need(s.at) {
        Merge(need, next, s.(at := next(s.at), out := s.out - 1), g);
      } else if s.inp > 0 {
        Merge(need, next, s.(fed := s.fed + 1, inp := s.inp - 1), g);
      }
    }
  }

  /** However the same totals are cut into calls, consumption and final state are those of one call. */
  lemma {:induction false} ChunkingIsInvisible<M(!new)>(need: M -> int, next: M -> M, s: State<M>, grants: seq<Grant>)
    requires grants != []
    ensures Calls(need, next, s, grants) == Run(need, next, Granted(s, Total(grants)))
    decreases |grants|
  {
    hide Run;
    var s1 := Run(need, next, Granted(s, grants[0]));
    if |grants| == 1 {
      assert grants[1..] == [];
    } else {
      ChunkingIsInvisible(need, next, s1, grants[1..]);
      Merge(need, next, Granted(s, grants[0]), Total(grants[1..]));
    }
  }
}
