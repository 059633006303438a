/**
 Redundant transmission: every packet is sent several times under one number, the network
 may lose any of the copies but keeps their order, and the receiver takes a packet only
 when its number is not the one it saw last.
 */
module Transmission {
  import Division

  type Bytes = seq<int>

  datatype Datagram = Datagram(num: nat, data: Bytes)

  const NUMBERS: nat := 0x1_0000_0000

  /** The 32-bit number of packet i when the first packet has number `first`. */
  function Number(first: nat, i: nat): nat {
    (first + i) % NUMBERS
  }

  // ---- the sender -----------------------------------------------------------------

  /** Packet indices in the order of transmission; packet i is sent copies[i] times. */
  function Sequence(copies: seq<nat>): seq<nat> {
    if copies == [] then []
    else
      var n := |copies| - 1;
      Sequence(copies[..n]) + seq(copies[n], _ => n)
  }

  function Datagrams(first: nat, payloads: seq<Bytes>, order: seq<nat>): (ds: seq<Datagram>)
    requires forall k :: 0 <= k < |order| ==> order[k] < |payloads|
    ensures |ds| == |order|
  {
    seq(|order|, k requires 0 <= k < |order| => Datagram(Number(first, order[k]), payloads[order[k]]))
  }

  lemma NumberStep(first: nat, i: nat)
    ensures (Number(first, i) + 1) % NUMBERS == Number(first, i + 1)
    ensures first < NUMBERS ==> Number(first, 0) == first
  {
  }

  /** The 8-bit counter of the copies after n rounds. */
  function CopyCounter(n: nat): nat {
    n % 256
  }

  /** The loop over the copies ends exactly for a redundancy below 255; the counter never passes 255. */
  lemma CopiesEnd(redundancy: nat)
    requires redundancy < 256
    ensures (exists n: nat :: CopyCounter(n) > redundancy) <==> redundancy < 255
  {
    assert CopyCounter(255) == 255;
  }

  /** The loop over the redundant copies of one packet. */
  method SendCopies(d: Datagram, count: nat) returns (log: seq<Datagram>)
    ensures log == seq(count, _ => d)
  {
    log := [];
    var red := 0;
    while red < count
      invariant red <= count && log == seq(red, _ => d)
    {
      log := log + [d];
      red := red + 1;
    }
  }

  lemma DatagramsMore(first: nat, payloads: seq<Bytes>, order: seq<nat>, pac: nat, count: nat, next: seq<nat>)
    requires pac < |payloads| && (forall k :: 0 <= k < |order| ==> order[k] < pac)
      && next == order + seq(count, _ => pac)
    ensures forall k :: 0 <= k < |next| ==> next[k] <= pac
    ensures Datagrams(first, payloads, next)
         == Datagrams(first, payloads, order) + seq(count, _ => Datagram(Number(first, pac), payloads[pac]))
  {
    hide Number;
  }

  /** The transmit loop over packets and redundant copies; `extra[i]` further copies of packet i
      are sent because the network reported the destination unreachable. */
  method Send(first: nat, payloads: seq<Bytes>, redundancy: nat, extra: seq<nat>)
    returns (log: seq<Datagram>, nuFrame: nat, ghost copies: seq<nat>)
    requires first < NUMBERS && redundancy < 255 && |extra| == |payloads|
    ensures nuFrame == Number(first, |payloads|)
    ensures |copies| == |payloads| && forall i :: 0 <= i < |copies| ==> copies[i] == redundancy + 1 + extra[i]
    ensures (forall k :: 0 <= k < |Sequence(copies)| ==> Sequence(copies)[k] < |payloads|)
    ensures log == Datagrams(first, payloads, Sequence(copies))
  {
    NumberStep(first, 0);
    hide Number, Datagrams;
    log, nuFrame, copies := [], first, [];
    assert Datagrams(first, payloads, Sequence(copies)) == [];
    var pac := 0;
    while pac < |payloads|
      invariant pac <= |payloads| && nuFrame == Number(first, pac)
      invariant |copies| == pac && forall i :: 0 <= i < pac ==> copies[i] == redundancy + 1 + extra[i]
      invariant forall k :: 0 <= k < |Sequence(copies)| ==> Sequence(copies)[k] < pac
      invariant log == Datagrams(first, payloads, Sequence(copies))
    {
      var ds := SendCopies(Datagram(nuFrame, payloads[pac]), redundancy + 1 + extra[pac]);
      log := log + ds;
      ghost var order := Sequence(copies);
      SequenceMore(copies, redundancy + 1 + extra[pac]);
      copies := copies + [redundancy + 1 + extra[pac]];
      DatagramsMore(first, payloads, order, pac, redundancy + 1 + extra[pac], Sequence(copies));
      NumberStep(first, pac);
      nuFrame := (nuFrame + 1) % NUMBERS;
      pac := pac + 1;
    }
  }

  lemma SequenceMore(copies: seq<nat>, count: nat)
    ensures Sequence(copies + [count]) == Sequence(copies) + seq(count, _ => |copies|)
  {
    assert (copies + [count])[..|copies|] == copies;
  }

  // ---- the network ----------------------------------------------------------------

  /** What is left of xs when only the marked elements arrive. */
  function Surviving<T>(xs: seq<T>, arrives: seq<bool>): seq<T>
    requires |xs| == |arrives|
  {
    if xs == [] then []
    else
      var n := |xs| - 1;
      Surviving(xs[..n], arrives[..n]) + if arrives[n] then [xs[n]] else []
  }

  ghost predicate Nondecreasing(d: seq<nat>, bound: nat) {
    && (forall k :: 0 <= k < |d| ==> d[k] < bound)
    && forall j, k :: 0 <= j < k < |d| ==> d[j] <= d[k]
  }

  lemma {:induction false} SequenceNondecreasing(copies: seq<nat>)
    ensures Nondecreasing(Sequence(copies), |copies|)
  {
    if copies != [] {
      SequenceNondecreasing(copies[..|copies| - 1]);
    }
  }

  lemma {:induction false} SurvivorsNondecreasing(d: seq<nat>, arrives: seq<bool>, bound: nat)
    requires |d| == |arrives| && Nondecreasing(d, bound)
    ensures Nondecreasing(Surviving(d, arrives), bound)
    ensures forall k :: 0 <= k < |Surviving(d, arrives)| ==> Surviving(d, arrives)[k] in d
  {
    if d != [] {
      SurvivorsNondecreasing(d[..|d| - 1], arrives[..|d| - 1], bound);
    }
  }

  /** Losing datagrams and losing indices is the same thing. */
  lemma {:induction false} SurvivingDatagrams(first: nat, payloads: seq<Bytes>, order: seq<nat>, arrives: seq<bool>)
    requires |order| == |arrives| && Nondecreasing(order, |payloads|)
    ensures Nondecreasing(Surviving(order, arrives), |payloads|)
    ensures Surviving(Datagrams(first, payloads, order), arrives)
      == Datagrams(first, payloads, Surviving(order, arrives))
  {
    SurvivorsNondecreasing(order, arrives, |payloads|);
    if order != [] {
      var n := |order| - 1;
      SurvivingDatagrams(first, payloads, order[..n], arrives[..n]);
      SurvivorsNondecreasing(order[..n], arrives[..n], |payloads|);
      assert Datagrams(first, payloads, order)[..n] == Datagrams(first, payloads, order[..n]);
    }
  }

  // ---- the receiver ---------------------------------------------------------------

  /** Which of the arriving packets d are taken, `nu` being the number seen before. */
  function Taken(nu: nat, first: nat, d: seq<nat>): seq<nat> {
    if d == [] then []
    else
      var n := |d| - 1;
      var last := if n == 0 then nu else Number(first, d[n - 1]);
      Taken(nu, first, d[..n]) + if Number(first, d[n]) != last then [d[n]] else []
  }

  function Pick(payloads: seq<Bytes>, t: seq<nat>): (r: seq<Bytes>)
    requires forall k :: 0 <= k < |t| ==> t[k] < |payloads|
    ensures |r| == |t|
  {
    seq(|t|, k requires 0 <= k < |t| => payloads[t[k]])
  }

  /** The duplicate check of the packet handler, over all arrivals; nu is `nu_frame` before them, nuFrame after. */
  method Receive(nu: nat, first: nat, payloads: seq<Bytes>, d: seq<nat>) returns (accepted: seq<Bytes>, nuFrame: nat)
    requires Nondecreasing(d, |payloads|)
    ensures forall k :: 0 <= k < |Taken(nu, first, d)| ==> Taken(nu, first, d)[k] < |payloads|
    ensures accepted == Pick(payloads, Taken(nu, first, d))
    ensures nuFrame == if d == [] then nu else Number(first, d[|d| - 1])
  {
    hide Number, Nondecreasing;
    assert forall k :: 0 <= k < |d| ==> d[k] < |payloads| by {
      InBounds(d, |payloads|);
    }
    var arrivals := Datagrams(first, payloads, d);
    var i := 0;
    accepted, nuFrame := [], nu;
    ghost var t: seq<nat> := [];
    while i < |arrivals|
      invariant i <= |arrivals| && nuFrame == if i == 0 then nu else Number(first, d[i - 1])
      invariant t == Taken(nu, first, d[..i]) && forall k :: 0 <= k < |t| ==> t[k] < |payloads|
      invariant accepted == Pick(payloads, t)
    {
      assert d[..i + 1][..i] == d[..i];
      if arrivals[i].num != nuFrame {
        accepted := accepted + [arrivals[i].data];
        t := t + [d[i]];
        nuFrame := arrivals[i].num;
      }
      i := i + 1;
    }
    assert d[..i] == d;
  }

  lemma InBounds(d: seq<nat>, bound: nat)
    requires Nondecreasing(d, bound)
    ensures forall k :: 0 <= k < |d| ==> d[k] < bound
  {
  }

  ghost predicate Increasing(t: seq<nat>) {
    forall j, k :: 0 <= j < k < |t| ==> t[j] < t[k]
  }

  /** Whatever is lost, the packets taken are in order and none is taken twice. */
  lemma {:induction false} TakenIncreasing(nu: nat, first: nat, d: seq<nat>, bound: nat)
    requires Nondecreasing(d, bound)
    ensures Increasing(Taken(nu, first, d))
    ensures forall k :: 0 <= k < |Taken(nu, first, d)| ==> Taken(nu, first, d)[k] <= d[|d| - 1]
  {
    if d != [] {
      hide Number;
      TakenIncreasing(nu, first, d[..|d| - 1], bound);
    }
  }

  /** ... and each of them is among those arriving. */
  lemma {:induction false} TakenArrived(nu: nat, first: nat, d: seq<nat>, k: nat)
    requires k < |Taken(nu, first, d)|
    ensures Taken(nu, first, d)[k] in d
  {
    hide Number;
    var n := |d| - 1;
    if k < |Taken(nu, first, d[..n])| {
      TakenArrived(nu, first, d[..n], k);
      assert Taken(nu, first, d)[k] in d[..n];
    }
  }

  /** The arriving packets without repetitions. */
  function Distinct(d: seq<nat>): seq<nat> {
    if d == [] then []
    else
      var n := |d| - 1;
      Distinct(d[..n]) + if n == 0 || d[n] != d[n - 1] then [d[n]] else []
  }

  /** The first arrival does not carry the number nu, and neighbouring arrivals of different packets
      are not a multiple of 2^32 apart. */
  ghost predicate NoAlias(nu: nat, first: nat, d: seq<nat>) {
    if d == [] then true
    else
      var n := |d| - 1;
      if n == 0 then Number(first, d[0]) != nu
      else NoAlias(nu, first, d[..n]) && (d[n] == d[n - 1] || (d[n] - d[n - 1]) % NUMBERS != 0)
  }

  lemma SameNumber(first: nat, i: nat, j: nat)
    requires i <= j
    ensures Number(first, i) == Number(first, j) <==> (j - i) % NUMBERS == 0
  {
  }

  lemma {:induction false} TakenWithinDistinct(nu: nat, first: nat, d: seq<nat>)
    ensures |Taken(nu, first, d)| <= |Distinct(d)|
  {
    if d != [] {
      TakenWithinDistinct(nu, first, d[..|d| - 1]);
    }
  }

  /** Every packet of which a copy arrives is taken, exactly when no two neighbouring arrivals are a
      multiple of 2^32 apart and the first does not carry the number the receiver starts with. */
  lemma {:induction false} ArrivingIsTaken(nu: nat, first: nat, d: seq<nat>, bound: nat)
    requires Nondecreasing(d, bound)
    ensures Taken(nu, first, d) == Distinct(d) <==> NoAlias(nu, first, d)
  {
    if d != [] {
      hide Number;
      var n := |d| - 1;
      ArrivingIsTaken(nu, first, d[..n], bound);
      TakenWithinDistinct(nu, first, d[..n]);
      var t, u := Taken(nu, first, d[..n]), Distinct(d[..n]);
      assert (t + [d[n]])[..|t|] == t && (u + [d[n]])[..|u|] == u && t + [] == t && u + [] == u;
      if n > 0 {
        SameNumber(first, d[n - 1], d[n]);
      }
    }
  }

  function UpTo(n: nat): seq<nat> {
    seq(n, i requires 0 <= i => i)
  }

  /** All n packets arrive at least once. */
  ghost predicate Covers(d: seq<nat>, n: nat) {
    forall i :: 0 <= i < n ==> i in d
  }

  /** Taking away the only arrival of the last packet. */
  lemma WithoutLast(d: seq<nat>, n: nat)
    requires Nondecreasing(d, n) && Covers(d, n) && d != [] && n > 0 && d[|d| - 1] == n - 1
    requires |d| > 1 ==> d[|d| - 1] != d[|d| - 2]
    ensures Nondecreasing(d[..|d| - 1], n - 1) && Covers(d[..|d| - 1], n - 1)
    ensures |d| > 1 ==> n > 1 && d[|d| - 2] == n - 2
    ensures |d| == 1 ==> n == 1
  {
    var p := d[..|d| - 1];
    forall i | 0 <= i < n - 1
      ensures i in p
    {
      assert i in d;
    }
    if n > 1 {
      assert n - 2 in p;
    }
  }

  /** Consecutive numbers differ, so with nothing lost there is no alias, even across the wrap-around. */
  lemma {:induction false} CoveringHasNoAlias(nu: nat, first: nat, d: seq<nat>, n: nat)
    requires Nondecreasing(d, n) && Covers(d, n)
    ensures Distinct(d) == UpTo(n)
    ensures NoAlias(nu, first, d) <==> (n > 0 ==> Number(first, 0) != nu)
    decreases |d|
  {
    if d == [] {
      assert n > 0 ==> 0 in d;
    } else {
      hide Number;
      var last := |d| - 1;
      var p := d[..last];
      assert d[0] < n;
      assert n - 1 in d;
      assert d[last] == n - 1;
      if last > 0 && d[last] == d[last - 1] {
        forall i | 0 <= i < n
          ensures i in p
        {
          assert i in d;
          assert d[last] == p[last - 1];
        }
        CoveringHasNoAlias(nu, first, p, n);
      } else {
        WithoutLast(d, n);
        CoveringHasNoAlias(nu, first, p, n - 1);
      }
    }
  }

  /** The receiver takes exactly the packets sent, each once and in order, if and only if of every
      packet at least one copy arrives and the first number is not the one the receiver starts with. */
  lemma ExactlyTheSentPackets(nu: nat, first: nat, copies: seq<nat>, arrives: seq<bool>)
    requires |arrives| == |Sequence(copies)|
    ensures var d := Surviving(Sequence(copies), arrives);
      Taken(nu, first, d) == UpTo(|copies|)
      <==> Covers(d, |copies|) && (|copies| > 0 ==> Number(first, 0) != nu)
  {
    hide Number;
    var n, d := |copies|, Surviving(Sequence(copies), arrives);
    SequenceNondecreasing(copies);
    SurvivorsNondecreasing(Sequence(copies), arrives, n);
    TakenIncreasing(nu, first, d, n);
    ArrivingIsTaken(nu, first, d, n);
    if Taken(nu, first, d) == UpTo(n) {
      forall i | 0 <= i < n
        ensures i in d
      {
        TakenArrived(nu, first, d, i);
      }
    }
    if Covers(d, n) {
      CoveringHasNoAlias(nu, first, d, n);
    }
  }

  /** Every packet is in the order of transmission as often as it is sent. */
  lemma {:induction false} SequenceCounts(copies: seq<nat>, i: nat)
    requires i < |copies|
    ensures multiset(Sequence(copies))[i] == copies[i]
  {
    var n := |copies| - 1;
    SequenceNondecreasing(copies[..n]);
    CopiesOf(n, copies[n], i);
    if i < n {
      SequenceCounts(copies[..n], i);
    }
  }

  lemma {:induction false} CopiesOf(n: nat, count: nat, i: nat)
    ensures multiset(seq(count, _ => n))[i] == if i == n then count else 0
  {
    if count > 0 {
      CopiesOf(n, count - 1, i);
      assert seq(count, _ => n) == seq(count - 1, _ => n) + [n];
    }
  }

  /** If nothing is lost, everything arrives; if everything is lost, nothing does. */
  lemma {:induction false} AllOrNothing<T>(xs: seq<T>, arrives: seq<bool>)
    requires |xs| == |arrives|
    ensures (forall k :: 0 <= k < |xs| ==> arrives[k]) ==> Surviving(xs, arrives) == xs
    ensures (forall k :: 0 <= k < |xs| ==> !arrives[k]) ==> Surviving(xs, arrives) == []
  {
    if xs != [] {
      AllOrNothing(xs[..|xs| - 1], arrives[..|xs| - 1]);
    }
  }

  /** The bytes the receiver hands on are those that were sent, packet by packet and in order, whenever of every packet
      one copy arrives and the first number is not the one the receiver starts with. */
  lemma PayloadsComeThrough(nu: nat, first: nat, payloads: seq<Bytes>, copies: seq<nat>, arrives: seq<bool>)
    requires |arrives| == |Sequence(copies)| && |copies| == |payloads|
    requires Covers(Surviving(Sequence(copies), arrives), |copies|) && (|copies| > 0 ==> Number(first, 0) != nu)
    ensures var t := Taken(nu, first, Surviving(Sequence(copies), arrives));
      (forall k :: 0 <= k < |t| ==> t[k] < |payloads|) && Pick(payloads, t) == payloads
  {
    ExactlyTheSentPackets(nu, first, copies, arrives);
  }

  /** The k-th payload handed on is that of the k-th packet taken. */
  lemma PayloadOfTaken(payloads: seq<Bytes>, t: seq<nat>, d: seq<nat>, u: seq<nat>)
    requires t == d + u && forall k :: 0 <= k < |t| ==> t[k] < |payloads|
    ensures (forall k :: 0 <= k < |d| ==> d[k] < |payloads|) && forall k :: 0 <= k < |u| ==> u[k] < |payloads|
    ensures Pick(payloads, t) == Pick(payloads, d) + Pick(payloads, u)
    ensures |u| == 1 ==> Pick(payloads, u) == [payloads[u[0]]]
  {
    forall k | 0 <= k < |d|
      ensures d[k] < |payloads|
    {
      assert t[k] == d[k];
    }
    forall k | 0 <= k < |u|
      ensures u[k] < |payloads|
    {
      assert t[|d| + k] == u[k];
    }
  }
}
