/**
 The multistream receptor's list of clients: a packet is forwarded to the client with its
 sender and stream name or creates one, and a timer pass ages the clients and removes one
 that has been silent. A packet and a timer pass are single steps.
 */
module Multistream {
  import opened Lists

  type Name = seq<int>

  const EXPIRED: nat := 4

  datatype Key = Key(ip: nat, name: Name)

  /** What matters of a client. */
  datatype Client = Client(key: Key, timer: nat)

  // ---- the steps on the list of clients ---------------------------------------------

  function IndexOf(v: seq<Client>, key: Key): (i: nat)
    ensures i <= |v| && (i < |v| ==> v[i].key == key)
    ensures forall k :: 0 <= k < i ==> v[k].key != key
  {
    if v == [] || v[0].key == key then 0 else 1 + IndexOf(v[1..], key)
  }

  /** A packet: its client is awake, or becomes the last of the list if there is room;
      the first client of all needs no room. */
  function AfterPacket(v: seq<Client>, max: nat, key: Key): seq<Client> {
    var i := IndexOf(v, key);
    if i < |v| then v[i := Client(key, 0)]
    else if v == [] || |v| < max then v + [Client(key, 0)]
    else v
  }

  /** Index of the first expired client, or the length of the list. */
  function FirstExpired(v: seq<Client>): (i: nat)
    ensures i <= |v| && (i < |v| ==> v[i].timer == EXPIRED)
    ensures forall k :: 0 <= k < i ==> v[k].timer != EXPIRED
  {
    if v == [] || v[0].timer == EXPIRED then 0 else 1 + FirstExpired(v[1..])
  }

  function Aged(v: seq<Client>): (w: seq<Client>)
    ensures |w| == |v|
  {
    seq(|v|, i requires 0 <= i < |v| => Client(v[i].key, (v[i].timer + 1) % 256))
  }

  /** v when the first i clients have aged. */
  function AgedUpTo(v: seq<Client>, i: nat): (w: seq<Client>)
    requires i <= |v|
    ensures |w| == |v|
  {
    Aged(v[..i]) + v[i..]
  }

  lemma AgedStart(v: seq<Client>)
    ensures AgedUpTo(v, 0) == v && v[0..] == v
  {
    assert v[..0] == [];
    assert Aged([]) == [];
  }

  lemma AgedMore(v: seq<Client>, i: nat)
    requires i < |v|
    ensures AgedUpTo(v, i)[i] == v[i]
    ensures AgedUpTo(v, i)[i := Client(v[i].key, (v[i].timer + 1) % 256)] == AgedUpTo(v, i + 1)
  {
    assert Aged(v[..i + 1]) == Aged(v[..i]) + [Client(v[i].key, (v[i].timer + 1) % 256)];
  }

  lemma ExpiredFrom(v: seq<Client>, i: nat)
    requires i <= |v| && FirstExpired(v) == i + FirstExpired(v[i..])
    ensures FirstExpired(v) == i <==> i == |v| || v[i].timer == EXPIRED
    ensures i < |v| && v[i].timer != EXPIRED ==> FirstExpired(v) == i + 1 + FirstExpired(v[i + 1..])
  {
    if i < |v| {
      assert v[i..][0] == v[i] && v[i..][1..] == v[i + 1..];
    }
  }

  /** A timer pass: clients age up to the first expired one, which is removed and ends the pass. */
  function AfterTick(v: seq<Client>): seq<Client> {
    var i := FirstExpired(v);
    if i < |v| then Aged(v[..i]) + v[i + 1..] else Aged(v)
  }

  // ---- the linked list --------------------------------------------------------------

  class Node {
    var key: Key
    var timer: nat
    var next: Node?

    constructor (key: Key)
      ensures this.key == key && timer == 0 && next == null
    {
      this.key, timer, next := key, 0, null;
    }
  }

  function Head(s: seq<Node>): Node? {
    if s == [] then null else s[0]
  }

  function LinkAt(s: seq<Node>, i: nat): Node? {
    if i + 1 < |s| then s[i + 1] else null
  }

  ghost predicate Linked(s: seq<Node>)
    reads s`next
  {
    && (forall i, j :: 0 <= i < j < |s| ==> s[i] != s[j])
    && forall i :: 0 <= i < |s| ==> s[i].next == LinkAt(s, i)
  }

  ghost function View(s: seq<Node>): (v: seq<Client>)
    reads s
    ensures |v| == |s|
  {
    seq(|s|, i requires 0 <= i < |s| reads s => Client(s[i].key, s[i].timer))
  }

  class Context {
    var clients: Node?
    var active: nat
    const max: nat

    ghost var nodes: seq<Node>

    ghost predicate Valid()
      reads this, nodes
    {
      clients == Head(nodes) && Linked(nodes) && active == |nodes| < 256 && max < 256
    }

    constructor (max: nat)
      requires max < 256
      ensures Valid() && nodes == [] && this.max == max
    {
      clients, active, nodes := null, 0, [];
      this.max := max;
    }

    method Pop() returns (err: int)
      requires clients == Head(nodes) && Linked(nodes)
      modifies this`clients, this`nodes
      ensures clients == Head(nodes) && Linked(nodes) && err == if old(nodes) == [] then 1 else 0
      ensures nodes == if old(nodes) == [] then [] else old(nodes)[1..]
    {
      err := 1;
      if clients != null {
        assert nodes[0].next == LinkAt(nodes, 0);
        clients := clients.next;
        ghost var s := nodes;
        nodes := nodes[1..];
        forall i | 0 <= i < |nodes|
          ensures nodes[i].next == LinkAt(nodes, i)
        {
          assert s[i + 1].next == LinkAt(s, i + 1);
        }
        err := 0;
      }
    }

    method RemoveByIndex(n: nat) returns (err: int)
      requires clients == Head(nodes) && Linked(nodes) && (n > 0 ==> nodes != [])
      modifies this`clients, this`nodes, nodes
      ensures clients == Head(nodes) && Linked(nodes)
      ensures err == if n < |old(nodes)| then 0 else 1
      ensures nodes == if n < |old(nodes)| then Without(old(nodes), n) else old(nodes)
      ensures forall p :: p in old(nodes) ==> p.key == old(p.key) && p.timer == old(p.timer)
    {
      if n == 0 {
        err := Pop();
      } else {
        var current, i := clients, 0;
        while i < n - 1 && current.next != null
          invariant i <= n - 1 && i < |nodes| && current == nodes[i]
        {
          assert nodes[i].next == LinkAt(nodes, i);
          current := current.next;
          i := i + 1;
        }
        assert nodes[i].next == LinkAt(nodes, i);
        err := 1;
        if current.next != null {
          assert i == n - 1;
          Skip(current, n);
          err := 0;
        }
      }
    }

    /** Takes the node behind `current` out of the list. */
    method Skip(current: Node, ghost n: nat)
      requires clients == Head(nodes) && Linked(nodes) && 0 < n < |nodes| && current == nodes[n - 1]
      modifies this`nodes, current`next
      ensures nodes == Without(old(nodes), n) && clients == Head(nodes) && Linked(nodes)
    {
      ghost var s := nodes;
      assert s[n - 1].next == LinkAt(s, n - 1) && s[n].next == LinkAt(s, n);
      current.next := current.next.next;
      nodes := Without(s, n);
      forall j | 0 <= j < |nodes|
        ensures nodes[j].next == LinkAt(nodes, j)
      {
        assert nodes[j] == if j < n then s[j] else s[j + 1];
        assert old(s[if j < n then j else j + 1].next) == LinkAt(s, if j < n then j else j + 1);
      }
    }

    /** Finds the client of a packet, or null. */
    method Find(key: Key) returns (p: Node?)
      requires Valid()
      ensures var i := IndexOf(View(nodes), key);
        p == if i < |nodes| then nodes[i] else null
    {
      p := clients;
      var ind := 0;
      ghost var v := View(nodes);
      while ind < active && p.key != key
        invariant ind <= active && p == Head(nodes[ind..])
        invariant IndexOf(v, key) == ind + IndexOf(v[ind..], key)
      {
        assert nodes[ind].next == LinkAt(nodes, ind) && v[ind..][1..] == v[ind + 1..];
        p := p.next;
        ind := ind + 1;
      }
    }

    /** One received packet; `forwarded` is the client it is written to, if it is not a new one. */
    method Dispatch(key: Key) returns (forwarded: Node?)
      requires Valid()
      modifies this`clients, this`active, this`nodes, nodes
      ensures Valid() && View(nodes) == AfterPacket(old(View(nodes)), max, key)
      ensures var i := IndexOf(old(View(nodes)), key);
        forwarded == if i < |old(nodes)| then old(nodes)[i] else null
    {
      forwarded := Find(key);
      if forwarded != null {
        forwarded.timer := 0;
      } else if clients == null || active < max {
        Append(key);
      }
    }

    method Append(key: Key)
      requires Valid() && (nodes == [] || |nodes| < max)
      modifies this`clients, this`active, this`nodes, nodes
      ensures Valid() && View(nodes) == old(View(nodes)) + [Client(key, 0)]
    {
      var c := new Node(key);
      Chain(c);
      hide Linked;
      ViewMore(nodes, c);
      nodes := nodes + [c];
      active := active + 1;
    }

    /** Hangs c behind the last node. */
    method Chain(c: Node)
      requires Valid() && c !in nodes && c.next == null
      modifies this`clients, nodes`next
      ensures clients == Head(nodes + [c]) && Linked(nodes + [c])
      ensures View(nodes) == old(View(nodes)) && c.key == old(c.key) && c.timer == old(c.timer)
    {
      if clients == null {
        clients := c;
      } else {
        var last := Last();
        last.next := c;
      }
      Appended(nodes, c);
    }

    /** The list with c behind its last node. */
    twostate lemma Appended(s: seq<Node>, new c: Node)
      requires old(Linked(s)) && c !in s && c.next == null
      requires forall i :: 0 <= i < |s| - 1 ==> s[i].next == old(s[i].next)
      requires s != [] ==> s[|s| - 1].next == c
      ensures Linked(s + [c])
    {
      forall i | 0 <= i < |s + [c]|
        ensures (s + [c])[i].next == LinkAt(s + [c], i)
      {
        assert i < |s| ==> old(s[i].next) == LinkAt(s, i);
      }
    }

    method Last() returns (p: Node)
      requires Valid() && nodes != []
      ensures p == nodes[|nodes| - 1]
    {
      p := clients;
      ghost var i := 0;
      while p.next != null
        invariant i < |nodes| && p == nodes[i]
        decreases |nodes| - i
      {
        assert nodes[i].next == LinkAt(nodes, i);
        p := p.next;
        i := i + 1;
      }
      assert nodes[i].next == LinkAt(nodes, i);
    }

    /** client.timer++ for the client at `index`, and on to the next one. */
    method Bump(client: Node, ghost index: nat) returns (next: Node?)
      requires Valid() && index < |nodes| && client == nodes[index]
      modifies client`timer
      ensures Valid() && next == Head(nodes[index + 1..])
      ensures View(nodes) == old(View(nodes))[index := Client(client.key, (old(client.timer) + 1) % 256)]
    {
      client.timer := (client.timer + 1) % 256;
      assert nodes[index].next == LinkAt(nodes, index);
      next := client.next;
    }

    /** The loop of the timer pass: ages clients up to the first expired one. */
    method Age() returns (index: nat)
      requires Valid()
      modifies nodes
      ensures Valid() && index == FirstExpired(old(View(nodes)))
      ensures View(nodes) == AgedUpTo(old(View(nodes)), index)
    {
      hide Linked, AgedUpTo, FirstExpired;
      index := 0;
      var client := clients;
      ghost var v := View(nodes);
      AgedStart(v);
      while index < active && client.timer != EXPIRED
        invariant index <= active && client == Head(nodes[index..]) && Valid()
        invariant FirstExpired(v) == index + FirstExpired(v[index..])
        invariant View(nodes) == AgedUpTo(v, index)
      {
        AgedMore(v, index);
        ExpiredFrom(v, index);
        assert View(nodes)[index] == v[index];
        client := Bump(client, index);
        index := index + 1;
      }
      ExpiredFrom(v, index);
      if index < active {
        AgedMore(v, index);
      }
      assert index < active ==> View(nodes)[index] == v[index];
    }

    /** One pass of the timer thread. */
    method Tick()
      requires Valid()
      modifies this`clients, this`active, this`nodes, nodes
      ensures Valid() && View(nodes) == AfterTick(old(View(nodes)))
    {
      hide Linked;
      ghost var v := View(nodes);
      var i := Age();
      if i < active {
        Remove(i);
        assert (Aged(v[..i]) + v[i..])[i + 1..] == v[i + 1..];
      }
    }

    method Remove(i: nat)
      requires Valid() && i < |nodes|
      modifies this`clients, this`active, this`nodes, nodes
      ensures Valid() && View(nodes) == Without(old(View(nodes)), i)
    {
      hide Without, Linked;
      ghost var s, w := nodes, View(nodes);
      var err := RemoveByIndex(i);
      active := active - 1;
      assert forall k :: 0 <= k < |s| ==> s[k] in s && w[k] == Client(s[k].key, s[k].timer);
      ViewWithout(s, w, i);
    }
  }

  lemma ViewMore(s: seq<Node>, c: Node)
    ensures View(s + [c]) == View(s) + [Client(c.key, c.timer)]
  {
  }

  lemma ViewWithout(s: seq<Node>, w: seq<Client>, i: nat)
    requires i < |s| == |w| && forall k :: 0 <= k < |s| ==> w[k] == Client(s[k].key, s[k].timer)
    ensures View(Without(s, i)) == Without(w, i)
  {
    var v := View(Without(s, i));
    forall j | 0 <= j < |s| - 1
      ensures v[j] == Without(w, i)[j]
    {
      var from := if j < i then j else j + 1;
      assert Without(s, i)[j] == s[from] && Without(w, i)[j] == w[from];
    }
  }

  // ---- runs -------------------------------------------------------------------------

  datatype Event = Packet(key: Key) | TimerPass

  function After(v: seq<Client>, max: nat, e: Event): seq<Client> {
    match e
    case Packet(key) => AfterPacket(v, max, key)
    case TimerPass => AfterTick(v)
  }

  function AfterAll(v: seq<Client>, max: nat, es: seq<Event>): seq<Client>
    decreases |es|
  {
    if es == [] then v else AfterAll(After(v, max, es[0]), max, es[1..])
  }

  ghost predicate Sound(v: seq<Client>, max: nat) {
    && |v| <= (if max > 1 then max else 1)
    && (forall i, j :: 0 <= i < j < |v| ==> v[i].key != v[j].key)
    && forall i :: 0 <= i < |v| ==> v[i].timer <= EXPIRED
  }

  lemma TickBefore(v: seq<Client>, k: nat)
    requires k < FirstExpired(v)
    ensures k < |AfterTick(v)| && AfterTick(v)[k] == Client(v[k].key, (v[k].timer + 1) % 256)
  {
    hide FirstExpired;
  }

  lemma TickBehind(v: seq<Client>, k: nat)
    requires FirstExpired(v) <= k < |AfterTick(v)|
    ensures |AfterTick(v)| == |v| - 1 && AfterTick(v)[k] == v[k + 1]
  {
    hide FirstExpired;
  }

  lemma TickLength(v: seq<Client>)
    ensures |AfterTick(v)| == if FirstExpired(v) < |v| then |v| - 1 else |v|
  {
    hide FirstExpired;
  }

  lemma TickParts(v: seq<Client>)
    ensures var i, w := FirstExpired(v), AfterTick(v);
      && (i == |v| ==> |w| == |v|) && (i < |v| ==> |w| == |v| - 1)
      && (forall k {:trigger w[k]} :: 0 <= k < i ==> w[k] == Client(v[k].key, (v[k].timer + 1) % 256))
      && forall k {:trigger w[k]} :: i <= k < |w| ==> w[k] == v[k + 1]
  {
    hide FirstExpired, AfterTick;
    TickLength(v);
    var i, w := FirstExpired(v), AfterTick(v);
    forall k | 0 <= k < i ensures w[k] == Client(v[k].key, (v[k].timer + 1) % 256) {
      TickBefore(v, k);
    }
    forall k | i <= k < |w| ensures w[k] == v[k + 1] {
      TickBehind(v, k);
    }
  }

  lemma TickSound(v: seq<Client>, max: nat)
    requires Sound(v, max)
    ensures Sound(AfterTick(v), max)
  {
    hide FirstExpired, AfterTick;
    TickParts(v);
    var k, w := FirstExpired(v), AfterTick(v);
    forall i | 0 <= i < |w|
      ensures w[i].timer <= EXPIRED && w[i].key == v[if i < k then i else i + 1].key
    {
      assert v[if i < k then i else i + 1].timer <= EXPIRED;
    }
  }

  lemma PacketSound(v: seq<Client>, max: nat, key: Key)
    requires Sound(v, max)
    ensures Sound(AfterPacket(v, max, key), max)
  {
    hide IndexOf;
    var i, w := IndexOf(v, key), AfterPacket(v, max, key);
    if i < |v| {
      assert forall k :: 0 <= k < |v| ==> w[k].key == v[k].key;
    }
  }

  lemma StepSound(v: seq<Client>, max: nat, e: Event)
    requires Sound(v, max)
    ensures Sound(After(v, max, e), max)
  {
    match e
    case Packet(key) => PacketSound(v, max, key);
    case TimerPass => TickSound(v, max);
  }

  /** At every point of every run there are no more clients than allowed (one at least is), no two for
      the same sender and stream, and no timer beyond four. */
  lemma {:induction false} AlwaysSound(v: seq<Client>, max: nat, es: seq<Event>)
    requires Sound(v, max)
    ensures Sound(AfterAll(v, max, es), max)
    decreases |es|
  {
    if es != [] {
      StepSound(v, max, es[0]);
      AlwaysSound(After(v, max, es[0]), max, es[1..]);
    }
  }

  function Keys(v: seq<Client>): (ks: seq<Key>)
    ensures |ks| == |v|
  {
    seq(|v|, i requires 0 <= i < |v| => v[i].key)
  }

  lemma TickKeeps(v: seq<Client>, i: nat)
    requires i < |AfterTick(v)|
    ensures var from := if i < FirstExpired(v) then i else i + 1;
      from < |v| && Keys(AfterTick(v))[i] == Keys(v)[from]
  {
    hide FirstExpired;
    if i < FirstExpired(v) {
      TickBefore(v, i);
    } else {
      TickBehind(v, i);
    }
  }

  lemma TickOrder(v: seq<Client>)
    ensures var k, ls := FirstExpired(v), Keys(AfterTick(v));
      if k < |v| then v[k].timer == EXPIRED && ls == Without(Keys(v), k) else ls == Keys(v)
  {
    hide FirstExpired, AfterTick, Keys, Without;
    TickLength(v);
    var k, w := FirstExpired(v), AfterTick(v);
    var ks := if k < |v| then Without(Keys(v), k) else Keys(v);
    forall i | 0 <= i < |w|
      ensures Keys(w)[i] == ks[i]
    {
      TickKeeps(v, i);
      if k < |v| {
        WithoutAt(Keys(v), k, i);
      }
    }
  }

  /** A step adds at most one client, at the end, or removes at most one; the others keep their order. */
  lemma OrderIsKept(v: seq<Client>, max: nat, e: Event)
    ensures var ks, ls := Keys(v), Keys(After(v, max, e));
      match e
      case Packet(key) => ls == ks || (key !in ks && ls == ks + [key])
      case TimerPass => ls == ks || exists k :: 0 <= k < |v| && v[k].timer == EXPIRED && ls == Without(ks, k)
  {
    match e
    case Packet(key) =>
      var i := IndexOf(v, key);
      if i < |v| {
        assert Keys(AfterPacket(v, max, key)) == Keys(v);
      } else {
        assert key !in Keys(v);
        assert Keys(v + [Client(key, 0)]) == Keys(v) + [key];
      }
    case TimerPass =>
      TickOrder(v);
  }

  function Passes(es: seq<Event>): nat
  {
    if es == [] then 0 else (if es[0].TimerPass? then 1 else 0) + Passes(es[1..])
  }

  ghost predicate Present(v: seq<Client>, key: Key, timer: nat) {
    exists i :: 0 <= i < |v| && v[i].key == key && v[i].timer <= timer
  }

  lemma TickOfClient(v: seq<Client>, key: Key, timer: nat)
    requires Present(v, key, timer) && timer < EXPIRED
    ensures Present(AfterTick(v), key, timer + 1)
  {
    hide FirstExpired, AfterTick, Aged;
    TickParts(v);
    var k, w := FirstExpired(v), AfterTick(v);
    var i :| 0 <= i < |v| && v[i].key == key && v[i].timer <= timer;
    if i < k {
      assert w[i].key == key && w[i].timer <= timer + 1;
    } else {
      assert i > k;
      assert w[i - 1] == v[i];
    }
  }

  lemma StepOfClient(v: seq<Client>, max: nat, e: Event, key: Key, timer: nat)
    requires Present(v, key, timer)
    ensures e.Packet? ==> Present(After(v, max, e), key, timer)
    ensures e.TimerPass? && timer < EXPIRED ==> Present(After(v, max, e), key, timer + 1)
  {
    match e
    case Packet(other) =>
      hide IndexOf;
      var i :| 0 <= i < |v| && v[i].key == key && v[i].timer <= timer;
      var w := AfterPacket(v, max, other);
      assert w[i].key == key && w[i].timer <= timer;
    case TimerPass =>
      if timer < EXPIRED {
        TickOfClient(v, key, timer);
      }
  }

  /** A client outlives four timer passes after its last packet: it is removed on the fifth at the earliest. */
  lemma {:induction false} SurvivesFourPasses(v: seq<Client>, max: nat, es: seq<Event>, key: Key, timer: nat)
    requires Sound(v, max) && Present(v, key, timer) && timer + Passes(es) <= EXPIRED
    ensures Present(AfterAll(v, max, es), key, timer + Passes(es))
    decreases |es|
  {
    if es != [] {
      StepSound(v, max, es[0]);
      StepOfClient(v, max, es[0], key, timer);
      SurvivesFourPasses(After(v, max, es[0]), max, es[1..], key, if es[0].TimerPass? then timer + 1 else timer);
    }
  }

  /** A packet puts its client at timer 0, unless there is no room for a new one. */
  lemma PacketWakes(v: seq<Client>, max: nat, key: Key)
    ensures Present(AfterPacket(v, max, key), key, 0) <==> key in Keys(v) || v == [] || |v| < max
  {
    var i, w := IndexOf(v, key), AfterPacket(v, max, key);
    if i < |v| {
      assert w[i] == Client(key, 0) && Keys(v)[i] == key;
    } else {
      assert key !in Keys(v);
      if v == [] || |v| < max {
        assert w[|v|] == Client(key, 0);
      }
    }
  }

  /** Where client i, if it stays silent, is after a step: a timer pass makes it older, or removes it, or
      removes a client in front of it. Gives its new index, or the length of the list when it is gone. */
  lemma SilentStep(v: seq<Client>, max: nat, e: Event, i: nat) returns (j: nat)
    requires Sound(v, max) && i < |v| && e != Packet(v[i].key)
    ensures var w := After(v, max, e);
      && (if j < |w| then w[j].key == v[i].key else v[i].key !in Keys(w))
      && (j < |w| ==> EXPIRED - w[j].timer + j + Passes([e]) <= EXPIRED - v[i].timer + i)
  {
    match e
    case Packet(other) =>
      hide IndexOf;
      j := i;
    case TimerPass =>
      TickParts(v);
      var k, w := FirstExpired(v), AfterTick(v);
      assert (i < k ==> v[i].timer != EXPIRED) && (k < |v| ==> v[k].timer == EXPIRED);
      hide FirstExpired, AfterTick;
      if i < k {
        j := i;
      } else if i > k {
        j := i - 1;
        assert w[j] == v[i];
      } else {
        j := |w|;
        forall n | 0 <= n < |w|
          ensures Keys(w)[n] != v[i].key
        {
          assert w[n].key == v[if n < k then n else n + 1].key;
        }
      }
  }

  /** A silent client is gone after five passes, and one more for every client in front of it, whatever
      happens to the others. */
  lemma {:induction false} SilentClientExpires(v: seq<Client>, max: nat, es: seq<Event>, i: nat)
    requires Sound(v, max) && i < |v| && EXPIRED - v[i].timer + i < Passes(es)
    requires forall k :: 0 <= k < |es| ==> es[k] != Packet(v[i].key)
    ensures exists n :: 0 <= n <= |es| && v[i].key !in Keys(AfterAll(v, max, es[..n]))
    decreases |es|
  {
    var key, e := v[i].key, es[0];
    var w := After(v, max, e);
    StepSound(v, max, e);
    assert AfterAll(v, max, es[..1]) == w by {
      assert es[..1][1..] == [];
      assert AfterAll(w, max, []) == w;
    }
    var j := SilentStep(v, max, e, i);
    if j < |w| {
      hide AfterTick, AfterPacket;
      SilentClientExpires(w, max, es[1..], j);
      var n :| 0 <= n <= |es| - 1 && key !in Keys(AfterAll(w, max, es[1..][..n]));
      assert es[..n + 1][1..] == es[1..][..n];
    }
  }
}
