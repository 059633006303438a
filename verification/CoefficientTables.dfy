/** The shared list of coefficient tables, counted by reference. */
module CoefficientTables {
  import opened Lists

  class Table {
    const fr: real
    const hl: nat
    const np: nat
    var next: Table?
    var refc: nat

    constructor (fr: real, hl: nat, np: nat)
      ensures this.fr == fr && this.hl == hl && this.np == np && next == null && refc == 0
    {
      this.fr, this.hl, this.np := fr, hl, np;
      next, refc := null, 0;
    }

    /** Close enough in frequency, and of the same shape. */
    predicate Fits(fr: real, hl: nat, np: nat) {
      fr >= this.fr * 0.999 && fr <= this.fr * 1.001 && hl == this.hl && np == this.np
    }
  }

  predicate Distinct(s: seq<Table>) {
    forall i, j :: 0 <= i < j < |s| ==> s[i] != s[j]
  }

  function Head(s: seq<Table>): Table? {
    if s == [] then null else s[0]
  }

  /** Index of the first table that fits, or the length of the list. */
  function FirstFit(s: seq<Table>, fr: real, hl: nat, np: nat): (i: nat)
    ensures i <= |s| && (i < |s| ==> s[i].Fits(fr, hl, np))
    ensures forall k :: 0 <= k < i ==> !s[k].Fits(fr, hl, np)
  {
    if s == [] || s[0].Fits(fr, hl, np) then 0 else 1 + FirstFit(s[1..], fr, hl, np)
  }

  /** A table is found exactly when one is within a thousandth of the frequency and has the shape. */
  lemma FitMeans(s: seq<Table>, fr: real, hl: nat, np: nat)
    ensures FirstFit(s, fr, hl, np) == |s| <==> forall t :: t in s && t.hl == hl && t.np == np ==>
      fr < t.fr * 0.999 || fr > t.fr * 1.001
  {
    var i := FirstFit(s, fr, hl, np);
    if i < |s| {
      assert s[i] in s;
    }
  }

  lemma FitAt(s: seq<Table>, fr: real, hl: nat, np: nat)
    requires FirstFit(s, fr, hl, np) < |s|
    ensures var t := s[FirstFit(s, fr, hl, np)]; t.hl == hl && t.np == np && t.fr * 0.999 <= fr <= t.fr * 1.001
  {
  }

  function LinkAt(s: seq<Table>, i: nat): Table? {
    if i + 1 < |s| then s[i + 1] else null
  }

  /** s is linked from its head through `next`, and has no cycle. */
  ghost predicate Linked(s: seq<Table>)
    reads s`next
  {
    && Distinct(s)
    && forall i :: 0 <= i < |s| ==> s[i].next == LinkAt(s, i)
  }

  lemma LinkedFront(p: Table, s: seq<Table>)
    requires Linked(s) && p !in s && p.next == Head(s)
    ensures Linked([p] + s)
  {
    var w := [p] + s;
    forall i | 0 <= i < |w|
      ensures w[i].next == LinkAt(w, i)
    {
      assert i > 0 ==> w[i] == s[i - 1] && s[i - 1].next == LinkAt(s, i - 1);
    }
  }

  lemma LinkedDistinct(s: seq<Table>)
    requires Linked(s)
    ensures Distinct(s)
  {
  }

  lemma UnlinkedDistinct(s: seq<Table>, k: nat)
    requires k < |s| && Distinct(s)
    ensures Distinct(Without(s, k))
    ensures s[k] !in Without(s, k) && forall p :: p in s && p != s[k] ==> p in Without(s, k)
    ensures forall p :: p in Without(s, k) ==> p in s
  {
    forall p | p in s && p != s[k]
      ensures p in Without(s, k)
    {
      var i :| 0 <= i < |s| && s[i] == p;
      assert p == Without(s, k)[if i < k then i else i - 1];
    }
  }

  class TableList {
    var list: Table?

    ghost var tables: seq<Table>          // the linked list, in order
    ghost var handles: multiset<Table>    // one for each create without its destroy

    ghost predicate Valid()
      reads this, tables
    {
      list == Head(tables) && Linked(tables) && Counted()
    }

    /** The listed tables are those in use, each by as many handles as its count says. */
    ghost predicate Counted()
      reads this, tables
    {
      && (forall t :: t in tables ==> t in handles)
      && (forall t :: t in handles ==> t in tables)
      && forall t :: t in tables ==> t.refc == handles[t]
    }

    constructor ()
      ensures Valid() && tables == [] && handles == multiset{}
    {
      list, tables, handles := null, [], multiset{};
    }

    method Find(fr: real, hl: nat, np: nat) returns (q: Table?)
      requires Valid()
      ensures var i := FirstFit(tables, fr, hl, np);
        q == if i < |tables| then tables[i] else null
    {
      q := list;
      ghost var i := 0;
      while q != null && !q.Fits(fr, hl, np)
        invariant i <= |tables| && q == Head(tables[i..])
        invariant FirstFit(tables, fr, hl, np) == i + FirstFit(tables[i..], fr, hl, np)
        decreases |tables| - i
      {
        assert tables[i..][1..] == tables[i + 1..];
        assert q == tables[i] && q.next == LinkAt(tables, i);
        q := q.next;
        i := i + 1;
      }
    }

    /** Hands out the first table that fits, or a new one at the front of the list. */
    method Create(fr: real, hl: nat, np: nat) returns (p: Table)
      requires Valid()
      modifies this, tables
      ensures Valid() && handles == old(handles) + multiset{p}
      ensures var i := FirstFit(old(tables), fr, hl, np);
        if i < |old(tables)| then p == old(tables)[i] && tables == old(tables)
        else fresh(p) && p.fr == fr && p.hl == hl && p.np == np && tables == [p] + old(tables)
      ensures p.hl == hl && p.np == np && (p.fr == fr || p.fr * 0.999 <= fr <= p.fr * 1.001)
      ensures fresh(p) <==> forall t :: t in old(tables) && t.hl == hl && t.np == np ==>
        fr < t.fr * 0.999 || fr > t.fr * 1.001
    {
      hide FirstFit, Linked, Table.Fits, Head;
      FitMeans(tables, fr, hl, np);
      var q := Find(fr, hl, np);
      if q != null {
        FitAt(tables, fr, hl, np);
        p := q;
        p.refc := p.refc + 1;
        handles := handles + multiset{p};
      } else {
        p := Add(fr, hl, np);
      }
    }

    method Add(fr: real, hl: nat, np: nat) returns (p: Table)
      requires Valid()
      modifies this
      ensures Valid() && handles == old(handles) + multiset{p} && tables == [p] + old(tables)
      ensures fresh(p) && p.fr == fr && p.hl == hl && p.np == np
    {
      p := new Table(fr, hl, np);
      p.refc := 1;
      p.next := list;
      list := p;
      LinkedFront(p, tables);
      hide Linked, Counted;
      ghost var s, h := tables, handles;
      tables := [p] + s;
      handles := h + multiset{p};
      FrontCounted(p, s, h);
    }

    /** The counts are right with a new table, in use once, at the front. */
    lemma FrontCounted(p: Table, s: seq<Table>, h: multiset<Table>)
      requires tables == [p] + s && handles == h + multiset{p} && p !in h && p !in s && p.refc == 1
      requires (forall t :: t in s ==> t in h && t.refc == h[t]) && forall t :: t in h ==> t in s
      ensures Counted()
    {
    }

    /** Unlinks t from the list. */
    method Unlink(t: Table, ghost k: nat)
      requires list == Head(tables) && Linked(tables) && k < |tables| && t == tables[k]
      modifies this`list, this`tables, tables
      ensures tables == Without(old(tables), k) && list == Head(tables) && Linked(tables)
      ensures forall p :: p in old(tables) ==> p.refc == old(p.refc)
    {
      var p, q: Table? := list, null;
      ghost var i := 0;
      while p != t
        invariant i <= k && p == tables[i] && q == if i == 0 then null else tables[i - 1]
        invariant Linked(tables)
        decreases k - i
      {
        q := p;
        p := p.next;
        i := i + 1;
      }
      ghost var s := tables;
      assert t.next == LinkAt(s, k);
      Bypass(q, t, k);
    }

    method Bypass(q: Table?, t: Table, ghost k: nat)
      requires list == Head(tables) && Linked(tables) && k < |tables| && t == tables[k]
      requires q == if k == 0 then null else tables[k - 1]
      modifies this`list, this`tables, if q == null then {} else {q}
      ensures tables == Without(old(tables), k) && list == Head(tables) && Linked(tables)
      ensures forall p :: p in old(tables) ==> p.refc == old(p.refc)
    {
      ghost var s := tables;
      assert t.next == LinkAt(s, k);
      if q != null {
        q.next := t.next;
      } else {
        list := t.next;
      }
      tables := Without(s, k);
      UnlinkedDistinct(s, k);
      forall j | 0 <= j < |tables|
        ensures tables[j].next == LinkAt(tables, j)
      {
        assert tables[j] == if j < k then s[j] else s[j + 1];
        assert old(s[if j < k then j else j + 1].next) == LinkAt(s, if j < k then j else j + 1);
      }
    }

    /** The counts are still right when a table without handles is off the list. */
    lemma StillCounted(s: seq<Table>, k: nat)
      requires k < |s| && Distinct(s) && tables == Without(s, k) && s[k] !in handles
      requires (forall p :: p in handles ==> p in s) && forall p :: p in s && p != s[k] ==> p in handles
      requires forall p :: p in s ==> p.refc == handles[p]
      ensures Counted()
    {
      UnlinkedDistinct(s, k);
    }

    /** The last handle of t is gone. */
    method Drop(t: Table, ghost k: nat)
      requires list == Head(tables) && Linked(tables) && k < |tables| && t == tables[k] && t !in handles
      requires (forall p :: p in handles ==> p in tables) && forall p :: p in tables && p != t ==> p in handles
      requires forall p :: p in tables ==> p.refc == handles[p]
      modifies this`list, this`tables, tables
      ensures Valid() && tables == Without(old(tables), k)
    {
      hide Linked, Distinct, Without, Head;
      ghost var s := tables;
      LinkedDistinct(s);
      Unlink(t, k);
      StillCounted(s, k);
    }

    /** Gives a handle back; the last one unlinks and frees its table. */
    method Destroy(t: Table?)
      requires Valid() && (t != null ==> t in handles)
      modifies this, tables
      ensures Valid()
      ensures t == null ==> tables == old(tables) && handles == old(handles)
      ensures t != null ==> handles == old(handles) - multiset{t}
      ensures t != null && old(handles)[t] > 1 ==> tables == old(tables)
      ensures t != null && old(handles)[t] == 1 ==>
        exists k :: 0 <= k < |old(tables)| && old(tables)[k] == t && tables == Without(old(tables), k)
    {
      hide Linked, Distinct, Without, Head;
      if t != null {
        t.refc := t.refc - 1;
        handles := handles - multiset{t};
        if t.refc == 0 {
          ghost var k :| 0 <= k < |tables| && tables[k] == t;
          Drop(t, k);
        }
      }
    }

    /** A change of settings creates before it clears: a table that still fits is kept as it is. */
    method Renew(t: Table?, fr: real, hl: nat, np: nat) returns (p: Table)
      requires Valid() && (t != null ==> t in handles)
      modifies this, tables
      ensures Valid()
      ensures handles == (if t == null then old(handles) else old(handles) - multiset{t}) + multiset{p}
      ensures var i := FirstFit(old(tables), fr, hl, np);
        t != null && i < |old(tables)| && old(tables)[i] == t ==>
        p == t && tables == old(tables) && handles == old(handles) && t.refc == old(t.refc)
    {
      hide Valid, Counted, Linked, Distinct, Without, Head, FirstFit;
      ghost var c := if t == null then 0 else CountOf(t);
      p := Create(fr, hl, np);
      Destroy(t);
      if t != null && t in handles {
        c := CountOf(t);
      }
    }

    /** The count of a table is the number of its handles. */
    ghost function CountOf(t: Table): (c: nat)
      requires Valid() && t in handles
      reads this, tables, t
      ensures t in tables && c == t.refc == handles[t]
    {
      t.refc
    }
  }
}
