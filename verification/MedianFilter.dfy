/** The sliding median filter, which keeps its window sorted by moving one value per call. */
module MedianFilter {

  ghost predicate IsSorted(s: seq<int>) {
    forall j, k :: 0 <= j < k < |s| ==> s[j] <= s[k]
  }

  /** s is sorted but for the element at i. */
  ghost predicate SortedBut(s: seq<int>, i: nat) {
    forall j, k :: 0 <= j < k < |s| && j != i && k != i ==> s[j] <= s[k]
  }

  // ---- the reference: sort the window, take the middle ------------------------------

  function Insert(s: seq<int>, x: int): (t: seq<int>)
    ensures |t| == |s| + 1
  {
    if s == [] || x <= s[0] then [x] + s else [s[0]] + Insert(s[1..], x)
  }

  function Sort(s: seq<int>): (t: seq<int>)
    ensures |t| == |s|
  {
    if s == [] then [] else Insert(Sort(s[1..]), s[0])
  }

  function Median(w: seq<int>): int
    requires w != []
  {
    Sort(w)[|w| / 2]
  }

  lemma {:induction false} InsertKeeps(s: seq<int>, x: int)
    ensures multiset(Insert(s, x)) == multiset(s) + multiset{x}
  {
    if s != [] && x > s[0] {
      InsertKeeps(s[1..], x);
      assert s == [s[0]] + s[1..];
    }
  }

  lemma {:induction false} InsertSorts(s: seq<int>, x: int)
    requires IsSorted(s)
    ensures IsSorted(Insert(s, x)) && forall k :: 0 <= k < |s| + 1 ==>
      Insert(s, x)[k] >= x || (s != [] && Insert(s, x)[k] >= s[0])
  {
    if s != [] && x > s[0] {
      InsertSorts(s[1..], x);
      var t := Insert(s[1..], x);
      assert forall k :: 0 <= k < |t| ==> t[k] >= s[0];
    }
  }

  lemma {:induction false} SortSorts(s: seq<int>)
    ensures IsSorted(Sort(s)) && multiset(Sort(s)) == multiset(s)
  {
    if s != [] {
      SortSorts(s[1..]);
      InsertSorts(Sort(s[1..]), s[0]);
      InsertKeeps(Sort(s[1..]), s[0]);
      assert s == [s[0]] + s[1..];
    }
  }

  /** A sorted arrangement of given values is unique. */
  lemma {:induction false} SortedUnique(a: seq<int>, b: seq<int>)
    requires IsSorted(a) && IsSorted(b) && multiset(a) == multiset(b)
    ensures a == b
  {
    hide IsSorted;
    assert |a| == |multiset(a)| && |b| == |multiset(b)|;
    if a != [] {
      LeastFirst(a, b);
      LeastFirst(b, a);
      RestOf(a);
      RestOf(b);
      SortedUnique(a[1..], b[1..]);
      assert a == [a[0]] + a[1..] && b == [b[0]] + b[1..];
    }
  }

  lemma LeastFirst(a: seq<int>, b: seq<int>)
    requires IsSorted(a) && a != [] && b != [] && multiset(a) == multiset(b)
    ensures a[0] <= b[0]
  {
    assert b[0] in multiset(b);
    assert b[0] in a;
  }

  lemma RestOf(a: seq<int>)
    requires a != []
    ensures multiset(a[1..]) == multiset(a) - multiset{a[0]} && (IsSorted(a) ==> IsSorted(a[1..]))
  {
    assert a == [a[0]] + a[1..];
  }

  method Swap(a: array<int>, i: nat)
    requires i + 1 < a.Length
    modifies a
    ensures a[..] == old(a[..])[i := old(a[i + 1])][i + 1 := old(a[i])]
    ensures multiset(a[..]) == old(multiset(a[..]))
  {
    a[i], a[i + 1] := a[i + 1], a[i];
  }

  /** Moves the value at i0 left past all greater values. */
  method MoveLeft(a: array<int>, i0: nat) returns (i: nat)
    requires i0 < a.Length && SortedBut(a[..], i0)
    modifies a
    ensures i <= i0 && SortedBut(a[..], i) && multiset(a[..]) == old(multiset(a[..]))
    ensures forall k :: 0 <= k < i ==> a[k] <= a[i]
  {
    i := i0;
    while i > 0 && a[i] < a[i - 1]
      invariant i <= i0 && SortedBut(a[..], i) && multiset(a[..]) == old(multiset(a[..]))
      invariant i < i0 ==> forall k :: i < k < a.Length ==> a[i] <= a[k]
    {
      ghost var b := a[..];
      Swap(a, i - 1);
      assert a[..] == b[i - 1 := b[i]][i := b[i - 1]];
      i := i - 1;
    }
    if i > 0 {
      assert forall k :: 0 <= k < i - 1 ==> a[..][k] <= a[..][i - 1];
    }
  }

  /** Moves the value at i0 right past all smaller values. */
  method MoveRight(a: array<int>, i0: nat)
    requires i0 < a.Length && SortedBut(a[..], i0) && forall k :: 0 <= k < i0 ==> a[k] <= a[i0]
    modifies a
    ensures IsSorted(a[..]) && multiset(a[..]) == old(multiset(a[..]))
  {
    var i := i0;
    while i < a.Length - 1 && a[i] > a[i + 1]
      invariant i < a.Length && SortedBut(a[..], i) && multiset(a[..]) == old(multiset(a[..]))
      invariant forall k :: 0 <= k < i ==> a[k] <= a[i]
    {
      ghost var b := a[..];
      Swap(a, i);
      assert a[..] == b[i := b[i + 1]][i + 1 := b[i]];
      i := i + 1;
    }
    assert forall k :: i + 1 < k < a.Length ==> a[..][i + 1] <= a[..][k];
  }

  lemma ReplacedBoth(h: seq<int>, s: seq<int>, p: nat, i: nat, x: int)
    requires p < |h| && i < |s| && h[p] == s[i] && multiset(h) == multiset(s) && IsSorted(s)
    ensures multiset(h[p := x]) == multiset(s[i := x]) && SortedBut(s[i := x], i)
  {
  }

  lemma RoundTheWindow(h: seq<int>, p: nat, x: int)
    requires p < |h|
    ensures var g, q := h[p := x], (p + 1) % |h|;
      q < |h| && g[q..] + g[..q] == (h[p..] + h[..p])[1..] + [x]
  {
    if p + 1 == |h| {
      assert (p + 1) % |h| == 0;
    } else {
      assert (p + 1) % |h| == p + 1;
    }
  }

  class MedianFilterInt {
    const size: nat
    var head: nat
    const history: array<int>
    const sorted: array<int>

    ghost predicate Valid()
      reads this, history, sorted
    {
      && size % 2 == 1 && head < size && history.Length == sorted.Length == size && history != sorted
      && IsSorted(sorted[..]) && multiset(sorted[..]) == multiset(history[..])
    }

    /** The values in the order in which they came. */
    ghost function Window(): (w: seq<int>)
      requires head <= history.Length
      reads this, history
      ensures |w| == history.Length
    {
      history[head..] + history[..head]
    }

    constructor (windowSize: nat)
      ensures Valid() && fresh(history) && fresh(sorted)
      ensures size == (if windowSize % 2 == 0 then windowSize + 1 else windowSize)
      ensures Window() == seq(size, _ => 0)
    {
      size := if windowSize % 2 == 0 then windowSize + 1 else windowSize;
      head := 0;
      history := new int[if windowSize % 2 == 0 then windowSize + 1 else windowSize](_ => 0);
      sorted := new int[if windowSize % 2 == 0 then windowSize + 1 else windowSize](_ => 0);
      new;
      assert sorted[..] == history[..];
    }

    method Process(currentFill: int) returns (m: int)
      requires Valid()
      modifies this`head, history, sorted
      ensures Valid() && Window() == old(Window())[1..] + [currentFill]
      ensures m == Median(Window()) && sorted[..] == Sort(Window())
    {
      hide IsSorted;
      var i := Replace(currentFill);
      i := MoveLeft(sorted, i);
      MoveRight(sorted, i);
      assert multiset(Window()) == multiset(history[..]) by {
        assert history[..] == history[..head] + history[head..];
      }
      SortSorts(Window());
      SortedUnique(sorted[..], Sort(Window()));
      m := sorted[size / 2];
    }

    /** Overwrites the oldest value in both arrays; the search for it in `sorted` never fails. */
    method Replace(currentFill: int) returns (i: nat)
      requires Valid()
      modifies this`head, history, sorted
      ensures head < size && Window() == old(Window())[1..] + [currentFill]
      ensures i < size && old(sorted[..])[i] == old(history[head])
      ensures SortedBut(sorted[..], i) && multiset(sorted[..]) == multiset(history[..])
    {
      hide IsSorted, SortedBut;
      var oldest := history[head];
      ghost var h, s, p := history[..], sorted[..], head;
      assert oldest in multiset(s) by {
        assert h[head] in multiset(h);
      }
      history[head] := currentFill;
      head := (head + 1) % size;
      RoundTheWindow(h, p, currentFill);
      i := 0;
      while i < size && sorted[i] != oldest
        invariant i <= size && forall k :: 0 <= k < i ==> s[k] != oldest
      {
        i := i + 1;
      }
      assert i < size;  // so the fallback to index 0 is not needed
      sorted[i] := currentFill;
      assert history[..] == h[p := currentFill] && sorted[..] == s[i := currentFill];
      ReplacedBoth(h, s, p, i, currentFill);
    }

    method Reset(initialValue: int)
      requires Valid()
      modifies this`head, history, sorted
      ensures Valid() && Window() == seq(size, _ => initialValue)
    {
      var k := 0;
      while k < size
        invariant k <= size && forall j :: 0 <= j < k ==> history[j] == sorted[j] == initialValue
      {
        history[k], sorted[k] := initialValue, initialValue;
        k := k + 1;
      }
      head := 0;
      assert history[..] == sorted[..];
    }
  }

  /** The window after a series of values. */
  function After(w: seq<int>, xs: seq<int>): seq<int>
    requires w != []
    decreases |xs|
  {
    if xs == [] then w else After(w[1..] + [xs[0]], xs[1..])
  }

  /** The window is always the newest |w| values of everything seen, the initial values coming first. */
  lemma {:induction false} NewestValues(w: seq<int>, xs: seq<int>)
    requires w != []
    ensures After(w, xs) == (w + xs)[|xs|..]
    decreases |xs|
  {
    if xs != [] {
      NewestValues(w[1..] + [xs[0]], xs[1..]);
      assert (w[1..] + [xs[0]]) + xs[1..] == (w + xs)[1..];
    }
  }

  // ---- what the median is -------------------------------------------------------------

  function Smaller(s: seq<int>, x: int): nat {
    if s == [] then 0 else (if s[0] < x then 1 else 0) + Smaller(s[1..], x)
  }

  function Greater(s: seq<int>, x: int): nat {
    if s == [] then 0 else (if s[0] > x then 1 else 0) + Greater(s[1..], x)
  }

  lemma {:induction false} InsertCounts(s: seq<int>, y: int, x: int)
    ensures Smaller(Insert(s, y), x) == Smaller(s, x) + if y < x then 1 else 0
    ensures Greater(Insert(s, y), x) == Greater(s, x) + if y > x then 1 else 0
  {
    if s == [] || y <= s[0] {
      assert ([y] + s)[1..] == s;
    } else {
      InsertCounts(s[1..], y, x);
      assert ([s[0]] + Insert(s[1..], y))[1..] == Insert(s[1..], y);
    }
  }

  lemma {:induction false} SortCounts(s: seq<int>, x: int)
    ensures Smaller(Sort(s), x) == Smaller(s, x) && Greater(Sort(s), x) == Greater(s, x)
  {
    if s != [] {
      SortCounts(s[1..], x);
      InsertCounts(Sort(s[1..]), s[0], x);
    }
  }

  lemma {:induction false} SortedCounts(t: seq<int>, k: nat)
    requires IsSorted(t) && k < |t|
    ensures Smaller(t, t[k]) <= k && Greater(t, t[k]) <= |t| - 1 - k
  {
    if k > 0 {
      SortedCounts(t[1..], k - 1);
    } else {
      NoneSmaller(t, t[0]);
      GreaterBound(t[1..], t[0]);
    }
  }

  lemma {:induction false} NoneSmaller(t: seq<int>, x: int)
    requires forall k :: 0 <= k < |t| ==> t[k] >= x
    ensures Smaller(t, x) == 0
  {
    if t != [] {
      NoneSmaller(t[1..], x);
    }
  }

  lemma {:induction false} GreaterBound(t: seq<int>, x: int)
    ensures Greater(t, x) <= |t|
  {
    if t != [] {
      GreaterBound(t[1..], x);
    }
  }

  /** The median is a value of the window, with at most half of the others on either side. */
  lemma MedianRank(w: seq<int>)
    requires |w| % 2 == 1
    ensures Median(w) in w && Smaller(w, Median(w)) <= |w| / 2 && Greater(w, Median(w)) <= |w| / 2
  {
    SortSorts(w);
    SortCounts(w, Median(w));
    SortedCounts(Sort(w), |w| / 2);
    assert Median(w) in multiset(Sort(w));
    assert Median(w) in multiset(w);
  }

}
