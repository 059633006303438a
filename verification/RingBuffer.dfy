/**
 The byte ring buffer, used by one thread: it refines a queue of at most size-1 bytes.
 Pointers and counts are size_t; subtraction wraps around at 2^64 as it does in C.
 */
module RingBuffers {
  import Division

  type Byte = b: int | 0 <= b < 256

  const SIZE_T: nat := 0x1_0000_0000_0000_0000

  /** No object is larger than half the address space, so sums of two offsets do not wrap. */
  const MAX_SIZE: nat := 0x8000_0000_0000_0000

  function Minus(a: nat, b: nat): nat {
    (a - b) % SIZE_T
  }

  function Min(a: nat, b: nat): nat {
    if a > b then b else a
  }

  /** A stretch of the buffer: `len` bytes from offset `start`. */
  datatype Segment = Segment(start: nat, len: nat)

  lemma Wrap(x: nat, size: nat)
    requires size > 0 && x < 2 * size
    ensures x % size == if x < size then x else x - size
  {
    if x < size {
      Division.DivMod(x, size, 0, x);
    } else {
      Division.DivMod(x, size, 1, x - size);
    }
  }

  lemma ModKnown(x: nat, m: nat, v: nat)
    requires m > 0 && v < m && (x == v || x == v + m)
    ensures x % m == v
  {
    Wrap(x, m);
  }

  /** What the pointer differences come to: the detour through 2^64 is harmless. */
  lemma Spaces(w: nat, r: nat, size: nat)
    requires w < size <= MAX_SIZE && r < size
    ensures w <= r ==> ((Minus(w, r) + size) % SIZE_T) % size == if w == r then 0 else w - r + size
    ensures w > r ==> ((Minus(r, w) + size) % SIZE_T) % size == r - w + size
  {
    if w < r {
      SpaceAround(w, r, size);
    } else if w > r {
      SpaceAround(r, w, size);
    } else {
      ModKnown(size, SIZE_T, size);
      ModKnown(size, size, 0);
    }
  }

  lemma SpaceAround(lo: nat, hi: nat, size: nat)
    requires lo < hi < size <= MAX_SIZE
    ensures ((Minus(lo, hi) + size) % SIZE_T) % size == lo - hi + size
  {
    assert Minus(lo, hi) == SIZE_T + lo - hi;
    ModKnown(Minus(lo, hi) + size, SIZE_T, lo - hi + size);
    ModKnown(lo - hi + size, size, lo - hi + size);
  }

  /** Bytes that can be read, from the two pointers. */
  function SpaceToRead(w: nat, r: nat, size: nat): (n: nat)
    requires w < size <= MAX_SIZE && r < size
    ensures n == if w >= r then w - r else w - r + size
  {
    Spaces(w, r, size);
    if w > r then w - r else ((Minus(w, r) + size) % SIZE_T) % size
  }

  /** Bytes that can be written; one cell is always left free. */
  function SpaceToWrite(w: nat, r: nat, size: nat): (n: nat)
    requires w < size <= MAX_SIZE && r < size
    ensures n + SpaceToRead(w, r, size) == size - 1
  {
    Spaces(w, r, size);
    if w > r then ((Minus(r, w) + size) % SIZE_T) % size - 1
    else if w < r then r - w - 1
    else size - 1
  }

  /** Splits n bytes from offset p at the end of the buffer. */
  function Split(p: nat, n: nat, size: nat): (nn: (nat, nat))
    requires p < size && n < size
    ensures nn.0 + nn.1 == n && p + nn.0 <= size && (nn.1 > 0 ==> p + nn.0 == size)
  {
    var cnt2 := p + n;
    Wrap(cnt2, size);
    if cnt2 > size then (size - p, cnt2 % size) else (n, 0)
  }

  method Copy(src: array<Byte>, from: nat, dst: array<Byte>, to: nat, n: nat)
    requires src != dst && from + n <= src.Length && to + n <= dst.Length
    modifies dst
    ensures dst[..to] == old(dst[..to]) && dst[to + n..] == old(dst[to + n..])
    ensures dst[to..to + n] == src[from..from + n]
  {
    forall i | 0 <= i < n {
      dst[to + i] := src[from + i];
    }
  }

  /** `Copy`, seen from the front of the destination. */
  method CopyBehind(src: array<Byte>, from: nat, dst: array<Byte>, to: nat, n: nat)
    requires src != dst && from + n <= src.Length && to + n <= dst.Length
    modifies dst
    ensures dst[..to + n] == old(dst[..to]) + src[from..from + n] && dst[to + n..] == old(dst[to + n..])
  {
    Copy(src, from, dst, to, n);
    assert dst[..to + n] == dst[..to] + dst[to..to + n];
  }

  /** The bytes from offset r up to, and not including, offset w, going round the end. */
  ghost function Span(b: seq<Byte>, r: nat, w: nat): seq<Byte>
    requires r < |b| && w < |b|
  {
    if r <= w then b[r..w] else b[r..] + b[..w]
  }

  function Wrapped(p: nat, size: nat): nat {
    if p == size then 0 else p
  }

  /** A stretch that does not cross the end of the buffer, taken off the front. */
  lemma SpanHead(b: seq<Byte>, r: nat, w: nat, n: nat)
    requires r < |b| && w < |b| && r + n <= |b| && n <= |Span(b, r, w)|
    ensures b[r..r + n] == Span(b, r, w)[..n] && Span(b, Wrapped(r + n, |b|), w) == Span(b, r, w)[n..]
  {
  }

  /** Copies a stretch that does not cross the end of the buffer out of the bytes from r to w. */
  method CopyOut(buf: array<Byte>, r: nat, w: nat, dest: array<Byte>, at: nat, n: nat)
    requires buf != dest && r < buf.Length && w < buf.Length && r + n <= buf.Length
    requires at + n <= dest.Length && n <= |Span(buf[..], r, w)|
    modifies dest
    ensures dest[..at + n] == old(dest[..at]) + Span(buf[..], r, w)[..n] && dest[at + n..] == old(dest[at + n..])
    ensures Span(buf[..], Wrapped(r + n, buf.Length), w) == Span(buf[..], r, w)[n..]
  {
    SpanHead(buf[..], r, w, n);
    assert buf[..][r..r + n] == buf[r..r + n];
    hide Span;
    CopyBehind(buf, r, dest, at, n);
  }

  /** A stretch that does not cross the end of the buffer, put at the back. */
  lemma SpanTail(b: seq<Byte>, c: seq<Byte>, r: nat, w: nat, n: nat)
    requires r < |b| == |c| && w < |b| && w + n <= |b| && n < |b| - |Span(b, r, w)|
    requires c[..w] == b[..w] && c[w + n..] == b[w + n..]
    ensures Span(c, r, Wrapped(w + n, |b|)) == Span(b, r, w) + c[w..w + n]
  {
    if r > w {
      assert c[r..] == c[w + n..][r - (w + n)..] == b[w + n..][r - (w + n)..] == b[r..];
      assert c[..w + n] == b[..w] + c[w..w + n];
      assert (b[r..] + b[..w]) + c[w..w + n] == b[r..] + (b[..w] + c[w..w + n]);
    } else {
      SpanTailFlat(b, c, r, w, n);
    }
  }

  lemma SpanTailFlat(b: seq<Byte>, c: seq<Byte>, r: nat, w: nat, n: nat)
    requires r <= w < |b| == |c| && w + n <= |b| && n < |b| - (w - r) && c[..w] == b[..w]
    ensures Span(c, r, Wrapped(w + n, |b|)) == b[r..w] + c[w..w + n]
  {
    assert c[r..w] == c[..w][r..] == b[..w][r..] == b[r..w];
    assert c[r..w + n] == c[r..w] + c[w..w + n];
    if w + n == |b| {
      assert c[r..] + c[..0] == c[r..w + n];
    }
  }

  lemma VectorParts(a: seq<Byte>, b: seq<Byte>, cnt: nat, n: nat)
    requires cnt <= |a + b| && n == Min(cnt, |a|)
    ensures (a + b)[..cnt] == a[..n] + b[..cnt - n]
  {
  }

  /** Two copies that fill a destination with the front of two stretches of c. */
  lemma StretchesCopied(c: seq<Byte>, v0: Segment, v1: Segment, n: nat, cnt: nat, d0: seq<Byte>, d1: seq<Byte>,
                        d2: seq<Byte>)
    requires v0.start + v0.len <= |c| && v1.start + v1.len <= |c| && |d0| == |d1| == |d2|
    requires cnt <= v0.len + v1.len && cnt <= |d0| && n == Min(cnt, v0.len)
    requires d1[..n] == c[v0.start..v0.start + n] && d1[n..] == d0[n..]
    requires d2[..cnt] == d1[..n] + c[v1.start..v1.start + (cnt - n)] && d2[cnt..] == d1[cnt..]
    ensures d2[..cnt] == (c[v0.start..v0.start + v0.len] + c[v1.start..v1.start + v1.len])[..cnt]
      && d2[cnt..] == d0[cnt..]
  {
    var a, b := c[v0.start..v0.start + v0.len], c[v1.start..v1.start + v1.len];
    VectorParts(a, b, cnt, n);
    assert c[v0.start..v0.start + n] == a[..n] && c[v1.start..v1.start + (cnt - n)] == b[..cnt - n];
    assert d1[cnt..] == d1[n..][cnt - n..] && d0[cnt..] == d0[n..][cnt - n..];
  }

  lemma TwoParts(q: seq<Byte>, n1: nat, n2: nat)
    requires n1 + n2 <= |q|
    ensures q[..n1] + q[n1..][..n2] == q[..n1 + n2] && q[n1..][n2..] == q[n1 + n2..]
  {
  }

  /** Storing in the free stretch from offset p leaves the contents alone. */
  lemma SpanKept(b: seq<Byte>, c: seq<Byte>, r: nat, w: nat, p: nat, n: nat)
    requires r < |b| == |c| && w < |b| && p + n <= |b|
    requires if r <= w then w <= p || p + n <= r else w <= p && p + n <= r
    requires c[..p] == b[..p] && c[p + n..] == b[p + n..]
    ensures Span(c, r, w) == Span(b, r, w)
  {
    forall i | 0 <= i < |b| && !(p <= i < p + n)
      ensures c[i] == b[i]
    {
      if i < p {
        assert c[i] == c[..p][i];
      } else {
        assert c[i] == c[p + n..][i - (p + n)];
      }
    }
  }

  class RingBuffer {
    const buf: array<Byte>
    var writePtr: nat
    var readPtr: nat

    ghost predicate Valid()
      reads this
    {
      0 < buf.Length <= MAX_SIZE && writePtr < buf.Length && readPtr < buf.Length
    }

    ghost function Contents(): (q: seq<Byte>)
      requires Valid()
      reads this, buf
      ensures |q| <= buf.Length - 1
    {
      Span(buf[..], readPtr, writePtr)
    }

    constructor (sz: nat)
      requires 0 < sz <= MAX_SIZE
      ensures Valid() && fresh(buf) && buf.Length == sz && Contents() == [] && readPtr == 0
    {
      buf := new Byte[sz];
      writePtr, readPtr := 0, 0;
    }

    method Reset()
      requires Valid()
      modifies this
      ensures Valid() && Contents() == [] && readPtr == 0
    {
      readPtr, writePtr := 0, 0;
    }

    function ReadSpace(): (n: nat)
      requires Valid()
      reads this, buf
      ensures n == |Contents()|
    {
      SpaceToRead(writePtr, readPtr, buf.Length)
    }

    function WriteSpace(): (n: nat)
      requires Valid()
      reads this, buf
      ensures n + |Contents()| == buf.Length - 1
    {
      SpaceToWrite(writePtr, readPtr, buf.Length)
    }

    /** Copies n bytes that do not cross the end of the buffer, and publishes the new read pointer. */
    method ReadPart(dest: array<Byte>, at: nat, n: nat)
      requires Valid() && dest != buf && at + n <= dest.Length && n <= |Contents()| && readPtr + n <= buf.Length
      modifies this`readPtr, dest
      ensures Valid() && Contents() == old(Contents())[n..] && readPtr == Wrapped(old(readPtr) + n, buf.Length)
      ensures dest[..at + n] == old(dest[..at]) + old(Contents())[..n] && dest[at + n..] == old(dest[at + n..])
    {
      hide Span;
      CopyOut(buf, readPtr, writePtr, dest, at, n);
      Wrap(readPtr + n, buf.Length);
      readPtr := (readPtr + n) % buf.Length;
    }

    method Read(dest: array<Byte>, cnt: nat) returns (n: nat)
      requires Valid() && dest != buf && cnt <= dest.Length
      modifies this`readPtr, dest
      ensures Valid() && n == Min(cnt, |old(Contents())|) && readPtr == (old(readPtr) + n) % buf.Length
      ensures dest[..n] == old(Contents())[..n] && dest[n..] == old(dest[n..])
      ensures Contents() == old(Contents())[n..]
    {
      hide Span;
      n := Min(cnt, ReadSpace());
      Wrap(readPtr + n, buf.Length);
      if n != 0 {
        var (n1, n2) := Split(readPtr, n, buf.Length);
        ghost var q, d0 := Contents(), dest[..];
        TwoParts(q, n1, n2);
        ReadPart(dest, 0, n1);
        ghost var d1 := dest[..];
        if n2 != 0 {
          ReadPart(dest, n1, n2);
          assert dest[n..] == d1[n1..][n2..] == d0[n1..][n2..];
        }
      }
    }

    method Peek(dest: array<Byte>, cnt: nat) returns (n: nat)
      requires Valid() && dest != buf && cnt <= dest.Length
      modifies dest
      ensures n == Min(cnt, |Contents()|)
      ensures dest[..n] == Contents()[..n] && dest[n..] == old(dest[n..])
    {
      hide Span;
      n := Min(cnt, ReadSpace());
      var p := readPtr;
      if n != 0 {
        var (n1, n2) := Split(p, n, buf.Length);
        ghost var q, d0 := Contents(), dest[..];
        TwoParts(q, n1, n2);
        CopyOut(buf, p, writePtr, dest, 0, n1);
        ghost var d1 := dest[..];
        Wrap(p + n1, buf.Length);
        p := (p + n1) % buf.Length;
        if n2 != 0 {
          CopyOut(buf, p, writePtr, dest, n1, n2);
          assert dest[n..] == d1[n1..][n2..] == d0[n1..][n2..];
        }
      }
    }

    /** Stores n bytes that do not cross the end of the buffer, and publishes the new write pointer. */
    method WritePart(src: array<Byte>, at: nat, n: nat)
      requires Valid() && src != buf && at + n <= src.Length && n < buf.Length - |Contents()|
        && writePtr + n <= buf.Length
      modifies this`writePtr, buf
      ensures Valid() && Contents() == old(Contents()) + src[at..at + n]
        && writePtr == Wrapped(old(writePtr) + n, buf.Length)
    {
      ghost var b := buf[..];
      Copy(src, at, buf, writePtr, n);
      assert buf[..][..writePtr] == b[..writePtr] && buf[..][writePtr + n..] == b[writePtr + n..];
      SpanTail(b, buf[..], readPtr, writePtr, n);
      Wrap(writePtr + n, buf.Length);
      writePtr := (writePtr + n) % buf.Length;
    }

    /** `at` is where the caller's pointer stands in its block. */
    method Write(src: array<Byte>, at: nat, cnt: nat) returns (n: nat)
      requires Valid() && src != buf && at + cnt <= src.Length
      modifies this`writePtr, buf
      ensures Valid() && n == Min(cnt, buf.Length - 1 - |old(Contents())|)
        && writePtr == (old(writePtr) + n) % buf.Length
      ensures Contents() == old(Contents()) + src[at..at + n]
    {
      hide Span;
      n := Min(cnt, WriteSpace());
      Wrap(writePtr + n, buf.Length);
      if n != 0 {
        var (n1, n2) := Split(writePtr, n, buf.Length);
        WritePart(src, at, n1);
        if n2 != 0 {
          WritePart(src, at + n1, n2);
        }
        assert src[at..at + n] == src[at..at + n1] + src[at + n1..at + n1 + n2];
      }
    }

    /** The readable bytes as one or two stretches of the buffer. */
    method GetReadVector() returns (v0: Segment, v1: Segment)
      requires Valid()
      ensures v0.start + v0.len <= buf.Length && v1.start + v1.len <= buf.Length
      ensures buf[v0.start..v0.start + v0.len] + buf[v1.start..v1.start + v1.len] == Contents()
    {
      var free := ReadSpace();
      var (n1, n2) := Split(readPtr, free, buf.Length);
      v0, v1 := Segment(readPtr, n1), Segment(0, n2);
    }

    /** The writable cells as one or two stretches: exactly those behind the contents, in order, but one. */
    method GetWriteVector() returns (v0: Segment, v1: Segment)
      requires Valid()
      ensures v0.start == writePtr && v1.start == 0 && v0.len + v1.len == buf.Length - 1 - |Contents()|
      ensures v0.start + v0.len <= buf.Length && v1.len < buf.Length && (v1.len > 0 ==> v0.start + v0.len == buf.Length)
    {
      var free := WriteSpace();
      var (n1, n2) := Split(writePtr, free, buf.Length);
      v0, v1 := Segment(writePtr, n1), Segment(0, n2);
    }

    method ReadAdvance(cnt: nat)
      requires Valid() && cnt <= |Contents()|
      modifies this`readPtr
      ensures Valid() && Contents() == old(Contents())[cnt..]
    {
      Wrap(readPtr + cnt, buf.Length);
      readPtr := (readPtr + cnt) % buf.Length;
    }

    /** d is what the caller has stored, from the write pointer on, through the write vector. */
    method WriteAdvance(cnt: nat, ghost d: seq<Byte>)
      requires Valid() && cnt == |d| < buf.Length - |Contents()|
      requires d == if writePtr + cnt <= buf.Length then buf[writePtr..writePtr + cnt]
                    else buf[writePtr..] + buf[..writePtr + cnt - buf.Length]
      modifies this`writePtr
      ensures Valid() && Contents() == old(Contents()) + d
    {
      Wrap(writePtr + cnt, buf.Length);
      writePtr := (writePtr + cnt) % buf.Length;
    }

    /** Copies the first cnt bytes of two stretches of the buffer, as a user of the read vector does. */
    method CopyStretches(v0: Segment, v1: Segment, dest: array<Byte>, cnt: nat)
      requires dest != buf && cnt <= dest.Length && cnt <= v0.len + v1.len
      requires v0.start + v0.len <= buf.Length && v1.start + v1.len <= buf.Length
      modifies dest
      ensures dest[cnt..] == old(dest[cnt..])
      ensures dest[..cnt] == (buf[v0.start..v0.start + v0.len] + buf[v1.start..v1.start + v1.len])[..cnt]
    {
      var n := Min(cnt, v0.len);
      ghost var c, d0 := buf[..], dest[..];
      CopyBehind(buf, v0.start, dest, 0, n);
      ghost var d1 := dest[..];
      CopyBehind(buf, v1.start, dest, n, cnt - n);
      StretchesCopied(c, v0, v1, n, cnt, d0, d1, dest[..]);
    }

    /** Copying out of the read vector and advancing is the same as `Read`. */
    method ReadByVector(dest: array<Byte>, cnt: nat)
      requires Valid() && dest != buf && cnt <= dest.Length && cnt <= |Contents()|
      modifies this`readPtr, dest
      ensures Valid() && dest[..cnt] == old(Contents())[..cnt] && dest[cnt..] == old(dest[cnt..])
      ensures Contents() == old(Contents())[cnt..]
    {
      hide Span;
      var v0, v1 := GetReadVector();
      CopyStretches(v0, v1, dest, cnt);
      ReadAdvance(cnt);
    }

    /** Copying into the write vector and advancing is the same as `Write`. */
    method WriteByVector(src: array<Byte>, cnt: nat)
      requires Valid() && src != buf && cnt <= src.Length && cnt < buf.Length - |Contents()|
      modifies this`writePtr, buf
      ensures Valid() && Contents() == old(Contents()) + src[..cnt]
    {
      hide Span;
      var v0, v1 := GetWriteVector();
      var n := Min(cnt, v0.len);
      ghost var b := buf[..];
      Copy(src, 0, buf, v0.start, n);
      ghost var c := buf[..];
      Copy(src, n, buf, v1.start, cnt - n);
      StoredApart(b, c, buf[..], readPtr, writePtr, n, cnt - n, src[..cnt]);
      WriteAdvance(cnt, src[..cnt]);
    }
  }

  lemma StoredApart(b: seq<Byte>, c: seq<Byte>, e: seq<Byte>, r: nat, w: nat, n: nat, k: nat, d: seq<Byte>)
    requires r < |b| == |c| == |e| && w < |b| && w + n <= |b| && n + k == |d| < |b| - |Span(b, r, w)|
    requires k > 0 ==> w + n == |b|
    requires c[..w] == b[..w] && c[w + n..] == b[w + n..] && c[w..w + n] == d[..n]
    requires e[k..] == c[k..] && e[..k] == d[n..]
    ensures Span(e, r, w) == Span(b, r, w)
    ensures d == if w + |d| <= |b| then e[w..w + |d|] else e[w..] + e[..w + |d| - |b|]
  {
    SpanKept(b, c, r, w, w, n);
    if k == 0 {
      assert e == e[k..] == c[k..] == c && d == d[..n];
    } else {
      SpanKept(c, e, r, w, 0, k);
      assert r <= w && k < r;
      assert e[w..] == e[k..][w - k..] == c[k..][w - k..] == c[w..w + n];
      assert d == d[..n] + d[n..];
    }
  }
}
