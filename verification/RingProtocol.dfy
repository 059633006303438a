/**
 One reader thread and one writer thread on the ring buffer. Each load of the other
 thread's pointer, each copied byte and each pointer store is a step of its own, and the
 steps of the two threads interleave in any order; memory is sequentially consistent.
 */
module RingProtocol {
  import Division
  import opened RingBuffers

  /** `seen` is how many bytes had been published when the other pointer was loaded. */
  datatype Reader =
    | RIdle
    | RLoaded(w: nat, cnt: nat, seen: nat)          // inside ringbuffer_read, write_ptr loaded
    | RCopying(n: nat, rest: nat, i: nat)           // i of the n bytes of this stretch are copied

  datatype Writer =
    | WIdle
    | WLoaded(r: nat, src: seq<Byte>, seen: nat)    // inside ringbuffer_write, read_ptr loaded
    | WCopying(src: seq<Byte>, n: nat, rest: nat, i: nat)

  /** Memory, the two threads, and the history of the run. */
  datatype State = State(
    buf: seq<Byte>, wp: nat, rp: nat, reader: Reader, writer: Writer,
    offered: seq<Byte>,  // accepted by calls of ringbuffer_write, in order
    sent: seq<Byte>,     // published through write_ptr
    freed: nat,          // given back through read_ptr
    got: seq<Byte>)      // copied out by the reader

  /** Who moves, and the argument of a call if the thread is idle. */
  datatype Action = ReaderMoves(cnt: nat) | WriterMoves(src: seq<Byte>)

  function Init(size: nat): State
    requires size > 0
  {
    State(seq(size, _ => 0), 0, 0, RIdle, WIdle, [], [], 0, [])
  }

  ghost predicate Typed(s: State) {
    && 0 < |s.buf| <= MAX_SIZE && s.wp < |s.buf| && s.rp < |s.buf|
    && (s.reader.RLoaded? ==> s.reader.w < |s.buf|)
    && (s.reader.RCopying? ==> s.reader.i <= s.reader.n && s.rp + s.reader.n <= |s.buf|)
    && (s.writer.WLoaded? ==> s.writer.r < |s.buf|)
    && (s.writer.WCopying? ==> s.writer.i <= s.writer.n && s.writer.n + s.writer.rest == |s.writer.src|
                               && s.wp + s.writer.n <= |s.buf|)
  }

  function ReaderStep(s: State, cnt: nat): State
    requires Typed(s)
  {
    match s.reader
    case RIdle => s.(reader := RLoaded(s.wp, cnt, |s.sent|))
    case RLoaded(w, c, _) =>
      var fill := SpaceToRead(w, s.rp, |s.buf|);
      if fill == 0 then s.(reader := RIdle)
      else
        var (n1, n2) := Split(s.rp, Min(c, fill), |s.buf|);
        s.(reader := RCopying(n1, n2, 0))
    case RCopying(n, rest, i) =>
      if i < n then s.(got := s.got + [s.buf[s.rp + i]], reader := RCopying(n, rest, i + 1))
      else s.(rp := (s.rp + n) % |s.buf|, freed := s.freed + n,
              reader := if rest != 0 then RCopying(rest, 0, 0) else RIdle)
  }

  function WriterStep(s: State, src: seq<Byte>): State
    requires Typed(s)
  {
    match s.writer
    case WIdle => s.(writer := WLoaded(s.rp, src, s.freed))
    case WLoaded(r, d, _) =>
      var room := SpaceToWrite(s.wp, r, |s.buf|);
      if room == 0 then s.(writer := WIdle)
      else
        var n := Min(|d|, room);
        var (n1, n2) := Split(s.wp, n, |s.buf|);
        s.(writer := WCopying(d[..n], n1, n2, 0), offered := s.offered + d[..n])
    case WCopying(d, n, rest, i) =>
      if i < n then s.(buf := s.buf[s.wp + i := d[i]], writer := WCopying(d, n, rest, i + 1))
      else s.(wp := (s.wp + n) % |s.buf|, sent := s.sent + d[..n],
              writer := if rest != 0 then WCopying(d[n..], rest, 0, 0) else WIdle)
  }

  function Step(s: State, a: Action): State
    requires Typed(s)
  {
    match a
    case ReaderMoves(cnt) => ReaderStep(s, cnt)
    case WriterMoves(src) => WriterStep(s, src)
  }

  /** The cell of the t-th byte of the stream. */
  function Cell(t: nat, size: nat): (c: nat)
    requires size > 0
    ensures c < size
  {
    t % size
  }

  // ---- the invariant --------------------------------------------------------------

  /** The pointers are the counters modulo the size, and the unread bytes are in their places. */
  ghost predicate Sound(s: State) {
    && Typed(s) && s.freed <= |s.sent| < s.freed + |s.buf|
    && s.wp == Cell(|s.sent|, |s.buf|) && s.rp == Cell(s.freed, |s.buf|)
    && Unread(s.buf, s.sent, s.freed)
  }

  /** The published bytes that have not been given back are in their cells. */
  ghost predicate Unread(buf: seq<Byte>, sent: seq<Byte>, freed: nat)
    requires |buf| > 0
  {
    forall t :: freed <= t < |sent| ==> buf[Cell(t, |buf|)] == sent[t]
  }

  ghost predicate ReaderSound(s: State)
    requires Sound(s)
  {
    match s.reader
    case RIdle => s.got == s.sent[..s.freed]
    case RLoaded(w, _, seen) => s.got == s.sent[..s.freed] && s.freed <= seen <= |s.sent| && w == Cell(seen, |s.buf|)
    case RCopying(n, rest, i) =>
      && s.freed + n + rest <= |s.sent| && s.got == s.sent[..s.freed + i]
      && (rest > 0 ==> s.rp + n == |s.buf| && rest <= |s.buf|)
  }

  ghost predicate WriterSound(s: State)
    requires Sound(s)
  {
    match s.writer
    case WIdle => s.sent == s.offered
    case WLoaded(r, _, seen) => s.sent == s.offered && seen <= s.freed && |s.sent| < seen + |s.buf|
      && r == Cell(seen, |s.buf|)
    case WCopying(d, n, rest, i) =>
      && s.sent + d == s.offered && |s.sent| + |d| < s.freed + |s.buf|
      && (rest > 0 ==> s.wp + n == |s.buf| && rest <= |s.buf|)
      && forall j :: 0 <= j < i ==> s.buf[s.wp + j] == d[j]
  }

  ghost predicate Inv(s: State) {
    Sound(s) && ReaderSound(s) && WriterSound(s)
  }

  // ---- arithmetic of the pointers -------------------------------------------------

  /** Two counters less than a lap apart: how their cells lie. */
  lemma Lap(a: nat, b: nat, size: nat)
    requires size > 0 && b <= a < b + size
    ensures a - b == if Cell(a, size) >= Cell(b, size) then Cell(a, size) - Cell(b, size)
      else Cell(a, size) - Cell(b, size) + size
  {
    Division.Lap(a, b, size);
  }

  lemma Offset(a: nat, i: nat, size: nat)
    requires size > 0 && Cell(a, size) + i <= size
    ensures Cell(a + i, size) == (Cell(a, size) + i) % size == if Cell(a, size) + i == size then 0
      else Cell(a, size) + i
  {
    Division.Offset(a, i, size);
  }

  // ---- every step keeps the invariant ---------------------------------------------

  /** The writer fills a cell that holds no unread byte. */
  lemma StoreMissesUnread(s: State, t: nat)
    requires Inv(s) && s.writer.WCopying? && s.writer.i < s.writer.n && s.freed <= t < |s.sent|
    ensures Cell(t, |s.buf|) != s.wp + s.writer.i
  {
    hide Cell, Unread, ReaderSound;
    Offset(|s.sent|, s.writer.i, |s.buf|);
    Lap(|s.sent| + s.writer.i, t, |s.buf|);
  }

  lemma InitSound(size: nat)
    requires 0 < size <= MAX_SIZE
    ensures Inv(Init(size))
  {
  }

  lemma ReaderLoads(s: State)
    requires Inv(s) && s.reader.RLoaded?
    ensures Inv(ReaderStep(s, 0))
  {
    hide Cell, Unread, SpaceToRead, Split;
    Lap(s.reader.seen, s.freed, |s.buf|);
  }

  lemma ReaderCopies(s: State)
    requires Inv(s) && s.reader.RCopying? && s.reader.i < s.reader.n
    ensures Inv(ReaderStep(s, 0))
  {
    hide Cell;
    var i := s.reader.i;
    Offset(s.freed, i, |s.buf|);
    assert s.buf[Cell(s.freed + i, |s.buf|)] == s.sent[s.freed + i];
  }

  lemma ReaderPublishes(s: State)
    requires Inv(s) && s.reader.RCopying? && s.reader.i == s.reader.n
    ensures Inv(ReaderStep(s, 0))
  {
    hide Cell;
    Offset(s.freed, s.reader.n, |s.buf|);
    assert Unread(s.buf, s.sent, s.freed + s.reader.n);
  }

  lemma ReaderKeeps(s: State, cnt: nat)
    requires Inv(s)
    ensures Inv(ReaderStep(s, cnt))
  {
    hide Cell, Unread;
    if s.reader.RLoaded? {
      ReaderLoads(s);
    } else if s.reader.RCopying? && s.reader.i < s.reader.n {
      ReaderCopies(s);
    } else if s.reader.RCopying? {
      ReaderPublishes(s);
    }
  }

  lemma WriterLoads(s: State)
    requires Inv(s) && s.writer.WLoaded?
    ensures Inv(WriterStep(s, []))
  {
    hide Cell, Unread, SpaceToRead, SpaceToWrite, Split;
    Lap(|s.sent|, s.writer.seen, |s.buf|);
  }

  lemma WriterStores(s: State)
    requires Inv(s) && s.writer.WCopying? && s.writer.i < s.writer.n
    ensures Inv(WriterStep(s, []))
  {
    hide Cell;
    forall t | s.freed <= t < |s.sent|
      ensures Cell(t, |s.buf|) != s.wp + s.writer.i
    {
      StoreMissesUnread(s, t);
    }
  }

  lemma UnreadGrows(buf: seq<Byte>, sent: seq<Byte>, freed: nat, d: seq<Byte>)
    requires |buf| > 0 && Unread(buf, sent, freed) && Cell(|sent|, |buf|) + |d| <= |buf|
    requires forall j :: 0 <= j < |d| ==> buf[Cell(|sent|, |buf|) + j] == d[j]
    ensures Unread(buf, sent + d, freed)
  {
    hide Cell;
    forall t | |sent| <= t < |sent| + |d|
      ensures buf[Cell(t, |buf|)] == d[t - |sent|]
    {
      Offset(|sent|, t - |sent|, |buf|);
    }
  }

  lemma WriterPublishes(s: State)
    requires Inv(s) && s.writer.WCopying? && s.writer.i == s.writer.n
    ensures Inv(WriterStep(s, []))
  {
    hide Cell, Unread;
    Offset(|s.sent|, s.writer.n, |s.buf|);
    UnreadGrows(s.buf, s.sent, s.freed, s.writer.src[..s.writer.n]);
    assert s.writer.src == s.writer.src[..s.writer.n] + s.writer.src[s.writer.n..];
  }

  lemma WriterKeeps(s: State, src: seq<Byte>)
    requires Inv(s)
    ensures Inv(WriterStep(s, src))
  {
    hide Cell, Unread;
    if s.writer.WLoaded? {
      WriterLoads(s);
    } else if s.writer.WCopying? && s.writer.i < s.writer.n {
      WriterStores(s);
    } else if s.writer.WCopying? {
      WriterPublishes(s);
    }
  }

  // ---- whole runs -----------------------------------------------------------------

  ghost function RunFrom(s: State, actions: seq<Action>): State
    requires Inv(s)
    ensures Inv(RunFrom(s, actions)) && |RunFrom(s, actions).buf| == |s.buf|
    decreases |actions|
  {
    if actions == [] then s
    else
      StepKeeps(s, actions[0]);
      hide Inv, Step;
      RunFrom(Step(s, actions[0]), actions[1..])
  }

  lemma StepSize(s: State, a: Action)
    requires Typed(s)
    ensures |Step(s, a).buf| == |s.buf|
  {
    hide SpaceToRead, SpaceToWrite, Split;
  }

  lemma StepKeeps(s: State, a: Action)
    requires Inv(s)
    ensures Inv(Step(s, a)) && |Step(s, a).buf| == |s.buf|
  {
    StepSize(s, a);
    hide Inv, ReaderStep, WriterStep;
    match a
    case ReaderMoves(cnt) => ReaderKeeps(s, cnt);
    case WriterMoves(src) => WriterKeeps(s, src);
  }

  /** In every interleaving the reader has got a prefix of what was published, which is a prefix of
      what was accepted; nothing is lost, repeated or reordered, and the ring never holds more than
      size-1 unread bytes. */
  lemma DeliveredInOrder(size: nat, actions: seq<Action>)
    requires 0 < size <= MAX_SIZE
    ensures Inv(Init(size))
    ensures var s := RunFrom(Init(size), actions);
      && s.got <= s.sent <= s.offered && s.freed <= |s.got| && |s.sent| - s.freed < size
      && (s.reader.RIdle? ==> s.got == s.sent[..s.freed])
      && (s.writer.WIdle? ==> s.sent == s.offered)
  {
    InitSound(size);
    hide Inv, RunFrom, Init;
    InvDelivers(RunFrom(Init(size), actions));
    assert |Init(size).buf| == size by {
      InitSize(size);
    }
  }

  lemma InitSize(size: nat)
    requires size > 0
    ensures |Init(size).buf| == size
  {
  }

  lemma InvDelivers(s: State)
    requires Inv(s)
    ensures s.got <= s.sent <= s.offered && s.freed <= |s.got| && |s.sent| - s.freed < |s.buf|
    ensures (s.reader.RIdle? ==> s.got == s.sent[..s.freed]) && (s.writer.WIdle? ==> s.sent == s.offered)
  {
    hide Cell, Unread;
  }

  /** No step of the writer, in any reachable state, changes a byte that is still unread,
      be it published or just being copied by the reader. */
  lemma WriterSparesUnread(size: nat, actions: seq<Action>, src: seq<Byte>, t: nat)
    requires 0 < size <= MAX_SIZE
    ensures Inv(Init(size))
    ensures var s := RunFrom(Init(size), actions);
      s.freed <= t < |s.sent| ==>
        && |WriterStep(s, src).buf| == size
        && WriterStep(s, src).buf[Cell(t, size)] == s.buf[Cell(t, size)] == s.sent[t]
  {
    InitSound(size);
    var s := RunFrom(Init(size), actions);
    if s.freed <= t < |s.sent| && s.writer.WCopying? && s.writer.i < s.writer.n {
      StoreMissesUnread(s, t);
    }
  }

  // ---- what the calls asked for ---------------------------------------------------

  /** A call of ringbuffer_write that has looked at the read pointer: its argument, and the room there was then. */
  datatype WriteCall = NoWrite | WriteCall(src: seq<Byte>, room: int)

  /** A call of ringbuffer_read that has looked at the write pointer: its argument, and the unread bytes there were. */
  datatype ReadCall = NoRead | ReadCall(cnt: nat, fill: int)

  /** The bytes that the write calls of a run ask to have written, as far as there was room when they looked: the first
      bytes of their arguments, one call after the other. `call` is the call under way at the start of the run. */
  ghost function Submitted(s: State, call: WriteCall, actions: seq<Action>): seq<Byte>
    requires Inv(s) && (call.WriteCall? ==> call.room >= 0)
    decreases |actions|
  {
    if actions == [] then []
    else
      StepKeeps(s, actions[0]);
      var t, rest := Step(s, actions[0]), actions[1..];
      match actions[0]
      case ReaderMoves(_) => Submitted(t, call, rest)
      case WriterMoves(src) =>
        if s.writer.WIdle? then Submitted(t, WriteCall(src, |s.buf| - 1 - (|s.sent| - s.freed)), rest)
        else if call.WriteCall? then call.src[..Min(|call.src|, call.room)] + Submitted(t, NoWrite, rest)
        else Submitted(t, NoWrite, rest)
  }

  /** How many bytes the read calls of a run ask for, as far as there were any when they looked. */
  ghost function Requested(s: State, call: ReadCall, actions: seq<Action>): nat
    requires Inv(s) && (call.ReadCall? ==> call.fill >= 0)
    decreases |actions|
  {
    if actions == [] then 0
    else
      StepKeeps(s, actions[0]);
      var t, rest := Step(s, actions[0]), actions[1..];
      match actions[0]
      case WriterMoves(_) => Requested(t, call, rest)
      case ReaderMoves(cnt) =>
        if s.reader.RIdle? then Requested(t, ReadCall(cnt, |s.sent| - s.freed), rest)
        else if call.ReadCall? then Min(call.cnt, call.fill) + Requested(t, NoRead, rest)
        else Requested(t, NoRead, rest)
  }

  /** The writer's state is about this call. */
  ghost predicate WriterAbout(s: State, call: WriteCall) {
    match s.writer
    case WIdle => call == NoWrite
    case WLoaded(_, src, seen) => call == WriteCall(src, |s.buf| - 1 - (|s.sent| - seen))
    case WCopying(_, _, _, _) => call == NoWrite
  }

  ghost predicate ReaderAbout(s: State, call: ReadCall) {
    match s.reader
    case RIdle => call == NoRead
    case RLoaded(_, cnt, seen) => call == ReadCall(cnt, seen - s.freed)
    case RCopying(_, _, _) => call == NoRead
  }

  lemma WriterLooks(s: State, src: seq<Byte>)
    requires Inv(s) && s.writer.WIdle?
    ensures var t := WriterStep(s, src);
      && 0 <= |s.buf| - 1 - (|s.sent| - s.freed)
      && WriterAbout(t, WriteCall(src, |s.buf| - 1 - (|s.sent| - s.freed)))
      && t.offered == s.offered
  {
    hide Cell, Unread;
  }

  lemma WriterAccepts(s: State, call: WriteCall, src: seq<Byte>)
    requires Inv(s) && WriterAbout(s, call) && !s.writer.WIdle?
    ensures call.WriteCall? ==> call.room >= 0
    ensures var t := WriterStep(s, src);
      && WriterAbout(t, NoWrite)
      && t.offered == s.offered + if call.WriteCall? then call.src[..Min(|call.src|, call.room)] else []
  {
    hide Cell, Unread, SpaceToRead, SpaceToWrite, Split;
    if s.writer.WLoaded? {
      Lap(|s.sent|, s.writer.seen, |s.buf|);
    }
  }

  lemma ReaderLooks(s: State, cnt: nat)
    requires Inv(s) && s.reader.RIdle?
    ensures var t := ReaderStep(s, cnt);
      ReaderAbout(t, ReadCall(cnt, |s.sent| - s.freed)) && ReadTarget(t) == ReadTarget(s) && |s.sent| >= s.freed
  {
    hide Cell, Unread;
  }

  lemma ReaderTakes(s: State, call: ReadCall, cnt: nat)
    requires Inv(s) && ReaderAbout(s, call) && !s.reader.RIdle?
    ensures call.ReadCall? ==> call.fill >= 0
    ensures var t := ReaderStep(s, cnt);
      && ReaderAbout(t, NoRead)
      && ReadTarget(t) == ReadTarget(s) + if call.ReadCall? then Min(call.cnt, call.fill) else 0
  {
    hide Cell, Unread, SpaceToRead, SpaceToWrite, Split;
    if s.reader.RLoaded? {
      Lap(s.reader.seen, s.freed, |s.buf|);
    }
  }

  /** A step of the other thread leaves a call alone. */
  lemma OthersCall(s: State, wc: WriteCall, rc: ReadCall, cnt: nat, src: seq<Byte>)
    requires Inv(s)
    ensures var t := ReaderStep(s, cnt); (WriterAbout(s, wc) ==> WriterAbout(t, wc)) && t.offered == s.offered
    ensures var t := WriterStep(s, src); (ReaderAbout(s, rc) ==> ReaderAbout(t, rc)) && ReadTarget(t) == ReadTarget(s)
  {
    hide Cell, Unread, SpaceToRead, SpaceToWrite, Split;
  }

  lemma RoomLeft(s: State, call: WriteCall)
    requires Inv(s) && WriterAbout(s, call)
    ensures call.WriteCall? ==> call.room >= 0
  {
    hide Cell, Unread;
  }

  lemma FillLeft(s: State, call: ReadCall)
    requires Inv(s) && ReaderAbout(s, call)
    ensures call.ReadCall? ==> call.fill >= 0
  {
    hide Cell, Unread;
  }

  lemma InvTyped(s: State)
    requires Inv(s)
    ensures Typed(s)
  {
    hide Typed;
  }

  /** What has been accepted in a run is what its write calls asked for. */
  lemma {:induction false} OfferedIsSubmitted(s: State, call: WriteCall, actions: seq<Action>)
    requires Inv(s) && WriterAbout(s, call)
    ensures call.WriteCall? ==> call.room >= 0
    ensures RunFrom(s, actions).offered == s.offered + Submitted(s, call, actions)
    decreases |actions|
  {
    hide Inv, Typed, WriterAbout, ReaderStep, WriterStep;
    InvTyped(s);
    RoomLeft(s, call);
    if actions != [] {
      var a, rest := actions[0], actions[1..];
      StepKeeps(s, a);
      match a {
        case ReaderMoves(cnt) =>
          OthersCall(s, call, NoRead, cnt, []);
          OfferedIsSubmitted(ReaderStep(s, cnt), call, rest);
        case WriterMoves(src) =>
          if s.writer.WIdle? {
            WriterLooks(s, src);
            OfferedIsSubmitted(WriterStep(s, src), WriteCall(src, |s.buf| - 1 - (|s.sent| - s.freed)), rest);
          } else {
            WriterAccepts(s, call, src);
            OfferedIsSubmitted(WriterStep(s, src), NoWrite, rest);
          }
      }
    }
  }

  /** What the read calls of a run have delivered, or have begun to deliver, is what they asked for. */
  lemma {:induction false} TargetIsRequested(s: State, call: ReadCall, actions: seq<Action>)
    requires Inv(s) && ReaderAbout(s, call)
    ensures call.ReadCall? ==> call.fill >= 0
    ensures ReadTarget(RunFrom(s, actions)) == ReadTarget(s) + Requested(s, call, actions)
    decreases |actions|
  {
    hide Inv, Typed, ReaderAbout, ReaderStep, WriterStep, ReadTarget;
    InvTyped(s);
    FillLeft(s, call);
    if actions != [] {
      var a, rest := actions[0], actions[1..];
      StepKeeps(s, a);
      match a {
        case WriterMoves(src) =>
          OthersCall(s, NoWrite, call, 0, src);
          TargetIsRequested(WriterStep(s, src), call, rest);
        case ReaderMoves(cnt) =>
          if s.reader.RIdle? {
            ReaderLooks(s, cnt);
            TargetIsRequested(ReaderStep(s, cnt), ReadCall(cnt, |s.sent| - s.freed), rest);
          } else {
            ReaderTakes(s, call, cnt);
            TargetIsRequested(ReaderStep(s, cnt), NoRead, rest);
          }
      }
    }
  }

  /** In every interleaving the bytes delivered are a prefix of those the write calls asked to have written, call after
      call, and when no read is under way they are as many as the read calls asked for. */
  lemma DeliveredAsAsked(size: nat, actions: seq<Action>)
    requires 0 < size <= MAX_SIZE
    ensures Inv(Init(size))
    ensures var s, t := Init(size), RunFrom(Init(size), actions);
      && t.got <= Submitted(s, NoWrite, actions)
      && t.offered == Submitted(s, NoWrite, actions)
      && (t.reader.RIdle? ==> |t.got| == Requested(s, NoRead, actions))
      && (t.writer.WIdle? ==> t.sent == Submitted(s, NoWrite, actions))
  {
    DeliveredInOrder(size, actions);
    hide Inv, RunFrom, Submitted, Requested;
    OfferedIsSubmitted(Init(size), NoWrite, actions);
    TargetIsRequested(Init(size), NoRead, actions);
    assert [] + Submitted(Init(size), NoWrite, actions) == Submitted(Init(size), NoWrite, actions);
  }

  // ---- calls come to an end -------------------------------------------------------

  /** How many bytes will have been given back when the read call under way returns. */
  function ReadTarget(s: State): nat {
    if s.reader.RCopying? then s.freed + s.reader.n + s.reader.rest else s.freed
  }

  /** The reader's own steps until its call returns. */
  function ReadWork(r: Reader): nat
    requires r.RCopying? ==> r.i <= r.n
  {
    if r.RCopying? then r.n - r.i + 1 + if r.rest > 0 then r.rest + 1 else 0 else 0
  }

  function WriteWork(w: Writer): nat
    requires w.WCopying? ==> w.i <= w.n
  {
    if w.WCopying? then w.n - w.i + 1 + if w.rest > 0 then w.rest + 1 else 0 else 0
  }

  /** A read gets what had been published when it looked, up to cnt bytes; a write accepts what there
      was room for when it looked. */
  lemma CallSizes(s: State)
    requires Inv(s)
    ensures s.reader.RLoaded? ==>
      ReadTarget(ReaderStep(s, 0)) == s.freed + Min(s.reader.cnt, s.reader.seen - s.freed)
    ensures s.writer.WLoaded? ==>
      var n := Min(|s.writer.src|, |s.buf| - 1 - (|s.sent| - s.writer.seen));
      WriterStep(s, []).offered == s.offered + s.writer.src[..n]
  {
    hide Cell, Unread, Split, SpaceToRead, SpaceToWrite;
    if s.reader.RLoaded? {
      Lap(s.reader.seen, s.freed, |s.buf|);
    }
    if s.writer.WLoaded? {
      Lap(|s.sent|, s.writer.seen, |s.buf|);
    }
  }

  lemma ReadCallStep(s: State, a: Action)
    requires Typed(s) && s.reader.RCopying? && Typed(Step(s, a))
    ensures !Step(s, a).reader.RLoaded? && ReadTarget(Step(s, a)) == ReadTarget(s)
    ensures ReadWork(Step(s, a).reader) == ReadWork(s.reader) - if a.ReaderMoves? then 1 else 0
  {
    hide SpaceToRead, SpaceToWrite, Split;
  }

  lemma WriteCallStep(s: State, a: Action)
    requires Typed(s) && s.writer.WCopying? && Typed(Step(s, a))
    ensures !Step(s, a).writer.WLoaded? && Step(s, a).offered == s.offered
    ensures WriteWork(Step(s, a).writer) == WriteWork(s.writer) - if a.WriterMoves? then 1 else 0
  {
    hide SpaceToRead, SpaceToWrite, Split;
  }

  function ReaderSteps(actions: seq<Action>): nat {
    if actions == [] then 0 else (if actions[0].ReaderMoves? then 1 else 0) + ReaderSteps(actions[1..])
  }

  /** Whatever the writer does meanwhile, a read call returns after its own steps and has then delivered
      exactly the bytes it found; their number was fixed when it looked at the write pointer. */
  lemma {:induction false} ReadReturns(s: State, actions: seq<Action>)
    requires Inv(s) && s.reader.RCopying? && ReaderSteps(actions) == ReadWork(s.reader)
    requires actions[|actions| - 1].ReaderMoves?
    ensures var t := RunFrom(s, actions);
      t.reader.RIdle? && t.freed == ReadTarget(s) <= |t.sent| && t.got == t.sent[..ReadTarget(s)]
    decreases |actions|
  {
    hide Cell, Unread, Step;
    var a, rest := actions[0], actions[1..];
    StepKeeps(s, a);
    ReadCallStep(s, a);
    var s1 := Step(s, a);
    if s1.reader.RCopying? {
      ReadReturns(s1, rest);
    } else if rest != [] {
      LastReaderStep(rest);
      assert false;
    }
  }

  lemma {:induction false} LastReaderStep(actions: seq<Action>)
    requires actions != [] && actions[|actions| - 1].ReaderMoves?
    ensures ReaderSteps(actions) > 0
  {
    if |actions| > 1 {
      LastReaderStep(actions[1..]);
    }
  }

  /** The same for the writer: when a write call returns, all it accepted has been published. */
  lemma {:induction false} WriteReturns(s: State, actions: seq<Action>)
    requires Inv(s) && s.writer.WCopying? && |actions| - ReaderSteps(actions) == WriteWork(s.writer)
    requires actions[|actions| - 1].WriterMoves?
    ensures var t := RunFrom(s, actions);
      t.writer.WIdle? && t.sent == s.offered
    decreases |actions|
  {
    hide Cell, Unread, Step;
    var a, rest := actions[0], actions[1..];
    StepKeeps(s, a);
    WriteCallStep(s, a);
    var s1 := Step(s, a);
    if s1.writer.WCopying? {
      WriteReturns(s1, rest);
    } else if rest != [] {
      LastWriterStep(rest);
      assert false;
    }
  }

  lemma {:induction false} LastWriterStep(actions: seq<Action>)
    requires actions != [] && actions[|actions| - 1].WriterMoves?
    ensures ReaderSteps(actions) < |actions|
  {
    if |actions| > 1 {
      LastWriterStep(actions[1..]);
    }
  }

  /** While no call is under way the two pointers give the exact number of unread bytes and of free cells. */
  lemma SpaceIsExact(s: State)
    requires Inv(s)
    ensures SpaceToRead(s.wp, s.rp, |s.buf|) == |s.sent| - s.freed
    ensures SpaceToWrite(s.wp, s.rp, |s.buf|) == |s.buf| - 1 - (|s.sent| - s.freed)
  {
    Lap(|s.sent|, s.freed, |s.buf|);
  }
}
