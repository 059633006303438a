/**
 How an emitter cuts its audio buffer into packets and, in slicing mode, spreads the
 packets over timer ticks. uint16_t and uint8_t fields wrap around as they do in C.
 */
module Packets {
  import opened Division
  import opened Transmission

  const DATA_MAX: nat := 1436      // VBAN_DATA_MAX_SIZE
  const SAMPLES_MAX: nat := 256    // VBAN_SAMPLES_MAX_NB
  const U16: nat := 0x1_0000

  // ---- halving --------------------------------------------------------------------

  function Pow2(h: nat): (p: nat)
    ensures p > 0
  {
    if h == 0 then 1 else 2 * Pow2(h - 1)
  }

  /** x halved h times, rounding down each time. */
  function Shr(x: nat, h: nat): nat {
    if h == 0 then x else Shr(x, h - 1) / 2
  }

  lemma {:induction false} ShrBelow(x: nat, h: nat)
    ensures Shr(x, h) * Pow2(h) <= x
  {
    if h > 0 {
      ShrBelow(x, h - 1);
      HalfBelow(Shr(x, h - 1), Pow2(h - 1));
    }
  }

  lemma HalfBelow(s: nat, p: nat)
    ensures (s / 2) * (2 * p) <= s * p
  {
    MulMonotone(2 * (s / 2), s, p);
    assert (s / 2) * (2 * p) == (2 * (s / 2)) * p;
  }

  lemma {:induction false} ShrExact(y: nat, h: nat)
    ensures Shr(y * Pow2(h), h) == y
    decreases h
  {
    if h > 0 {
      assert y * (2 * Pow2(h - 1)) == (2 * y) * Pow2(h - 1);
      ShrExact(2 * y, h - 1);
    }
  }

  lemma {:induction false} Pow2Adds(a: nat, b: nat)
    ensures Pow2(a + b) == Pow2(a) * Pow2(b)
  {
    if a > 0 {
      Pow2Adds(a - 1, b);
      DoubleProduct(Pow2(a - 1), Pow2(b));
    }
  }

  lemma DoubleProduct(x: nat, y: nat)
    ensures (2 * x) * y == 2 * (x * y)
  {
  }

  lemma {:induction false} Pow2Grows(a: nat, b: nat)
    requires a <= b
    ensures Pow2(a) <= Pow2(b)
  {
    if a < b {
      Pow2Grows(a, b - 1);
    }
  }

  // ---- the odd part of a number ---------------------------------------------------

  /** What remains when n has been halved as long as it is even. */
  function OddPart(n: nat): (m: nat)
    requires n > 0
    ensures 0 < m <= n && m % 2 == 1
  {
    if n % 2 == 0 then OddPart(n / 2) else n
  }

  /** How often n can be halved. */
  function Twos(n: nat): nat
    requires n > 0
  {
    if n % 2 == 0 then 1 + Twos(n / 2) else 0
  }

  lemma {:induction false} OddTimesTwos(n: nat)
    requires n > 0
    ensures n == OddPart(n) * Pow2(Twos(n))
  {
    if n % 2 == 0 {
      OddTimesTwos(n / 2);
      DoubleProduct(Pow2(Twos(n / 2)), OddPart(n / 2));
    }
  }

  lemma {:induction false} OddPartOfPow2(q: nat)
    ensures OddPart(Pow2(q)) == 1 && Twos(Pow2(q)) == q
  {
    if q > 0 {
      OddPartOfPow2(q - 1);
    }
  }

  /** An odd multiple of 2^b is divided by no higher power of two. */
  lemma NoMoreTwos(m: nat, b: nat, q: nat, h: nat)
    requires m % 2 == 1 && m * Pow2(b) == q * Pow2(h)
    ensures h <= b
  {
    if h > b {
      hide Pow2;
      Pow2Adds(h - b, b);
      CommonFactor(m, q, Pow2(h - b), Pow2(b));
      Pow2Doubles(h - b - 1);
      EvenProduct(q, Pow2(h - b - 1));
      assert false;
    }
  }

  lemma CommonFactor(m: nat, q: nat, x: nat, y: nat)
    requires y > 0 && m * y == q * (x * y)
    ensures m == q * x
  {
    assert q * (x * y) == (q * x) * y;
    SameFactor(m, q * x, y);
  }

  lemma EvenProduct(q: nat, x: nat)
    ensures (q * (2 * x)) % 2 == 0
  {
    assert q * (2 * x) == 2 * (q * x);
  }

  /** The divisors of a power of two are powers of two. */
  lemma {:induction false} DivisorOfPow2(a: nat, n: nat, e: nat)
    requires n > 0 && a * n == Pow2(e)
    ensures OddPart(n) == 1
    decreases e, n
  {
    if e == 0 {
      assert n == 1 by {
        assert n >= 2 && a >= 1 ==> a * n >= 2;
        assert a == 0 ==> a * n == 0;
      }
    } else if n % 2 == 0 {
      assert a * n == 2 * (a * (n / 2));
      DivisorOfPow2(a, n / 2, e - 1);
    } else {
      EvenFactor(a, n);
      assert a * n == 2 * ((a / 2) * n);
      DivisorOfPow2(a / 2, n, e - 1);
    }
  }

  lemma EvenFactor(a: nat, n: nat)
    requires n % 2 == 1 && (a * n) % 2 == 0
    ensures a % 2 == 0
  {
    var k := n / 2;
    assert a * n == 2 * (a * k) + a;
  }

  // ---- halving the packet ---------------------------------------------------------

  /** How often the packet is halved: until both limits are met. */
  function Halvings(len: nat, frames: nat, max: nat): nat
    requires max > 0
    decreases len + frames
  {
    if len > DATA_MAX || frames > max then 1 + Halvings(len / 2, frames / 2, max) else 0
  }

  lemma {:induction false} HalvingsWithin(len: nat, frames: nat, max: nat, h: nat)
    requires max > 0 && len <= DATA_MAX * Pow2(h) && frames <= max * Pow2(h)
    ensures Halvings(len, frames, max) <= h
    decreases h
  {
    if h > 0 && (len > DATA_MAX || frames > max) {
      assert DATA_MAX * (2 * Pow2(h - 1)) == 2 * (DATA_MAX * Pow2(h - 1));
      assert max * (2 * Pow2(h - 1)) == 2 * (max * Pow2(h - 1));
      HalvingsWithin(len / 2, frames / 2, max, h - 1);
    }
  }

  /** The length that `pacdatalen` takes over from the buffer: its low 16 bits. */
  function Low16(x: nat): nat {
    x % U16
  }

  /** The 8-bit header field that holds the frames of a packet less one. */
  function FormatNbs(frames: nat): nat {
    (frames as int - 1) % 256
  }

  /** Ticks that send one buffer. */
  function Transactions(nframes: nat, txNframes: nat): nat
    requires txNframes > 0
  {
    nframes / txNframes
  }

  /** Packets sent by one tick. */
  function PerTick(pacnum: nat, txNframes: nat, nframes: nat): nat
    requires nframes > 0
  {
    pacnum * txNframes / nframes
  }

  class TxContext {
    var nframes: nat
    var nbinputs: nat
    var sampleBytes: nat    // VBanBitResolutionSize of the output format
    var samplerate: nat
    var slicing: bool

    var pacnum: nat
    var vbanNframesPac: nat
    var txbuflen: nat
    var pacdatalen: nat
    var txNframes: nat
    var formatNbs: nat
    var txTransactions: nat
    var pacnumT32: nat
    var txdataInd: nat

    ghost predicate Configured()
      reads this
    {
      0 < nframes < U16 && 0 < nbinputs < U16 && 0 < sampleBytes <= 8
    }

    ghost function FrameBytes(): nat
      reads this`nbinputs, this`sampleBytes
    {
      nbinputs * sampleBytes
    }

    /** Bytes of one audio buffer. */
    function BufferBytes(): nat
      reads this`nframes, this`nbinputs, this`sampleBytes
    {
      nframes * (nbinputs * sampleBytes)
    }

    /** The frame limit of a packet: the slice length in slicing mode. */
    function MaxPacketFrames(): (m: nat)
      reads this`slicing, this`samplerate
    {
      if slicing then SliceFrames(samplerate) else SAMPLES_MAX
    }

    ghost function Halved(): nat
      reads this`nframes, this`nbinputs, this`sampleBytes, this`slicing, this`samplerate
    {
      Halvings(Low16(BufferBytes()), nframes, MaxPacketFrames())
    }

    method TuneTxPackets()
      requires Configured()
      modifies this`pacnum, this`vbanNframesPac, this`txbuflen, this`pacdatalen, this`txNframes, this`formatNbs,
               this`slicing, this`txTransactions, this`pacnumT32
      ensures pacnum == Pow2(old(Halved())) && old(Halved()) <= 10 && txbuflen == BufferBytes()
      ensures vbanNframesPac == Shr(nframes, old(Halved())) && pacdatalen == Shr(Low16(txbuflen), old(Halved()))
      ensures pacdatalen <= DATA_MAX
      ensures vbanNframesPac <= if old(slicing) then SliceFrames(samplerate) else SAMPLES_MAX
      ensures formatNbs == FormatNbs(vbanNframesPac)
      ensures slicing == (old(slicing) && samplerate < 352800)
      ensures txNframes == if old(slicing) then SliceFrames(samplerate) else old(txNframes)
      ensures slicing ==>
        && txTransactions == Transactions(nframes, txNframes) && pacnumT32 == PerTick(pacnum, txNframes, nframes)
      ensures !slicing ==> txTransactions == old(txTransactions) && pacnumT32 == old(pacnumT32)
      ensures forall txbuf: Bytes | |txbuf| == txbuflen ::
        Faithful(txbuf, pacnum, pacdatalen, formatNbs, FrameBytes())
        <==> FitsPackets(nframes, FrameBytes(), if old(slicing) then SliceFrames(samplerate) else SAMPLES_MAX)
      ensures slicing ==> forall txbuf: Bytes | |txbuf| == txbuflen ::
        RoundFaithful(txbuf, pacdatalen, txTransactions, pacnumT32, formatNbs, FrameBytes())
        <==> FitsSlices(nframes, FrameBytes(), txNframes)
    {
      TunedExactly(nframes, nbinputs * sampleBytes, MaxPacketFrames());
      hide TxContext.BufferBytes, Halvings, Shr, Pow2, SliceFrames, Transactions, PerTick, FormatNbs, Low16;
      hide Faithful, RoundFaithful, FitsPackets, FitsSlices;
      var max := MaxPacketFrames();
      HalvingBudget(Low16(BufferBytes()), nframes, max);
      Cut(max);
      if slicing {
        txNframes := SliceFrames(samplerate);
        if samplerate >= 352800 {
          slicing := false;
        }
      }
      formatNbs := FormatNbs(vbanNframesPac);
      if slicing {
        SlicesInFields(nframes, Low16(BufferBytes()), txNframes);
        txTransactions := Low16(Transactions(nframes, txNframes));
        pacnumT32 := Low16(PerTick(pacnum, txNframes, nframes));
      }
    }

    /** The halving loop. */
    method Cut(max: nat)
      requires max > 0 && Halvings(Low16(BufferBytes()), nframes, max) <= 10
      modifies this`pacnum, this`vbanNframesPac, this`txbuflen, this`pacdatalen
      ensures var h := Halvings(Low16(BufferBytes()), nframes, max);
        && pacnum == Pow2(h) && txbuflen == BufferBytes()
        && vbanNframesPac == Shr(nframes, h) && pacdatalen == Shr(Low16(txbuflen), h)
      ensures pacdatalen <= DATA_MAX && vbanNframesPac <= max
    {
      hide TxContext.BufferBytes, Pow2, Low16;
      pacnum := 1;
      vbanNframesPac := nframes;
      txbuflen := BufferBytes();
      pacdatalen := Low16(txbuflen);
      ghost var h := 0;
      assert Pow2(0) == 1 by {
        DoubleFits(0);
      }
      ghost var total := Halvings(pacdatalen, nframes, max);
      while pacdatalen > DATA_MAX || vbanNframesPac > max
        invariant h + Halvings(pacdatalen, vbanNframesPac, max) == total
        invariant txbuflen == BufferBytes() && pacnum == Pow2(h) && vbanNframesPac == Shr(nframes, h)
          && pacdatalen == Shr(Low16(txbuflen), h)
        decreases pacdatalen + vbanNframesPac
      {
        DoubleFits(h);
        pacnum := pacnum * 2 % U16;
        vbanNframesPac := vbanNframesPac / 2;
        pacdatalen := pacdatalen / 2;
        h := h + 1;
      }
    }

    /** One timer tick's packets. */
    method SendT32Fragment(txbuf: Bytes) returns (log: seq<Bytes>)
      requires (txdataInd + 1) * pacnumT32 * pacdatalen <= |txbuf|
      ensures log == PayloadsFrom(txbuf, pacdatalen, txdataInd * pacnumT32, pacnumT32)
    {
      log := [];
      var pac, base := 0, txdataInd * pacnumT32;
      assert base + pacnumT32 == (txdataInd + 1) * pacnumT32;
      while pac < pacnumT32
        invariant pac <= pacnumT32
        invariant log == PayloadsFrom(txbuf, pacdatalen, base, pac)
      {
        var i := base + pac;
        IndexInside(i, base + pacnumT32, pacdatalen);
        log := log + [txbuf[i * pacdatalen..i * pacdatalen + pacdatalen]];
        assert PayloadsFrom(txbuf, pacdatalen, base, pac + 1)
            == PayloadsFrom(txbuf, pacdatalen, base, pac) + [PayloadAt(txbuf, pacdatalen, i)];
        pac := pac + 1;
      }
    }

    /** The timer thread: send a slice, then move on, going back to the first after the last. */
    method Tick(txbuf: Bytes) returns (log: seq<Bytes>)
      requires (txdataInd + 1) * pacnumT32 * pacdatalen <= |txbuf|
      modifies this`txdataInd
      ensures log == PayloadsFrom(txbuf, pacdatalen, old(txdataInd) * pacnumT32, pacnumT32)
      ensures txdataInd == NextIndex(old(txdataInd), txTransactions)
    {
      log := SendT32Fragment(txbuf);
      if txdataInd == txTransactions - 1 {
        txdataInd := 0;
      } else {
        txdataInd := (txdataInd + 1) % U16;
      }
    }
  }

  /** Slice length by sample rate; from 352800 Hz on slicing is switched off. */
  function SliceFrames(samplerate: nat): (f: nat)
    ensures f == 64 || f == 128 || f == 256
  {
    if samplerate < 88200 then 64 else if samplerate < 176400 then 128 else if samplerate < 352800 then 256
      else SAMPLES_MAX
  }

  /** A slice lasts at most 64/44100 s, and twice as many frames would last longer: the rates at which the length
      changes are those at which it has to. */
  lemma SliceDuration(samplerate: nat)
    ensures 44100 <= samplerate < 352800 ==>
      SliceFrames(samplerate) * 44100 <= 64 * samplerate < 2 * SliceFrames(samplerate) * 44100
    ensures samplerate < 44100 ==> SliceFrames(samplerate) == 64
  {
  }

  lemma Pow2Ten()
    ensures Pow2(10) == 1024
  {
    assert Pow2(5) == 32;
    Pow2Adds(5, 5);
  }

  lemma DoubleFits(h: nat)
    requires h < 10
    ensures Pow2(0) == 1 && Pow2(h) * 2 % U16 == Pow2(h + 1)
  {
    Pow2Ten();
    Pow2Grows(h + 1, 10);
  }

  lemma HalvingBudget(len: nat, frames: nat, max: nat)
    requires len < U16 && frames < U16 && max >= 64
    ensures Halvings(len, frames, max) <= 10
  {
    Pow2Ten();
    assert max * 1024 >= 64 * 1024;
    HalvingsWithin(len, frames, max, 10);
  }

  // ---- what the packets carry -----------------------------------------------------

  lemma IndexInside(i: nat, n: nat, len: nat)
    requires i < n
    ensures i * len + len <= n * len
  {
    assert (n - i - 1) * len >= 0;
    assert (n - i - 1) * len == n * len - i * len - len;
  }

  /** The payloads of n packets from packet i0 on; packets beyond the buffer are empty here. */
  function PayloadsFrom(txbuf: Bytes, len: nat, i0: nat, n: nat): (ps: seq<Bytes>)
    ensures |ps| == n
  {
    seq(n, k requires 0 <= k < n => PayloadAt(txbuf, len, i0 + k))
  }

  function PayloadAt(txbuf: Bytes, len: nat, i: nat): Bytes {
    if i * len + len <= |txbuf| then txbuf[i * len..i * len + len] else []
  }

  ghost function Concat(ps: seq<Bytes>): Bytes {
    if ps == [] then [] else Concat(ps[..|ps| - 1]) + ps[|ps| - 1]
  }

  lemma ConcatMore(ps: seq<Bytes>, p: Bytes)
    ensures Concat(ps + [p]) == Concat(ps) + p
  {
    assert (ps + [p])[..|ps|] == ps;
  }

  lemma PayloadsMore(txbuf: Bytes, len: nat, n: nat, a: nat)
    requires a == n * len && a + len <= |txbuf|
    ensures PayloadsFrom(txbuf, len, 0, n + 1) == PayloadsFrom(txbuf, len, 0, n) + [txbuf[a..a + len]]
  {
    assert PayloadAt(txbuf, len, n) == txbuf[a..a + len];
    var ps, qs := PayloadsFrom(txbuf, len, 0, n + 1), PayloadsFrom(txbuf, len, 0, n);
    forall k | 0 <= k <= n
      ensures ps[k] == (qs + [txbuf[a..a + len]])[k]
    {
      assert 0 + k == k;
    }
  }

  lemma {:induction false} ConcatPayloads(txbuf: Bytes, len: nat, n: nat)
    requires n * len <= |txbuf|
    ensures Concat(PayloadsFrom(txbuf, len, 0, n)) == txbuf[..n * len]
  {
    if n > 0 {
      hide Concat, PayloadsFrom;
      var a := (n - 1) * len;
      assert n * len == a + len;
      ConcatPayloads(txbuf, len, n - 1);
      PayloadsMore(txbuf, len, n - 1, a);
      ConcatMore(PayloadsFrom(txbuf, len, 0, n - 1), txbuf[a..a + len]);
      assert txbuf[..a + len] == txbuf[..a] + txbuf[a..a + len];
    }
  }

  /** Packets are good when each consists of whole frames, as many as its header says, and together
      they are the audio buffer. */
  ghost predicate Faithful(txbuf: Bytes, pacnum: nat, pacdatalen: nat, formatNbs: nat, frameBytes: nat) {
    pacdatalen == (formatNbs + 1) * frameBytes && Concat(PayloadsFrom(txbuf, pacdatalen, 0, pacnum)) == txbuf
  }

  lemma WholeSplit(nframes: nat, frameBytes: nat, h: nat)
    requires nframes > 0 && nframes % Pow2(h) == 0
    ensures Shr(nframes, h) > 0 && Shr(nframes * frameBytes, h) == Shr(nframes, h) * frameBytes
    ensures Pow2(h) * Shr(nframes * frameBytes, h) == nframes * frameBytes
  {
    hide Pow2, Shr;
    var y := Whole(nframes, Pow2(h));
    ShrExact(y, h);
    Regrouped(y, Pow2(h), frameBytes);
    ShrExact(y * frameBytes, h);
    assert y > 0;
  }

  lemma OnlyWholeSplit(nframes: nat, frameBytes: nat, h: nat, g: nat)
    requires frameBytes > 0 && Pow2(h) * (g * frameBytes) == nframes * frameBytes
    ensures nframes == g * Pow2(h) && Shr(nframes, h) == g && nframes % Pow2(h) == 0
  {
    var p := Pow2(h);
    assert p * (g * frameBytes) == (g * p) * frameBytes;
    SameFactor(g * p, nframes, frameBytes);
    ShrExact(g, h);
    DivMod(nframes, p, g, 0);
  }

  lemma CoverageInBytes(txbuf: Bytes, len: nat, n: nat)
    requires n * len <= |txbuf|
    ensures Concat(PayloadsFrom(txbuf, len, 0, n)) == txbuf <==> n * len == |txbuf|
  {
    ConcatPayloads(txbuf, len, n);
  }

  /** The packets are good exactly when the buffer length fits in 16 bits and the number of packets
      divides the number of frames. */
  lemma FaithfulWhenDivided(txbuf: Bytes, nframes: nat, frameBytes: nat, h: nat)
    requires nframes > 0 && frameBytes > 0 && Shr(nframes, h) <= 256 && |txbuf| == nframes * frameBytes
    ensures Faithful(txbuf, Pow2(h), Shr(Low16(|txbuf|), h), FormatNbs(Shr(nframes, h)), frameBytes)
            <==> |txbuf| < U16 && nframes % Pow2(h) == 0
  {
    hide Pow2, Shr, Faithful, FormatNbs;
    var p, f, len := Pow2(h), Shr(nframes, h), Shr(Low16(|txbuf|), h);
    var g := FormatNbs(f) + 1;
    FramesInHeader(f);
    ShrBelow(Low16(|txbuf|), h);
    assert len * p == p * len;
    FaithfulMeans(txbuf, p, len, FormatNbs(f), frameBytes);
    if |txbuf| < U16 && nframes % p == 0 {
      WholeSplit(nframes, frameBytes, h);
    }
    if len == g * frameBytes && p * len == |txbuf| {
      OnlyWholeSplit(nframes, frameBytes, h, g);
    }
  }

  /** A header can say 1 to 256 frames. */
  lemma FramesInHeader(f: nat)
    requires f <= 256
    ensures FormatNbs(f) + 1 == if f == 0 then 256 else f
  {
  }

  lemma FaithfulMeans(txbuf: Bytes, pacnum: nat, len: nat, formatNbs: nat, frameBytes: nat)
    requires pacnum * len <= |txbuf|
    ensures Faithful(txbuf, pacnum, len, formatNbs, frameBytes)
            <==> len == (formatNbs + 1) * frameBytes && pacnum * len == |txbuf|
  {
    CoverageInBytes(txbuf, len, pacnum);
  }

  /** What a user can check before configuring: the buffer length fits in 16 bits, and the odd part of the
      buffer, which no halving can split, fits in one packet. */
  predicate FitsPackets(nframes: nat, frameBytes: nat, max: nat)
    requires nframes > 0
  {
    nframes * frameBytes < U16 && OddPart(nframes) * frameBytes <= DATA_MAX && OddPart(nframes) <= max
  }

  /** The loop ends with both limits met. */
  lemma {:induction false} HalvingsEnd(len: nat, frames: nat, max: nat, h: nat)
    requires max > 0 && h == Halvings(len, frames, max)
    ensures Shr(len, h) <= DATA_MAX && Shr(frames, h) <= max
    decreases h
  {
    if h > 0 {
      HalvingsEnd(len / 2, frames / 2, max, h - 1);
      ShrFirst(len, h);
      ShrFirst(frames, h);
    }
  }

  lemma {:induction false} ShrFirst(x: nat, h: nat)
    requires h > 0
    ensures Shr(x, h) == Shr(x / 2, h - 1)
  {
    if h > 1 {
      ShrFirst(x, h - 1);
    }
  }

  /** The number of packets divides the number of frames exactly when the odd part of the buffer fits in one. */
  lemma HalvingsDivide(nframes: nat, frameBytes: nat, max: nat)
    requires nframes > 0 && max > 0
    ensures nframes % Pow2(Halvings(nframes * frameBytes, nframes, max)) == 0
            <==> OddPart(nframes) * frameBytes <= DATA_MAX && OddPart(nframes) <= max
  {
    hide Pow2, Halvings, OddPart, Twos, Shr;
    var h, m, b := Halvings(nframes * frameBytes, nframes, max), OddPart(nframes), Twos(nframes);
    OddTimesTwos(nframes);
    assert nframes * frameBytes == (m * frameBytes) * Pow2(b) by {
      Regrouped(m, Pow2(b), frameBytes);
    }
    if m * frameBytes <= DATA_MAX && m <= max {
      MulMonotone(m * frameBytes, DATA_MAX, Pow2(b));
      MulMonotone(m, max, Pow2(b));
      HalvingsWithin(nframes * frameBytes, nframes, max, b);
      Pow2Adds(b - h, h);
      assert nframes == (m * Pow2(b - h)) * Pow2(h);
      DivMod(nframes, Pow2(h), m * Pow2(b - h), 0);
    }
    if nframes % Pow2(h) == 0 {
      DividedParts(nframes, frameBytes, m, b, h);
      HalvingsEnd(nframes * frameBytes, nframes, max, h);
    }
  }

  lemma Regrouped(a: nat, p: nat, c: nat)
    ensures (a * p) * c == (a * c) * p
  {
  }

  lemma DividedParts(nframes: nat, frameBytes: nat, m: nat, b: nat, h: nat)
    requires m % 2 == 1 && nframes == m * Pow2(b) && nframes % Pow2(h) == 0
    ensures m <= Shr(nframes, h) && m * frameBytes <= Shr(nframes * frameBytes, h)
  {
    hide Pow2, Shr;
    var q := OddPartLeft(nframes, m, b, h);
    ShrExact(q, h);
    Regrouped(q, Pow2(h), frameBytes);
    ShrExact(q * frameBytes, h);
    MulMonotone(m, q, frameBytes);
  }

  lemma OddPartLeft(n: nat, m: nat, b: nat, h: nat) returns (q: nat)
    requires m % 2 == 1 && n == m * Pow2(b) && n % Pow2(h) == 0
    ensures n == q * Pow2(h) && m <= q
  {
    hide Pow2;
    q := Whole(n, Pow2(h));
    NoMoreTwos(m, b, q, h);
    Pow2Adds(b - h, h);
    CommonFactor(q, m, Pow2(b - h), Pow2(h));
    AtLeastOnce(m, Pow2(b - h));
  }

  lemma Whole(n: nat, p: nat) returns (q: nat)
    requires p > 0 && n % p == 0
    ensures n == q * p
  {
    q := n / p;
  }

  lemma AtLeastOnce(m: nat, p: nat)
    requires p > 0
    ensures m <= m * p
  {
    assert m * (p - 1) >= 0;
  }

  /** The packets the halving loop arrives at are good exactly when the buffer fits in packets. */
  lemma FaithfulExactly(txbuf: Bytes, nframes: nat, frameBytes: nat, max: nat)
    requires nframes > 0 && frameBytes > 0 && 0 < max <= 256 && |txbuf| == nframes * frameBytes
    ensures var h := Halvings(Low16(|txbuf|), nframes, max);
      Faithful(txbuf, Pow2(h), Shr(Low16(|txbuf|), h), FormatNbs(Shr(nframes, h)), frameBytes)
      <==> FitsPackets(nframes, frameBytes, max)
  {
    hide Faithful, Pow2, Shr, Halvings, OddPart, FormatNbs;
    var h := Halvings(Low16(|txbuf|), nframes, max);
    HalvingsEnd(Low16(|txbuf|), nframes, max, h);
    FaithfulWhenDivided(txbuf, nframes, frameBytes, h);
    HalvingsDivide(nframes, frameBytes, max);
  }

  /** For a power of two of frames it is enough that a frame fits in a packet. */
  lemma PowerOfTwoFits(q: nat, frameBytes: nat, max: nat)
    requires max > 0
    ensures FitsPackets(Pow2(q), frameBytes, max) <==> Pow2(q) * frameBytes < U16 && frameBytes <= DATA_MAX
  {
    OddPartOfPow2(q);
  }

  /** Enough halvings were done for the frame limit. */
  lemma {:induction false} HalvingsMeetLimit(len: nat, frames: nat, max: nat, h: nat)
    requires max > 0 && h == Halvings(len, frames, max)
    ensures frames < Pow2(h) * (max + 1)
    decreases h
  {
    hide Pow2;
    if h == 0 {
      Pow2Doubles(0);
    } else {
      HalvingsMeetLimit(len / 2, frames / 2, max, h - 1);
      Pow2Doubles(h - 1);
      DoubleProduct(Pow2(h - 1), max + 1);
    }
  }

  // ---- slices ---------------------------------------------------------------------

  /** The packets of a round of ticks are never more than there are; with all of them nothing was rounded. */
  lemma RoundingLoss(n: nat, t: nat, p: nat)
    requires n > 0 && t > 0
    ensures Transactions(n, t) * PerTick(p, t, n) <= p
    ensures p > 0 && Transactions(n, t) * PerTick(p, t, n) == p ==> PerTick(p, t, n) * n == p * t && n >= t
  {
    var T, P := Transactions(n, t), PerTick(p, t, n);
    assert T * t <= n && P * n <= p * t;
    MulMonotone(T * t, n, P);
    assert (T * t) * P == (T * P) * t && n * P == P * n;
    LessFactor(T * P, p, t);
    if p > 0 && T * P == p {
      assert T > 0 by {
        assert T == 0 ==> T * P == 0;
      }
      MulMonotone(1, T, t);
    }
  }

  /** In slicing mode the slices make up the buffer exactly when it has a power of two of frames and is at
      least one slice long. */
  lemma SlicesMakeUpBuffer(nframes: nat, len: nat, s: nat)
    requires nframes > 0
    ensures var pacnum := Pow2(Halvings(len, nframes, Pow2(s)));
      Transactions(nframes, Pow2(s)) * PerTick(pacnum, Pow2(s), nframes) == pacnum
      <==> OddPart(nframes) == 1 && nframes >= Pow2(s)
  {
    hide Pow2, Halvings, OddPart, Twos, Transactions, PerTick;
    var h := Halvings(len, nframes, Pow2(s));
    var t, p := Pow2(s), Pow2(h);
    RoundingLoss(nframes, t, p);
    if Transactions(nframes, t) * PerTick(p, t, nframes) == p {
      Pow2Adds(h, s);
      DivisorOfPow2(PerTick(p, t, nframes), nframes, h + s);
    }
    if OddPart(nframes) == 1 && nframes >= t {
      OddTimesTwos(nframes);
      HalvingsMeetLimit(len, nframes, t, h);
      WholeSlices(Twos(nframes), s, h);
    }
  }

  lemma WholeSlices(q: nat, s: nat, h: nat)
    requires Pow2(s) <= Pow2(q) < Pow2(h) * (Pow2(s) + 1)
    ensures Transactions(Pow2(q), Pow2(s)) * PerTick(Pow2(h), Pow2(s), Pow2(q)) == Pow2(h)
  {
    hide Pow2, Transactions, PerTick;
    if q < s {
      Pow2Grows(q + 1, s);
      Pow2Doubles(q);
    }
    if h < q - s {
      TooFewHalvings(q, s, h);
    }
    LongBuffer(q, s, h);
  }

  lemma LongBuffer(q: nat, s: nat, h: nat)
    requires s <= q <= h + s
    ensures Transactions(Pow2(q), Pow2(s)) * PerTick(Pow2(h), Pow2(s), Pow2(q)) == Pow2(h)
  {
    hide Pow2;
    Pow2Adds(q - s, s);
    DivMod(Pow2(q), Pow2(s), Pow2(q - s), 0);
    Pow2Adds(h, s);
    Pow2Adds(h + s - q, q);
    DivMod(Pow2(h) * Pow2(s), Pow2(q), Pow2(h + s - q), 0);
    Pow2Adds(q - s, h + s - q);
  }

  lemma Pow2Doubles(h: nat)
    ensures Pow2(h + 1) == 2 * Pow2(h) && Pow2(0) == 1
  {
  }

  lemma TooFewHalvings(q: nat, s: nat, h: nat)
    requires h + s < q
    ensures Pow2(q) >= Pow2(h) * (Pow2(s) + 1)
  {
    hide Pow2;
    Pow2Grows(h + s + 1, q);
    Pow2Doubles(s + h);
    Pow2Adds(s, h);
    OneMore(Pow2(s), Pow2(h));
  }

  lemma OneMore(a: nat, b: nat)
    requires a > 0
    ensures b * (a + 1) <= 2 * (a * b)
  {
    assert (a - 1) * b >= 0;
    assert (a - 1) * b == a * b - b && b * (a + 1) == a * b + b;
  }

  // ---- the ticks ------------------------------------------------------------------

  /** What the timer thread does to the slice index. */
  function NextIndex(ind: nat, transactions: nat): nat {
    if ind == transactions - 1 then 0 else (ind + 1) % U16
  }

  /** The index after n ticks and the packets sent by them, starting at slice 0. */
  ghost function Ticks(txbuf: Bytes, len: nat, transactions: nat, perTick: nat, n: nat): (nat, seq<Bytes>) {
    if n == 0 then (0, [])
    else
      var (ind, sent) := Ticks(txbuf, len, transactions, perTick, n - 1);
      (NextIndex(ind, transactions), sent + PayloadsFrom(txbuf, len, ind * perTick, perTick))
  }

  /** One round of ticks sends every packet of the buffer once, in order, and ends where it began. */
  lemma {:induction false} TickCycle(txbuf: Bytes, len: nat, transactions: nat, perTick: nat, n: nat)
    requires 0 < transactions < U16 && n <= transactions
    ensures Ticks(txbuf, len, transactions, perTick, n)
         == (if n == transactions then 0 else n, PayloadsFrom(txbuf, len, 0, n * perTick))
  {
    if n > 0 {
      hide PayloadsFrom;
      TickCycle(txbuf, len, transactions, perTick, n - 1);
      PayloadsSplit(txbuf, len, (n - 1) * perTick, perTick);
      assert n * perTick == (n - 1) * perTick + perTick;
    } else {
      assert PayloadsFrom(txbuf, len, 0, 0) == [];
    }
  }

  lemma PayloadsSplit(txbuf: Bytes, len: nat, a: nat, b: nat)
    ensures PayloadsFrom(txbuf, len, 0, a + b) == PayloadsFrom(txbuf, len, 0, a) + PayloadsFrom(txbuf, len, a, b)
  {
    hide PayloadAt;
  }

  /** A round of ticks is good when its packets are whole frames, as many as the header says, and together
      they are the audio buffer. */
  ghost predicate RoundFaithful(txbuf: Bytes, len: nat, transactions: nat, perTick: nat, formatNbs: nat,
                                frameBytes: nat) {
    && len == (formatNbs + 1) * frameBytes
    && Concat(Ticks(txbuf, len, transactions, perTick, transactions).1) == txbuf
  }

  /** What a user of slicing mode can check: a power of two of frames, at least a slice, a frame that fits in a
      packet, and a buffer length that fits in 16 bits. */
  predicate FitsSlices(nframes: nat, frameBytes: nat, slice: nat)
    requires nframes > 0
  {
    nframes * frameBytes < U16 && frameBytes <= DATA_MAX && OddPart(nframes) == 1 && nframes >= slice
  }

  lemma RoundCoverage(txbuf: Bytes, len: nat, transactions: nat, perTick: nat, n: nat)
    requires transactions < U16 && n == transactions * perTick && n * len <= |txbuf|
    ensures Concat(Ticks(txbuf, len, transactions, perTick, transactions).1) == txbuf <==> n * len == |txbuf|
  {
    hide Concat, PayloadsFrom;
    if transactions == 0 {
      assert Ticks(txbuf, len, 0, perTick, 0).1 == PayloadsFrom(txbuf, len, 0, 0);
    } else {
      TickCycle(txbuf, len, transactions, perTick, transactions);
    }
    CoverageInBytes(txbuf, len, n);
  }

  /** n of the p packets of a buffer make it up only if they are all. */
  lemma AllOrLess(n: nat, p: nat, len: nat, total: nat)
    requires n <= p && len * p <= total && total > 0
    ensures n * len <= p * len <= total
    ensures n * len == total <==> p * len == total && n == p
  {
    MulMonotone(n, p, len);
    if n * len == total {
      SameFactor(n, p, len) by {
        assert len == 0 ==> n * len == 0;
      }
    }
  }

  /** One round of ticks sends all of the buffer in good packets exactly when the buffer fits in slices. */
  lemma RoundExactly(txbuf: Bytes, nframes: nat, frameBytes: nat, s: nat)
    requires 0 < nframes < U16 && frameBytes > 0 && Pow2(s) <= 256 && |txbuf| == nframes * frameBytes
    ensures var h := Halvings(Low16(|txbuf|), nframes, Pow2(s));
      RoundFaithful(txbuf, Shr(Low16(|txbuf|), h), Transactions(nframes, Pow2(s)), PerTick(Pow2(h), Pow2(s), nframes),
                    FormatNbs(Shr(nframes, h)), frameBytes)
      <==> FitsSlices(nframes, frameBytes, Pow2(s))
  {
    hide Pow2, Halvings, Shr, OddPart, Concat, Ticks, PayloadsFrom, PerTick, FormatNbs, Low16;
    var h := Halvings(Low16(|txbuf|), nframes, Pow2(s));
    var len, p := Shr(Low16(|txbuf|), h), Pow2(h);
    var T, P := Transactions(nframes, Pow2(s)), PerTick(p, Pow2(s), nframes);
    AtMost(nframes, Pow2(s), U16) by {
      MulMonotone(1, Pow2(s), U16);
    }
    assert |txbuf| >= 1 by {
      MulMonotone(1, nframes, frameBytes);
    }
    ShrBelow(Low16(|txbuf|), h);
    Low16Below(|txbuf|);
    RoundingLoss(nframes, Pow2(s), p);
    AllOrLess(T * P, p, len, |txbuf|);
    RoundCoverage(txbuf, len, T, P, T * P);
    CoverageInBytes(txbuf, len, p);
    FaithfulExactly(txbuf, nframes, frameBytes, Pow2(s));
    SlicesMakeUpBuffer(nframes, Low16(|txbuf|), s);
  }

  lemma Low16Below(x: nat)
    ensures Low16(x) <= x
  {
  }

  /** The two counts of slicing mode fit in their 16-bit fields. */
  lemma SlicesInFields(nframes: nat, len: nat, slice: nat)
    requires 0 < nframes < U16 && len < U16 && 64 <= slice <= 256
    ensures var T, P := Transactions(nframes, slice), PerTick(Pow2(Halvings(len, nframes, slice)), slice, nframes);
      Low16(T) == T && Low16(P) == P
  {
    hide Pow2, Halvings;
    var h := Halvings(len, nframes, slice);
    var T, P := Transactions(nframes, slice), PerTick(Pow2(h), slice, nframes);
    assert T * slice <= nframes && P * nframes <= Pow2(h) * slice;
    MulMonotone(1, slice, T);
    MulMonotone(1, nframes, P);
    Pow2Small();
    if nframes <= 4096 {
      HalvingsWithin(len, nframes, slice, 6);
      Pow2Grows(h, 6);
      MulMonotone(Pow2(h), 64, slice);
    } else {
      HalvingBudget(len, nframes, slice);
      Pow2Grows(h, 10);
      MulMonotone(Pow2(h), 1024, slice);
      MulMonotone(4096, nframes, P);
    }
  }

  lemma Pow2Small()
    ensures Pow2(6) == 64 && Pow2(10) == 1024
  {
    Pow2Ten();
    assert Pow2(3) == 8;
    Pow2Adds(3, 3);
  }

  lemma LimitIsPow2(max: nat) returns (s: nat)
    requires max == 64 || max == 128 || max == 256
    ensures Pow2(s) == max
  {
    Pow2Small();
    s := if max == 64 then 6 else if max == 128 then 7 else 8;
  }

  /** Both conditions, for all contents of the buffer. */
  lemma TunedExactly(nframes: nat, frameBytes: nat, max: nat)
    requires 0 < nframes < U16 && frameBytes > 0 && (max == 64 || max == 128 || max == 256)
    ensures forall txbuf: Bytes | |txbuf| == nframes * frameBytes ::
      var h := Halvings(Low16(nframes * frameBytes), nframes, max);
      && (Faithful(txbuf, Pow2(h), Shr(Low16(nframes * frameBytes), h), FormatNbs(Shr(nframes, h)), frameBytes)
          <==> FitsPackets(nframes, frameBytes, max))
      && (RoundFaithful(txbuf, Shr(Low16(nframes * frameBytes), h), Transactions(nframes, max),
                        PerTick(Pow2(h), max, nframes), FormatNbs(Shr(nframes, h)), frameBytes)
          <==> FitsSlices(nframes, frameBytes, max))
  {
    var s := LimitIsPow2(max);
    hide *;
    forall txbuf: Bytes | |txbuf| == nframes * frameBytes
      ensures var h := Halvings(Low16(nframes * frameBytes), nframes, max);
        && (Faithful(txbuf, Pow2(h), Shr(Low16(nframes * frameBytes), h), FormatNbs(Shr(nframes, h)), frameBytes)
            <==> FitsPackets(nframes, frameBytes, max))
        && (RoundFaithful(txbuf, Shr(Low16(nframes * frameBytes), h), Transactions(nframes, max),
                          PerTick(Pow2(h), max, nframes), FormatNbs(Shr(nframes, h)), frameBytes)
            <==> FitsSlices(nframes, frameBytes, max))
    {
      FaithfulExactly(txbuf, nframes, frameBytes, max);
      RoundExactly(txbuf, nframes, frameBytes, s);
    }
  }

  lemma SameFactor(a: nat, b: nat, k: nat)
    requires k > 0 && a * k == b * k
    ensures a == b
  {
    assert (a - b) * k + 0 == 0;
    SmallMultiple(a - b, k, 0);
  }
}
