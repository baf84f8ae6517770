/**
 * The Python port of the front end (pytinysr/tinysr.py): input decoding and
 * downmixing, linear-interpolation resampling to 16 kHz, offset compensation,
 * non-overlapping 400-sample frames, and per frame a feature vector of log
 * energy, 13 cepstral coefficients of a 23-band mel filter bank, a running
 * noise-floor estimate and a serial number; then one-shot utterance collection.
 */
module PyTinySR {
  import opened Results
  import opened Dsp
  import opened FastFourier

  /** FFT bins at the edges and centres of the 23 mel filters (tinysr.py:21). */
  const BIN_CENTERS: seq<int> :=
    [2, 5, 8, 11, 14, 18, 23, 27, 33, 38, 45, 52, 60, 69, 79, 89, 101, 115, 129, 145, 163, 183, 205, 229, 256]
  const NUM_BINS: nat := 23
  const NUM_CEPSTRA: nat := 13
  /** Added to every filter-bank output before its logarithm (tinysr.py:84). */
  const BIN_FLOOR: real := 0.0000000000000000000002
  const NOISE_FLOOR_START: real := 100.0
  /** The rate the input is resampled to (tinysr.py:62). */
  const TARGET_RATE: real := 16000.0
  const DEFAULT_INPUT_SAMPLE_RATE: int := 48000

  /**
   * Adjacent centres are at least 3 bins apart, and no gap exceeds the next
   * one by more than one bin.
   */
  lemma BinCentersSpacing(k: nat)
    requires k < NUM_BINS
    ensures 3 <= BIN_CENTERS[k + 1] - BIN_CENTERS[k] <= BIN_CENTERS[k + 2] - BIN_CENTERS[k + 1] + 1
  {
    assert k in {0, 1, 2, 3, 4, 5, 6, 7, 8, 9, 10, 11, 12, 13, 14, 15, 16, 17, 18, 19, 20, 21, 22};
  }

  /** The centres rise strictly and stay inside the 257 non-negative-frequency bins of a 512-point FFT. */
  lemma BinCentersIncrease(k: nat)
    requires k < NUM_BINS + 1
    ensures 2 <= BIN_CENTERS[k] < BIN_CENTERS[k + 1] <= FFT_LENGTH / 2
  {
    assert k in {0, 1, 2, 3, 4, 5, 6, 7, 8, 9, 10, 11, 12, 13, 14, 15, 16, 17, 18, 19, 20, 21, 22, 23};
  }

  // ---------------------------------------------------------------------------
  // Decoding and downmixing (tinysr.py:50-55)

  type Byte = b: int | 0 <= b < 256
  type Int16 = v: int | -0x8000 <= v < 0x8000

  /** Signed 16-bit little-endian sample, struct format "<h". */
  function SampleOf(lo: Byte, hi: Byte): Int16
  {
    var u := hi * 256 + lo;
    if u < 0x8000 then u else u - 0x1_0000
  }

  function LowByte(v: Int16): Byte { (v % 0x1_0000) % 256 }
  function HighByte(v: Int16): Byte { (v % 0x1_0000) / 256 }

  lemma SampleOfBytes(v: Int16)
    ensures SampleOf(LowByte(v), HighByte(v)) == v
  {
  }

  lemma BytesOfSample(lo: Byte, hi: Byte)
    ensures LowByte(SampleOf(lo, hi)) == lo && HighByte(SampleOf(lo, hi)) == hi
  {
  }

  /**
   * `struct.unpack("<%ih" % (len(s)/2), s)`: the count is rounded down, so an
   * odd-length string does not match the format and raises struct.error.
   */
  function Decode(bytes: seq<Byte>): (r: Result<seq<Int16>, PyError>)
    ensures r.Failure? <==> |bytes| % 2 == 1
    ensures r.Failure? ==> r.error == StructError
  {
    if |bytes| % 2 == 1 then Failure(StructError)
    else Success(seq(|bytes| / 2, i requires 0 <= i < |bytes| / 2 => SampleOf(bytes[2 * i], bytes[2 * i + 1])))
  }

  /** `struct.pack("<%ih" % len(v), *v)`, the partner of Decode. */
  function Encode(samples: seq<Int16>): (bytes: seq<Byte>)
    ensures |bytes| == 2 * |samples|
  {
    seq(2 * |samples|, j requires 0 <= j < 2 * |samples| =>
      if j % 2 == 0 then LowByte(samples[j / 2]) else HighByte(samples[j / 2]))
  }

  lemma DecodeEncode(samples: seq<Int16>)
    ensures Decode(Encode(samples)) == Success(samples)
  {
    var bytes := Encode(samples);
    assert |bytes| / 2 == |samples|;
    var r := Decode(bytes).value;
    forall i | 0 <= i < |samples|
      ensures r[i] == samples[i]
    {
      assert bytes[2 * i] == LowByte(samples[i]);
      assert bytes[2 * i + 1] == HighByte(samples[i]);
      SampleOfBytes(samples[i]);
    }
    assert r == samples;
  }

  lemma EncodeDecode(bytes: seq<Byte>)
    requires |bytes| % 2 == 0
    ensures Encode(Decode(bytes).value) == bytes
  {
    var samples := Decode(bytes).value;
    var e := Encode(samples);
    forall j | 0 <= j < |bytes|
      ensures e[j] == bytes[j]
    {
      var i := j / 2;
      BytesOfSample(bytes[2 * i], bytes[2 * i + 1]);
    }
  }

  /**
   * `map(sum, zip(*[iter(samples)]*2))`: the sums of consecutive pairs; a
   * trailing unpaired sample is dropped, as zip stops at the shorter input.
   */
  function Downmix(xs: seq<real>): (ys: seq<real>)
    ensures |ys| == |xs| / 2
    ensures forall i | 0 <= i < |ys| :: ys[i] == xs[2 * i] + xs[2 * i + 1]
    decreases |xs|
  {
    if |xs| < 2 then [] else [xs[0] + xs[1]] + Downmix(xs[2..])
  }

  /** Two channels interleaved sample by sample, as stereo audio is stored. */
  function Interleaved(left: seq<real>, right: seq<real>): (xs: seq<real>)
    requires |left| == |right|
    ensures |xs| == 2 * |left|
  {
    seq(2 * |left|, j requires 0 <= j < 2 * |left| => if j % 2 == 0 then left[j / 2] else right[j / 2])
  }

  lemma InterleavedAt(left: seq<real>, right: seq<real>, i: nat)
    requires |left| == |right| && i < |left|
    ensures Interleaved(left, right)[2 * i] == left[i]
    ensures Interleaved(left, right)[2 * i + 1] == right[i]
  {
  }

  /** Downmixing interleaved stereo adds the channels; a dangling sample changes nothing. */
  lemma DownmixInterleaved(left: seq<real>, right: seq<real>, extra: seq<real>)
    requires |left| == |right| && |extra| <= 1
    ensures Downmix(Interleaved(left, right) + extra)
         == seq(|left|, i requires 0 <= i < |left| => left[i] + right[i])
  {
    var ys := Downmix(Interleaved(left, right) + extra);
    var sums := seq(|left|, i requires 0 <= i < |left| => left[i] + right[i]);
    forall i | 0 <= i < |left|
      ensures ys[i] == sums[i]
    {
      DownmixPair(left, right, extra, i);
    }
  }

  lemma DownmixPair(left: seq<real>, right: seq<real>, extra: seq<real>, i: nat)
    requires |left| == |right| && |extra| <= 1 && i < |left|
    ensures |Downmix(Interleaved(left, right) + extra)| == |left|
    ensures Downmix(Interleaved(left, right) + extra)[i] == left[i] + right[i]
  {
    var il := Interleaved(left, right);
    var xs := il + extra;
    InterleavedAt(left, right, i);
    assert xs[2 * i] == il[2 * i];
    assert xs[2 * i + 1] == il[2 * i + 1];
  }

  /** The two forms `feed_input` accepts: a byte string, or a list of numbers. */
  datatype Input = Bytes(bytes: seq<Byte>) | Numbers(values: seq<real>)

  /** The samples `feed_input` iterates over, after decoding, downmixing and `map(float, ...)`. */
  function Prepared(input: Input, downmix: bool): (r: Result<seq<real>, PyError>)
    ensures r.Failure? <==> input.Bytes? && |input.bytes| % 2 == 1
    ensures r.Success? && !downmix ==> r.value == if input.Bytes? then AsReals(Decode(input.bytes).value) else input.values
  {
    var decoded := if input.Bytes? then Decode(input.bytes) else Success([]);
    if decoded.Failure? then Failure(decoded.error)
    else
      var xs := if input.Bytes? then AsReals(decoded.value) else input.values;
      Success(if downmix then Downmix(xs) else xs)
  }

  // ---------------------------------------------------------------------------
  // Resampling by linear interpolation (tinysr.py:56-67)

  /** The number of passes of `while d <= 1.0: ... d += step`. */
  function Passes(d: real, step: real): nat
    requires step > 0.0
  {
    if d > 1.0 then 0 else ((1.0 - d) / step).Floor + 1
  }

  /** Each pass uses one up. */
  lemma PassesStep(d: real, step: real)
    requires step > 0.0 && d <= 1.0
    ensures Passes(d + step, step) + 1 == Passes(d, step)
  {
    if d + step > 1.0 {
      DivBelowOne(1.0 - d, step);
    } else {
      DivShift(1.0 - d, step);
      assert 1.0 - (d + step) == (1.0 - d) - step;
    }
  }

  lemma DivShift(a: real, s: real)
    requires s > 0.0
    ensures (a - s) / s == a / s - 1.0
  {
    var q := a / s;
    assert q * s == a;
    assert (q - 1.0) * s == q * s - s;
    DivUnique(a - s, s, q - 1.0);
  }

  lemma DivUnique(b: real, s: real, x: real)
    requires s != 0.0 && x * s == b
    ensures x == b / s
  {
  }

  lemma DivBelowOne(a: real, s: real)
    requires 0.0 <= a < s
    ensures 0.0 <= a / s < 1.0
  {
  }

  /**
   * The resampled values the inner loop produces for one input sample x: one
   * per time d, d + step, ... up to 1.0, each a fraction d of the way from the
   * previous input sample to x.
   */
  function Interpolated(prev: real, x: real, d: real, step: real): seq<real>
    requires step > 0.0
    decreases Passes(d, step)
  {
    if d > 1.0 then []
    else
      PassesStep(d, step);
      [Lerp(prev, x, d)] + Interpolated(prev, x, d + step, step)
  }

  /** One pass of the loop moves one interpolated value from the pending to the emitted stream. */
  lemma InterpolatedStep(r0: seq<real>, r: seq<real>, prev: real, x: real, d0: real, d: real, step: real)
    requires step > 0.0 && d <= 1.0
    requires r0 + Interpolated(prev, x, d0, step) == r + Interpolated(prev, x, d, step)
    requires DeltaAfter(d0, step) == DeltaAfter(d, step)
    ensures r0 + Interpolated(prev, x, d0, step) == (r + [Lerp(prev, x, d)]) + Interpolated(prev, x, d + step, step)
    ensures DeltaAfter(d0, step) == DeltaAfter(d + step, step)
    ensures |Interpolated(prev, x, d + step, step)| < |Interpolated(prev, x, d, step)|
  {
  }

  /** With d in [0, 1], every interpolated value lies between the two input samples. */
  lemma {:induction false} InterpolatedBetween(prev: real, x: real, d: real, step: real, i: nat)
    requires step > 0.0 && d >= 0.0 && i < |Interpolated(prev, x, d, step)|
    ensures prev <= x ==> prev <= Interpolated(prev, x, d, step)[i] <= x
    ensures x <= prev ==> x <= Interpolated(prev, x, d, step)[i] <= prev
    decreases Passes(d, step)
  {
    PassesStep(d, step);
    if i > 0 {
      InterpolatedBetween(prev, x, d + step, step, i - 1);
    } else {
      LerpBetween(prev, x, d);
    }
  }

  /** The time the inner loop stops at: the first of d, d + step, ... above 1.0. */
  function DeltaAfter(d: real, step: real): (r: real)
    requires step > 0.0
    ensures r > 1.0 && r >= d
    ensures d > 1.0 ==> r == d
    ensures d <= 1.0 ==> r <= 1.0 + step
    decreases Passes(d, step)
  {
    if d > 1.0 then d
    else
      PassesStep(d, step);
      DeltaAfter(d + step, step)
  }

  /** The delta after n passes of the inner loop, each adding `input_sample_rate / 16000.0`. */
  function DeltaAfterPasses(d: real, step: real, n: nat): real
  {
    if n == 0 then d else DeltaAfterPasses(d, step, n - 1) + step
  }

  /**
   * With input_sample_rate <= 0 the step is not positive and the while loop
   * of tinysr.py:57 never ends: after any number of passes the delta has not
   * risen, so the condition delta <= 1.0 still holds.
   */
  lemma {:induction false} NonPositiveRateNeverExits(d: real, step: real, n: nat)
    requires d <= 1.0 && step <= 0.0
    ensures DeltaAfterPasses(d, step, n) <= d <= 1.0
  {
    if n > 0 {
      NonPositiveRateNeverExits(d, step, n - 1);
    }
  }

  /**
   * The resampled stream for input samples xs as the loop is written: the time
   * is advanced by step per output and never moved back by one per input.
   */
  function ResampledAsWritten(prev: real, xs: seq<real>, d: real, step: real): seq<real>
    requires step > 0.0
    decreases |xs|
  {
    if xs == [] then []
    else Interpolated(prev, xs[0], d, step) + ResampledAsWritten(xs[0], xs[1..], DeltaAfter(d, step), step)
  }

  /** As written, once the time has passed 1.0 no input sample produces anything. */
  lemma {:induction false} AsWrittenSilentPastOne(prev: real, xs: seq<real>, d: real, step: real)
    requires step > 0.0 && d > 1.0
    ensures ResampledAsWritten(prev, xs, d, step) == []
    decreases |xs|
  {
    if xs != [] {
      AsWrittenSilentPastOne(xs[0], xs[1..], d, step);
    }
  }

  /** As written, only the first input sample ever reaches the buffer. */
  lemma AsWrittenOnlyFirstSample(prev: real, xs: seq<real>, d: real, step: real)
    requires step > 0.0 && xs != []
    ensures ResampledAsWritten(prev, xs, d, step) == Interpolated(prev, xs[0], d, step)
  {
    AsWrittenSilentPastOne(xs[0], xs[1..], DeltaAfter(d, step), step);
  }

  /** The resampled stream with one time unit given back per input sample. */
  function Resampled(prev: real, xs: seq<real>, d: real, step: real): seq<real>
    requires step > 0.0
    decreases |xs|
  {
    if xs == [] then []
    else Interpolated(prev, xs[0], d, step) + Resampled(xs[0], xs[1..], DeltaAfter(d, step) - 1.0, step)
  }

  /** Resampling one more input sample appends its interpolated values. */
  lemma {:induction false} ResampledSnoc(p0: real, ys: seq<real>, x: real, d0: real, step: real)
    requires step > 0.0
    ensures Resampled(p0, ys + [x], d0, step)
         == Resampled(p0, ys, d0, step) + Interpolated(LastOr(ys, p0), x, DeltaAfterAll(ys, d0, step), step)
    ensures DeltaAfterAll(ys + [x], d0, step) == DeltaAfter(DeltaAfterAll(ys, d0, step), step) - 1.0
    decreases |ys|
  {
    if ys == [] {
      assert [x][1..] == [];
    } else {
      assert (ys + [x])[1..] == ys[1..] + [x];
      ResampledSnoc(ys[0], ys[1..], x, DeltaAfter(d0, step) - 1.0, step);
      assert LastOr(ys[1..], ys[0]) == LastOr(ys, p0);
      AppendAssoc(Interpolated(p0, ys[0], d0, step), Resampled(ys[0], ys[1..], DeltaAfter(d0, step) - 1.0, step),
        Interpolated(LastOr(ys, p0), x, DeltaAfterAll(ys, d0, step), step));
    }
  }

  /** Feeding input sample k appends its interpolated values to the stream of the first k. */
  lemma ResampledPrefixStep(r0: seq<real>, p0: real, xs: seq<real>, k: nat, d0: real, step: real)
    requires step > 0.0 && k < |xs|
    ensures r0 + Resampled(p0, xs[..k + 1], d0, step)
         == (r0 + Resampled(p0, xs[..k], d0, step))
            + Interpolated(LastOr(xs[..k], p0), xs[k], DeltaAfterAll(xs[..k], d0, step), step)
    ensures DeltaAfterAll(xs[..k + 1], d0, step) == DeltaAfter(DeltaAfterAll(xs[..k], d0, step), step) - 1.0
    ensures LastOr(xs[..k + 1], p0) == xs[k]
  {
    assert xs[..k + 1] == xs[..k] + [xs[k]];
    ResampledSnoc(p0, xs[..k], xs[k], d0, step);
    AppendAssoc(r0, Resampled(p0, xs[..k], d0, step),
      Interpolated(LastOr(xs[..k], p0), xs[k], DeltaAfterAll(xs[..k], d0, step), step));
  }

  /** The time after resampling xs with one time unit given back per input sample. */
  function DeltaAfterAll(xs: seq<real>, d: real, step: real): (r: real)
    requires step > 0.0
    ensures xs != [] ==> r > 0.0
    ensures d >= 0.0 ==> r >= 0.0
    decreases |xs|
  {
    if xs == [] then d else DeltaAfterAll(xs[1..], DeltaAfter(d, step) - 1.0, step)
  }

  /** At equal rates (16 kHz input) the stream started at time 1.0 is the input itself. */
  lemma {:induction false} ResampledSameRate(prev: real, xs: seq<real>)
    ensures Resampled(prev, xs, 1.0, 1.0) == xs
    decreases |xs|
  {
    if xs != [] {
      assert Interpolated(prev, xs[0], 1.0, 1.0) == [xs[0]];
      assert DeltaAfter(1.0, 1.0) == 2.0;
      ResampledSameRate(xs[0], xs[1..]);
    }
  }

  /** The stream of a fresh context at 16 kHz is the previous sample, then the input. */
  lemma ResampledSameRateFromStart(prev: real, xs: seq<real>)
    requires xs != []
    ensures Resampled(prev, xs, 0.0, 1.0) == [prev] + xs
  {
    assert Interpolated(prev, xs[0], 0.0, 1.0) == [prev, xs[0]];
    assert DeltaAfter(0.0, 1.0) == 2.0;
    ResampledSameRate(xs[0], xs[1..]);
  }

  /** Three samples at 16 kHz: the loop as written keeps only the first. */
  lemma ResamplingDiscrepancy()
    ensures ResampledAsWritten(0.0, [1.0, 2.0, 3.0], 0.0, 1.0) == [0.0, 1.0]
    ensures Resampled(0.0, [1.0, 2.0, 3.0], 0.0, 1.0) == [0.0, 1.0, 2.0, 3.0]
  {
    AsWrittenOnlyFirstSample(0.0, [1.0, 2.0, 3.0], 0.0, 1.0);
    assert Interpolated(0.0, 1.0, 0.0, 1.0) == [0.0, 1.0];
    ResampledSameRateFromStart(0.0, [1.0, 2.0, 3.0]);
  }

  // ---------------------------------------------------------------------------
  // The mel filter bank (tinysr.py:78-83, section 4.2.9 of ES 201 108)

  /** One side of a triangular filter: rising from bin lo to its peak, or falling from the peak to bin hi. */
  datatype Side = Rising(lo: int, peak: int) | Falling(peak: int, hi: int)

  predicate ValidSide(side: Side)
  {
    match side
    case Rising(lo, peak) => lo < peak
    case Falling(peak, hi) => peak < hi
  }

  /** The weight of bin i: (i - lo + 1) / (peak - lo + 1) rising, 1 - (i - peak) / (hi - peak + 1) falling. */
  function Weight(side: Side, i: int): real
    requires ValidSide(side)
  {
    match side
    case Rising(lo, peak) => (i - lo + 1) as real / (peak - lo + 1) as real
    case Falling(peak, hi) => 1.0 - (i - peak) as real / (hi - peak + 1) as real
  }

  /** The triangle is 1 at its peak and stays in (0, 1] over its whole support. */
  lemma WeightsInUnit(side: Side, i: int)
    requires ValidSide(side)
    ensures side.Rising? && side.lo <= i <= side.peak ==> 0.0 < Weight(side, i) <= 1.0
    ensures side.Rising? && i == side.peak ==> Weight(side, i) == 1.0
    ensures side.Falling? && side.peak < i <= side.hi ==> 0.0 < Weight(side, i) < 1.0
  {
    match side
    case Rising(lo, peak) =>
      if lo <= i <= peak {
        RatioInUnit((i - lo + 1) as real, (peak - lo + 1) as real);
      }
    case Falling(peak, hi) =>
      if peak < i <= hi {
        RatioInUnit((i - peak) as real, (hi - peak + 1) as real);
      }
  }

  lemma RatioInUnit(a: real, b: real)
    requires 0.0 < a <= b
    ensures 0.0 < a / b <= 1.0
    ensures a < b ==> a / b < 1.0
    ensures a == b ==> a / b == 1.0
  {
  }

  /** sum of Weight(side, i) * f[i] for lo <= i < hi. */
  function WeightedSum(f: seq<real>, side: Side, lo: int, hi: int): real
    requires ValidSide(side) && 0 <= lo <= hi <= |f|
    decreases hi - lo
  {
    if hi == lo then 0.0 else WeightedSum(f, side, lo, hi - 1) + Weight(side, hi - 1) * f[hi - 1]
  }

  /** Output k of the filter bank: the triangle rising over bins c[k] .. c[k+1] and falling until c[k+2]. */
  function MelBin(f: seq<real>, k: nat): real
    requires k < NUM_BINS && |f| > FFT_LENGTH / 2
  {
    BinCentersIncrease(k);
    BinCentersIncrease(k + 1);
    var lo, peak, hi := BIN_CENTERS[k], BIN_CENTERS[k + 1], BIN_CENTERS[k + 2];
    WeightedSum(f, Rising(lo, peak), lo, peak + 1) + WeightedSum(f, Falling(peak, hi), peak + 1, hi + 1)
  }

  function MelBins(f: seq<real>): (bins: seq<real>)
    requires |f| > FFT_LENGTH / 2
    ensures |bins| == NUM_BINS
  {
    seq(NUM_BINS, k requires 0 <= k < NUM_BINS => MelBin(f, k))
  }

  /** Over the support of a side, a weighted sum of non-negative magnitudes is non-negative. */
  lemma {:induction false} WeightedSumNonNegative(f: seq<real>, side: Side, lo: int, hi: int)
    requires ValidSide(side) && 0 <= lo <= hi <= |f|
    requires forall i | lo <= i < hi :: f[i] >= 0.0
    requires side.Rising? ==> side.lo <= lo && hi <= side.peak + 1
    requires side.Falling? ==> side.peak < lo && hi <= side.hi + 1
    ensures WeightedSum(f, side, lo, hi) >= 0.0
    decreases hi - lo
  {
    if hi > lo {
      WeightedSumNonNegative(f, side, lo, hi - 1);
      WeightsInUnit(side, hi - 1);
      MulLe(0.0, Weight(side, hi - 1), f[hi - 1]);
    }
  }

  /** The filter bank maps a magnitude spectrum to non-negative energies. */
  lemma MelBinsNonNegative(f: seq<real>)
    requires |f| > FFT_LENGTH / 2
    requires forall i | 0 <= i < |f| :: f[i] >= 0.0
    ensures forall k | 0 <= k < NUM_BINS :: MelBins(f)[k] >= 0.0
  {
    forall k | 0 <= k < NUM_BINS
      ensures MelBins(f)[k] >= 0.0
    {
      BinCentersIncrease(k);
      BinCentersIncrease(k + 1);
      var lo, peak, hi := BIN_CENTERS[k], BIN_CENTERS[k + 1], BIN_CENTERS[k + 2];
      WeightedSumNonNegative(f, Rising(lo, peak), lo, peak + 1);
      WeightedSumNonNegative(f, Falling(peak, hi), peak + 1, hi + 1);
    }
  }

  /**
   * The filter bank as intended: bin k accumulates the rising side of its
   * triangle, then the falling side.
   */
  method FilterBank(fftBins: seq<real>) returns (bins: seq<real>)
    requires |fftBins| > FFT_LENGTH / 2
    ensures bins == MelBins(fftBins)
  {
    bins := seq(NUM_BINS, _ => 0.0);
    for k := 0 to NUM_BINS
      invariant |bins| == NUM_BINS
      invariant forall j | 0 <= j < k :: bins[j] == MelBin(fftBins, j)
    {
      var acc := FilterOutput(fftBins, k);
      bins := bins[k := acc];
    }
  }

  /** Output k of the filter bank: the rising side of its triangle, then the falling side. */
  method FilterOutput(fftBins: seq<real>, k: nat) returns (acc: real)
    requires k < NUM_BINS && |fftBins| > FFT_LENGTH / 2
    ensures acc == MelBin(fftBins, k)
  {
    BinCentersIncrease(k);
    BinCentersIncrease(k + 1);
    var lo, peak, hi := BIN_CENTERS[k], BIN_CENTERS[k + 1], BIN_CENTERS[k + 2];
    acc := AddSide(fftBins, Rising(lo, peak), lo, peak + 1, 0.0);
    acc := AddSide(fftBins, Falling(peak, hi), peak + 1, hi + 1, acc);
  }

  /** One inner loop of the filter bank: add Weight(side, i) * f[i] for lo <= i < hi to acc. */
  method AddSide(f: seq<real>, side: Side, lo: int, hi: int, acc0: real) returns (acc: real)
    requires ValidSide(side) && 0 <= lo <= hi <= |f|
    ensures acc == acc0 + WeightedSum(f, side, lo, hi)
  {
    acc := acc0;
    for i := lo to hi
      invariant acc == acc0 + WeightedSum(f, side, lo, i)
    {
      acc := acc + Weight(side, i) * f[i];
    }
  }

  /**
   * The filter bank as tinysr.py:79-83 writes it: both inner loops run over
   * the single bin c[k], and the weights use Python 2 integer division.
   */
  method FilterBankAsWritten(fftBins: seq<real>) returns (bins: seq<real>)
    requires |fftBins| > FFT_LENGTH / 2
    ensures |bins| == NUM_BINS
    ensures forall k | 0 <= k < NUM_BINS :: bins[k] == 2.0 * fftBins[BIN_CENTERS[k]]
    ensures bins == BinsAsWritten(fftBins)
  {
    bins := seq(NUM_BINS, _ => 0.0);
    for k := 0 to NUM_BINS
      invariant |bins| == NUM_BINS
      invariant forall j | 0 <= j < k :: bins[j] == 2.0 * fftBins[BIN_CENTERS[j]]
    {
      BinCentersIncrease(k);
      BinCentersIncrease(k + 1);
      BinCentersSpacing(k);
      var lo, peak, hi := BIN_CENTERS[k], BIN_CENTERS[k + 1], BIN_CENTERS[k + 2];
      var acc := BinAsWritten(fftBins, lo, peak, hi);
      bins := bins[k := acc];
    }
  }

  /** What the filter bank as written outputs: twice the magnitude at each left edge c[k]. */
  function BinsAsWritten(fftBins: seq<real>): (bins: seq<real>)
    requires |fftBins| > FFT_LENGTH / 2
    ensures |bins| == NUM_BINS
  {
    seq(NUM_BINS, k requires 0 <= k < NUM_BINS =>
      BinCentersIncrease(k);
      2.0 * fftBins[BIN_CENTERS[k]])
  }

  /**
   * The two inner loops of tinysr.py:80-83 for one filter with edges lo, peak
   * and hi: each visits bin lo only; the rising weight 1 / (peak - lo + 1)
   * floors to 0 and the falling one 1 - floor((lo - peak) / (hi - peak + 1))
   * is 2 when the gaps are spaced as the table's are.
   */
  method BinAsWritten(fftBins: seq<real>, lo: int, peak: int, hi: int) returns (acc: real)
    requires 0 <= lo && hi < |fftBins|
    requires 3 <= peak - lo <= hi - peak + 1
    ensures acc == 2.0 * fftBins[lo]
  {
    acc := 0.0;
    for i := lo to lo + 1
      invariant acc == 0.0
    {
      DivSmall(i - lo + 1, peak - lo + 1);
      acc := acc + ((i - lo + 1) / (peak - lo + 1)) as real * fftBins[i];
    }
    for i := lo to lo + 1
      invariant acc == if i == lo then 0.0 else 2.0 * fftBins[lo]
    {
      DivNegSmall(peak - i, hi - peak + 1);
      acc := acc + (1 - ((i - peak) / (hi - peak + 1))) as real * fftBins[i];
    }
  }

  /** Python 2 (and Dafny) integer division rounds down: 0 <= a < b gives 0. */
  lemma DivSmall(a: int, b: int)
    requires 0 <= a < b
    ensures a / b == 0
  {
    FloorDivUnique(a, b, 0);
  }

  /** ... and 0 < a <= b gives -a / b == -1. */
  lemma DivNegSmall(a: int, b: int)
    requires 0 < a <= b
    ensures (-a) / b == -1
  {
    FloorDivUnique(-a, b, -1);
  }

  lemma FloorDivUnique(x: int, b: int, q: int)
    requires b > 0 && q * b <= x < q * b + b
    ensures x / b == q
  {
    var r := x / b;
    assert x == r * b + x % b && 0 <= x % b < b;
    if r > q {
      MulLeInt(q + 1, r, b);
    } else if r < q {
      MulLeInt(r + 1, q, b);
    }
  }

  lemma MulLeInt(a: int, b: int, s: nat)
    requires a <= b
    ensures a * s <= b * s
  {
  }

  function Ones(n: nat): (s: seq<real>)
    ensures |s| == n && forall i | 0 <= i < n :: s[i] == 1.0
  {
    seq(n, _ => 1.0)
  }

  /**
   * On a flat spectrum the first triangular filter sums to 4.0, while the
   * filter bank as written (the output of FilterBankAsWritten) gives 2.0.
   */
  lemma FilterBankDiscrepancy()
    ensures MelBins(Ones(FFT_LENGTH))[0] == 4.0
    ensures BinsAsWritten(Ones(FFT_LENGTH))[0] == 2.0
    ensures BinsAsWritten(Ones(FFT_LENGTH)) != MelBins(Ones(FFT_LENGTH))
  {
    var f := Ones(FFT_LENGTH);
    assert BIN_CENTERS[0] == 2 && BIN_CENTERS[1] == 5 && BIN_CENTERS[2] == 8;
    assert WeightedSum(f, Rising(2, 5), 2, 6) == 0.25 + 0.5 + 0.75 + 1.0;
    assert WeightedSum(f, Falling(5, 8), 6, 9) == 0.75 + 0.5 + 0.25;
  }

  // ---------------------------------------------------------------------------
  // Cepstrum and noise floor (tinysr.py:84-86)

  /** `[math.log(i + 2e-22) for i in bins]` */
  function LogBins(bins: seq<real>, nm: Numerics): (l: seq<real>)
    ensures |l| == |bins|
  {
    seq(|bins|, k requires 0 <= k < |bins| => nm.log(bins[k] + BIN_FLOOR))
  }

  /** sum of cos(pi * i * (j + 0.5) / 23) * v[j] over the first n bins. */
  function DctSum(v: seq<real>, i: nat, n: nat, nm: Numerics): real
    requires n <= |v|
  {
    if n == 0 then 0.0 else DctSum(v, i, n - 1, nm) + nm.dctCos(i, n - 1) * v[n - 1]
  }

  /** The 13 cepstral coefficients: a DCT-II of the log filter-bank energies. */
  function Cepstrum(logBins: seq<real>, nm: Numerics): (c: seq<real>)
    ensures |c| == NUM_CEPSTRA
  {
    seq(NUM_CEPSTRA, i requires 0 <= i < NUM_CEPSTRA => DctSum(logBins, i, |logBins|, nm))
  }

  function Sum(v: seq<real>): real
  {
    if v == [] then 0.0 else Sum(v[..|v| - 1]) + v[|v| - 1]
  }

  /** With cos(0) == 1, coefficient 0 is the total of the log energies. */
  lemma {:induction false} CepstrumZeroIsTotal(v: seq<real>, n: nat, nm: Numerics)
    requires n <= |v|
    requires forall j | 0 <= j < n :: nm.dctCos(0, j) == 1.0
    ensures DctSum(v, 0, n, nm) == Sum(v[..n])
  {
    if n > 0 {
      CepstrumZeroIsTotal(v, n - 1, nm);
      assert v[..n][..n - 1] == v[..n - 1];
    }
  }

  /**
   * `min(log_energy, 0.999 * estimate + 0.001 * log_energy)`: the estimate
   * drops at once to a quieter frame and creeps up towards a louder one.
   */
  function NoiseFloorStep(estimate: real, logEnergy: real): (r: real)
    ensures r <= logEnergy && r <= 0.999 * estimate + 0.001 * logEnergy
    ensures r == logEnergy || r == 0.999 * estimate + 0.001 * logEnergy
    ensures logEnergy <= estimate ==> r == logEnergy
    ensures estimate < logEnergy ==> estimate < r && r == estimate + 0.001 * (logEnergy - estimate)
  {
    var blended := 0.999 * estimate + 0.001 * logEnergy;
    if logEnergy <= blended then logEnergy else blended
  }

  // ---------------------------------------------------------------------------
  // Feature vectors of a sequence of frames

  datatype FeatureVector = FeatureVector(noiseFloorEstimate: real, logEnergy: real, cepstrum: seq<real>, number: int)

  function LogEnergy(frame: seq<real>, nm: Numerics): real
  {
    nm.log(SumSquares(frame))
  }

  /** Pre-emphasis (first sample kept), Hamming window, zero padding to 512 and |FFT|. */
  function FrameSpectrum(frame: seq<real>, nm: Numerics): (spectrum: seq<real>)
    requires |frame| == FRAME_LENGTH
    ensures |spectrum| == FFT_LENGTH
  {
    var padded := ZeroPadded(Windowed(PreEmphasized(frame), HammingWindow(nm)), FFT_LENGTH);
    FftLengthIsPowerOfTwo();
    Magnitudes(Fft(Complexify(padded), nm.twiddle), nm.sqrt)
  }

  function FrameCepstrum(frame: seq<real>, nm: Numerics): (c: seq<real>)
    requires |frame| == FRAME_LENGTH
    ensures |c| == NUM_CEPSTRA
  {
    Cepstrum(LogBins(MelBins(FrameSpectrum(frame, nm)), nm), nm)
  }

  /** A frame handed to process_frame: FRAME_LENGTH compensated samples. */
  type Frame = s: seq<real> | |s| == FRAME_LENGTH witness seq(FRAME_LENGTH, _ => 0.0)

  /** What process_frame derives from a frame on its own: the log energy and the cepstrum. */
  datatype Analysis = Analysis(logEnergy: real, cepstrum: seq<real>)

  function Analyse(frame: Frame, nm: Numerics): Analysis
  {
    Analysis(LogEnergy(frame, nm), FrameCepstrum(frame, nm))
  }

  /**
   * A per-frame analysis as a value. The feature functions below hold for any
   * analyser; the context keeps Analyse as one, so that its invariant does not
   * unfold the spectrum of every frame it mentions.
   */
  type Analyser = Frame -> Analysis

  /** The noise-floor estimate after the given frames, starting from 100. */
  function NoiseFloorAfter(frames: seq<Frame>, analyse: Analyser): real
  {
    if frames == [] then NOISE_FLOOR_START
    else NoiseFloorStep(NoiseFloorAfter(frames[..|frames| - 1], analyse), analyse(frames[|frames| - 1]).logEnergy)
  }

  /** The feature vector of every frame, numbered from 1. */
  function Features(frames: seq<Frame>, analyse: Analyser): (fvs: seq<FeatureVector>)
    ensures |fvs| == |frames|
  {
    if frames == [] then []
    else
      var a := analyse(frames[|frames| - 1]);
      Features(frames[..|frames| - 1], analyse)
        + [FeatureVector(NoiseFloorAfter(frames, analyse), a.logEnergy, a.cepstrum, |frames|)]
  }

  /**
   * Feature vector i describes frame i: it is numbered i + 1, holds that frame's
   * energy and cepstrum, and an estimate no higher than that energy.
   */
  lemma {:induction false} FeatureOfFrame(frames: seq<Frame>, analyse: Analyser, i: nat)
    requires i < |frames|
    ensures Features(frames, analyse)[i].number == i + 1
    ensures Features(frames, analyse)[i].logEnergy == analyse(frames[i]).logEnergy
    ensures Features(frames, analyse)[i].cepstrum == analyse(frames[i]).cepstrum
    ensures Features(frames, analyse)[i].noiseFloorEstimate <= Features(frames, analyse)[i].logEnergy
  {
    var init := frames[..|frames| - 1];
    if i < |init| {
      FeatureOfFrame(init, analyse, i);
    }
  }

  /** Processing more frames only appends feature vectors: the first n depend on the first n frames alone. */
  lemma {:induction false} FeaturesPrefix(frames: seq<Frame>, n: nat, analyse: Analyser)
    requires n <= |frames|
    ensures Features(frames[..n], analyse) == Features(frames, analyse)[..n]
    decreases |frames|
  {
    if n < |frames| {
      var init := frames[..|frames| - 1];
      FeaturesPrefix(init, n, analyse);
      assert init[..n] == frames[..n];
    } else {
      assert frames[..n] == frames;
    }
  }

  /** All frames laid end to end. */
  function Concat(frames: seq<Frame>): (c: seq<real>)
    ensures |c| == FRAME_LENGTH * |frames|
  {
    if frames == [] then [] else Concat(frames[..|frames| - 1]) + frames[|frames| - 1]
  }

  lemma ConcatAppend(frames: seq<Frame>, frame: Frame)
    ensures Concat(frames + [frame]) == Concat(frames) + frame
  {
    assert (frames + [frame])[..|frames|] == frames;
  }

  /** Frames tile their concatenation: frame f is samples 400f .. 400f + 399, with no overlap. */
  lemma {:induction false} FramesTile(frames: seq<Frame>, f: nat)
    requires f < |frames|
    ensures Concat(frames)[FRAME_LENGTH * f..FRAME_LENGTH * (f + 1)] == frames[f]
  {
    var init := frames[..|frames| - 1];
    if f < |init| {
      FramesTile(init, f);
      assert Concat(frames)[..FRAME_LENGTH * |init|] == Concat(init);
    }
  }

  function Cepstra(fvs: seq<FeatureVector>): (cs: seq<seq<real>>)
    ensures |cs| == |fvs|
  {
    seq(|fvs|, i requires 0 <= i < |fvs| => fvs[i].cepstrum)
  }

  /** All utterances laid end to end. */
  function Flatten(us: seq<seq<seq<real>>>): seq<seq<real>>
  {
    if us == [] then [] else Flatten(us[..|us| - 1]) + us[|us| - 1]
  }

  datatype UtteranceMode = OneShot | FreeRunning

  // ---------------------------------------------------------------------------
  // Frame processing (tinysr.py:71-76)

  /** `samples[i] -= 0.97 * samples[i-1]` for i from 399 down to 1. */
  method PreEmphasize(frame: seq<real>) returns (s: seq<real>)
    requires |frame| == FRAME_LENGTH
    ensures s == PreEmphasized(frame)
  {
    s := frame;
    var i := FRAME_LENGTH - 1;
    while i >= 1
      invariant 0 <= i < |s| == |frame|
      invariant forall j | 0 <= j <= i :: s[j] == frame[j]
      invariant forall j | i < j < |s| :: s[j] == frame[j] - PRE_EMPHASIS * frame[j - 1]
    {
      s := s[i := s[i] - PRE_EMPHASIS * s[i - 1]];
      i := i - 1;
    }
  }

  /** `samples[i] *= 0.54 - 0.46 * cos(2 * pi * i / 399)` for every i. */
  method ApplyWindow(frame: seq<real>, nm: Numerics) returns (s: seq<real>)
    requires |frame| == FRAME_LENGTH
    ensures s == Windowed(frame, HammingWindow(nm))
  {
    s := frame;
    for i := 0 to FRAME_LENGTH
      invariant |s| == FRAME_LENGTH
      invariant forall j | 0 <= j < i :: s[j] == frame[j] * nm.hamming(j)
      invariant forall j | i <= j < FRAME_LENGTH :: s[j] == frame[j]
    {
      s := s[i := s[i] * nm.hamming(i)];
    }
    forall j | 0 <= j < FRAME_LENGTH
      ensures s[j] == Windowed(frame, HammingWindow(nm))[j]
    {
    }
  }

  /** `while len(samples) < FFT_LENGTH: samples.append(0.0)` */
  method PadToFftLength(frame: seq<real>) returns (s: seq<real>)
    requires |frame| <= FFT_LENGTH
    ensures s == ZeroPadded(frame, FFT_LENGTH)
  {
    s := frame;
    while |s| < FFT_LENGTH
      invariant |frame| <= |s| <= FFT_LENGTH
      invariant s == frame + seq(|s| - |frame|, _ => 0.0)
      decreases FFT_LENGTH - |s|
    {
      s := s + [0.0];
    }
  }

  // ---------------------------------------------------------------------------
  // The context (tinysr.py:18-96)

  class Context {
    const nm: Numerics
    /** Analyse(_, nm) as a value (see Analyser). */
    ghost const analyse: Analyser
    /** OffsetCompensated as a value, for the same reason. */
    ghost const compensation: seq<real> -> seq<real>

    var inputSampleRate: int
    var doDownmix: bool
    var resamplingTimeDelta: real
    var prevSample: real
    var inputBuffer: seq<real>
    var offsetCompPrevIn: real
    var offsetCompPrevOut: real
    var noiseFloorEstimate: real
    var featureVectors: seq<FeatureVector>
    var nextFvNumber: int
    var accumulatedUtterance: seq<seq<real>>
    var utterances: seq<seq<seq<real>>>
    var utteranceMode: UtteranceMode
    var excitement: real

    /** Every value the resampler has produced, before offset compensation. */
    ghost var resampled: seq<real>
    /** Every frame handed to process_frame, in order. */
    ghost var frames: seq<Frame>
    /** The offset-compensated stream: every value ever appended to the input buffer. */
    ghost var compensated: seq<real>

    ghost predicate AnalyserAgrees()
    {
      forall f: Frame {:trigger Analyse(f, nm)} :: analyse(f) == Analyse(f, nm)
    }

    ghost predicate CompensationAgrees()
    {
      forall xs {:trigger OffsetCompensated(xs)} :: compensation(xs) == OffsetCompensated(xs)
    }

    ghost predicate ValidFilter()
      reads this`resampled, this`compensated, this`offsetCompPrevIn, this`offsetCompPrevOut
    {
      && CompensationAgrees()
      && offsetCompPrevIn == LastOr(resampled, 0.0)
      && compensated == compensation(resampled)
      && offsetCompPrevOut == LastOr(compensated, 0.0)
    }

    /** The stream c is cut into whole frames, the rest waiting in the buffer. */
    ghost predicate Framed(c: seq<real>)
      reads this`frames, this`inputBuffer
    {
      && |inputBuffer| < FRAME_LENGTH
      && c == Concat(frames) + inputBuffer
    }

    /**
     * One feature vector per frame: the pending ones are the latest, and with
     * those already moved into utterances they account for every frame once.
     */
    ghost predicate ValidFeatures()
      reads this`frames, this`nextFvNumber, this`noiseFloorEstimate, this`featureVectors, this`utterances
    {
      && nextFvNumber == |frames| + 1
      && noiseFloorEstimate == NoiseFloorAfter(frames, analyse)
      && FeaturesAccounted(frames, featureVectors, utterances, analyse)
    }

    ghost predicate Valid()
      reads this
    {
      && resamplingTimeDelta >= 0.0
      && AnalyserAgrees()
      && ValidFilter()
      && Framed(compensated)
      && ValidFeatures()
    }

    /** `TinySRContext.__init__` */
    constructor (nm: Numerics)
      ensures Valid()
      ensures this.nm == nm && inputSampleRate == DEFAULT_INPUT_SAMPLE_RATE && !doDownmix
      ensures resamplingTimeDelta == 0.0 && prevSample == 0.0 && inputBuffer == []
      ensures offsetCompPrevIn == 0.0 && offsetCompPrevOut == 0.0
      ensures noiseFloorEstimate == NOISE_FLOOR_START && featureVectors == [] && nextFvNumber == 1
      ensures accumulatedUtterance == [] && utterances == [] && utteranceMode == OneShot && excitement == 0.0
      ensures resampled == [] && compensated == [] && frames == []
    {
      this.nm := nm;
      analyse := (f: Frame) => Analyse(f, nm);
      compensation := OffsetCompensated;
      inputSampleRate := DEFAULT_INPUT_SAMPLE_RATE;
      doDownmix := false;
      resamplingTimeDelta := 0.0;
      prevSample := 0.0;
      inputBuffer := [];
      offsetCompPrevIn := 0.0;
      offsetCompPrevOut := 0.0;
      noiseFloorEstimate := NOISE_FLOOR_START;
      featureVectors := [];
      nextFvNumber := 1;
      accumulatedUtterance := [];
      utterances := [];
      utteranceMode := OneShot;
      excitement := 0.0;
      resampled := [];
      compensated := [];
      frames := [];
    }

    /** The time advance per resampled value: input rate over 16 kHz. */
    function Step(): real
      reads this`inputSampleRate
    {
      inputSampleRate as real / TARGET_RATE
    }

    /**
     * `feed_input`: decode, downmix, then per input sample emit the
     * interpolated values, offset-compensate them and cut frames of 400.
     */
    method FeedInput(input: Input) returns (err: Option<PyError>)
      requires Valid() && inputSampleRate > 0
      modifies this`resamplingTimeDelta, this`prevSample, this`inputBuffer, this`offsetCompPrevIn
      modifies this`offsetCompPrevOut, this`noiseFloorEstimate, this`featureVectors, this`nextFvNumber
      modifies this`resampled, this`compensated, this`frames
      ensures Valid()
      ensures err.Some? <==> Prepared(input, doDownmix).Failure?
      ensures err.Some? ==> err.value == StructError && resampled == old(resampled) && frames == old(frames)
      ensures err.Some? ==> prevSample == old(prevSample) && resamplingTimeDelta == old(resamplingTimeDelta)
      ensures err.None? ==>
        var xs := Prepared(input, doDownmix).value;
        && resampled == old(resampled) + Resampled(old(prevSample), xs, old(resamplingTimeDelta), Step())
        && resamplingTimeDelta == DeltaAfterAll(xs, old(resamplingTimeDelta), Step())
        && prevSample == LastOr(xs, old(prevSample))
      ensures old(frames) <= frames
      ensures featureVectors == old(featureVectors) + Features(frames, analyse)[|old(frames)|..]
    {
      var prepared := Prepared(input, doDownmix);
      if prepared.Failure? {
        return Some(prepared.error);
      }
      err := None;
      ghost var f0, fv0 := frames, featureVectors;
      FeedSamples(prepared.value);
      PendingFeatures(f0, frames, fv0, featureVectors, utterances, analyse);
    }

    /** The outer loop of tinysr.py:57-67, over the prepared input samples. */
    method FeedSamples(xs: seq<real>)
      requires Valid() && inputSampleRate > 0
      modifies this`resamplingTimeDelta, this`prevSample, this`inputBuffer, this`offsetCompPrevIn
      modifies this`offsetCompPrevOut, this`noiseFloorEstimate, this`featureVectors, this`nextFvNumber
      modifies this`resampled, this`compensated, this`frames
      ensures Valid()
      ensures resampled == old(resampled) + Resampled(old(prevSample), xs, old(resamplingTimeDelta), Step())
      ensures resamplingTimeDelta == DeltaAfterAll(xs, old(resamplingTimeDelta), Step())
      ensures prevSample == LastOr(xs, old(prevSample))
      ensures old(frames) <= frames
    {
      ghost var step := Step();
      ghost var p0, d0, r0, f0 := prevSample, resamplingTimeDelta, resampled, frames;
      for k := 0 to |xs|
        invariant Valid()
        invariant resampled == r0 + Resampled(p0, xs[..k], d0, step)
        invariant resamplingTimeDelta == DeltaAfterAll(xs[..k], d0, step)
        invariant prevSample == LastOr(xs[..k], p0)
        invariant f0 <= frames
      {
        ResampledPrefixStep(r0, p0, xs, k, d0, step);
        ghost var f := frames;
        FeedSample(xs[k]);
        PrefixTrans(f0, f, frames);
        assert Step() == step;
      }
      assert xs[..|xs|] == xs;
    }

    /**
     * One input sample (tinysr.py:57-67): the inner loop, then prev_sample,
     * with the time moved back by one input period.
     */
    method FeedSample(x: real)
      requires Valid() && inputSampleRate > 0
      modifies this`resamplingTimeDelta, this`prevSample, this`inputBuffer, this`offsetCompPrevIn
      modifies this`offsetCompPrevOut, this`noiseFloorEstimate, this`featureVectors, this`nextFvNumber
      modifies this`resampled, this`compensated, this`frames
      ensures Valid()
      ensures resampled == old(resampled) + Interpolated(old(prevSample), x, old(resamplingTimeDelta), Step())
      ensures resamplingTimeDelta == DeltaAfter(old(resamplingTimeDelta), Step()) - 1.0
      ensures prevSample == x
      ensures old(frames) <= frames
    {
      Interpolate(x);
      EndSample(x);
    }

    /**
     * The inner loop of tinysr.py:58-66: one resampled value per time d, d + step,
     * ... up to 1.0, each compensated and buffered.
     */
    method Interpolate(x: real)
      requires Valid() && inputSampleRate > 0
      modifies this`resamplingTimeDelta, this`inputBuffer, this`offsetCompPrevIn, this`offsetCompPrevOut
      modifies this`noiseFloorEstimate, this`featureVectors, this`nextFvNumber, this`resampled, this`compensated, this`frames
      ensures Valid()
      ensures resampled == old(resampled) + Interpolated(prevSample, x, old(resamplingTimeDelta), Step())
      ensures resamplingTimeDelta == DeltaAfter(old(resamplingTimeDelta), Step())
      ensures old(frames) <= frames
    {
      ghost var step := Step();
      ghost var r0, d0, f0 := resampled, resamplingTimeDelta, frames;
      while resamplingTimeDelta <= 1.0
        invariant Valid()
        invariant r0 + Interpolated(prevSample, x, d0, step)
               == resampled + Interpolated(prevSample, x, resamplingTimeDelta, step)
        invariant DeltaAfter(d0, step) == DeltaAfter(resamplingTimeDelta, step)
        invariant f0 <= frames
        decreases |Interpolated(prevSample, x, resamplingTimeDelta, step)|
      {
        InterpolatedStep(r0, resampled, prevSample, x, d0, resamplingTimeDelta, step);
        ghost var f := frames;
        ResamplePass(x, step);
        PrefixTrans(f0, f, frames);
      }
    }

    /** The end of one input sample (tinysr.py:67): the time moves back by one input period. */
    method EndSample(x: real)
      requires Valid() && resamplingTimeDelta > 1.0
      modifies this`resamplingTimeDelta, this`prevSample
      ensures Valid()
      ensures resamplingTimeDelta == old(resamplingTimeDelta) - 1.0 && prevSample == x
    {
      resamplingTimeDelta := resamplingTimeDelta - 1.0;
      prevSample := x;
    }

    /**
     * One pass of the inner loop (tinysr.py:58-66): interpolate, compensate,
     * advance the time, buffer, and process the buffer once it holds a frame.
     */
    method ResamplePass(x: real, ghost step: real)
      requires Valid() && inputSampleRate > 0 && step == Step()
      modifies this`resamplingTimeDelta, this`inputBuffer, this`offsetCompPrevIn, this`offsetCompPrevOut
      modifies this`noiseFloorEstimate, this`featureVectors, this`nextFvNumber, this`resampled, this`compensated, this`frames
      ensures Valid()
      ensures resampled == old(resampled) + [Lerp(prevSample, x, old(resamplingTimeDelta))]
      ensures resamplingTimeDelta == old(resamplingTimeDelta) + step
      ensures old(frames) <= frames
    {
      var sampleOut := Emit(x, step);
      Buffer(sampleOut, old(compensated));
    }

    /** The first half of a pass (tinysr.py:58-62): interpolate, compensate and advance the time. */
    method Emit(x: real, ghost step: real) returns (sampleOut: real)
      requires ValidFilter() && resamplingTimeDelta >= 0.0 && inputSampleRate > 0 && step == Step()
      modifies this`resamplingTimeDelta, this`offsetCompPrevIn, this`offsetCompPrevOut, this`resampled, this`compensated
      ensures ValidFilter() && resamplingTimeDelta >= 0.0
      ensures resampled == old(resampled) + [Lerp(prevSample, x, old(resamplingTimeDelta))]
      ensures compensated == old(compensated) + [sampleOut]
      ensures resamplingTimeDelta == old(resamplingTimeDelta) + step
    {
      var d := resamplingTimeDelta;
      var sampleIn := Lerp(prevSample, x, d);
      sampleOut := Compensate(sampleIn);
      resamplingTimeDelta := d + inputSampleRate as real / TARGET_RATE;
    }

    /** The offset-compensation filter of tinysr.py:59-61. */
    method Compensate(sampleIn: real) returns (sampleOut: real)
      requires ValidFilter()
      modifies this`offsetCompPrevIn, this`offsetCompPrevOut, this`resampled, this`compensated
      ensures ValidFilter()
      ensures resampled == old(resampled) + [sampleIn]
      ensures compensated == old(compensated) + [sampleOut]
    {
      sampleOut := sampleIn - offsetCompPrevIn + OFFSET_COMP_POLE * offsetCompPrevOut;
      OffsetCompensatedAppend(resampled, sampleIn);
      offsetCompPrevIn := sampleIn;
      offsetCompPrevOut := sampleOut;
      resampled := resampled + [sampleIn];
      compensated := compensated + [sampleOut];
    }

    /** `input_buffer.append(sample_out)`, and a full buffer is processed and emptied (tinysr.py:63-66). */
    method Buffer(sampleOut: real, ghost c: seq<real>)
      requires compensated == c + [sampleOut] && Framed(c) && ValidFeatures() && AnalyserAgrees()
      modifies this`inputBuffer, this`noiseFloorEstimate, this`featureVectors, this`nextFvNumber, this`frames
      ensures Framed(compensated) && ValidFeatures()
      ensures old(frames) <= frames
    {
      inputBuffer := inputBuffer + [sampleOut];
      if |inputBuffer| == FRAME_LENGTH {
        ghost var fvs := featureVectors;
        ProcessFrame(inputBuffer);
        FeaturesAppend(frames, inputBuffer, fvs, featureVectors, utterances, analyse);
        ConcatAppend(frames, inputBuffer);
        frames := frames + [inputBuffer];
        inputBuffer := [];
      }
    }

    /**
     * `process_frame`: the log energy, the spectrum of the pre-emphasised,
     * windowed and padded frame, 23 mel energies, 13 cepstra, the noise floor
     * and the next feature vector.
     */
    method ProcessFrame(samples: Frame)
      requires AnalyserAgrees()
      modifies this`noiseFloorEstimate, this`featureVectors, this`nextFvNumber
      ensures noiseFloorEstimate == NoiseFloorStep(old(noiseFloorEstimate), analyse(samples).logEnergy)
      ensures featureVectors == old(featureVectors)
        + [FeatureVector(noiseFloorEstimate, analyse(samples).logEnergy, analyse(samples).cepstrum, old(nextFvNumber))]
      ensures nextFvNumber == old(nextFvNumber) + 1
    {
      var logEnergy := nm.log(SumSquares(samples));
      var s := PreEmphasize(samples);
      s := ApplyWindow(s, nm);
      s := PadToFftLength(s);
      FftLengthIsPowerOfTwo();
      var fftBins := Magnitudes(Fft(Complexify(s), nm.twiddle), nm.sqrt);
      var bins := FilterBank(fftBins);
      var cepstrum := Cepstrum(LogBins(bins, nm), nm);
      noiseFloorEstimate := NoiseFloorStep(noiseFloorEstimate, logEnergy);
      featureVectors := featureVectors + [FeatureVector(noiseFloorEstimate, logEnergy, cepstrum, nextFvNumber)];
      nextFvNumber := nextFvNumber + 1;
      assert analyse(samples) == Analyse(samples, nm);
    }

    /**
     * `detect_utterances`: in one-shot mode the pending cepstra become one
     * utterance; in free-running mode nothing is done yet.
     */
    method DetectUtterances()
      requires Valid()
      modifies this`utterances, this`featureVectors
      ensures Valid()
      ensures old(featureVectors) != [] && utteranceMode == OneShot ==>
        utterances == old(utterances) + [Cepstra(old(featureVectors))] && featureVectors == []
      ensures old(featureVectors) == [] || utteranceMode != OneShot ==>
        utterances == old(utterances) && featureVectors == old(featureVectors)
    {
      if featureVectors == [] {
        return;
      }
      if utteranceMode == OneShot {
        utterances := utterances + [Cepstra(featureVectors)];
        featureVectors := [];
        assert Flatten(utterances) == Flatten(old(utterances)) + Cepstra(old(featureVectors)) by {
          assert utterances[..|utterances| - 1] == old(utterances);
        }
        assert Cepstra(featureVectors) == [];
        return;
      }
    }
  }

  /**
   * While no vector moves into an utterance, the pending vectors gain exactly
   * the vectors of the frames processed meanwhile.
   */
  lemma PendingFeatures(f0: seq<Frame>, frames: seq<Frame>, fv0: seq<FeatureVector>, fv: seq<FeatureVector>,
                        us: seq<seq<seq<real>>>, analyse: Analyser)
    requires f0 <= frames
    requires FeaturesAccounted(f0, fv0, us, analyse) && FeaturesAccounted(frames, fv, us, analyse)
    ensures fv == fv0 + Features(frames, analyse)[|f0|..]
  {
    var n0, m := |f0|, |fv0|;
    var all := Features(frames, analyse);
    assert |Flatten(us)| + m == n0 && |Flatten(us)| + |fv| == |frames|;
    FeaturesPrefix(frames, n0, analyse);
    assert frames[..n0] == f0;
    SliceOfPrefix(all, n0, n0 - m);
    SliceSplit(all, n0 - m, n0);
  }

  lemma SliceOfPrefix<T>(s: seq<T>, n: nat, i: nat)
    requires i <= n <= |s|
    ensures s[..n][i..] == s[i..n]
  {
  }

  lemma SliceSplit<T>(s: seq<T>, i: nat, j: nat)
    requires i <= j <= |s|
    ensures s[i..] == s[i..j] + s[j..]
  {
  }

  /**
   * The pending vectors fvs are the latest of the frames' feature vectors, and
   * with those already moved into the utterances us they account for every
   * frame once.
   */
  ghost predicate FeaturesAccounted(frames: seq<Frame>, fvs: seq<FeatureVector>, us: seq<seq<seq<real>>>, analyse: Analyser)
  {
    && |fvs| <= |frames|
    && fvs == Features(frames, analyse)[|frames| - |fvs|..]
    && Flatten(us) + Cepstra(fvs) == Cepstra(Features(frames, analyse))
  }

  /** Processing one more frame appends its vector, and the estimate it carries follows the last one. */
  lemma FeaturesAppend(frames: seq<Frame>, frame: Frame, fvs: seq<FeatureVector>, fvs': seq<FeatureVector>,
                       us: seq<seq<seq<real>>>, analyse: Analyser)
    requires FeaturesAccounted(frames, fvs, us, analyse)
    requires fvs' == fvs + [FeatureVector(NoiseFloorStep(NoiseFloorAfter(frames, analyse), analyse(frame).logEnergy),
                                          analyse(frame).logEnergy, analyse(frame).cepstrum, |frames| + 1)]
    ensures NoiseFloorAfter(frames + [frame], analyse) == NoiseFloorStep(NoiseFloorAfter(frames, analyse), analyse(frame).logEnergy)
    ensures FeaturesAccounted(frames + [frame], fvs', us, analyse)
  {
    var all := frames + [frame];
    assert all[..|all| - 1] == frames && all[|all| - 1] == frame;
    var fv := FeatureVector(NoiseFloorAfter(all, analyse), analyse(frame).logEnergy, analyse(frame).cepstrum, |all|);
    var before := Features(frames, analyse);
    assert Features(all, analyse) == before + [fv];
    SliceAppend(before, fv, |frames| - |fvs|);
    assert fvs' == fvs + [fv];
    CepstraAppend(fvs, fv);
    CepstraAppend(before, fv);
    AppendAssoc(Flatten(us), Cepstra(fvs), [fv.cepstrum]);
  }

  lemma CepstraAppend(fvs: seq<FeatureVector>, fv: FeatureVector)
    ensures Cepstra(fvs + [fv]) == Cepstra(fvs) + [fv.cepstrum]
  {
  }

  lemma SliceAppend<T>(s: seq<T>, x: T, i: nat)
    requires i <= |s|
    ensures (s + [x])[i..] == s[i..] + [x]
  {
  }

  lemma PrefixTrans<T>(a: seq<T>, b: seq<T>, c: seq<T>)
    requires a <= b && b <= c
    ensures a <= c
  {
  }

  lemma AppendAssoc<T>(a: seq<T>, b: seq<T>, c: seq<T>)
    ensures (a + b) + c == a + (b + c)
  {
  }
}
