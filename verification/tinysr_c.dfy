/**
 * The C front end (tinysr.c): a context that offset-compensates incoming
 * samples into a circular buffer, cuts a 400-sample frame every 160 samples,
 * and turns each frame into the magnitude spectrum of its pre-emphasised,
 * Hamming-windowed, zero-padded samples with an in-place recursive FFT.
 */
module TinySR {
  import opened Dsp
  import opened FastFourier

  /** The floor added to the frame energy before its logarithm (tinysr.c:77). */
  const ENERGY_FLOOR: real := 0.0000000000000000000002

  /** The sample rate the context assumes until told otherwise (tinysr.c:11). */
  const DEFAULT_INPUT_FRAMERATE: int := 48000

  // ---------------------------------------------------------------------------
  // The power-of-two guard of tinysr_abs_fft

  /** Bitwise AND of two non-negative integers, bit by bit from the least significant. */
  function BitAnd(a: nat, b: nat): nat
  {
    if a == 0 || b == 0 then 0
    else 2 * BitAnd(a / 2, b / 2) + (if a % 2 == 1 && b % 2 == 1 then 1 else 0)
  }

  lemma {:induction false} BitAndSelf(a: nat)
    ensures BitAnd(a, a) == a
  {
    if a > 0 {
      BitAndSelf(a / 2);
    }
  }

  /** `n > 0 && !(n & (n - 1))` holds exactly for the powers of two. */
  lemma {:induction false} PowerOfTwoGuard(n: int)
    ensures (n > 0 && BitAnd(n, n - 1) == 0) <==> IsPowerOfTwo(n)
    decreases if n > 0 then n else 0
  {
    if n > 1 {
      if n % 2 == 0 {
        assert (n - 1) / 2 == n / 2 - 1;
        PowerOfTwoGuard(n / 2);
      } else {
        assert (n - 1) / 2 == n / 2;
        BitAndSelf(n / 2);
      }
    }
  }

  // ---------------------------------------------------------------------------
  // tinysr_fft_dit and tinysr_abs_fft

  /**
   * The FFT of the `length` complex values in[start], in[start + stride], ...
   * into out[0 .. length). Output may share storage with input: both recursive
   * calls read the input before any output is written.
   */
  method FftDit(inRe: array<real>, inIm: array<real>, start: nat, length: nat, stride: nat,
                outRe: array<real>, outIm: array<real>, tw: Twiddle, ghost re: seq<real>, ghost im: seq<real>)
    requires IsPowerOfTwo(length)
    requires inRe[..] == re && inIm[..] == im
    requires start + (length - 1) * stride < |re| && start + (length - 1) * stride < |im|
    requires length <= outRe.Length && length <= outIm.Length
    requires outRe != outIm && outRe != inIm && outIm != inRe
    modifies outRe, outIm
    ensures Strided(outRe[..], outIm[..], 0, 1, length) == Fft(Strided(re, im, start, stride, length), tw)
    ensures outRe[length..] == old(outRe[length..]) && outIm[length..] == old(outIm[length..])
    decreases length
  {
    if length == 1 {
      outRe[0] := inRe[start];
      outIm[0] := inIm[start];
      return;
    }
    var half := length / 2;
    var evenRe := new real[half];
    var evenIm := new real[half];
    var oddRe := new real[half];
    var oddIm := new real[half];
    DecimationInTime(re, im, start, stride, length, tw);
    FftDit(inRe, inIm, start, half, 2 * stride, evenRe, evenIm, tw, re, im);
    ghost var e := Fft(Strided(re, im, start, 2 * stride, half), tw);
    FftDit(inRe, inIm, start + stride, half, 2 * stride, oddRe, oddIm, tw, re, im);
    ghost var o := Fft(Strided(re, im, start + stride, 2 * stride, half), tw);
    Butterfly(evenRe, evenIm, oddRe, oddIm, half, outRe, outIm, tw, e, o);
  }

  /**
   * The recursion of tinysr_fft_dit: the transform of a strided view is the
   * butterflies of the transforms of its two views with twice the stride.
   */
  lemma DecimationInTime(re: seq<real>, im: seq<real>, start: nat, stride: nat, length: nat, tw: Twiddle)
    requires IsPowerOfTwo(length) && length > 1
    requires start + (length - 1) * stride < |re| && start + (length - 1) * stride < |im|
    ensures start + (length / 2 - 1) * (2 * stride) < |re| && start + (length / 2 - 1) * (2 * stride) < |im|
    ensures start + stride + (length / 2 - 1) * (2 * stride) < |re|
         && start + stride + (length / 2 - 1) * (2 * stride) < |im|
    ensures IsPowerOfTwo(length / 2)
    ensures Fft(Strided(re, im, start, stride, length), tw)
         == Butterflies(Fft(Strided(re, im, start, 2 * stride, length / 2), tw),
                        Fft(Strided(re, im, start + stride, 2 * stride, length / 2), tw), tw)
  {
    var x := Strided(re, im, start, stride, length);
    StridedEvens(re, im, start, stride, length);
    StridedOdds(re, im, start, stride, length);
    FftSplits(x, tw);
  }

  /** One butterfly on real and imaginary parts, as the loop body of tinysr_fft_dit computes it. */
  method ButterflyPair(evenRe: real, evenIm: real, oddRe: real, oddIm: real, coef: Complex)
    returns (sumRe: real, sumIm: real, diffRe: real, diffIm: real)
    ensures Complex(sumRe, sumIm) == Add(Complex(evenRe, evenIm), Mul(coef, Complex(oddRe, oddIm)))
    ensures Complex(diffRe, diffIm) == Sub(Complex(evenRe, evenIm), Mul(coef, Complex(oddRe, oddIm)))
  {
    var coefRe := coef.re;
    var coefIm := coef.im;
    sumRe := evenRe + coefRe * oddRe - coefIm * oddIm;
    sumIm := evenIm + coefRe * oddIm + coefIm * oddRe;
    diffRe := evenRe - coefRe * oddRe + coefIm * oddIm;
    diffIm := evenIm - coefRe * oddIm - coefIm * oddRe;
  }

  /**
   * The butterfly loop of tinysr_fft_dit: out[k] and out[k + half] from the
   * k-th entries of the even and odd half transforms, with the twiddle factor
   * of the full length.
   */
  method Butterfly(evenRe: array<real>, evenIm: array<real>, oddRe: array<real>, oddIm: array<real>,
                   half: nat, outRe: array<real>, outIm: array<real>, tw: Twiddle,
                   ghost e: seq<Complex>, ghost o: seq<Complex>)
    requires half <= evenRe.Length && half <= evenIm.Length && half <= oddRe.Length && half <= oddIm.Length
    requires Strided(evenRe[..], evenIm[..], 0, 1, half) == e && Strided(oddRe[..], oddIm[..], 0, 1, half) == o
    requires 2 * half <= outRe.Length && 2 * half <= outIm.Length && outRe != outIm
    requires outRe != evenRe && outRe != evenIm && outRe != oddRe && outRe != oddIm
    requires outIm != evenRe && outIm != evenIm && outIm != oddRe && outIm != oddIm
    modifies outRe, outIm
    ensures Strided(outRe[..], outIm[..], 0, 1, 2 * half) == Butterflies(e, o, tw)
    ensures outRe[2 * half..] == old(outRe[2 * half..]) && outIm[2 * half..] == old(outIm[2 * half..])
  {
    var length := 2 * half;
    for k := 0 to half
      invariant ButterfliesUpTo(outRe[..], outIm[..], e, o, tw, k)
      invariant outRe[length..] == old(outRe[length..]) && outIm[length..] == old(outIm[length..])
    {
      var sumRe, sumIm, diffRe, diffIm := ButterflyPair(evenRe[k], evenIm[k], oddRe[k], oddIm[k], tw(k, length));
      ghost var re, im := outRe[..], outIm[..];
      outRe[k] := sumRe;
      outIm[k] := sumIm;
      outRe[k + half] := diffRe;
      outIm[k + half] := diffIm;
      assert outRe[..] == re[k := sumRe][k + half := diffRe];
      assert outIm[..] == im[k := sumIm][k + half := diffIm];
      ButterflyStep(re, im, e, o, tw, k, sumRe, sumIm, diffRe, diffIm);
    }
    ButterfliesOfParts(outRe[..], outIm[..], e, o, tw);
  }

  /** The first k butterflies of e and o are in place, in both halves of the output. */
  ghost predicate ButterfliesUpTo(re: seq<real>, im: seq<real>, e: seq<Complex>, o: seq<Complex>, tw: Twiddle, k: nat)
  {
    && |e| == |o| && k <= |e| && 2 * |e| <= |re| && 2 * |e| <= |im|
    && (forall j | 0 <= j < k :: Complex(re[j], im[j]) == Add(e[j], Mul(tw(j, 2 * |e|), o[j])))
    && (forall j | 0 <= j < k :: Complex(re[|e| + j], im[|e| + j]) == Sub(e[j], Mul(tw(j, 2 * |e|), o[j])))
  }

  /** Writing butterfly k into both halves extends the finished prefix by one. */
  lemma ButterflyStep(re: seq<real>, im: seq<real>, e: seq<Complex>, o: seq<Complex>, tw: Twiddle, k: nat,
                      sumRe: real, sumIm: real, diffRe: real, diffIm: real)
    requires ButterfliesUpTo(re, im, e, o, tw, k) && k < |e|
    requires Complex(sumRe, sumIm) == Add(e[k], Mul(tw(k, 2 * |e|), o[k]))
    requires Complex(diffRe, diffIm) == Sub(e[k], Mul(tw(k, 2 * |e|), o[k]))
    ensures ButterfliesUpTo(re[k := sumRe][k + |e| := diffRe], im[k := sumIm][k + |e| := diffIm], e, o, tw, k + 1)
  {
  }

  /** Arrays holding every butterfly output, entry by entry, hold the butterflies. */
  lemma ButterfliesOfParts(re: seq<real>, im: seq<real>, e: seq<Complex>, o: seq<Complex>, tw: Twiddle)
    requires ButterfliesUpTo(re, im, e, o, tw, |e|)
    ensures Strided(re, im, 0, 1, 2 * |e|) == Butterflies(e, o, tw)
  {
    var h := |e|;
    forall j | 0 <= j < 2 * h
      ensures Strided(re, im, 0, 1, 2 * h)[j] == Butterflies(e, o, tw)[j]
    {
      if j < h {
        ButterflyAt(e, o, tw, j);
      } else {
        ButterflyAt(e, o, tw, j - h);
      }
    }
  }

  /**
   * Replaces buffer[0 .. length) by the magnitudes of its FFT. A length that is
   * not a power of two fails the assertion that guards the routine: the model
   * reports it as `ok == false` and leaves the array alone.
   */
  method AbsFft(buffer: array<real>, length: int, nm: Numerics) returns (ok: bool)
    requires length <= buffer.Length
    modifies buffer
    ensures ok <==> IsPowerOfTwo(length)
    ensures !ok ==> buffer[..] == old(buffer[..])
    ensures ok ==> buffer[..length] == Magnitudes(Fft(Complexify(old(buffer[..length])), nm.twiddle), nm.sqrt)
    ensures ok ==> buffer[length..] == old(buffer[length..])
  {
    PowerOfTwoGuard(length);
    if !(length > 0 && BitAnd(length, length - 1) == 0) {
      return false;
    }
    var imag := ZeroedArray(length);
    StridedRealPrefix(buffer[..], imag[..], length);
    assert buffer[..][..length] == old(buffer[..length]);
    FftDit(buffer, imag, 0, length, 1, buffer, imag, nm.twiddle, buffer[..], imag[..]);
    TakeMagnitudes(buffer, imag, length, Fft(Complexify(old(buffer[..length])), nm.twiddle), nm.sqrt);
    return true;
  }

  /** The imaginary parts tinysr_abs_fft allocates and clears. */
  method ZeroedArray(length: nat) returns (a: array<real>)
    ensures fresh(a) && a.Length == length
    ensures forall j | 0 <= j < length :: a[j] == 0.0
  {
    a := new real[length];
    for i := 0 to length
      invariant forall j | 0 <= j < i :: a[j] == 0.0
    {
      a[i] := 0.0;
    }
  }

  /** The square-root loop of tinysr_abs_fft: each real part becomes the modulus of its bin. */
  method TakeMagnitudes(re: array<real>, im: array<real>, length: nat, ghost z: seq<Complex>, sqrt: real -> real)
    requires length <= re.Length && length <= im.Length && |z| == length && re != im
    requires Strided(re[..], im[..], 0, 1, length) == z
    modifies re
    ensures re[..length] == Magnitudes(z, sqrt)
    ensures re[length..] == old(re[length..])
  {
    forall j | 0 <= j < length
      ensures re[j] == z[j].re && im[j] == z[j].im
    {
      assert Strided(re[..], im[..], 0, 1, length)[j] == Complex(re[j], im[j]);
    }
    for i := 0 to length
      invariant forall j | 0 <= j < i :: re[j] == Magnitude(z[j], sqrt)
      invariant forall j | i <= j < length :: re[j] == z[j].re
      invariant re[length..] == old(re[length..])
    {
      var x := re[i];
      var y := im[i];
      assert z[i] == Complex(x, y);
      SquaredModulusOf(x, y);
      re[i] := sqrt(x * x + y * y);
    }
  }

  // ---------------------------------------------------------------------------
  // The steps of tinysr_process_frame, on arrays

  /** The ring buffer read from slot `next` onwards: oldest sample first. */
  function Unrolled(ring: seq<real>, next: int): (frame: seq<real>)
    requires |ring| == FRAME_LENGTH && 0 <= next < FRAME_LENGTH
    ensures |frame| == FRAME_LENGTH
  {
    seq(FRAME_LENGTH, i requires 0 <= i < FRAME_LENGTH => ring[(next + i) % FRAME_LENGTH])
  }

  /** Straightens the circular buffer into the first FRAME_LENGTH slots of dst. */
  method Unroll(ring: array<real>, next: int, dst: array<real>)
    requires ring.Length >= FRAME_LENGTH && dst.Length >= FRAME_LENGTH && ring != dst
    requires 0 <= next < FRAME_LENGTH
    modifies dst
    ensures dst[..FRAME_LENGTH] == Unrolled(ring[..FRAME_LENGTH], next)
    ensures dst[FRAME_LENGTH..] == old(dst[FRAME_LENGTH..])
  {
    var index := next;
    for i := 0 to FRAME_LENGTH
      invariant index == (next + i) % FRAME_LENGTH
      invariant forall j | 0 <= j < i :: dst[j] == ring[(next + j) % FRAME_LENGTH]
      invariant dst[FRAME_LENGTH..] == old(dst[FRAME_LENGTH..])
    {
      dst[i] := ring[index];
      NextSlot(next + i, next + i + 1);
      index := index + 1;
      index := index % FRAME_LENGTH;
    }
  }

  /** The frame energy with its noise floor: positive, so its logarithm is defined. */
  method FrameEnergy(a: array<real>) returns (energy: real)
    requires a.Length >= FRAME_LENGTH
    ensures energy == ENERGY_FLOOR + SumSquares(a[..FRAME_LENGTH])
    ensures energy > 0.0
  {
    energy := ENERGY_FLOOR;
    for i := 0 to FRAME_LENGTH
      invariant energy == ENERGY_FLOOR + SumSquares(a[..i])
    {
      assert a[..i + 1][..i] == a[..i];
      energy := energy + a[i] * a[i];
    }
    SumSquaresNonNegative(a[..FRAME_LENGTH]);
  }

  /**
   * Pre-emphasis from the last sample down, so that every step reads an
   * unfiltered predecessor; the first sample is then zeroed.
   */
  method PreEmphasize(a: array<real>)
    requires a.Length >= FRAME_LENGTH
    modifies a
    ensures a[..FRAME_LENGTH] == PreEmphasized(old(a[..FRAME_LENGTH]))[0 := 0.0]
    ensures a[FRAME_LENGTH..] == old(a[FRAME_LENGTH..])
  {
    ghost var s := a[..FRAME_LENGTH];
    var i := FRAME_LENGTH - 1;
    while i > 0
      invariant 0 <= i < FRAME_LENGTH
      invariant forall j | 0 <= j <= i :: a[j] == s[j]
      invariant forall j | i < j < FRAME_LENGTH :: a[j] == s[j] - PRE_EMPHASIS * s[j - 1]
      invariant a[FRAME_LENGTH..] == old(a[FRAME_LENGTH..])
    {
      a[i] := a[i] - PRE_EMPHASIS * a[i - 1];
      i := i - 1;
    }
    a[0] := 0.0;
    forall j | 0 <= j < FRAME_LENGTH
      ensures a[..FRAME_LENGTH][j] == PreEmphasized(s)[0 := 0.0][j]
    {
    }
  }

  /** Multiplies the frame by the window, sample by sample. */
  method ApplyWindow(a: array<real>, w: array<real>)
    requires a.Length >= FRAME_LENGTH && w.Length >= FRAME_LENGTH && a != w
    modifies a
    ensures a[..FRAME_LENGTH] == Windowed(old(a[..FRAME_LENGTH]), w[..FRAME_LENGTH])
    ensures a[FRAME_LENGTH..] == old(a[FRAME_LENGTH..])
  {
    for i := 0 to FRAME_LENGTH
      invariant forall j | 0 <= j < i :: a[j] == old(a[j]) * w[j]
      invariant forall j | i <= j < a.Length :: a[j] == old(a[j])
    {
      a[i] := a[i] * w[i];
    }
    forall j | 0 <= j < FRAME_LENGTH
      ensures a[..FRAME_LENGTH][j] == Windowed(old(a[..FRAME_LENGTH]), w[..FRAME_LENGTH])[j]
    {
    }
  }

  /** Zeros the slots FRAME_LENGTH .. FFT_LENGTH behind the frame. */
  method ZeroPad(a: array<real>)
    requires a.Length >= FFT_LENGTH
    modifies a
    ensures a[..FFT_LENGTH] == ZeroPadded(old(a[..FRAME_LENGTH]), FFT_LENGTH)
    ensures a[FFT_LENGTH..] == old(a[FFT_LENGTH..])
  {
    for i := FRAME_LENGTH to FFT_LENGTH
      invariant forall j | 0 <= j < FRAME_LENGTH :: a[j] == old(a[j])
      invariant forall j | FRAME_LENGTH <= j < i :: a[j] == 0.0
      invariant a[FFT_LENGTH..] == old(a[FFT_LENGTH..])
    {
      a[i] := 0.0;
    }
  }

  /** The spectrum the C front end computes for one frame of raw samples. */
  function FrameSpectrum(frame: seq<real>, nm: Numerics): (spectrum: seq<real>)
    requires |frame| == FRAME_LENGTH
    ensures |spectrum| == FFT_LENGTH
  {
    var emphasized := PreEmphasized(frame)[0 := 0.0];
    var padded := ZeroPadded(Windowed(emphasized, HammingWindow(nm)), FFT_LENGTH);
    FftLengthIsPowerOfTwo();
    Magnitudes(Fft(Complexify(padded), nm.twiddle), nm.sqrt)
  }

  /**
   * The part of tinysr_process_frame after the energy: pre-emphasis, windowing,
   * zero padding and the magnitude FFT, all in place in a.
   */
  method SpectrumInPlace(a: array<real>, window: array<real>, nm: Numerics)
    requires a.Length == FFT_LENGTH && window.Length == FRAME_LENGTH && a != window
    requires window[..] == HammingWindow(nm)
    modifies a
    ensures a[..] == FrameSpectrum(old(a[..FRAME_LENGTH]), nm)
  {
    ghost var frame := a[..FRAME_LENGTH];
    PreEmphasize(a);
    ghost var emphasized := PreEmphasized(frame)[0 := 0.0];
    assert a[..FRAME_LENGTH] == emphasized;
    ApplyWindow(a, window);
    assert window[..FRAME_LENGTH] == HammingWindow(nm);
    ghost var windowed := Windowed(emphasized, HammingWindow(nm));
    assert a[..FRAME_LENGTH] == windowed;
    ZeroPad(a);
    ghost var padded := ZeroPadded(windowed, FFT_LENGTH);
    assert a[..FFT_LENGTH] == padded;
    FftLengthIsPowerOfTwo();
    var ok := AbsFft(a, FFT_LENGTH, nm);
    assert a[..] == a[..FFT_LENGTH];
  }

  // ---------------------------------------------------------------------------
  // Framing: which samples make up which frame

  /** Whether feeding the n-th sample (counting from 1) completes a frame. */
  predicate Fires(n: nat)
  {
    n >= FRAME_LENGTH && (n - FRAME_LENGTH) % SHIFT_INTERVAL == 0
  }

  /** input_buffer_samps once n samples have been fed. */
  function PendingSamples(n: nat): nat
  {
    if n < FRAME_LENGTH then n else FRAME_LENGTH - SHIFT_INTERVAL + (n - FRAME_LENGTH) % SHIFT_INTERVAL
  }

  /**
   * The counter never reaches a full frame between calls, and one more sample
   * makes it reach FRAME_LENGTH exactly when that sample completes a frame,
   * after which it drops back by SHIFT_INTERVAL.
   */
  lemma PendingSamplesStep(n: nat, n': nat)
    requires n' == n + 1
    ensures PendingSamples(n) < FRAME_LENGTH
    ensures PendingSamples(n) + 1 == FRAME_LENGTH <==> Fires(n')
    ensures PendingSamples(n') == if Fires(n') then FRAME_LENGTH - SHIFT_INTERVAL else PendingSamples(n) + 1
  {
  }

  /** The number of frames completed by n samples. */
  function FrameCount(n: nat): nat
  {
    if n < FRAME_LENGTH then 0 else 1 + (n - FRAME_LENGTH) / SHIFT_INTERVAL
  }

  /** The spectra of all frames completed while the compensated samples c were buffered. */
  function Spectra(c: seq<real>, nm: Numerics): seq<seq<real>>
  {
    if c == [] then []
    else
      Spectra(c[..|c| - 1], nm)
      + if Fires(|c|) then [FrameSpectrum(c[|c| - FRAME_LENGTH..], nm)] else []
  }

  /** A sample that completes no frame leaves the spectra as they were. */
  lemma SpectraQuiet(c: seq<real>, nm: Numerics)
    requires c != [] && !Fires(|c|)
    ensures Spectra(c, nm) == Spectra(c[..|c| - 1], nm)
  {
  }

  /** One more sample adds a frame exactly when it completes one. */
  lemma FrameCountStep(n: nat)
    ensures FrameCount(n + 1) == FrameCount(n) + if Fires(n + 1) then 1 else 0
  {
    if n + 1 > FRAME_LENGTH {
      var q := (n - FRAME_LENGTH) / SHIFT_INTERVAL;
      var r := (n - FRAME_LENGTH) % SHIFT_INTERVAL;
      assert n - FRAME_LENGTH == SHIFT_INTERVAL * q + r;
      if r + 1 == SHIFT_INTERVAL {
        assert n + 1 - FRAME_LENGTH == SHIFT_INTERVAL * (q + 1);
      } else {
        assert n + 1 - FRAME_LENGTH == SHIFT_INTERVAL * q + (r + 1);
      }
    }
  }

  lemma {:induction false} SpectraCount(c: seq<real>, nm: Numerics)
    ensures |Spectra(c, nm)| == FrameCount(|c|)
  {
    if c != [] {
      SpectraCount(c[..|c| - 1], nm);
      FrameCountStep(|c| - 1);
    }
  }

  /**
   * Frame f is made of samples 160 * f .. 160 * f + 400: consecutive frames
   * overlap by 240 samples, as section 4.2.4 of ES 201 108 lays out.
   */
  lemma {:induction false} SpectraFrame(c: seq<real>, nm: Numerics, f: nat)
    requires f < |Spectra(c, nm)|
    ensures SHIFT_INTERVAL * f + FRAME_LENGTH <= |c|
    ensures Spectra(c, nm)[f] == FrameSpectrum(c[SHIFT_INTERVAL * f..SHIFT_INTERVAL * f + FRAME_LENGTH], nm)
  {
    var init := c[..|c| - 1];
    SpectraCount(init, nm);
    SpectraCount(c, nm);
    if f < |Spectra(init, nm)| {
      SpectraFrame(init, nm, f);
      assert init[SHIFT_INTERVAL * f..SHIFT_INTERVAL * f + FRAME_LENGTH]
          == c[SHIFT_INTERVAL * f..SHIFT_INTERVAL * f + FRAME_LENGTH];
    } else {
      assert Fires(|c|);
      assert Spectra(c, nm) == Spectra(init, nm) + [FrameSpectrum(c[|c| - FRAME_LENGTH..], nm)];
      assert SHIFT_INTERVAL * f + FRAME_LENGTH == |c|;
      assert c[SHIFT_INTERVAL * f..SHIFT_INTERVAL * f + FRAME_LENGTH] == c[|c| - FRAME_LENGTH..];
    }
  }

  /** The circular buffer holds the last FRAME_LENGTH compensated samples, sample i in slot i % 400. */
  ghost predicate RingHolds(ring: seq<real>, c: seq<real>)
    requires |ring| == FRAME_LENGTH
  {
    forall i {:trigger c[i]} | 0 <= i < |c| && |c| - FRAME_LENGTH <= i :: ring[i % FRAME_LENGTH] == c[i]
  }

  /** Read from the next write slot, a full ring yields the last FRAME_LENGTH samples in order. */
  lemma RingUnrolls(ring: seq<real>, c: seq<real>)
    requires |ring| == FRAME_LENGTH && |c| >= FRAME_LENGTH && RingHolds(ring, c)
    ensures Unrolled(ring, |c| % FRAME_LENGTH) == c[|c| - FRAME_LENGTH..]
  {
    var n := |c|;
    forall i | 0 <= i < FRAME_LENGTH
      ensures Unrolled(ring, n % FRAME_LENGTH)[i] == c[n - FRAME_LENGTH + i]
    {
      SlotOfShift(n, i);
    }
  }

  /** Slot arithmetic: i places after the next slot is the slot of sample n - FRAME_LENGTH + i. */
  lemma SlotOfShift(n: nat, i: nat)
    requires n >= FRAME_LENGTH && i < FRAME_LENGTH
    ensures (n % FRAME_LENGTH + i) % FRAME_LENGTH == (n - FRAME_LENGTH + i) % FRAME_LENGTH
  {
    var q := n / FRAME_LENGTH;
    var r := n % FRAME_LENGTH;
    assert n - FRAME_LENGTH + i == FRAME_LENGTH * (q - 1) + (r + i);
    if r + i < FRAME_LENGTH {
      assert (n - FRAME_LENGTH + i) % FRAME_LENGTH == r + i;
    } else {
      assert n - FRAME_LENGTH + i == FRAME_LENGTH * q + (r + i - FRAME_LENGTH);
      assert (n - FRAME_LENGTH + i) % FRAME_LENGTH == r + i - FRAME_LENGTH;
    }
  }

  /** The write index wraps around the ring. */
  lemma NextSlot(n: nat, n': nat)
    requires n' == n + 1
    ensures (n % FRAME_LENGTH + 1) % FRAME_LENGTH == n' % FRAME_LENGTH
  {
  }

  /** Writing the newest sample into slot n % 400 keeps the ring in step. */
  lemma RingStep(ring: seq<real>, c: seq<real>, y: real)
    requires |ring| == FRAME_LENGTH && RingHolds(ring, c)
    ensures RingHolds(ring[|c| % FRAME_LENGTH := y], c + [y])
  {
    var n := |c|;
    var ring' := ring[n % FRAME_LENGTH := y];
    forall i | 0 <= i < n + 1 && n + 1 - FRAME_LENGTH <= i
      ensures ring'[i % FRAME_LENGTH] == (c + [y])[i]
    {
      if i < n {
        assert i % FRAME_LENGTH != n % FRAME_LENGTH;
      }
    }
  }

  // ---------------------------------------------------------------------------
  // The context

  /** The length temp_buffer is allocated with at tinysr.c:22. */
  const TEMP_BUFFER_LENGTH_AS_WRITTEN: nat := FRAME_LENGTH

  /**
   * How many of the slots 0 .. FFT_LENGTH - 1 that tinysr_process_frame
   * writes into temp_buffer lie beyond a buffer of `size` floats.
   */
  function WritesPastEnd(size: nat): (n: nat)
    ensures n == 0 <==> FFT_LENGTH <= size
  {
    if size >= FFT_LENGTH then 0 else FFT_LENGTH - size
  }

  /** Slot i lies inside a buffer of `size` floats. */
  predicate InBuffer(size: nat, i: int)
  {
    0 <= i < size
  }

  /**
   * As written, the zero padding and the FFT write 112 floats past the end of
   * temp_buffer: every slot the padding loop of tinysr.c:91-92 writes lies
   * beyond the buffer, so ZeroPad's demand for FFT_LENGTH slots is not met.
   */
  lemma TempBufferOverflowAsWritten()
    ensures WritesPastEnd(TEMP_BUFFER_LENGTH_AS_WRITTEN) == FFT_LENGTH - FRAME_LENGTH > 0
    ensures forall i | FRAME_LENGTH <= i < FFT_LENGTH :: !InBuffer(TEMP_BUFFER_LENGTH_AS_WRITTEN, i)
    ensures TEMP_BUFFER_LENGTH_AS_WRITTEN < FFT_LENGTH
  {
  }

  /** Feeding sample k appends it, as a real, to the inputs seen before it. */
  lemma InputsStep(i0: seq<real>, samples: seq<int>, k: nat)
    requires k < |samples|
    ensures i0 + AsReals(samples[..k + 1]) == (i0 + AsReals(samples[..k])) + [samples[k] as real]
  {
    AsRealsPrefix(samples, k);
  }

  class Context {
    /** The transcendental functions (cosf, sinf, sqrtf, logf) the context computes with. */
    const nm: Numerics
    var inputFramerate: int
    var offsetCompPrevIn: real
    var offsetCompPrevOut: real
    /** Circular staging buffer; only its first FRAME_LENGTH slots are used. */
    const inputBuffer: array<real>
    var inputBufferNext: int
    var inputBufferSamps: int
    const tempBuffer: array<real>
    const windowingBuffer: array<real>

    /** Every sample fed so far, as the filter saw it. */
    ghost var inputs: seq<real>
    /** The output of the offset-compensation filter for those samples. */
    ghost var compensated: seq<real>
    /** The spectrum of every frame processed so far. */
    ghost var spectra: seq<seq<real>>

    /** The buffers: their sizes, that they are distinct, and the Hamming coefficients. */
    ghost predicate ValidBuffers()
      reads this, windowingBuffer
    {
      && inputBuffer.Length == FFT_LENGTH
      && tempBuffer.Length == FFT_LENGTH
      && windowingBuffer.Length == FRAME_LENGTH
      && inputBuffer != tempBuffer && inputBuffer != windowingBuffer && tempBuffer != windowingBuffer
      && windowingBuffer[..] == HammingWindow(nm)
    }

    /** The filter state is the last input and the last output of the offset compensation. */
    ghost predicate ValidFilter()
      reads this
    {
      && offsetCompPrevIn == LastOr(inputs, 0.0)
      && compensated == OffsetCompensated(inputs)
      && offsetCompPrevOut == LastOr(compensated, 0.0)
    }

    /** The ring holds the last compensated samples of c and the next slot follows them. */
    ghost predicate ValidRing(c: seq<real>)
      reads this, inputBuffer
    {
      && inputBuffer.Length == FFT_LENGTH
      && inputBufferNext == |c| % FRAME_LENGTH
      && RingHolds(inputBuffer[..FRAME_LENGTH], c)
    }

    /** One spectrum per completed frame, the newest one still in temp_buffer. */
    ghost predicate ValidSpectra()
      reads this, tempBuffer
    {
      && spectra == Spectra(compensated, nm)
      && (spectra != [] ==> tempBuffer[..] == spectra[|spectra| - 1])
    }

    ghost predicate Valid()
      reads this, inputBuffer, tempBuffer, windowingBuffer
    {
      && ValidBuffers()
      && ValidFilter()
      && ValidRing(compensated)
      && inputBufferSamps == PendingSamples(|compensated|)
      && ValidSpectra()
    }

    /** tinysr_allocate_ctx, with temp_buffer given the FFT_LENGTH slots it is written up to. */
    constructor (nm: Numerics)
      ensures Valid() && fresh(inputBuffer) && fresh(tempBuffer) && fresh(windowingBuffer)
      ensures this.nm == nm && inputFramerate == DEFAULT_INPUT_FRAMERATE
      ensures inputs == [] && spectra == []
      ensures WritesPastEnd(tempBuffer.Length) == 0
    {
      this.nm := nm;
      inputFramerate := DEFAULT_INPUT_FRAMERATE;
      offsetCompPrevIn := 0.0;
      offsetCompPrevOut := 0.0;
      inputBuffer := new real[FFT_LENGTH];
      inputBufferNext := 0;
      inputBufferSamps := 0;
      tempBuffer := new real[FFT_LENGTH];
      var window := new real[FRAME_LENGTH];
      for i := 0 to FRAME_LENGTH
        invariant forall j | 0 <= j < i :: window[j] == nm.hamming(j)
      {
        window[i] := nm.hamming(i);
      }
      windowingBuffer := window;
      inputs := [];
      compensated := [];
      spectra := [];
    }

    /**
     * tinysr_process_frame: temp_buffer receives the spectrum of the frame held
     * in the ring; the log energy of the frame is returned.
     */
    method ProcessFrame() returns (logE: real)
      requires inputBuffer.Length == FFT_LENGTH && tempBuffer.Length == FFT_LENGTH
      requires windowingBuffer.Length == FRAME_LENGTH
      requires inputBuffer != tempBuffer && tempBuffer != windowingBuffer
      requires windowingBuffer[..] == HammingWindow(nm)
      requires 0 <= inputBufferNext < FRAME_LENGTH
      modifies tempBuffer
      ensures tempBuffer[..] == FrameSpectrum(Unrolled(inputBuffer[..FRAME_LENGTH], inputBufferNext), nm)
      ensures logE == nm.log(ENERGY_FLOOR + SumSquares(Unrolled(inputBuffer[..FRAME_LENGTH], inputBufferNext)))
    {
      Unroll(inputBuffer, inputBufferNext, tempBuffer);
      var energy := FrameEnergy(tempBuffer);
      logE := nm.log(energy);
      SpectrumInPlace(tempBuffer, windowingBuffer, nm);
    }

    /** The offset-compensation filter of tinysr_feed_input, applied to one sample. */
    method Compensate(sample: int) returns (sampleOut: real)
      requires ValidFilter()
      modifies this`offsetCompPrevIn, this`offsetCompPrevOut, this`inputs, this`compensated
      ensures ValidFilter()
      ensures inputs == old(inputs) + [sample as real]
      ensures compensated == old(compensated) + [sampleOut]
    {
      var sampleIn := sample as real;
      sampleOut := sampleIn - offsetCompPrevIn + OFFSET_COMP_POLE * offsetCompPrevOut;
      OffsetCompensatedAppend(inputs, sampleIn);
      offsetCompPrevIn := sampleIn;
      offsetCompPrevOut := sampleOut;
      inputs := inputs + [sampleIn];
      compensated := compensated + [sampleOut];
    }

    /** Writes one compensated sample into the ring and advances the write index. */
    method Store(y: real, ghost c: seq<real>)
      requires ValidRing(c)
      modifies inputBuffer, this`inputBufferNext
      ensures ValidRing(c + [y])
      ensures forall i | FRAME_LENGTH <= i < FFT_LENGTH :: inputBuffer[i] == old(inputBuffer[i])
    {
      RingStep(inputBuffer[..FRAME_LENGTH], c, y);
      inputBuffer[inputBufferNext] := y;
      assert inputBuffer[..FRAME_LENGTH] == old(inputBuffer[..FRAME_LENGTH])[|c| % FRAME_LENGTH := y];
      NextSlot(|c|, |c + [y]|);
      inputBufferNext := (inputBufferNext + 1) % FRAME_LENGTH;
    }

    /** A frame is complete: process it and record its spectrum. */
    method Fire()
      requires ValidBuffers() && ValidRing(compensated)
      requires compensated != [] && Fires(|compensated|)
      requires spectra == Spectra(compensated[..|compensated| - 1], nm)
      modifies tempBuffer, this`spectra
      ensures spectra == Spectra(compensated, nm) == old(spectra) + [tempBuffer[..]]
    {
      RingUnrolls(inputBuffer[..FRAME_LENGTH], compensated);
      var _ := ProcessFrame();
      spectra := spectra + [tempBuffer[..]];
    }

    /** One pass of the loop of tinysr_feed_input: filter, buffer and maybe process one sample. */
    method FeedSample(sample: int)
      requires Valid()
      modifies this`offsetCompPrevIn, this`offsetCompPrevOut, this`inputBufferNext, this`inputBufferSamps
      modifies this`inputs, this`compensated, this`spectra, inputBuffer, tempBuffer
      ensures Valid()
      ensures inputs == old(inputs) + [sample as real]
      ensures spectra == old(spectra) + if Fires(|inputs|) then [tempBuffer[..]] else []
    {
      ghost var c := compensated;
      var sampleOut := Compensate(sample);
      Store(sampleOut, c);
      PendingSamplesStep(|c|, |compensated|);
      inputBufferSamps := inputBufferSamps + 1;
      assert compensated[..|compensated| - 1] == c;
      if inputBufferSamps == FRAME_LENGTH {
        Fire();
        inputBufferSamps := inputBufferSamps - SHIFT_INTERVAL;
      } else {
        SpectraQuiet(compensated, nm);
      }
      assert ValidSpectra();
    }

    /** tinysr_feed_input: feeds the samples one by one, in order. */
    method FeedInput(samples: seq<int>)
      requires Valid()
      modifies this`offsetCompPrevIn, this`offsetCompPrevOut, this`inputBufferNext, this`inputBufferSamps
      modifies this`inputs, this`compensated, this`spectra, inputBuffer, tempBuffer
      ensures Valid()
      ensures inputs == old(inputs) + AsReals(samples)
      ensures spectra == Spectra(OffsetCompensated(inputs), nm)
      ensures |spectra| == FrameCount(|inputs|)
    {
      ghost var i0 := inputs;
      for k := 0 to |samples|
        invariant Valid()
        invariant inputs == i0 + AsReals(samples[..k])
      {
        InputsStep(i0, samples, k);
        FeedSample(samples[k]);
      }
      assert samples[..|samples|] == samples;
      SpectraCount(compensated, nm);
    }

    /** Between calls the write index and the sample counter both stay inside the ring (tinysr.c:51-57). */
    lemma IndicesInRange()
      requires Valid()
      ensures 0 <= inputBufferNext < FRAME_LENGTH && 0 <= inputBufferSamps < FRAME_LENGTH
    {
      PendingSamplesStep(|compensated|, |compensated| + 1);
    }
  }
}
