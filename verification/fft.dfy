/**
 * The radix-2 decimation-in-time FFT shared by both front ends: the recursive
 * list function of pytinysr/tinysr.py and the strided gathers that the C routine
 * tinysr_fft_dit reads its input through.
 */
module FastFourier {
  import opened Dsp

  function Pow2(k: nat): (p: nat)
    ensures p >= 1
  {
    if k == 0 then 1 else 2 * Pow2(k - 1)
  }

  /** n is 1, 2, 4, 8, ...: halving reaches 1 through even numbers only. */
  predicate IsPowerOfTwo(n: int)
    decreases if n > 0 then n else 0
  {
    n == 1 || (n > 1 && n % 2 == 0 && IsPowerOfTwo(n / 2))
  }

  lemma {:induction false} PowerOfTwoHasExponent(n: int)
    requires IsPowerOfTwo(n)
    ensures exists k: nat :: Pow2(k) == n
    decreases if n > 0 then n else 0
  {
    if n == 1 {
      assert Pow2(0) == n;
    } else {
      PowerOfTwoHasExponent(n / 2);
      var k: nat :| Pow2(k) == n / 2;
      assert Pow2(k + 1) == n;
    }
  }

  lemma {:induction false} ExponentGivesPowerOfTwo(k: nat)
    ensures IsPowerOfTwo(Pow2(k))
  {
    if k > 0 {
      ExponentGivesPowerOfTwo(k - 1);
    }
  }

  /** The recursive test agrees with the textbook definition n == 2^k. */
  lemma PowerOfTwoIsPow2(n: int)
    ensures IsPowerOfTwo(n) <==> exists k: nat :: Pow2(k) == n
  {
    if IsPowerOfTwo(n) {
      PowerOfTwoHasExponent(n);
    }
    if exists k: nat :: Pow2(k) == n {
      var k: nat :| Pow2(k) == n;
      ExponentGivesPowerOfTwo(k);
    }
  }

  /** FFT_LENGTH (512 = 2^9) is a valid transform length. */
  lemma FftLengthIsPowerOfTwo()
    ensures IsPowerOfTwo(FFT_LENGTH)
  {
    ExponentGivesPowerOfTwo(9);
  }

  /** `x[::2]` */
  function Evens(x: seq<Complex>): (e: seq<Complex>)
    ensures |e| == (|x| + 1) / 2
  {
    seq((|x| + 1) / 2, i requires 0 <= i < (|x| + 1) / 2 => x[2 * i])
  }

  /** `x[1::2]` */
  function Odds(x: seq<Complex>): (o: seq<Complex>)
    ensures |o| == |x| / 2
  {
    seq(|x| / 2, i requires 0 <= i < |x| / 2 => x[2 * i + 1])
  }

  /** The two slices partition the list: every element lands in exactly one of them. */
  lemma EvensOddsPartition(x: seq<Complex>, i: nat)
    requires i < |x|
    ensures i % 2 == 0 ==> i / 2 < |Evens(x)| && Evens(x)[i / 2] == x[i]
    ensures i % 2 == 1 ==> i / 2 < |Odds(x)| && Odds(x)[i / 2] == x[i]
  {
  }

  /**
   * The recursive FFT of pytinysr/tinysr.py: transform the even and the odd
   * samples, then combine them with the twiddle factors tw(k, n) in one
   * butterfly per k.
   */
  function Fft(x: seq<Complex>, tw: Twiddle): (r: seq<Complex>)
    requires IsPowerOfTwo(|x|)
    ensures |r| == |x|
    ensures |x| == 1 ==> r == x
    decreases |x|
  {
    if |x| == 1 then x
    else
      Butterflies(Fft(Evens(x), tw), Fft(Odds(x), tw), tw)
  }

  /**
   * The combining step of a transform of length n = 2 * |e|: output k is
   * e[k] + tw(k, n) * o[k] and output k + n/2 is e[k] - tw(k, n) * o[k].
   */
  function Butterflies(e: seq<Complex>, o: seq<Complex>, tw: Twiddle): (r: seq<Complex>)
    requires |e| == |o|
    ensures |r| == 2 * |e|
  {
    var n := 2 * |e|;
    seq(|e|, k requires 0 <= k < |e| => Add(e[k], Mul(tw(k, n), o[k])))
    + seq(|e|, k requires 0 <= k < |e| => Sub(e[k], Mul(tw(k, n), o[k])))
  }

  /** A transform of length n > 1 is the butterflies of the half-length transforms. */
  lemma FftSplits(x: seq<Complex>, tw: Twiddle)
    requires IsPowerOfTwo(|x|) && |x| > 1
    ensures IsPowerOfTwo(|Evens(x)|) && IsPowerOfTwo(|Odds(x)|)
    ensures Fft(x, tw) == Butterflies(Fft(Evens(x), tw), Fft(Odds(x), tw), tw)
  {
  }

  /** The two outputs of butterfly k share the sub-transform entries e[k] and o[k]. */
  lemma ButterflyAt(e: seq<Complex>, o: seq<Complex>, tw: Twiddle, k: nat)
    requires |e| == |o| && k < |e|
    ensures Butterflies(e, o, tw)[k] == Add(e[k], Mul(tw(k, 2 * |e|), o[k]))
    ensures Butterflies(e, o, tw)[k + |e|] == Sub(e[k], Mul(tw(k, 2 * |e|), o[k]))
  {
  }

  function Zeros(n: nat): (z: seq<Complex>)
    ensures |z| == n
  {
    seq(n, _ => Complex(0.0, 0.0))
  }

  /** The unit impulse of length n >= 1. */
  function Impulse(n: nat): (z: seq<Complex>)
    requires n >= 1
    ensures |z| == n && z[0] == Complex(1.0, 0.0)
    ensures forall i | 1 <= i < n :: z[i] == Complex(0.0, 0.0)
  {
    [Complex(1.0, 0.0)] + Zeros(n - 1)
  }

  /** Silence transforms to silence, whatever the twiddle factors. */
  lemma {:induction false} FftOfZeros(n: nat, tw: Twiddle)
    requires IsPowerOfTwo(n)
    ensures Fft(Zeros(n), tw) == Zeros(n)
    decreases n
  {
    if n > 1 {
      assert Evens(Zeros(n)) == Zeros(n / 2);
      assert Odds(Zeros(n)) == Zeros(n / 2);
      FftOfZeros(n / 2, tw);
      ButterfliesOfZeros(n / 2, tw);
    }
  }

  lemma ButterfliesOfZeros(h: nat, tw: Twiddle)
    ensures Butterflies(Zeros(h), Zeros(h), tw) == Zeros(2 * h)
  {
    forall k | 0 <= k < h {
      ZeroTimes(tw(k, 2 * h));
    }
  }

  function Ones(n: nat): (z: seq<Complex>)
    ensures |z| == n
  {
    seq(n, _ => Complex(1.0, 0.0))
  }

  /** A unit impulse has a flat spectrum: every bin is 1. */
  lemma {:induction false} FftOfImpulse(n: nat, tw: Twiddle)
    requires IsPowerOfTwo(n)
    ensures Fft(Impulse(n), tw) == Ones(n)
    decreases n
  {
    if n > 1 {
      assert Evens(Impulse(n)) == Impulse(n / 2);
      assert Odds(Impulse(n)) == Zeros(n / 2);
      FftOfImpulse(n / 2, tw);
      FftOfZeros(n / 2, tw);
      ButterfliesOfImpulse(n / 2, tw);
    }
  }

  lemma ButterfliesOfImpulse(h: nat, tw: Twiddle)
    ensures Butterflies(Ones(h), Zeros(h), tw) == Ones(2 * h)
  {
    forall k | 0 <= k < h {
      ZeroTimes(tw(k, 2 * h));
    }
  }

  lemma ZeroTimes(w: Complex)
    ensures Mul(w, Complex(0.0, 0.0)) == Complex(0.0, 0.0)
  {
  }

  lemma MulMonotone(i: nat, j: nat, s: nat)
    requires i <= j
    ensures i * s <= j * s
  {
  }

  /** Elements start, start + stride, ..., of an array pair of real and imaginary parts. */
  function Strided(re: seq<real>, im: seq<real>, start: nat, stride: nat, n: nat): (z: seq<Complex>)
    requires n == 0 || (start + (n - 1) * stride < |re| && start + (n - 1) * stride < |im|)
    ensures |z| == n
  {
    seq(n, i requires 0 <= i < n =>
      MulMonotone(i, n - 1, stride);
      Complex(re[start + i * stride], im[start + i * stride]))
  }

  /** The even samples of a strided view are the view with twice the stride. */
  lemma StridedEvens(re: seq<real>, im: seq<real>, start: nat, stride: nat, n: nat)
    requires n % 2 == 0
    requires n == 0 || (start + (n - 1) * stride < |re| && start + (n - 1) * stride < |im|)
    ensures n / 2 == 0 || (start + (n / 2 - 1) * (2 * stride) < |re| && start + (n / 2 - 1) * (2 * stride) < |im|)
    ensures Evens(Strided(re, im, start, stride, n)) == Strided(re, im, start, 2 * stride, n / 2)
  {
    if n > 0 {
      MulMonotone(n - 2, n - 1, stride);
      assert (n / 2 - 1) * (2 * stride) == (n - 2) * stride;
    }
    var l := Evens(Strided(re, im, start, stride, n));
    var r := Strided(re, im, start, 2 * stride, n / 2);
    forall i | 0 <= i < n / 2
      ensures l[i] == r[i]
    {
      assert (2 * i) * stride == i * (2 * stride);
    }
  }

  /** The odd samples of a strided view start one stride later, with twice the stride. */
  lemma StridedOdds(re: seq<real>, im: seq<real>, start: nat, stride: nat, n: nat)
    requires n % 2 == 0
    requires n == 0 || (start + (n - 1) * stride < |re| && start + (n - 1) * stride < |im|)
    ensures n / 2 == 0 || (start + stride + (n / 2 - 1) * (2 * stride) < |re|
                           && start + stride + (n / 2 - 1) * (2 * stride) < |im|)
    ensures Odds(Strided(re, im, start, stride, n)) == Strided(re, im, start + stride, 2 * stride, n / 2)
  {
    if n > 0 {
      assert stride + (n / 2 - 1) * (2 * stride) == (n - 1) * stride;
    }
    var l := Odds(Strided(re, im, start, stride, n));
    var r := Strided(re, im, start + stride, 2 * stride, n / 2);
    forall i | 0 <= i < n / 2
      ensures l[i] == r[i]
    {
      assert (2 * i + 1) * stride == stride + i * (2 * stride);
    }
  }

  /** With stride 1 from 0 and all-zero imaginary parts the view is the real prefix, made complex. */
  lemma StridedRealPrefix(re: seq<real>, im: seq<real>, n: nat)
    requires n <= |re| && n <= |im|
    requires forall i | 0 <= i < n :: im[i] == 0.0
    ensures Strided(re, im, 0, 1, n) == Complexify(re[..n])
  {
  }
}
