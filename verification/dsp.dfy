/**
 * Definitions shared by the C front end (tinysr.c) and its Python port
 * (pytinysr/tinysr.py): the frame geometry of ETSI ES 201 108, complex numbers,
 * the transcendental functions both take as given, and reference definitions of
 * the frame-conditioning steps (offset compensation, pre-emphasis, windowing,
 * zero padding, linear interpolation) that the imperative code is proved against.
 */
module Dsp {

  /** Samples per frame, FFT size and frame shift (tinysr.h:11-13). */
  const FRAME_LENGTH: nat := 400
  const FFT_LENGTH: nat := 512
  const SHIFT_INTERVAL: nat := 160

  /** Pole of the offset-compensation filter, section 4.2.3 of ES 201 108. */
  const OFFSET_COMP_POLE: real := 0.999
  /** Pre-emphasis coefficient, section 4.2.6 of ES 201 108. */
  const PRE_EMPHASIS: real := 0.97

  datatype Complex = Complex(re: real, im: real)

  function Add(a: Complex, b: Complex): Complex { Complex(a.re + b.re, a.im + b.im) }
  function Sub(a: Complex, b: Complex): Complex { Complex(a.re - b.re, a.im - b.im) }
  function Mul(a: Complex, b: Complex): Complex
  {
    Complex(a.re * b.re - a.im * b.im, a.re * b.im + a.im * b.re)
  }

  /** The FFT twiddle factor exp(-2*pi*i*k/n), indexed by (k, n). */
  type Twiddle = (int, int) -> Complex

  /**
   * The transcendental functions of the front end. Neither implementation's
   * floating-point values are modelled: each function is a given input.
   */
  datatype Numerics = Numerics(
    twiddle: Twiddle,           // (cosf, sinf) of -2*pi*k/n; math.e ** (-2j*pi*k/n)
    sqrt: real -> real,         // sqrtf; the modulus behind Python's abs()
    log: real -> real,          // logf; math.log
    hamming: int -> real,       // 0.54 - 0.46 * cos(2*pi*i / (FRAME_LENGTH - 1))
    dctCos: (int, int) -> real  // cos(pi * i * (j + 0.5) / 23)
  )

  function LastOr(s: seq<real>, default: real): real
  {
    if s == [] then default else s[|s| - 1]
  }

  function Pow(x: real, n: nat): real
  {
    if n == 0 then 1.0 else x * Pow(x, n - 1)
  }

  /** Integer samples as reals, the way `(float)` and Python's `float` convert 16-bit audio. */
  function AsReals(samples: seq<int>): (xs: seq<real>)
    ensures |xs| == |samples|
  {
    seq(|samples|, i requires 0 <= i < |samples| => samples[i] as real)
  }

  lemma AsRealsPrefix(samples: seq<int>, k: nat)
    requires k < |samples|
    ensures AsReals(samples[..k + 1]) == AsReals(samples[..k]) + [samples[k] as real]
  {
  }

  // ---------------------------------------------------------------------------
  // Linear interpolation, used by both resamplers

  /** Linear interpolation `(1 - d) * prev + d * x`: the point a fraction d of the way from prev to x. */
  function Lerp(prev: real, x: real, d: real): real
  {
    (1.0 - d) * prev + d * x
  }

  /** For d in [0, 1] the interpolated value lies between the two samples, at the ends it is one of them. */
  lemma LerpBetween(prev: real, x: real, d: real)
    ensures d == 0.0 ==> Lerp(prev, x, d) == prev
    ensures d == 1.0 ==> Lerp(prev, x, d) == x
    ensures 0.0 <= d <= 1.0 && prev <= x ==> prev <= Lerp(prev, x, d) <= x
    ensures 0.0 <= d <= 1.0 && x <= prev ==> x <= Lerp(prev, x, d) <= prev
  {
    if 0.0 <= d <= 1.0 {
      assert Lerp(prev, x, d) == prev + d * (x - prev);
      if prev <= x {
        ScaledGap(d, x - prev, d * (x - prev));
      } else {
        ScaledGap(d, prev - x, d * (prev - x));
        assert d * (x - prev) == -(d * (prev - x));
      }
    }
  }

  /** A fraction d in [0, 1] of a non-negative gap g lies in [0, g]. */
  lemma ScaledGap(d: real, g: real, m: real)
    requires 0.0 <= d <= 1.0 && g >= 0.0 && m == d * g
    ensures 0.0 <= m <= g
  {
    MulLe(0.0, d, g);
    MulLe(d, 1.0, g);
  }

  lemma MulLe(a: real, b: real, s: real)
    requires a <= b && s >= 0.0
    ensures a * s <= b * s
  {
  }

  // ---------------------------------------------------------------------------
  // Offset compensation (section 4.2.3 of ES 201 108)

  /** One step of the offset-compensation filter. */
  function OffsetCompStep(sampleIn: real, prevIn: real, prevOut: real): (out: real)
    ensures sampleIn == prevIn ==> out == OFFSET_COMP_POLE * prevOut
  {
    sampleIn - prevIn + OFFSET_COMP_POLE * prevOut
  }

  /** The output of the offset-compensation filter, started at rest, when fed `xs` in order. */
  function OffsetCompensated(xs: seq<real>): (ys: seq<real>)
    ensures |ys| == |xs|
  {
    if xs == [] then []
    else
      var init := xs[..|xs| - 1];
      var prev := OffsetCompensated(init);
      prev + [OffsetCompStep(xs[|xs| - 1], LastOr(init, 0.0), LastOr(prev, 0.0))]
  }

  /** Feeding one more sample extends the output by one compensated sample. */
  lemma OffsetCompensatedAppend(xs: seq<real>, x: real)
    ensures OffsetCompensated(xs + [x])
         == OffsetCompensated(xs) + [OffsetCompStep(x, LastOr(xs, 0.0), LastOr(OffsetCompensated(xs), 0.0))]
  {
    assert (xs + [x])[..|xs|] == xs;
  }

  /**
   * Every output is its input minus the previous input plus 0.999 times the
   * previous output, the filter starting from zero.
   */
  lemma {:induction false} OffsetCompensatedAt(xs: seq<real>, i: nat)
    requires i < |xs|
    ensures OffsetCompensated(xs)[i]
         == OffsetCompStep(xs[i], if i == 0 then 0.0 else xs[i - 1],
                           if i == 0 then 0.0 else OffsetCompensated(xs)[i - 1])
  {
    var init := xs[..|xs| - 1];
    if i < |xs| - 1 {
      OffsetCompensatedAt(init, i);
      assert OffsetCompensated(xs)[..|xs| - 1] == OffsetCompensated(init);
    }
  }

  /** A constant input (a pure DC offset) is removed: the output decays as 0.999^i. */
  lemma {:induction false} ConstantInputDecays(c: real, n: nat, i: nat)
    requires i < n
    ensures OffsetCompensated(seq(n, _ => c))[i] == Pow(OFFSET_COMP_POLE, i) * c
  {
    var xs := seq(n, _ => c);
    OffsetCompensatedAt(xs, i);
    if i > 0 {
      ConstantInputDecays(c, n, i - 1);
    }
  }

  // ---------------------------------------------------------------------------
  // Frame conditioning (sections 4.2.5 to 4.2.8 of ES 201 108)

  /** Sum of the squared samples: the frame energy before its logarithm. */
  function SumSquares(s: seq<real>): real
  {
    if s == [] then 0.0 else SumSquares(s[..|s| - 1]) + s[|s| - 1] * s[|s| - 1]
  }

  /** A product of two factors of the same strict sign is positive. */
  lemma ProductOfSameSigns(x: real, y: real, m: real)
    requires m == x * y
    requires (x > 0.0 && y > 0.0) || (x < 0.0 && y < 0.0)
    ensures m > 0.0
  {
  }

  /** A square is never negative, and it is zero only at zero. */
  lemma SquareSign(x: real, m: real)
    requires m == x * x
    ensures m >= 0.0
    ensures m == 0.0 <==> x == 0.0
  {
    if x != 0.0 {
      ProductOfSameSigns(x, x, m);
    }
  }

  lemma {:induction false} SumSquaresNonNegative(s: seq<real>)
    ensures SumSquares(s) >= 0.0
  {
    if s != [] {
      SumSquaresNonNegative(s[..|s| - 1]);
      SquareSign(s[|s| - 1], s[|s| - 1] * s[|s| - 1]);
    }
  }

  /** The energy is zero exactly for a silent frame. */
  lemma {:induction false} SumSquaresZero(s: seq<real>)
    ensures SumSquares(s) == 0.0 <==> forall i | 0 <= i < |s| :: s[i] == 0.0
  {
    if s != [] {
      var init := s[..|s| - 1];
      var x := s[|s| - 1];
      SumSquaresZero(init);
      SumSquaresNonNegative(init);
      SquareSign(x, x * x);
      if forall i | 0 <= i < |s| :: s[i] == 0.0 {
        forall i | 0 <= i < |init| ensures init[i] == 0.0 {
          assert init[i] == s[i];
        }
      }
      if SumSquares(s) == 0.0 {
        forall i | 0 <= i < |s| ensures s[i] == 0.0 {
          if i < |init| {
            assert s[i] == init[i];
          }
        }
      }
    }
  }

  /** First-order pre-emphasis: every sample but the first loses 0.97 of its unfiltered predecessor. */
  function PreEmphasized(s: seq<real>): (t: seq<real>)
    ensures |t| == |s|
  {
    seq(|s|, i requires 0 <= i < |s| => if i == 0 then s[0] else s[i] - PRE_EMPHASIS * s[i - 1])
  }

  /** The inverse filter: the partner that shows pre-emphasis (first sample kept) loses nothing. */
  function DeEmphasized(t: seq<real>): (s: seq<real>)
    ensures |s| == |t|
  {
    if t == [] then []
    else
      var prev := DeEmphasized(t[..|t| - 1]);
      prev + [t[|t| - 1] + (if prev == [] then 0.0 else PRE_EMPHASIS * prev[|prev| - 1])]
  }

  lemma {:induction false} DeEmphasizedUndoesPreEmphasis(s: seq<real>)
    ensures DeEmphasized(PreEmphasized(s)) == s
  {
    if s != [] {
      var init := s[..|s| - 1];
      assert PreEmphasized(s)[..|s| - 1] == PreEmphasized(init);
      DeEmphasizedUndoesPreEmphasis(init);
    }
  }

  /** Sample-by-sample product of a frame with a window. */
  function Windowed(s: seq<real>, w: seq<real>): (t: seq<real>)
    requires |s| <= |w|
    ensures |t| == |s|
  {
    seq(|s|, i requires 0 <= i < |s| => s[i] * w[i])
  }

  /** The frame followed by zeros up to length n. */
  function ZeroPadded(s: seq<real>, n: nat): (t: seq<real>)
    requires |s| <= n
    ensures |t| == n && t[..|s|] == s
    ensures forall i | |s| <= i < n :: t[i] == 0.0
  {
    s + seq(n - |s|, _ => 0.0)
  }

  /** The Hamming window of FRAME_LENGTH coefficients. */
  function HammingWindow(nm: Numerics): (w: seq<real>)
    ensures |w| == FRAME_LENGTH
  {
    seq(FRAME_LENGTH, i => nm.hamming(i))
  }

  /** Real samples as complex numbers with zero imaginary part. */
  function Complexify(s: seq<real>): (z: seq<Complex>)
    ensures |z| == |s|
  {
    seq(|s|, i requires 0 <= i < |s| => Complex(s[i], 0.0))
  }

  function SquaredModulus(z: Complex): real
  {
    z.re * z.re + z.im * z.im
  }

  lemma SquaredModulusOf(re: real, im: real)
    ensures SquaredModulus(Complex(re, im)) == re * re + im * im
  {
  }

  /** |z|, with the square root given. */
  function Magnitude(z: Complex, sqrt: real -> real): real
  {
    sqrt(SquaredModulus(z))
  }

  function Magnitudes(zs: seq<Complex>, sqrt: real -> real): (m: seq<real>)
    ensures |m| == |zs|
  {
    seq(|zs|, i requires 0 <= i < |zs| => Magnitude(zs[i], sqrt))
  }
}
