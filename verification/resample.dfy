/**
 * The linear-interpolation resampler of playground/resample.py: a list of
 * samples at old_rate becomes int(len * new_rate / old_rate) samples, output
 * i interpolating the input at time i * old_rate / new_rate between its two
 * neighbouring samples, with the last sample repeated so the right neighbour
 * always exists.
 */
module Resampler {
  import opened Results
  import opened Dsp

  /** Python's `int(x)` on a float: truncation toward zero. */
  function Trunc(x: real): (t: int)
    ensures x >= 0.0 ==> t >= 0 && t as real <= x < t as real + 1.0
    ensures x < 0.0 ==> t <= 0 && t as real - 1.0 < x <= t as real
  {
    if x >= 0.0 then x.Floor else -((-x).Floor)
  }

  /** `new_length = (len(a) * float(new_rate)) / old_rate` */
  function NewLength(n: nat, oldRate: int, newRate: int): real
    requires oldRate != 0
  {
    (n as real * newRate as real) / oldRate as real
  }

  /** `int(new_length)` as a loop count: `xrange` of a negative number is empty. */
  function OutputLength(n: nat, oldRate: int, newRate: int): nat
    requires oldRate != 0
  {
    var t := Trunc(NewLength(n, oldRate, newRate));
    if t < 0 then 0 else t
  }

  /** `index = i * (old_rate / float(new_rate))`, the input time of output i. */
  function Position(i: nat, oldRate: int, newRate: int): real
    requires newRate != 0
  {
    i as real * (oldRate as real / newRate as real)
  }

  /** A loop that runs at all has new_length = len(a) * new_rate / old_rate of at least one. */
  lemma NewLengthAtLeastOne(n: nat, oldRate: int, newRate: int)
    requires oldRate != 0 && OutputLength(n, oldRate, newRate) > 0
    ensures NewLength(n, oldRate, newRate) >= 1.0
  {
  }

  /** At equal rates new_length is len(a). */
  lemma OutputLengthSameRate(n: nat, rate: int)
    requires rate != 0
    ensures OutputLength(n, rate, rate) == n
  {
    SelfQuotient(n as real, rate as real);
    assert NewLength(n, rate, rate) == n as real;
    TruncOfInt(n);
    assert Trunc(NewLength(n, rate, rate)) == n;
  }

  lemma SelfQuotient(x: real, r: real)
    requires r != 0.0
    ensures (x * r) / r == x
  {
  }

  lemma TruncOfInt(n: int)
    ensures Trunc(n as real) == n
  {
  }

  lemma MulLtPos(a: real, b: real, s: real)
    requires a < b && s > 0.0
    ensures a * s < b * s
  {
  }

  lemma MulDivAssoc(n: real, b: real, a: real)
    requires a != 0.0
    ensures (n * b) / a == n * (b / a)
  {
  }

  lemma ReciprocalProduct(a: real, b: real)
    requires a != 0.0 && b != 0.0
    ensures (b / a) * (a / b) == 1.0
  {
  }

  lemma MulReassoc(n: real, q: real, r: real)
    requires q * r == 1.0
    ensures (n * q) * r == n
  {
    assert (n * q) * r == n * (q * r);
  }

  /**
   * When the loop runs at all, the input is non-empty, new_rate is not zero and
   * the two rates have the same sign; the time step old_rate / new_rate then
   * carries new_length back to len(a).
   */
  lemma RatesAgree(n: nat, oldRate: int, newRate: int)
    requires oldRate != 0 && OutputLength(n, oldRate, newRate) > 0
    ensures n > 0 && newRate != 0 && oldRate as real / newRate as real > 0.0
    ensures NewLength(n, oldRate, newRate) * (oldRate as real / newRate as real) == n as real
  {
    var a, b := oldRate as real, newRate as real;
    NewLengthAtLeastOne(n, oldRate, newRate);
    MulDivAssoc(n as real, b, a);
    assert n > 0;
    assert b / a > 0.0 by {
      if b / a <= 0.0 {
        MulLe(0.0, n as real, -(b / a));
      }
    }
    assert b != 0.0;
    ReciprocalProduct(a, b);
    assert a / b > 0.0 by {
      if a / b <= 0.0 {
        MulLe(0.0, b / a, -(a / b));
      }
    }
    MulReassoc(n as real, b / a, a / b);
  }

  /**
   * Every output index that the loop reaches reads inside the padded list:
   * new_rate is not zero there, the time is non-negative and its integer part
   * l is at most len(a) - 1, so a[l] and a[l + 1] both exist.
   */
  lemma PositionInRange(n: nat, oldRate: int, newRate: int, i: nat)
    requires oldRate != 0 && i < OutputLength(n, oldRate, newRate)
    ensures newRate != 0 && 0.0 <= Position(i, oldRate, newRate)
    ensures Trunc(Position(i, oldRate, newRate)) < n
  {
    RatesAgree(n, oldRate, newRate);
    var x := NewLength(n, oldRate, newRate);
    var r := oldRate as real / newRate as real;
    MulLe(0.0, i as real, r);
    MulLtPos(i as real, x, r);
  }

  /** Output i: `(1 - coef) * a[l] + coef * a[l + 1]`, l and coef the integer and fractional parts of its time. */
  function OutputSample(padded: seq<real>, i: nat, oldRate: int, newRate: int): real
    requires newRate != 0 && 0.0 <= Position(i, oldRate, newRate)
    requires Trunc(Position(i, oldRate, newRate)) + 1 < |padded|
  {
    var index := Position(i, oldRate, newRate);
    var l := Trunc(index);
    Lerp(padded[l], padded[l + 1], index - l as real)
  }

  /** `list(a) + [a[-1]]` */
  function Padded(a: seq<real>): (p: seq<real>)
    requires a != []
    ensures |p| == |a| + 1 && p[..|a|] == a && p[|a|] == a[|a| - 1]
  {
    a + [a[|a| - 1]]
  }

  /**
   * `resample(a, old_rate, new_rate)`: a zero old_rate raises ZeroDivisionError
   * when new_length is computed; otherwise an empty list raises IndexError at
   * `a[-1]`; otherwise one interpolated sample per output index.
   */
  function Resampled(a: seq<real>, oldRate: int, newRate: int): (r: Result<seq<real>, PyError>)
    ensures r.Failure? <==> oldRate == 0 || a == []
    ensures oldRate == 0 ==> r == Failure(ZeroDivisionError)
    ensures oldRate != 0 && a == [] ==> r == Failure(IndexError)
    ensures r.Success? ==> |r.value| == OutputLength(|a|, oldRate, newRate)
  {
    if oldRate == 0 then Failure(ZeroDivisionError)
    else if a == [] then Failure(IndexError)
    else
      var count := OutputLength(|a|, oldRate, newRate);
      Success(seq(count, i requires 0 <= i < count =>
        PositionInRange(|a|, oldRate, newRate, i);
        OutputSample(Padded(a), i, oldRate, newRate)))
  }

  /** The loop of resample.py:13-19, appending one interpolated sample per output index. */
  method Resample(a: seq<real>, oldRate: int, newRate: int) returns (r: Result<seq<real>, PyError>)
    ensures r == Resampled(a, oldRate, newRate)
  {
    if oldRate == 0 {
      return Failure(ZeroDivisionError);
    }
    var newLength := NewLength(|a|, oldRate, newRate);
    if a == [] {
      return Failure(IndexError);
    }
    var padded := a + [a[|a| - 1]];
    var b: seq<real> := [];
    var count := Trunc(newLength);
    ghost var spec := Resampled(a, oldRate, newRate).value;
    assert padded == Padded(a);
    assert |spec| == if count < 0 then 0 else count;
    for i := 0 to if count < 0 then 0 else count
      invariant b == spec[..i]
    {
      PositionInRange(|a|, oldRate, newRate, i);
      var index := Position(i, oldRate, newRate);
      var l := Trunc(index);
      var coef := index - l as real;
      b := b + [Lerp(padded[l], padded[l + 1], coef)];
      assert spec[..i + 1] == spec[..i] + [spec[i]];
    }
    assert spec[..|spec|] == spec;
    return Success(b);
  }

  /** `coef = index - l` lies in [0, 1) for every output. */
  lemma CoefInUnit(a: seq<real>, oldRate: int, newRate: int, i: nat)
    requires oldRate != 0 && i < OutputLength(|a|, oldRate, newRate)
    ensures newRate != 0
    ensures var index := Position(i, oldRate, newRate);
      0.0 <= index - Trunc(index) as real < 1.0
  {
    PositionInRange(|a|, oldRate, newRate, i);
  }

  /** Every output lies between the two input samples it interpolates. */
  lemma OutputBetweenNeighbours(a: seq<real>, oldRate: int, newRate: int, i: nat)
    requires Resampled(a, oldRate, newRate).Success? && i < |Resampled(a, oldRate, newRate).value|
    ensures newRate != 0
    ensures var l := Trunc(Position(i, oldRate, newRate));
      && 0 <= l < |a|
      && var left, right := Padded(a)[l], Padded(a)[l + 1];
      && var y := Resampled(a, oldRate, newRate).value[i];
      && (left <= right ==> left <= y <= right)
      && (right <= left ==> right <= y <= left)
  {
    PositionInRange(|a|, oldRate, newRate, i);
    var index := Position(i, oldRate, newRate);
    var l := Trunc(index);
    LerpBetween(Padded(a)[l], Padded(a)[l + 1], index - l as real);
  }

  /** So every output lies within the range of the input: [min a, max a]. */
  lemma OutputWithinInputRange(a: seq<real>, oldRate: int, newRate: int, lo: real, hi: real)
    requires Resampled(a, oldRate, newRate).Success?
    requires forall j | 0 <= j < |a| :: lo <= a[j] <= hi
    ensures forall i | 0 <= i < |Resampled(a, oldRate, newRate).value| :: lo <= Resampled(a, oldRate, newRate).value[i] <= hi
  {
    var b := Resampled(a, oldRate, newRate).value;
    forall i | 0 <= i < |b|
      ensures lo <= b[i] <= hi
    {
      OutputBetweenNeighbours(a, oldRate, newRate, i);
      var l := Trunc(Position(i, oldRate, newRate));
      assert Padded(a)[l] == a[l];
      if l + 1 < |a| {
        assert Padded(a)[l + 1] == a[l + 1];
      }
    }
  }

  /** At equal rates the output is the input. */
  lemma SameRateIsIdentity(a: seq<real>, rate: int)
    requires rate != 0 && a != []
    ensures Resampled(a, rate, rate) == Success(a)
  {
    OutputLengthSameRate(|a|, rate);
    var b := Resampled(a, rate, rate).value;
    forall i | 0 <= i < |a|
      ensures b[i] == a[i]
    {
      PositionInRange(|a|, rate, rate, i);
      assert b[i] == OutputSample(Padded(a), i, rate, rate);
      SampleAtSameRate(a, rate, i);
    }
    assert |b| == |a|;
    assert b == a;
  }

  lemma SampleAtSameRate(a: seq<real>, rate: int, i: nat)
    requires rate != 0 && i < |a|
    ensures Position(i, rate, rate) == i as real
    ensures OutputSample(Padded(a), i, rate, rate) == a[i]
  {
    assert rate as real / rate as real == 1.0;
    TruncOfInt(i);
    LerpBetween(Padded(a)[i], Padded(a)[i + 1], 0.0);
  }

  /**
   * The left neighbour l never moves backwards as i grows, whenever the time
   * step old_rate / new_rate is not negative (as it is whenever the loop runs,
   * by RatesAgree).
   */
  lemma IndexMonotone(oldRate: int, newRate: int, i: nat, j: nat)
    requires newRate != 0 && oldRate as real / newRate as real >= 0.0 && i <= j
    ensures Trunc(Position(i, oldRate, newRate)) <= Trunc(Position(j, oldRate, newRate))
  {
    var r := oldRate as real / newRate as real;
    MulLe(i as real, j as real, r);
  }
}
