/**
 * The training-side helpers of scripts/model_gen.py: reading an utterance
 * file of feature-vector lines into vectors, and the statistics of a
 * multivariate Gaussian fitted to a cluster of vectors (mean, maximum-
 * likelihood covariance, log-likelihood).
 */
module ModelGen {
  import opened Results
  import opened Dsp

  // ---------------------------------------------------------------------------
  // Text: str.strip() and str.split(",")

  /** The characters Python 2's `str.strip()` removes: space, \t, \n, \v, \f and \r. */
  predicate IsSpace(c: char)
  {
    c == ' ' || ('\t' <= c <= '\r')
  }

  /** Leading whitespace removed. */
  function StripLeft(s: string): (r: string)
    ensures |r| <= |s| && r == s[|s| - |r|..]
    ensures forall i | 0 <= i < |s| - |r| :: IsSpace(s[i])
    ensures r != [] ==> !IsSpace(r[0])
  {
    if s != [] && IsSpace(s[0]) then StripLeft(s[1..]) else s
  }

  /** Trailing whitespace removed. */
  function StripRight(s: string): (r: string)
    ensures |r| <= |s| && r == s[..|r|]
    ensures forall i | |r| <= i < |s| :: IsSpace(s[i])
    ensures r != [] ==> !IsSpace(r[|r| - 1])
  {
    if s != [] && IsSpace(s[|s| - 1]) then StripRight(s[..|s| - 1]) else s
  }

  /** `line.strip()` */
  function Strip(s: string): string
  {
    StripRight(StripLeft(s))
  }

  /** A line strips to nothing exactly when it is all whitespace: the lines `if not line: continue` skips. */
  lemma StripBlank(s: string)
    ensures Strip(s) == [] <==> forall i | 0 <= i < |s| :: IsSpace(s[i])
  {
  }

  /** Stripping twice is stripping once. */
  lemma StripIdempotent(s: string)
    ensures Strip(Strip(s)) == Strip(s)
  {
    var t := Strip(s);
    assert StripLeft(t) == t;
    assert StripRight(t) == t;
  }

  /** `s.split(sep)`: the pieces between separators, so always at least one (`"".split(",") == [""]`). */
  function Split(s: string, sep: char): (parts: seq<string>)
    ensures |parts| >= 1
    ensures forall k | 0 <= k < |parts| :: sep !in parts[k]
  {
    if s == [] then [[]]
    else
      var rest := Split(s[1..], sep);
      if s[0] == sep then [[]] + rest
      else [[s[0]] + rest[0]] + rest[1..]
  }

  /** `sep.join(parts)` */
  function Join(parts: seq<string>, sep: char): string
    requires |parts| >= 1
  {
    if |parts| == 1 then parts[0] else parts[0] + [sep] + Join(parts[1..], sep)
  }

  /** Splitting loses nothing: joining the pieces gives the line back. */
  lemma {:induction false} JoinSplit(s: string, sep: char)
    ensures Join(Split(s, sep), sep) == s
  {
    if s != [] {
      var rest := Split(s[1..], sep);
      JoinSplit(s[1..], sep);
      if s[0] != sep {
        var parts := Split(s, sep);
        assert parts[1..] == rest[1..];
        if |rest| > 1 {
          assert rest == [rest[0]] + rest[1..];
        }
      }
    }
  }

  /** A piece without separators is split into itself. */
  lemma {:induction false} SplitPlain(x: string, sep: char)
    requires sep !in x
    ensures Split(x, sep) == [x]
  {
    if x != [] {
      SplitPlain(x[1..], sep);
      assert x[0] != sep && [x[0]] + x[1..] == x;
    }
  }

  /** A separator after a plain piece starts a new piece. */
  lemma {:induction false} SplitAfterPiece(x: string, y: string, sep: char)
    requires sep !in x
    ensures Split(x + [sep] + y, sep) == [x] + Split(y, sep)
  {
    if x == [] {
      assert ([sep] + y)[1..] == y;
    } else {
      assert (x + [sep] + y)[1..] == x[1..] + [sep] + y;
      SplitAfterPiece(x[1..], y, sep);
      assert [x[0]] + x[1..] == x;
    }
  }

  /** Joining pieces without separators and splitting again gives the pieces back. */
  lemma {:induction false} SplitJoin(parts: seq<string>, sep: char)
    requires |parts| >= 1 && forall k | 0 <= k < |parts| :: sep !in parts[k]
    ensures Split(Join(parts, sep), sep) == parts
    decreases |parts|
  {
    if |parts| == 1 {
      SplitPlain(parts[0], sep);
    } else {
      SplitJoin(parts[1..], sep);
      SplitAfterPiece(parts[0], Join(parts[1..], sep), sep);
    }
  }

  // ---------------------------------------------------------------------------
  // Utterance files (scripts/model_gen.py:6-13)

  /**
   * `map(float, fields)`: every field converted in order, `float` itself
   * given as toFloat; the first field that is not a number raises ValueError.
   */
  function ParseAll(fields: seq<string>, toFloat: string -> Option<real>): (r: Result<seq<real>, PyError>)
    ensures r.Success? <==> forall k | 0 <= k < |fields| :: toFloat(fields[k]).Some?
    ensures r.Success? ==> |r.value| == |fields| && forall k | 0 <= k < |fields| :: r.value[k] == toFloat(fields[k]).value
    ensures r.Failure? ==> exists k | 0 <= k < |fields| ::
      && toFloat(fields[k]).None? && r.error == ValueError(fields[k])
      && forall j | 0 <= j < k :: toFloat(fields[j]).Some?
  {
    if fields == [] then Success([])
    else
      match toFloat(fields[0])
      case None => Failure(ValueError(fields[0]))
      case Some(x) =>
        var rest := ParseAll(fields[1..], toFloat);
        if rest.Failure? then
          var k :| 0 <= k < |fields| - 1 && toFloat(fields[1..][k]).None? && rest.error == ValueError(fields[1..][k])
                   && forall j | 0 <= j < k :: toFloat(fields[1..][j]).Some?;
          assert toFloat(fields[k + 1]).None?;
          Failure(rest.error)
        else Success([x] + rest.value)
  }

  /** `map(float, line.split(","))[1:]`: every field must parse, and the first one is dropped. */
  function ParseLine(line: string, toFloat: string -> Option<real>): (r: Result<seq<real>, PyError>)
  {
    var all := ParseAll(Split(line, ','), toFloat);
    if all.Failure? then Failure(all.error) else Success(all.value[1..])
  }

  /** A line yields the numbers of its comma-separated fields after the first, in order. */
  lemma ParseLineFields(line: string, toFloat: string -> Option<real>)
    ensures var fields := Split(line, ',');
      && (ParseLine(line, toFloat).Success? <==> forall k | 0 <= k < |fields| :: toFloat(fields[k]).Some?)
      && (ParseLine(line, toFloat).Success? ==>
            && |ParseLine(line, toFloat).value| == |fields| - 1
            && forall k | 0 <= k < |fields| - 1 :: ParseLine(line, toFloat).value[k] == toFloat(fields[k + 1]).value)
  {
  }

  /** The stripped lines that are not blank, in file order. */
  function NonBlank(lines: seq<string>): (nb: seq<string>)
    ensures |nb| <= |lines|
  {
    if lines == [] then []
    else
      var line := Strip(lines[|lines| - 1]);
      NonBlank(lines[..|lines| - 1]) + if line == [] then [] else [line]
  }

  /** The feature vectors of an utterance file given as its lines, or the error its first bad field raises. */
  function ParsedLines(lines: seq<string>, toFloat: string -> Option<real>): Result<seq<seq<real>>, PyError>
  {
    if lines == [] then Success([])
    else
      var before := ParsedLines(lines[..|lines| - 1], toFloat);
      var line := Strip(lines[|lines| - 1]);
      if before.Failure? then before
      else if line == [] then before
      else
        var v := ParseLine(line, toFloat);
        if v.Failure? then Failure(v.error) else Success(before.value + [v.value])
  }

  /** The non-blank lines parsed one after the other, stopping at the first error. */
  function ParseEach(ls: seq<string>, toFloat: string -> Option<real>): Result<seq<seq<real>>, PyError>
  {
    if ls == [] then Success([])
    else
      var before := ParseEach(ls[..|ls| - 1], toFloat);
      var v := ParseLine(ls[|ls| - 1], toFloat);
      if before.Failure? then before
      else if v.Failure? then Failure(v.error)
      else Success(before.value + [v.value])
  }

  /** Skipping blank lines and parsing the rest is parsing the non-blank lines. */
  lemma {:induction false} ParsedLinesNonBlank(lines: seq<string>, toFloat: string -> Option<real>)
    ensures ParsedLines(lines, toFloat) == ParseEach(NonBlank(lines), toFloat)
  {
    if lines != [] {
      var init := lines[..|lines| - 1];
      ParsedLinesNonBlank(init, toFloat);
      var nb0 := NonBlank(init);
      var line := Strip(lines[|lines| - 1]);
      if line == [] {
        assert NonBlank(lines) == nb0;
      } else {
        assert NonBlank(lines) == nb0 + [line];
        assert (nb0 + [line])[..|nb0|] == nb0;
      }
    }
  }

  /** Parsing lines succeeds exactly when each line parses, giving one vector per line in order. */
  lemma {:induction false} ParseEachMeaning(ls: seq<string>, toFloat: string -> Option<real>)
    ensures ParseEach(ls, toFloat).Success? <==> forall j | 0 <= j < |ls| :: ParseLine(ls[j], toFloat).Success?
    ensures ParseEach(ls, toFloat).Success? ==>
      && |ParseEach(ls, toFloat).value| == |ls|
      && forall j | 0 <= j < |ls| :: ParseEach(ls, toFloat).value[j] == ParseLine(ls[j], toFloat).value
  {
    if ls != [] {
      var init := ls[..|ls| - 1];
      var before := ParseEach(init, toFloat);
      var v := ParseLine(ls[|ls| - 1], toFloat);
      ParseEachMeaning(init, toFloat);
      if before.Failure? {
        var j :| 0 <= j < |init| && ParseLine(init[j], toFloat).Failure?;
        assert ls[j] == init[j];
      } else if v.Success? {
        var r := before.value + [v.value];
        assert ParseEach(ls, toFloat) == Success(r);
        forall j | 0 <= j < |ls|
          ensures ParseLine(ls[j], toFloat).Success? && r[j] == ParseLine(ls[j], toFloat).value
        {
          if j < |init| {
            assert ls[j] == init[j];
          }
        }
      }
    }
  }

  /**
   * Parsing a file succeeds exactly when every non-blank line parses, and then
   * it gives one vector per non-blank line, in file order.
   */
  lemma ParsedLinesMeaning(lines: seq<string>, toFloat: string -> Option<real>)
    ensures var nb := NonBlank(lines);
      && (ParsedLines(lines, toFloat).Success? <==> forall j | 0 <= j < |nb| :: ParseLine(nb[j], toFloat).Success?)
      && (ParsedLines(lines, toFloat).Success? ==>
            && |ParsedLines(lines, toFloat).value| == |nb|
            && forall j | 0 <= j < |nb| :: ParsedLines(lines, toFloat).value[j] == ParseLine(nb[j], toFloat).value)
  {
    ParsedLinesNonBlank(lines, toFloat);
    ParseEachMeaning(NonBlank(lines), toFloat);
  }

  /** Once a prefix of the file fails, the whole file fails with the same error. */
  lemma {:induction false} ParsedLinesFailureSticks(lines: seq<string>, k: nat, toFloat: string -> Option<real>)
    requires k <= |lines| && ParsedLines(lines[..k], toFloat).Failure?
    ensures ParsedLines(lines, toFloat) == ParsedLines(lines[..k], toFloat)
    decreases |lines| - k
  {
    if k < |lines| {
      assert lines[..k + 1][..k] == lines[..k];
      ParsedLinesFailureSticks(lines, k + 1, toFloat);
    } else {
      assert lines[..k] == lines;
    }
  }

  /**
   * `Utterance.__init__` over the lines `f.readlines()` returns: blank lines
   * are skipped and every other line appends its vector to `fvs`.
   */
  method UtteranceVectors(lines: seq<string>, toFloat: string -> Option<real>) returns (r: Result<seq<seq<real>>, PyError>)
    ensures r == ParsedLines(lines, toFloat)
  {
    var fvs: seq<seq<real>> := [];
    for k := 0 to |lines|
      invariant ParsedLines(lines[..k], toFloat) == Success(fvs)
    {
      assert lines[..k + 1][..k] == lines[..k];
      var line := Strip(lines[k]);
      if line == [] {
        continue;
      }
      var v := ParseLine(line, toFloat);
      if v.Failure? {
        ParsedLinesFailureSticks(lines, k + 1, toFloat);
        return Failure(v.error);
      }
      fvs := fvs + [v.value];
    }
    assert lines[..|lines|] == lines;
    return Success(fvs);
  }

  // ---------------------------------------------------------------------------
  // The Gaussian of a cluster (scripts/model_gen.py:15-35)

  type Vector = seq<real>
  type Matrix = seq<seq<real>>

  /** Every vector of the cluster has dimension n. */
  ghost predicate Uniform(vs: seq<Vector>, n: nat)
  {
    forall k | 0 <= k < |vs| :: |vs[k]| == n
  }

  /** Component i of `sum(vecs)`. */
  function ComponentSum(vs: seq<Vector>, i: nat): real
    requires forall k | 0 <= k < |vs| :: i < |vs[k]|
  {
    if vs == [] then 0.0 else ComponentSum(vs[..|vs| - 1], i) + vs[|vs| - 1][i]
  }

  /** `sum(vecs) / len(vecs)` */
  function Mean(vs: seq<Vector>, n: nat): (m: Vector)
    requires |vs| > 0 && Uniform(vs, n)
    ensures |m| == n
  {
    seq(n, i requires 0 <= i < n => ComponentSum(vs, i) / |vs| as real)
  }

  /** `[v - mean for v in vecs]` */
  function Centered(vs: seq<Vector>, m: Vector): (cs: seq<Vector>)
    requires Uniform(vs, |m|)
    ensures |cs| == |vs| && Uniform(cs, |m|)
  {
    seq(|vs|, k requires 0 <= k < |vs| => seq(|m|, i requires 0 <= i < |m| => vs[k][i] - m[i]))
  }

  /** Subtracting m from every vector subtracts |vs| copies of m from the sum. */
  lemma {:induction false} CenteredComponentSum(vs: seq<Vector>, m: Vector, i: nat)
    requires Uniform(vs, |m|) && i < |m|
    ensures ComponentSum(Centered(vs, m), i) == ComponentSum(vs, i) - |vs| as real * m[i]
  {
    if vs != [] {
      var init := vs[..|vs| - 1];
      assert Centered(vs, m)[..|vs| - 1] == Centered(init, m);
      CenteredComponentSum(init, m, i);
    }
  }

  lemma MulDivCancel(s: real, k: real)
    requires k > 0.0
    ensures k * (s / k) == s
  {
  }

  /** The mean-centred vectors sum to the zero vector. */
  lemma CenteredSumsToZero(vs: seq<Vector>, n: nat, i: nat)
    requires |vs| > 0 && Uniform(vs, n) && i < n
    ensures ComponentSum(Centered(vs, Mean(vs, n)), i) == 0.0
  {
    var m := Mean(vs, n);
    CenteredComponentSum(vs, m, i);
    MulDivCancel(ComponentSum(vs, i), |vs| as real);
  }

  /** Entry (i, j) of `sum(numpy.outer(v, v) for v in cs)`. */
  function OuterSum(cs: seq<Vector>, i: nat, j: nat): real
    requires forall k | 0 <= k < |cs| :: i < |cs[k]| && j < |cs[k]|
  {
    if cs == [] then 0.0
    else OuterSum(cs[..|cs| - 1], i, j) + cs[|cs| - 1][i] * cs[|cs| - 1][j]
  }

  /** The maximum-likelihood covariance: the average outer product of the centred vectors. */
  function Covariance(vs: seq<Vector>, n: nat): (c: Matrix)
    requires |vs| > 0 && Uniform(vs, n)
    ensures |c| == n && forall i | 0 <= i < n :: |c[i]| == n
  {
    var cs := Centered(vs, Mean(vs, n));
    seq(n, i requires 0 <= i < n => seq(n, j requires 0 <= j < n => OuterSum(cs, i, j) / |vs| as real))
  }

  lemma {:induction false} OuterSumSymmetric(cs: seq<Vector>, i: nat, j: nat)
    requires forall k | 0 <= k < |cs| :: i < |cs[k]| && j < |cs[k]|
    ensures OuterSum(cs, i, j) == OuterSum(cs, j, i)
  {
    if cs != [] {
      OuterSumSymmetric(cs[..|cs| - 1], i, j);
    }
  }

  lemma {:induction false} OuterSumDiagonal(cs: seq<Vector>, i: nat)
    requires forall k | 0 <= k < |cs| :: i < |cs[k]|
    ensures OuterSum(cs, i, i) >= 0.0
  {
    if cs != [] {
      OuterSumDiagonal(cs[..|cs| - 1], i);
      var x := cs[|cs| - 1][i];
      SquareSign(x, x * x);
    }
  }

  /** The covariance is symmetric. */
  lemma CovarianceSymmetric(vs: seq<Vector>, n: nat, i: nat, j: nat)
    requires |vs| > 0 && Uniform(vs, n) && i < n && j < n
    ensures Covariance(vs, n)[i][j] == Covariance(vs, n)[j][i]
  {
    OuterSumSymmetric(Centered(vs, Mean(vs, n)), i, j);
  }

  lemma DivNonNegative(s: real, k: real)
    requires s >= 0.0 && k > 0.0
    ensures s / k >= 0.0
  {
  }

  /** Its diagonal, the variance of each component, is never negative. */
  lemma CovarianceDiagonal(vs: seq<Vector>, n: nat, i: nat)
    requires |vs| > 0 && Uniform(vs, n) && i < n
    ensures Covariance(vs, n)[i][i] >= 0.0
  {
    var cs := Centered(vs, Mean(vs, n));
    OuterSumDiagonal(cs, i);
    DivNonNegative(OuterSum(cs, i, i), |vs| as real);
  }

  /**
   * A cluster of one vector has the all-zero covariance, which has no inverse:
   * `numpy.linalg.inv` at scripts/model_gen.py:28 raises on it.
   */
  lemma SingleVectorCovariance(v: Vector)
    ensures forall i, j | 0 <= i < |v| && 0 <= j < |v| :: Covariance([v], |v|)[i][j] == 0.0
  {
    var m := Mean([v], |v|);
    forall i | 0 <= i < |v|
      ensures m[i] == v[i]
    {
      assert [v][..0] == [];
      assert ComponentSum([v], i) == v[i];
    }
    var cs := Centered([v], m);
    forall i, j | 0 <= i < |v| && 0 <= j < |v|
      ensures Covariance([v], |v|)[i][j] == 0.0
    {
      assert cs[0][i] == 0.0 && cs[0][j] == 0.0;
      assert cs[..0] == [];
      assert OuterSum(cs, i, j) == 0.0;
    }
  }

  /** `numpy.linalg.inv`, `numpy.linalg.det` and `math.log`, taken as given. */
  datatype LinearAlgebra = LinearAlgebra(inv: Matrix -> Matrix, det: Matrix -> real, log: real -> real)

  /** The fields of a `MultivariateGaussianModel`. */
  datatype Gaussian = Gaussian(mean: Vector, covariance: Matrix, covarInv: Matrix, llConst: real)

  /**
   * `MultivariateGaussianModel.__init__(vecs)`: an empty cluster divides by
   * `len(vecs) == 0` and raises ZeroDivisionError; otherwise the mean, the
   * symmetric covariance, its inverse and the log-likelihood offset.
   */
  function NewGaussian(vs: seq<Vector>, n: nat, la: LinearAlgebra): (r: Result<Gaussian, PyError>)
    requires Uniform(vs, n)
    ensures r.Failure? <==> vs == []
    ensures r.Failure? ==> r.error == ZeroDivisionError
    ensures r.Success? ==>
      && r.value.mean == Mean(vs, n)
      && IsSquare(r.value.covariance, n)
      && (forall i, j | 0 <= i < n && 0 <= j < n :: r.value.covariance[i][j] == r.value.covariance[j][i])
      && (forall i | 0 <= i < n :: r.value.covariance[i][i] >= 0.0)
      && r.value.covarInv == la.inv(r.value.covariance)
      && r.value.llConst == -0.5 * la.log(la.det(r.value.covariance))
  {
    if vs == [] then Failure(ZeroDivisionError)
    else
      var c := Covariance(vs, n);
      CovarianceProperties(vs, n);
      Success(Gaussian(Mean(vs, n), c, la.inv(c), -0.5 * la.log(la.det(c))))
  }

  /** The covariance is symmetric with a non-negative diagonal, entry by entry. */
  lemma CovarianceProperties(vs: seq<Vector>, n: nat)
    requires |vs| > 0 && Uniform(vs, n)
    ensures forall i, j | 0 <= i < n && 0 <= j < n :: Covariance(vs, n)[i][j] == Covariance(vs, n)[j][i]
    ensures forall i | 0 <= i < n :: Covariance(vs, n)[i][i] >= 0.0
  {
    forall i, j | 0 <= i < n && 0 <= j < n
      ensures Covariance(vs, n)[i][j] == Covariance(vs, n)[j][i]
    {
      CovarianceSymmetric(vs, n, i, j);
    }
    forall i | 0 <= i < n
      ensures Covariance(vs, n)[i][i] >= 0.0
    {
      CovarianceDiagonal(vs, n, i);
    }
  }

  /** `a.dot(b)` */
  function Dot(a: Vector, b: Vector): real
    requires |a| == |b|
  {
    if a == [] then 0.0 else Dot(a[..|a| - 1], b[..|b| - 1]) + a[|a| - 1] * b[|b| - 1]
  }

  /** `m.dot(v)` for a matrix with rows of |v| entries. */
  function MatVec(m: Matrix, v: Vector): (r: Vector)
    requires forall i | 0 <= i < |m| :: |m[i]| == |v|
    ensures |r| == |m|
  {
    seq(|m|, i requires 0 <= i < |m| => Dot(m[i], v))
  }

  /** covar_inv is n by n. */
  ghost predicate IsSquare(m: Matrix, n: nat)
  {
    |m| == n && forall i | 0 <= i < n :: |m[i]| == n
  }

  /** `numpy.array(x) - mean` */
  function Difference(x: Vector, m: Vector): (d: Vector)
    requires |x| == |m|
    ensures |d| == |x|
  {
    seq(|x|, i requires 0 <= i < |x| => x[i] - m[i])
  }

  /** `ll(datum)`: ll_const - 0.5 * d . (covar_inv . d) with d the datum minus the mean. */
  function LogLikelihood(g: Gaussian, x: Vector): real
    requires |x| == |g.mean| && IsSquare(g.covarInv, |g.mean|)
  {
    var d := Difference(x, g.mean);
    g.llConst - 0.5 * Dot(d, MatVec(g.covarInv, d))
  }

  lemma {:induction false} DotZeros(a: Vector, z: Vector)
    requires |a| == |z| && forall i | 0 <= i < |z| :: z[i] == 0.0
    ensures Dot(a, z) == 0.0
  {
    if a != [] {
      DotZeros(a[..|a| - 1], z[..|z| - 1]);
    }
  }

  /** At the mean the quadratic form vanishes: `ll(mean) == ll_const`. */
  lemma LogLikelihoodAtMean(g: Gaussian)
    requires IsSquare(g.covarInv, |g.mean|)
    ensures LogLikelihood(g, g.mean) == g.llConst
  {
    var d := Difference(g.mean, g.mean);
    var md := MatVec(g.covarInv, d);
    forall i | 0 <= i < |md|
      ensures md[i] == 0.0
    {
      DotZeros(g.covarInv[i], d);
    }
    DotZeros(d, md);
  }

  /** The quadratic form of m is never negative. */
  ghost predicate PositiveSemidefinite(m: Matrix, n: nat)
    requires IsSquare(m, n)
  {
    forall d: Vector | |d| == n :: Dot(d, MatVec(m, d)) >= 0.0
  }

  /** With a positive semidefinite covar_inv, no datum is more likely than the mean. */
  lemma LogLikelihoodPeak(g: Gaussian, x: Vector)
    requires |x| == |g.mean| && IsSquare(g.covarInv, |g.mean|)
    requires PositiveSemidefinite(g.covarInv, |g.mean|)
    ensures LogLikelihood(g, x) <= LogLikelihood(g, g.mean) == g.llConst
  {
    LogLikelihoodAtMean(g);
    var d := Difference(x, g.mean);
    assert Dot(d, MatVec(g.covarInv, d)) >= 0.0;
  }
}
