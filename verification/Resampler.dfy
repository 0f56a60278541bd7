/**
 The streaming linear resampler of the audio backend.

 The read position is kept exactly: `pos` is the source's position times the
 output rate, so one output sample moves it by the input rate.  Samples are
 reals; the rounding of f32 and f64 is idealised away.
 */
module Resampler {
  import opened Seqs
  import opened Arith

  // ---------------------------------------------------------------------
  // The closed form: what the whole stream resamples to
  // ---------------------------------------------------------------------

  function Scale(d: real, f: real): (r: real)
  {
    d * f
  }

  /** A point of the straight line between two neighbouring input samples. */
  function Blend(a: real, b: real, frac: real): (r: real)
  {
    a + Scale(b - a, frac)
  }

  /** The piecewise-linear curve through `x`, read at position `p / den`; 0 past its end. */
  function Curve(x: seq<real>, p: nat, den: nat): (r: real)
    requires 0 < den
  {
    if p / den + 1 < |x| then Blend(x[p / den], x[p / den + 1], (p % den) as real / den as real) else 0.0
  }

  /** How many output samples `n` input samples determine. */
  function Emitted(n: nat, num: nat, den: nat): (m: nat)
    requires 0 < num && 0 < den
  {
    if n == 0 then 0 else
      CeilNonneg((n - 1) * den, num);
      ((n - 1) * den + num - 1) / num
  }

  /** The first `m` output samples: the curve read at 0, num/den, 2*num/den, ... */
  function Samples(x: seq<real>, num: nat, den: nat, m: nat): (r: seq<real>)
    requires 0 < den
    ensures |r| == m
  {
    if m == 0 then [] else Samples(x, num, den, m - 1) + [Curve(x, (m - 1) * num, den)]
  }

  /** The whole of what the stream `x` resamples to. */
  function Resampled(x: seq<real>, num: nat, den: nat): (r: seq<real>)
    requires 0 < num && 0 < den
    ensures |r| == Emitted(|x|, num, den)
  {
    Samples(x, num, den, Emitted(|x|, num, den))
  }

  // ---------------------------------------------------------------------
  // Arithmetic of positions
  // ---------------------------------------------------------------------

  lemma CeilNonneg(t: nat, num: nat)
    requires 0 < num
    ensures 0 <= (t + num - 1) / num
  {
  }

  /** Sample `k` is emitted exactly when its position falls before the last input. */
  lemma EmittedReach(n: nat, num: nat, den: nat, k: nat)
    requires 0 < num && 0 < den
    ensures k < Emitted(n, num, den) <==> 0 < n && k * num < (n - 1) * den
  {
    if n != 0 {
      var t := (n - 1) * den;
      var m := Emitted(n, num, den);
      var r := (t + num - 1) % num;
      assert t + num - 1 == m * num + r;
      if k < m {
        assert (k + 1) * num <= m * num;
      } else {
        assert m * num <= k * num;
      }
    }
  }

  /** `Emitted` is the ceiling of (n - 1) * den / num, and the only number that is. */
  lemma EmittedIsCeiling(n: nat, num: nat, den: nat, m: nat)
    requires 0 < n && 0 < num && 0 < den
    ensures m == Emitted(n, num, den)
      <==> ((m == 0 || (m - 1) * num < (n - 1) * den) && (n - 1) * den <= m * num)
  {
    EmittedReach(n, num, den, m);
    if m > 0 {
      EmittedReach(n, num, den, m - 1);
    }
  }

  lemma EmittedMonotone(n: nat, n': nat, num: nat, den: nat)
    requires 0 < num && 0 < den && n <= n'
    ensures Emitted(n, num, den) <= Emitted(n', num, den)
  {
    var k := Emitted(n', num, den);
    EmittedReach(n, num, den, k);
    EmittedReach(n', num, den, k);
    if n > 0 {
      assert (n' - 1) * den == (n - 1) * den + (n' - n) * den;
    }
  }

  // ---------------------------------------------------------------------
  // What the closed form means
  // ---------------------------------------------------------------------

  lemma {:induction false} SampleAt(x: seq<real>, num: nat, den: nat, m: nat, k: nat)
    requires 0 < den && k < m
    ensures Samples(x, num, den, m)[k] == Curve(x, k * num, den)
  {
    if k < m - 1 {
      SampleAt(x, num, den, m - 1, k);
    }
  }

  /** More input never changes what was already determined. */
  lemma {:induction false} SamplesStable(x: seq<real>, y: seq<real>, num: nat, den: nat, m: nat)
    requires 0 < num && 0 < den
    requires m <= Emitted(|x|, num, den)
    ensures m <= Emitted(|x + y|, num, den)
    ensures Samples(x + y, num, den, m) == Samples(x, num, den, m)
  {
    EmittedMonotone(|x|, |x + y|, num, den);
    if m != 0 {
      SamplesStable(x, y, num, den, m - 1);
      EmittedReach(|x|, num, den, m - 1);
      Whole((m - 1) * num, |x| - 1, den);
    }
  }

  lemma {:induction false} SamplesPrefix(x: seq<real>, num: nat, den: nat, m: nat, m': nat)
    requires 0 < den && m <= m'
    ensures Samples(x, num, den, m')[..m] == Samples(x, num, den, m)
    decreases m'
  {
    if m < m' {
      SamplesPrefix(x, num, den, m, m' - 1);
      var longer := Samples(x, num, den, m');
      assert longer[..m] == Samples(x, num, den, m' - 1)[..m];
    }
  }

  /** Resampling is causal: the output for a prefix is a prefix of the output. */
  lemma ResampledPrefix(x: seq<real>, y: seq<real>, num: nat, den: nat)
    requires 0 < num && 0 < den
    ensures Resampled(x, num, den) <= Resampled(x + y, num, den)
  {
    var m := Emitted(|x|, num, den);
    SamplesStable(x, y, num, den, m);
    SamplesPrefix(x + y, num, den, m, Emitted(|x + y|, num, den));
  }

  lemma MulNonneg(d: real, f: real)
    requires 0.0 <= d && 0.0 <= f
    ensures 0.0 <= d * f
  {
  }

  lemma Shrink(d: real, f: real)
    requires 0.0 <= d && 0.0 <= f <= 1.0
    ensures 0.0 <= Scale(d, f) <= d
  {
    var g := 1.0 - f;
    MulNonneg(d, f);
    MulNonneg(d, g);
    assert d * g == d - d * f;
  }

  lemma ShrinkDown(d: real, f: real)
    requires d <= 0.0 && 0.0 <= f <= 1.0
    ensures d <= Scale(d, f) <= 0.0
  {
    var e := -d;
    Shrink(e, f);
    assert d * f == -(e * f);
  }

  lemma BlendBetween(a: real, b: real, frac: real)
    requires 0.0 <= frac <= 1.0
    ensures Between(Blend(a, b, frac), a, b)
  {
    if a <= b {
      Shrink(b - a, frac);
    } else {
      ShrinkDown(b - a, frac);
    }
  }

  lemma FracRange(p: nat, den: nat)
    requires 0 < den
    ensures 0.0 <= (p % den) as real / den as real < 1.0
  {
    var r, d := (p % den) as real, den as real;
    assert 0.0 <= r < d;
    assert (r / d) * d == r;
  }

  lemma SampleIsCurve(x: seq<real>, num: nat, den: nat, k: nat, p: nat)
    requires 0 < num && 0 < den && k < Emitted(|x|, num, den) && p == k * num
    ensures 0 < |x| && p < (|x| - 1) * den && Resampled(x, num, den)[k] == Curve(x, p, den)
  {
    SampleAt(x, num, den, Emitted(|x|, num, den), k);
    EmittedReach(|x|, num, den, k);
  }

  ghost predicate Between(s: real, a: real, b: real)
  {
    a <= s <= b || b <= s <= a
  }

  lemma CurveBetween(x: seq<real>, p: nat, den: nat)
    requires 0 < den && 0 < |x| && p < (|x| - 1) * den
    ensures p / den + 1 < |x| && Between(Curve(x, p, den), x[p / den], x[p / den + 1])
  {
    Whole(p, |x| - 1, den);
    FracRange(p, den);
    BlendBetween(x[p / den], x[p / den + 1], (p % den) as real / den as real);
  }

  /** No overshoot: every output sample lies between its two neighbouring inputs. */
  lemma SampleBetweenNeighbours(x: seq<real>, num: nat, den: nat, k: nat, p: nat)
    requires 0 < num && 0 < den
    requires k < Emitted(|x|, num, den) && p == k * num
    ensures p / den + 1 < |x| && Between(Resampled(x, num, den)[k], x[p / den], x[p / den + 1])
  {
    SampleIsCurve(x, num, den, k, p);
    CurveBetween(x, p, den);
  }

  ghost predicate IsLine(x: seq<real>, a: real, b: real)
  {
    forall i :: 0 <= i < |x| ==> x[i] == a + b * i as real
  }

  lemma RealDiv(p: real, d: real, q: real, r: real)
    requires d > 0.0 && p == q * d + r
    ensures p / d == q + r / d
  {
    assert (q + r / d) * d == q * d + (r / d) * d;
    assert (r / d) * d == r;
    assert (q + r / d) * d == p;
  }

  lemma SplitPosition(p: nat, den: nat)
    requires 0 < den
    ensures p as real / den as real == (p / den) as real + (p % den) as real / den as real
  {
    var q, r := p / den, p % den;
    assert p == q * den + r;
    assert p as real == q as real * den as real + r as real;
    RealDiv(p as real, den as real, q as real, r as real);
  }

  lemma BlendOnLine(a: real, b: real, t: real, f: real)
    ensures Blend(a + b * t, a + b * (t + 1.0), f) == a + b * (t + f)
  {
    assert b * (t + 1.0) == b * t + b;
    assert b * (t + f) == b * t + b * f;
  }

  lemma CurveOnLine(x: seq<real>, a: real, b: real, p: nat, den: nat)
    requires 0 < den && 0 < |x| && p < (|x| - 1) * den
    requires IsLine(x, a, b)
    ensures Curve(x, p, den) == a + b * (p as real / den as real)
  {
    Whole(p, |x| - 1, den);
    SplitPosition(p, den);
    var q := p / den;
    assert x[q + 1] == a + b * (q as real + 1.0);
    BlendOnLine(a, b, q as real, (p % den) as real / den as real);
  }

  /**
   The resampler reads the signal at time k * num / den: on any straight-line
   signal the k-th output is the line's value at exactly that time.
   */
  lemma LinesAreReproduced(x: seq<real>, a: real, b: real, num: nat, den: nat, k: nat, p: nat)
    requires 0 < num && 0 < den && IsLine(x, a, b)
    requires k < Emitted(|x|, num, den) && p == k * num
    ensures Resampled(x, num, den)[k] == a + b * (p as real / den as real)
  {
    SampleIsCurve(x, num, den, k, p);
    CurveOnLine(x, a, b, p, den);
  }

  // ---------------------------------------------------------------------
  // The stateful form
  // ---------------------------------------------------------------------

  /** The sample at `p`, counted from `prev`: the virtual buffer is `prev` followed by `rest`. */
  function Read(prev: real, rest: seq<real>, p: nat, den: nat): (r: real)
    requires 0 < den && p / den < |rest|
  {
    var lo := p / den;
    var frac := (p - lo * den) as real / den as real;
    var a := if lo == 0 then prev else rest[lo - 1];
    var b := rest[lo];
    Blend(a, b, frac)
  }

  class LinearResampler {
    /** step == num / den */
    const num: nat
    const den: nat
    /** Read position relative to `prev`, times `den`. */
    var pos: int
    var prev: real
    var primed: bool

    /** Every sample fed so far. */
    ghost var Seen: seq<real>

    ghost predicate Valid()
      reads this
    {
      && 0 < num && 0 < den
      && (if primed then
            && 0 < |Seen|
            && prev == Seen[|Seen| - 1]
            && pos == Emitted(|Seen|, num, den) * num - (|Seen| - 1) * den
            && 0 <= pos
          else
            Seen == [] && pos == 0)
    }

    /** A zero output rate is given step 1; otherwise the step is inRate / outRate. */
    constructor (inRate: nat, outRate: nat)
      requires outRate == 0 || 0 < inRate
      ensures Valid() && Seen == []
      ensures num == (if outRate == 0 then 1 else inRate)
      ensures den == (if outRate == 0 then 1 else outRate)
    {
      num, den := if outRate == 0 then 1 else inRate, if outRate == 0 then 1 else outRate;
      pos, prev, primed := 0, 0.0, false;
      Seen := [];
    }

    /**
     Appends to `out` exactly the samples that the stream so far determines and
     that were not emitted before.
     */
    method Process(input: seq<real>, out: seq<real>) returns (out': seq<real>)
      requires Valid()
      modifies this
      ensures Valid()
      ensures Seen == old(Seen) + input
      ensures Resampled(old(Seen), num, den) <= Resampled(Seen, num, den)
      ensures out' == out + Resampled(Seen, num, den)[|Resampled(old(Seen), num, den)|..]
    {
      ResampledPrefix(Seen, input, num, den);
      out' := out;
      if input == [] {
        assert Seen + input == Seen;
        return;
      }
      var rest := input;
      if !primed {
        primed := true;
        prev := input[0];
        rest := input[1..];
        Seen := [input[0]];
        SingleSample(num, den);
        assert old(Seen) + input == Seen + rest;
      }
      if |rest| == 0 {
        return;
      }
      out' := Interpolate(rest, out');
    }

    /** The interpolation loop, on a primed resampler and a non-empty slice. */
    method Interpolate(rest: seq<real>, out: seq<real>) returns (out': seq<real>)
      requires Valid() && primed && rest != []
      modifies this
      ensures Valid() && primed
      ensures Seen == old(Seen) + rest
      ensures Emitted(|old(Seen)|, num, den) <= Emitted(|Seen|, num, den)
      ensures out' == out + Resampled(Seen, num, den)[Emitted(|old(Seen)|, num, den)..]
    {
      var n := |rest|;
      out' := out;
      ghost var before, first, k := Seen, Emitted(|Seen|, num, den), Emitted(|Seen|, num, den);
      EmittedMonotone(|before|, |before + rest|, num, den);
      var boundary := prev;
      var p := pos;
      while p / den + 1 <= n
        invariant first <= k && OnGrid(before, rest, num, den, k, p)
        invariant out' == out + Samples(before + rest, num, den, k)[first..]
        decreases Emitted(|before + rest|, num, den) - k
        modifies {}
      {
        StepGrid(before, rest, num, den, k, p);
        var s := Read(boundary, rest, p, den);
        StepSample(before, rest, num, den, first, k, p, s);
        SnocAssoc(out, Samples(before + rest, num, den, k)[first..], s);
        out' := out' + [s];
        p := p + num;
        k := k + 1;
      }
      Finish(before, rest, num, den, k, p);
      prev := rest[n - 1];
      pos := p - n * den;
      Seen := before + rest;
    }
  }

  lemma SingleSample(num: nat, den: nat)
    requires 0 < num && 0 < den
    ensures Emitted(1, num, den) == 0
  {
    EmittedReach(1, num, den, 0);
  }

  lemma SnocSlice(xs: seq<real>, s: real, first: nat)
    requires first <= |xs|
    ensures (xs + [s])[first..] == xs[first..] + [s]
  {
  }

  lemma Append(x: seq<real>, num: nat, den: nat, first: nat, k: nat, s: real)
    requires 0 < den && first <= k && s == Curve(x, k * num, den)
    ensures Samples(x, num, den, k + 1)[first..] == Samples(x, num, den, k)[first..] + [s]
  {
    SnocSlice(Samples(x, num, den, k), s, first);
  }

  /** The loop is about to produce sample `k`, at `p` relative to the end of `before`. */
  ghost predicate OnGrid(before: seq<real>, rest: seq<real>, num: nat, den: nat, k: nat, p: int)
    requires 0 < num && 0 < den
  {
    && before != []
    && k <= Emitted(|before + rest|, num, den)
    && 0 <= p == k * num - (|before| - 1) * den
  }

  lemma SnocAssoc(xs: seq<real>, ys: seq<real>, s: real)
    ensures (xs + ys) + [s] == xs + (ys + [s])
  {
  }

  lemma ReadPosition(m: nat, n: nat, p: nat, den: nat, t: nat)
    requires 0 < den && p / den < n && t == p + m * den
    ensures t / den == p / den + m && t / den < m + n
    ensures t % den == p - (p / den) * den
  {
    DivShift(p, m, den);
  }

  /** The virtual buffer is the tail of the stream: reading it is reading the stream's curve. */
  lemma ReadIsCurve(before: seq<real>, rest: seq<real>, p: nat, den: nat, t: nat)
    requires 0 < den && before != [] && p / den < |rest|
    requires t == p + (|before| - 1) * den
    ensures Read(before[|before| - 1], rest, p, den) == Curve(before + rest, t, den)
  {
    var all, lo, hi := before + rest, p / den, t / den;
    ReadPosition(|before| - 1, |rest|, p, den, t);
    assert all[hi + 1] == rest[lo];
    assert all[hi] == if lo == 0 then before[|before| - 1] else rest[lo - 1];
  }

  /** One turn of the loop stays on the grid ... */
  lemma StepGrid(before: seq<real>, rest: seq<real>, num: nat, den: nat, k: nat, p: nat)
    requires 0 < num && 0 < den
    requires OnGrid(before, rest, num, den, k, p)
    requires p / den + 1 <= |rest|
    ensures k < Emitted(|before + rest|, num, den)
    ensures OnGrid(before, rest, num, den, k + 1, p + num)
  {
    var t := p + (|before| - 1) * den;
    Whole(p, |rest|, den);
    assert (|before + rest| - 1) * den == (|before| - 1) * den + |rest| * den;
    EmittedReach(|before + rest|, num, den, k);
    assert (k + 1) * num == k * num + num;
  }

  /** ... and appends sample `k` of the whole stream. */
  lemma StepSample(before: seq<real>, rest: seq<real>, num: nat, den: nat, first: nat, k: nat, p: nat, s: real)
    requires 0 < den && before != [] && first <= k && p / den < |rest|
    requires p + (|before| - 1) * den == k * num
    requires s == Read(before[|before| - 1], rest, p, den)
    ensures Samples(before + rest, num, den, k + 1)[first..] == Samples(before + rest, num, den, k)[first..] + [s]
  {
    ReadIsCurve(before, rest, p, den, k * num);
    Append(before + rest, num, den, first, k, s);
  }

  /** When the loop ends, every determined sample is out and the rest position is >= 0. */
  lemma Finish(before: seq<real>, rest: seq<real>, num: nat, den: nat, k: nat, p: nat)
    requires 0 < num && 0 < den
    requires OnGrid(before, rest, num, den, k, p)
    requires !(p / den + 1 <= |rest|)
    ensures k == Emitted(|before + rest|, num, den)
    ensures 0 <= p - |rest| * den == Emitted(|before + rest|, num, den) * num - (|before + rest| - 1) * den
  {
    Whole(p, |rest|, den);
    assert (|before + rest| - 1) * den == (|before| - 1) * den + |rest| * den;
    EmittedReach(|before + rest|, num, den, k);
  }

  // ---------------------------------------------------------------------
  // Any sequence of calls
  // ---------------------------------------------------------------------

  /**
   However a stream is cut into slices (empty and one-sample slices included),
   the calls together emit the closed form of the whole stream.
   */
  method ResampleSlices(inRate: nat, outRate: nat, slices: seq<seq<real>>) returns (out: seq<real>)
    requires 0 < inRate && 0 < outRate
    ensures out == Resampled(Flatten(slices), inRate, outRate)
  {
    var r := new LinearResampler(inRate, outRate);
    out := [];
    for i := 0 to |slices|
      invariant r.Valid() && r.num == inRate && r.den == outRate && fresh(r)
      invariant r.Seen == Flatten(slices[..i])
      invariant out == Resampled(r.Seen, inRate, outRate)
    {
      ghost var soFar := Resampled(r.Seen, inRate, outRate);
      assert slices[..i + 1] == slices[..i] + [slices[i]];
      FlattenSnoc(slices[..i], slices[i]);
      out := r.Process(slices[i], out);
      assert soFar + Resampled(r.Seen, inRate, outRate)[|soFar|..] == Resampled(r.Seen, inRate, outRate);
    }
    assert slices[..|slices|] == slices;
  }
}
