/**
 * The arithmetic of `TSYS01.burst_avg_temperature`: clamp the sample count,
 * drop the first and last sample, and take the mean of the rest.
 */
module Burst {
  import opened Outcomes

  /** Upper bound on the samples of one burst, to limit self-heating. */
  const MaxSamples: int := 10

  /** `n` if it is at most 10, otherwise 10 (the driver tests `n >= 11`). */
  function ClampCount(n: int): (r: int)
    ensures r <= MaxSamples
    ensures r == n || r == MaxSamples
    ensures n <= MaxSamples ==> r == n
  {
    if n >= 11 then 10 else n
  }

  /** Python `sum(s)`, adding left to right. */
  function Sum(s: seq<real>): real
  {
    if s == [] then 0.0 else Sum(s[..|s| - 1]) + s[|s| - 1]
  }

  function Min(s: seq<real>): (m: real)
    requires |s| > 0
    ensures forall i :: 0 <= i < |s| ==> m <= s[i]
  {
    if |s| == 1 then s[0]
    else
      var m := Min(s[..|s| - 1]);
      assert forall i :: 0 <= i < |s| - 1 ==> s[..|s| - 1][i] == s[i];
      if s[|s| - 1] < m then s[|s| - 1] else m
  }

  function Max(s: seq<real>): (m: real)
    requires |s| > 0
    ensures forall i :: 0 <= i < |s| ==> s[i] <= m
  {
    if |s| == 1 then s[0]
    else
      var m := Max(s[..|s| - 1]);
      assert forall i :: 0 <= i < |s| - 1 ==> s[..|s| - 1][i] == s[i];
      if s[|s| - 1] > m then s[|s| - 1] else m
  }

  /** The minimum and the maximum are samples themselves. */
  lemma {:induction false} MinMaxAreSamples(s: seq<real>)
    requires |s| > 0
    ensures Min(s) in s && Max(s) in s
  {
    if |s| > 1 {
      var init := s[..|s| - 1];
      MinMaxAreSamples(init);
      assert forall x :: x in init ==> x in s;
    }
  }

  /**
   * Python `s[1:len(s) - 1]`: the samples without the first and the last.
   * For fewer than two samples the slice is empty.
   */
  function Trim(s: seq<real>): (r: seq<real>)
    ensures |s| >= 2 ==> |r| == |s| - 2
    ensures |s| < 2 ==> r == []
    ensures forall i :: 0 <= i < |r| ==> r[i] == s[i + 1]
  {
    if |s| < 2 then [] else s[1..|s| - 1]
  }

  /** Python `sum(s) / len(s)`: the value that, taken len(s) times, makes up the sum. */
  function Mean(s: seq<real>): (r: real)
    requires |s| > 0
    ensures r * |s| as real == Sum(s)
  {
    Sum(s) / |s| as real
  }

  /** `sum(t) / len(t)` of the trimmed samples; an empty remainder divides by zero. */
  function BurstMean(samples: seq<real>): (r: Result<real>)
    ensures r.Ok? <==> |samples| >= 3
    ensures r.Err? ==> r.fault == ZeroDivision
    ensures r.Ok? ==> Min(Trim(samples)) <= r.value <= Max(Trim(samples))
  {
    var kept := Trim(samples);
    if |kept| == 0 then Err(ZeroDivision)
    else
      MeanWithinRange(kept);
      Ok(Mean(kept))
  }

  /** n samples none below lo sum to at least n * lo. */
  lemma {:induction false} SumAtLeast(s: seq<real>, lo: real)
    requires forall i :: 0 <= i < |s| ==> lo <= s[i]
    ensures |s| as real * lo <= Sum(s)
  {
    if s != [] {
      var init := s[..|s| - 1];
      assert forall i :: 0 <= i < |init| ==> init[i] == s[i];
      SumAtLeast(init, lo);
      ScaleSucc(|init| as real, lo);
    }
  }

  /** n samples none above hi sum to at most n * hi. */
  lemma {:induction false} SumAtMost(s: seq<real>, hi: real)
    requires forall i :: 0 <= i < |s| ==> s[i] <= hi
    ensures Sum(s) <= |s| as real * hi
  {
    if s != [] {
      var init := s[..|s| - 1];
      assert forall i :: 0 <= i < |init| ==> init[i] == s[i];
      SumAtMost(init, hi);
      ScaleSucc(|init| as real, hi);
    }
  }

  lemma ScaleSucc(k: real, x: real)
    ensures (k + 1.0) * x == k * x + x
  {
  }

  /** The mean of samples none below lo is at least lo. */
  lemma MeanAtLeast(s: seq<real>, lo: real)
    requires |s| > 0
    requires forall i :: 0 <= i < |s| ==> lo <= s[i]
    ensures lo <= Mean(s)
  {
    var n := |s| as real;
    SumAtLeast(s, lo);
    assert Mean(s) - lo == (Sum(s) - n * lo) / n;
  }

  /** The mean of samples none above hi is at most hi. */
  lemma MeanAtMost(s: seq<real>, hi: real)
    requires |s| > 0
    requires forall i :: 0 <= i < |s| ==> s[i] <= hi
    ensures Mean(s) <= hi
  {
    var n := |s| as real;
    SumAtMost(s, hi);
    assert hi - Mean(s) == (n * hi - Sum(s)) / n;
  }

  /** The mean lies between the smallest and the largest sample. */
  lemma MeanWithinRange(s: seq<real>)
    requires |s| > 0
    ensures Min(s) <= Mean(s) <= Max(s)
  {
    MeanAtLeast(s, Min(s));
    MeanAtMost(s, Max(s));
  }

  /** Every sample mapped through t |-> a * t + b. */
  function Affine(s: seq<real>, a: real, b: real): (r: seq<real>)
    ensures |r| == |s|
  {
    seq(|s|, i requires 0 <= i < |s| => a * s[i] + b)
  }

  /** Mapping a sequence extended by one sample extends the mapped sequence by that sample's image. */
  lemma AffineSnoc(s: seq<real>, x: real, a: real, b: real)
    ensures Affine(s + [x], a, b) == Affine(s, a, b) + [a * x + b]
  {
    var lhs, rhs := Affine(s + [x], a, b), Affine(s, a, b) + [a * x + b];
    assert |lhs| == |rhs|;
    forall i | 0 <= i < |lhs|
      ensures lhs[i] == rhs[i]
    {
      if i < |s| {
        assert (s + [x])[i] == s[i];
      }
    }
  }

  lemma {:induction false} SumAffine(s: seq<real>, a: real, b: real)
    ensures Sum(Affine(s, a, b)) == a * Sum(s) + b * |s| as real
  {
    if s != [] {
      var init := s[..|s| - 1];
      assert Affine(s, a, b)[..|s| - 1] == Affine(init, a, b);
      SumAffine(init, a, b);
    }
  }

  /** The mean commutes with an affine change of scale, such as a change of temperature unit. */
  lemma MeanAffine(s: seq<real>, a: real, b: real)
    requires |s| > 0
    ensures Mean(Affine(s, a, b)) == a * Mean(s) + b
  {
    SumAffine(s, a, b);
    var n := |s| as real;
    assert (a * Sum(s) + b * n) / n == a * (Sum(s) / n) + b;
  }

  /** Averaging then converting equals converting then averaging: trimming commutes with the map. */
  lemma BurstMeanAffine(samples: seq<real>, a: real, b: real)
    requires |samples| >= 3
    ensures BurstMean(Affine(samples, a, b)) == Ok(a * BurstMean(samples).value + b)
  {
    var lhs, rhs := Trim(Affine(samples, a, b)), Affine(Trim(samples), a, b);
    assert |lhs| == |rhs|;
    assert forall i :: 0 <= i < |lhs| ==> lhs[i] == rhs[i];
    assert lhs == rhs;
    MeanAffine(Trim(samples), a, b);
    assert BurstMean(samples) == Ok(Mean(Trim(samples)));
    assert BurstMean(Affine(samples, a, b)) == Ok(Mean(lhs));
    assert Mean(lhs) == a * BurstMean(samples).value + b;
  }

  /** Samples 10, 20, 30, 40, 50: 10 and 50 are dropped and the mean of 20, 30, 40 is 30. */
  lemma BurstMeanExample()
    ensures BurstMean([10.0, 20.0, 30.0, 40.0, 50.0]) == Ok(30.0)
  {
    var kept := Trim([10.0, 20.0, 30.0, 40.0, 50.0]);
    assert kept == [20.0, 30.0, 40.0];
    assert Sum(kept) == 90.0 by {
      assert kept[..2] == [20.0, 30.0];
      assert kept[..2][..1] == [20.0];
      assert [20.0][..0] == [];
    }
  }
}
