/** Sub-hour apportionment of the hourly irradiation. The hourly totals of the weather file are
    the irradiation of the hour from 30 minutes before to 30 minutes after the full hour; each
    hour is split into `ndt` steps, and the total of a full hour is shared out equally among the
    steps of that window at which the sun is above the horizon, the two steps on the window's
    edges counting half. */
module Apportion {
  import opened Results

  /** The number of positive entries. */
  function Positives(s: seq<real>): (n: nat)
    ensures n <= |s|
    ensures (forall i :: 0 <= i < |s| ==> s[i] > 0.0) ==> n == |s|
  {
    if s == [] then 0 else (if s[0] > 0.0 then 1 else 0) + Positives(s[1..])
  }

  /** Counting positives is additive over concatenation. */
  lemma {:induction false} PositivesAppend(a: seq<real>, b: seq<real>)
    ensures Positives(a + b) == Positives(a) + Positives(b)
  {
    if a == [] {
      assert a + b == b;
    } else {
      assert (a + b)[1..] == a[1..] + b;
      PositivesAppend(a[1..], b);
    }
  }

  function Indicator(x: real): real { if x > 0.0 then 1.0 else 0.0 }

  /** The sun-up count of a window of samples: the positive samples, the first and the last one
      (30 minutes before and after the full hour) counting half. */
  function HalfWeighted(s: seq<real>): real
    requires |s| >= 1
  {
    Positives(s) as real - Indicator(s[0]) / 2.0 - Indicator(s[|s| - 1]) / 2.0
  }

  /** The count is half of each edge sample plus one per positive sample strictly inside the
      window: the per-step formulation the program replaced by the closed form. */
  lemma EdgesAndInterior(s: seq<real>)
    requires |s| >= 2
    ensures HalfWeighted(s)
         == Indicator(s[0]) / 2.0 + Positives(s[1..|s| - 1]) as real + Indicator(s[|s| - 1]) / 2.0
  {
    assert s == [s[0]] + (s[1..|s| - 1] + [s[|s| - 1]]);
    PositivesAppend([s[0]], s[1..|s| - 1] + [s[|s| - 1]]);
    PositivesAppend(s[1..|s| - 1], [s[|s| - 1]]);
  }

  /** The count lies between 0 and the number of steps `|s| - 1` of the window, and reaches
      that number when the sun is up at every sample. */
  lemma HalfWeightedRange(s: seq<real>)
    requires |s| >= 2
    ensures 0.0 <= HalfWeighted(s) <= (|s| - 1) as real
    ensures (forall i :: 0 <= i < |s| ==> s[i] > 0.0) ==> HalfWeighted(s) == (|s| - 1) as real
  {
    EdgesAndInterior(s);
    if forall i :: 0 <= i < |s| ==> s[i] > 0.0 {
      var mid := s[1..|s| - 1];
      assert forall i :: 0 <= i < |mid| ==> mid[i] == s[i + 1];
    }
  }

  /** The `ndt + 1` values of sin h from 30 minutes before to 30 minutes after the full hour
      `nHour`, one per step; `sinhAt` gives sin h at a clock time of the day. */
  function Samples(sinhAt: real -> real, nHour: int, ndt: int): (s: seq<real>)
    requires ndt > 0 && ndt % 2 == 0
    ensures |s| == ndt + 1
  {
    seq(ndt + 1, i => sinhAt(nHour as real + (i - ndt / 2) as real / ndt as real))
  }

  /** The sun-up count of the full hour `nHour` with `ndt` steps per hour: a single sample at
      the full hour for one step, the half-weighted window count for an even number of steps,
      and an error for any other number of steps. */
  method SunlitCount(ndt: int, nHour: int, sinhAt: real -> real) returns (r: Result<real>)
    ensures ndt == 1 ==> r == Ok(Indicator(sinhAt(nHour as real)))
    ensures ndt != 1 && ndt > 0 && ndt % 2 == 0 ==> r == Ok(HalfWeighted(Samples(sinhAt, nHour, ndt)))
    ensures ndt != 1 && !(ndt > 0 && ndt % 2 == 0) ==> r == Err(InvalidSubdivisionCount(ndt))
  {
    var nh := 0.0;
    if ndt == 1 {
      if sinhAt(nHour as real) > 0.0 {
        nh := nh + 1.0;
      }
    } else if ndt > 0 && ndt % 2 == 0 {
      var sinh0 := Samples(sinhAt, nHour, ndt);
      nh := Positives(sinh0) as real - (if sinh0[0] > 0.0 then 0.5 else 0.0)
            - (if sinh0[ndt] > 0.0 then 0.5 else 0.0);
    } else {
      return Err(InvalidSubdivisionCount(ndt));
    }
    return Ok(nh);
  }

  /** Every accepted sun-up count lies between 0 and the number of steps per hour. */
  lemma SunlitCountRange(ndt: int, nHour: int, sinhAt: real -> real)
    requires ndt > 0 && ndt % 2 == 0
    ensures 0.0 <= HalfWeighted(Samples(sinhAt, nHour, ndt)) <= ndt as real
  {
    HalfWeightedRange(Samples(sinhAt, nHour, ndt));
  }

  /** A total shared among `n` steps; nothing when no step shares it. */
  function Share(total: real, n: real): real
  {
    if n > 0.0 then total / n else 0.0
  }

  /** The irradiation of step `mm` (0 .. ndt - 1) of the hour starting at a full hour, with
      sin h = `sinh` at that step: the steps before the half-way step belong to the window of
      this full hour (total `sh`, count `nh`), the steps after it to the window of the next full
      hour (`shp`, `nhp`), and the half-way step takes half a share of each. */
  function Sdhm(mm: int, ndt: int, sinh: real, sh: real, shp: real, nh: real, nhp: real): real
  {
    var half := ndt as real / 2.0;
    var m := mm as real;
    if sinh > 0.0 then
      ((if m <= half && nh > 0.0 then sh / nh else 0.0)
       + (if m >= half && nhp > 0.0 then shp / nhp else 0.0))
      / (if m == half then 2.0 else 1.0)
    else 0.0
  }

  /** Non-negative hourly totals give a non-negative step irradiation, which is 0 unless the
      sun is up, so its product with sin h is non-negative as well. */
  lemma SdhmNonNegative(mm: int, ndt: int, sinh: real, sh: real, shp: real, nh: real, nhp: real)
    requires sh >= 0.0 && shp >= 0.0
    ensures Sdhm(mm, ndt, sinh, sh, shp, nh, nhp) >= 0.0
    ensures Sdhm(mm, ndt, sinh, sh, shp, nh, nhp) * sinh >= 0.0
  {
    var s := Sdhm(mm, ndt, sinh, sh, shp, nh, nhp);
    if sinh > 0.0 {
      assert s >= 0.0;
      assert s * sinh >= 0.0;
    }
  }

  /** Step by step: no irradiation while the sun is down; before the half-way step a share of
      this hour's total, after it a share of the next hour's total, and at the half-way step
      half of each share. */
  lemma SdhmCases(mm: int, ndt: int, sinh: real, sh: real, shp: real, nh: real, nhp: real)
    ensures sinh <= 0.0 ==> Sdhm(mm, ndt, sinh, sh, shp, nh, nhp) == 0.0
    ensures sinh > 0.0 && 2 * mm < ndt ==> Sdhm(mm, ndt, sinh, sh, shp, nh, nhp) == Share(sh, nh)
    ensures sinh > 0.0 && 2 * mm > ndt ==> Sdhm(mm, ndt, sinh, sh, shp, nh, nhp) == Share(shp, nhp)
    ensures sinh > 0.0 && 2 * mm == ndt ==>
              Sdhm(mm, ndt, sinh, sh, shp, nh, nhp) == Share(sh, nh) / 2.0 + Share(shp, nhp) / 2.0
  {
  }

  /** A step's irradiation is the part from this hour's total plus the part from the next
      hour's total. */
  lemma SdhmSplits(mm: int, ndt: int, sinh: real, sh: real, shp: real, nh: real, nhp: real)
    ensures Sdhm(mm, ndt, sinh, sh, shp, nh, nhp)
         == Sdhm(mm, ndt, sinh, sh, 0.0, nh, 0.0) + Sdhm(mm, ndt, sinh, 0.0, shp, 0.0, nhp)
  {
  }

  /** The part of the total `sh` of a full hour that step `j` (0 .. ndt) of its window receives:
      steps before the full hour are the last steps of the previous hour (the next-hour part of
      their irradiation), the others the first steps of this hour. `s[j]` is sin h at the step. */
  function Received(s: seq<real>, ndt: int, sh: real, nh: real, j: int): real
    requires 0 <= j < |s|
  {
    if 2 * j < ndt then Sdhm(j + ndt / 2, ndt, s[j], 0.0, sh, 0.0, nh)
    else Sdhm(j - ndt / 2, ndt, s[j], sh, 0.0, nh, 0.0)
  }

  /** The weight of step `j` of a window of `ndt + 1` samples: a half on the two edges. */
  function EdgeWeight(ndt: int, j: int): real
  {
    if j == 0 || j == ndt then 0.5 else 1.0
  }

  /** The sum of a sequence of reals. */
  function Sum(r: seq<real>): real
  {
    if r == [] then 0.0 else Sum(r[..|r| - 1]) + r[|r| - 1]
  }

  /** What each step of the window receives. */
  function Receipts(s: seq<real>, ndt: int, sh: real, nh: real): (r: seq<real>)
    ensures |r| == |s|
  {
    seq(|s|, j requires 0 <= j < |s| => Received(s, ndt, sh, nh, j))
  }

  /** The weight with which each sample counts towards the sun-up count. */
  function Weights(s: seq<real>, ndt: int): (w: seq<real>)
    ensures |w| == |s|
  {
    seq(|s|, j requires 0 <= j < |s| => Indicator(s[j]) * EdgeWeight(ndt, j))
  }

  /** A step of the window receives a share when the sun is up there, half a share on an edge. */
  lemma ReceivedIsShare(s: seq<real>, ndt: int, sh: real, nh: real, j: int)
    requires ndt >= 2 && ndt % 2 == 0 && |s| == ndt + 1 && 0 <= j < |s|
    ensures Received(s, ndt, sh, nh, j) == Share(sh, nh) * (Indicator(s[j]) * EdgeWeight(ndt, j))
  {
    assert Share(0.0, 0.0) == 0.0;
    if 2 * j < ndt {
      SdhmCases(j + ndt / 2, ndt, s[j], 0.0, sh, 0.0, nh);
    } else {
      SdhmCases(j - ndt / 2, ndt, s[j], sh, 0.0, nh, 0.0);
    }
  }

  /** Every term of `w` multiplied by `f`. */
  function Scaled(w: seq<real>, f: real): (r: seq<real>)
    ensures |r| == |w|
  {
    seq(|w|, j requires 0 <= j < |w| => f * w[j])
  }

  /** Scaling every term scales the sum. */
  lemma {:induction false} SumScaled(w: seq<real>, f: real)
    ensures Sum(Scaled(w, f)) == f * Sum(w)
  {
    if w != [] {
      var n := |w| - 1;
      SumScaled(w[..n], f);
      assert Scaled(w, f)[..n] == Scaled(w[..n], f) by {
        forall j | 0 <= j < n ensures Scaled(w, f)[j] == Scaled(w[..n], f)[j] {
          assert w[..n][j] == w[j];
        }
      }
      MulDistributes(f, Sum(w[..n]), w[n]);
    }
  }

  lemma MulDistributes(a: real, b: real, c: real)
    ensures a * b + a * c == a * (b + c)
  {
  }

  /** The weights of the first `k` samples add up to the positive samples among them, less
      half of the first one and, once the prefix is the whole window, half of the last one. */
  lemma {:induction false} WeightsPrefix(s: seq<real>, ndt: int, k: nat)
    requires ndt >= 2 && |s| == ndt + 1 && 1 <= k <= |s|
    ensures Sum(Weights(s, ndt)[..k])
         == Positives(s[..k]) as real - Indicator(s[0]) / 2.0
            - (if k == |s| then Indicator(s[ndt]) / 2.0 else 0.0)
  {
    var w := Weights(s, ndt);
    if k == 1 {
      assert s[..1] == [s[0]];
      assert w[..1][..0] == [];
    } else {
      WeightsPrefix(s, ndt, k - 1);
      assert w[..k][..k - 1] == w[..k - 1];
      assert s[..k] == s[..k - 1] + [s[k - 1]];
      PositivesAppend(s[..k - 1], [s[k - 1]]);
    }
  }

  /** The weights of the whole window add up to its sun-up count. */
  lemma WeightsWhole(s: seq<real>, ndt: int)
    requires ndt >= 2 && |s| == ndt + 1
    ensures Sum(Weights(s, ndt)) == HalfWeighted(s)
  {
    WeightsPrefix(s, ndt, |s|);
    assert Weights(s, ndt)[..|s|] == Weights(s, ndt);
    assert s[..|s|] == s;
  }

  /** The whole window receives one share per unit of its sun-up count. */
  lemma WindowTotalWhole(s: seq<real>, ndt: int, sh: real, nh: real)
    requires ndt >= 2 && ndt % 2 == 0 && |s| == ndt + 1
    ensures Sum(Receipts(s, ndt, sh, nh)) == Share(sh, nh) * HalfWeighted(s)
  {
    ReceiptsAreShares(s, ndt, sh, nh);
    WeightsWhole(s, ndt);
    SumOfScaled(Receipts(s, ndt, sh, nh), Weights(s, ndt), Share(sh, nh), HalfWeighted(s));
  }

  lemma SumOfScaled(r: seq<real>, w: seq<real>, f: real, h: real)
    requires r == Scaled(w, f) && Sum(w) == h
    ensures Sum(r) == f * h
  {
    SumScaled(w, f);
  }

  /** Every step receives its weight in shares. */
  lemma ReceiptsAreShares(s: seq<real>, ndt: int, sh: real, nh: real)
    requires ndt >= 2 && ndt % 2 == 0 && |s| == ndt + 1
    ensures Receipts(s, ndt, sh, nh) == Scaled(Weights(s, ndt), Share(sh, nh))
  {
    forall j | 0 <= j < |s|
      ensures Receipts(s, ndt, sh, nh)[j] == Scaled(Weights(s, ndt), Share(sh, nh))[j]
    {
      ReceiptAt(s, ndt, sh, nh, j);
    }
  }

  lemma ReceiptAt(s: seq<real>, ndt: int, sh: real, nh: real, j: int)
    requires ndt >= 2 && ndt % 2 == 0 && |s| == ndt + 1 && 0 <= j < |s|
    ensures Receipts(s, ndt, sh, nh)[j] == Scaled(Weights(s, ndt), Share(sh, nh))[j]
  {
    ReceivedIsShare(s, ndt, sh, nh, j);
  }

  /** Conservation: when the sun-up count of a window is the `nh` used to share out the total
      `sh` of its full hour, the steps of the window receive `sh` in all when the sun is up at
      some step, and nothing otherwise. */
  lemma ApportionConserves(s: seq<real>, ndt: int, sh: real, nh: real)
    requires ndt >= 2 && ndt % 2 == 0 && |s| == ndt + 1 && nh == HalfWeighted(s)
    ensures nh > 0.0 ==> Sum(Receipts(s, ndt, sh, nh)) == sh
    ensures nh <= 0.0 ==> Sum(Receipts(s, ndt, sh, nh)) == 0.0
  {
    WindowTotalWhole(s, ndt, sh, nh);
    SharesTotal(Sum(Receipts(s, ndt, sh, nh)), sh, nh);
  }

  /** Shares times their count give back the total, or nothing when there is no count. */
  lemma SharesTotal(total: real, sh: real, n: real)
    requires total == Share(sh, n) * n
    ensures n > 0.0 ==> total == sh
    ensures n <= 0.0 ==> total == 0.0
  {
  }
}
