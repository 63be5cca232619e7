/**
 * The two colour scales of the map: `getColor` shades countries (six colours)
 * and `getCityColor` shades city markers (five colours). Both are step
 * functions over descending `>` thresholds. Besides the functions as written,
 * the module gives an independent reference definition (the colour is the
 * palette entry indexed by how many thresholds the count exceeds) and proves
 * the two agree, which yields monotonicity. The colour bands are proved
 * from the branches themselves.
 */
module Buckets {

  /** `minCount`: the popup and city-marker threshold. */
  const MinCount: int := 10

  /** Thresholds of the country scale, ascending. */
  const CountryThresholds: seq<int> := [10, 20, 50, 100, 200]

  /** Country colours from the lowest bucket to the highest. */
  const CountryPalette: seq<string> := ["#FFEDA0", "#FD8D3C", "#FC4E2A", "#E31A1C", "#BD0026", "#800026"]

  /** Thresholds of the city scale, ascending. */
  const CityThresholds: seq<int> := [10, 20, 50, 100]

  /** City colours from the lowest bucket to the highest. */
  const CityPalette: seq<string> := ["#a1d99b", "#74c476", "#41ab5d", "#238b45", "#00441b"]

  /** `getColor`: the fill colour of a country with `d` nodes. */
  function CountryColor(d: int): (c: string)
    ensures c in CountryPalette
  {
    if d > 200 then "#800026"
    else if d > 100 then "#BD0026"
    else if d > 50 then "#E31A1C"
    else if d > 20 then "#FC4E2A"
    else if d > 10 then "#FD8D3C"
    else "#FFEDA0"
  }

  /** `getCityColor`: the fill colour of a city marker with `d` nodes. */
  function CityColor(d: int): (c: string)
    ensures c in CityPalette
  {
    if d > 100 then "#00441b"
    else if d > 50 then "#238b45"
    else if d > 20 then "#41ab5d"
    else if d > 10 then "#74c476"
    else "#a1d99b"
  }

  /** Strictly ascending thresholds. */
  predicate Ascending(ts: seq<int>)
  {
    forall i, j :: 0 <= i < j < |ts| ==> ts[i] < ts[j]
  }

  /** No colour appears twice in a palette. */
  predicate Distinct(p: seq<string>)
  {
    forall i, j :: 0 <= i < j < |p| ==> p[i] != p[j]
  }

  /** How many thresholds of `ts` the count `d` is strictly above. */
  function Exceeded(ts: seq<int>, d: int): (n: nat)
    ensures n <= |ts|
  {
    if ts == [] then 0 else (if ts[0] < d then 1 else 0) + Exceeded(ts[1..], d)
  }

  /** The bucket index of a country count: 0 (lowest colour) to 5 (highest). */
  function CountryBucket(d: int): (b: nat)
    ensures b < |CountryPalette| && CountryColor(d) == CountryPalette[b]
  {
    CountryRank(d);
    Exceeded(CountryThresholds, d)
  }

  /** The bucket index of a city count: 0 (lowest colour) to 4 (highest). */
  function CityBucket(d: int): (b: nat)
    ensures b < |CityPalette| && CityColor(d) == CityPalette[b]
  {
    CityRank(d);
    Exceeded(CityThresholds, d)
  }

  /**
   * Over ascending thresholds, `d` exceeds exactly `k` of them precisely when it
   * lies in the k-th band: above `ts[k-1]` (if any) and at most `ts[k]` (if any).
   */
  lemma {:induction false} ExceededBand(ts: seq<int>, d: int, k: nat)
    requires Ascending(ts) && k <= |ts|
    ensures Exceeded(ts, d) == k <==> (k == 0 || ts[k - 1] < d) && (k == |ts| || d <= ts[k])
  {
    if ts != [] {
      var rest := ts[1..];
      assert Ascending(rest);
      if ts[0] < d {
        if k > 0 {
          ExceededBand(rest, d, k - 1);
          assert k - 1 < |rest| ==> rest[k - 1] == ts[k];
          assert k >= 2 ==> rest[k - 2] == ts[k - 1];
        }
      } else {
        ExceededBelow(rest, d);
        if k > 0 {
          assert ts[0] <= ts[k - 1];
        }
      }
    }
  }

  /** A count at most every threshold exceeds none of them. */
  lemma {:induction false} ExceededBelow(ts: seq<int>, d: int)
    requires forall i :: 0 <= i < |ts| ==> d <= ts[i]
    ensures Exceeded(ts, d) == 0
  {
    if ts != [] {
      ExceededBelow(ts[1..], d);
    }
  }

  /** A larger count exceeds at least as many thresholds. */
  lemma {:induction false} ExceededMonotone(ts: seq<int>, a: int, b: int)
    requires a <= b
    ensures Exceeded(ts, a) <= Exceeded(ts, b)
  {
    if ts != [] {
      ExceededMonotone(ts[1..], a, b);
    }
  }

  /** `getColor` agrees with the reference definition by threshold rank. */
  lemma CountryRank(d: int)
    ensures Exceeded(CountryThresholds, d) < |CountryPalette|
    ensures CountryColor(d) == CountryPalette[Exceeded(CountryThresholds, d)]
  {
    var ts := CountryThresholds;
    assert Ascending(ts);
    var k := Exceeded(ts, d);
    ExceededBand(ts, d, k);
  }

  /** `getCityColor` agrees with the reference definition by threshold rank. */
  lemma CityRank(d: int)
    ensures Exceeded(CityThresholds, d) < |CityPalette|
    ensures CityColor(d) == CityPalette[Exceeded(CityThresholds, d)]
  {
    var ts := CityThresholds;
    assert Ascending(ts);
    var k := Exceeded(ts, d);
    ExceededBand(ts, d, k);
  }

  /** Both palettes list pairwise distinct colours, so a colour determines its bucket. */
  lemma PalettesDistinct()
    ensures Distinct(CountryPalette) && Distinct(CityPalette)
  {
  }

  /** `getColor` is monotone: a larger count never gets a lower bucket. */
  lemma CountryMonotone(a: int, b: int)
    requires a <= b
    ensures CountryBucket(a) <= CountryBucket(b)
  {
    ExceededMonotone(CountryThresholds, a, b);
  }

  /** `getCityColor` is monotone: a larger count never gets a lower bucket. */
  lemma CityMonotone(a: int, b: int)
    requires a <= b
    ensures CityBucket(a) <= CityBucket(b)
  {
    ExceededMonotone(CityThresholds, a, b);
  }

  /** Two counts share a country colour exactly when they share a bucket. */
  lemma CountryColorDeterminesBucket(a: int, b: int)
    ensures CountryColor(a) == CountryColor(b) <==> CountryBucket(a) == CountryBucket(b)
  {
    PalettesDistinct();
  }

  /** The six country colour bands, each stated in both directions. */
  lemma CountryBands(d: int)
    ensures CountryColor(d) == "#800026" <==> d > 200
    ensures CountryColor(d) == "#BD0026" <==> 100 < d <= 200
    ensures CountryColor(d) == "#E31A1C" <==> 50 < d <= 100
    ensures CountryColor(d) == "#FC4E2A" <==> 20 < d <= 50
    ensures CountryColor(d) == "#FD8D3C" <==> 10 < d <= 20
    ensures CountryColor(d) == "#FFEDA0" <==> d <= 10
  {
  }

  /** The five city colour bands, each stated in both directions. */
  lemma CityBands(d: int)
    ensures CityColor(d) == "#00441b" <==> d > 100
    ensures CityColor(d) == "#238b45" <==> 50 < d <= 100
    ensures CityColor(d) == "#41ab5d" <==> 20 < d <= 50
    ensures CityColor(d) == "#74c476" <==> 10 < d <= 20
    ensures CityColor(d) == "#a1d99b" <==> d <= 10
  {
  }

  /** Every country colour is reached by some count: the six buckets are all used. */
  lemma CountryPaletteReached(c: string)
    requires c in CountryPalette
    ensures exists d :: CountryColor(d) == c
  {
    var k :| 0 <= k < |CountryPalette| && CountryPalette[k] == c;
    var d := [0, 11, 21, 51, 101, 201][k];
    assert CountryColor(d) == c;
  }

  /** Sample values of both scales, from the boundaries of the bands. */
  lemma Samples()
    ensures CountryColor(201) == "#800026" && CountryColor(200) == "#BD0026"
    ensures CountryColor(10) == "#FFEDA0" && CountryColor(0) == "#FFEDA0"
    ensures CityColor(10) == "#a1d99b" && CityColor(15) == "#74c476"
  {
  }
}
