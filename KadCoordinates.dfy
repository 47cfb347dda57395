/**
 * The ring-road centre and the radius unit conversions. The ring-road point
 * list is a parameter here: the module holding its data is not part of this
 * model.
 */
module KadCoordinates {
  import opened Geo

  /** The centre used when the point list is empty (Saint Petersburg). */
  const DefaultCenter: Point := Point(59.9343, 30.3351)

  /** The latitudes of `coords`, in order. */
  function Lats(coords: seq<Point>): (xs: seq<real>)
    ensures |xs| == |coords| && forall k :: 0 <= k < |coords| ==> xs[k] == coords[k].lat
  {
    seq(|coords|, k requires 0 <= k < |coords| => coords[k].lat)
  }

  /** The longitudes of `coords`, in order. */
  function Lngs(coords: seq<Point>): (xs: seq<real>)
    ensures |xs| == |coords| && forall k :: 0 <= k < |coords| ==> xs[k] == coords[k].lng
  {
    seq(|coords|, k requires 0 <= k < |coords| => coords[k].lng)
  }

  /** `xs.reduce((sum, x) => sum + x, 0)`: a left fold starting at zero. */
  function Sum(xs: seq<real>): real
  {
    if xs == [] then 0.0 else Sum(xs[..|xs| - 1]) + xs[|xs| - 1]
  }

  /** The smallest element of a non-empty sequence. */
  function Min(xs: seq<real>): (m: real)
    requires xs != []
    ensures (exists k :: 0 <= k < |xs| && xs[k] == m) && forall k :: 0 <= k < |xs| ==> m <= xs[k]
  {
    if |xs| == 1 then xs[0]
    else
      var rest := Min(xs[1..]);
      assert forall k :: 1 <= k < |xs| ==> xs[k] == xs[1..][k - 1];
      if xs[0] <= rest then xs[0] else rest
  }

  /** The largest element of a non-empty sequence. */
  function Max(xs: seq<real>): (m: real)
    requires xs != []
    ensures (exists k :: 0 <= k < |xs| && xs[k] == m) && forall k :: 0 <= k < |xs| ==> xs[k] <= m
  {
    if |xs| == 1 then xs[0]
    else
      var rest := Max(xs[1..]);
      assert forall k :: 1 <= k < |xs| ==> xs[k] == xs[1..][k - 1];
      if xs[0] >= rest then xs[0] else rest
  }

  /**
   * `calculateKADCenter`, over the point list it averages: the default centre
   * for an empty list, otherwise the component-wise arithmetic mean.
   */
  function Center(coords: seq<Point>): (c: Point)
    ensures coords == [] ==> c == DefaultCenter
    ensures coords != [] ==> c.lat * (|coords| as real) == Sum(Lats(coords))
    ensures coords != [] ==> c.lng * (|coords| as real) == Sum(Lngs(coords))
  {
    if coords == [] then DefaultCenter
    else
      var n := |coords| as real;
      Point(Sum(Lats(coords)) / n, Sum(Lngs(coords)) / n)
  }

  /** A sum of values within `[lo, hi]` lies within `[n * lo, n * hi]`. */
  lemma {:induction false} SumBounds(xs: seq<real>, lo: real, hi: real)
    requires forall k :: 0 <= k < |xs| ==> lo <= xs[k] <= hi
    ensures (|xs| as real) * lo <= Sum(xs) <= (|xs| as real) * hi
  {
    if xs != [] {
      var init, last := xs[..|xs| - 1], xs[|xs| - 1];
      assert forall k :: 0 <= k < |init| ==> init[k] == xs[k];
      SumBounds(init, lo, hi);
      var m := |init| as real;
      assert Sum(xs) == Sum(init) + last;
      assert lo <= last <= hi;
      assert (|xs| as real) == m + 1.0;
      assert (m + 1.0) * lo == m * lo + lo && (m + 1.0) * hi == m * hi + hi;
    }
  }

  /** Multiplying by a positive factor preserves order both ways. */
  lemma ScaleCancels(a: real, b: real, n: real)
    requires n > 0.0
    requires n * a <= n * b
    ensures a <= b
  {
  }

  /** Dividing by a positive number and multiplying back is the identity. */
  lemma DivThenMul(s: real, n: real)
    requires n > 0.0
    ensures n * (s / n) == s
  {
  }

  /** A mean of values within `[lo, hi]` lies within `[lo, hi]`. */
  lemma MeanBounds(xs: seq<real>, lo: real, hi: real, mean: real)
    requires xs != []
    requires forall k :: 0 <= k < |xs| ==> lo <= xs[k] <= hi
    requires mean == Sum(xs) / (|xs| as real)
    ensures lo <= mean <= hi
  {
    var n, total := |xs| as real, Sum(xs);
    SumBounds(xs, lo, hi);
    DivThenMul(total, n);
    ScaleCancels(lo, mean, n);
    ScaleCancels(mean, hi, n);
  }

  /**
   * For a non-empty list the centre lies between the smallest and the largest
   * latitude, and between the smallest and the largest longitude.
   */
  lemma CenterWithinExtremes(coords: seq<Point>)
    requires coords != []
    ensures Min(Lats(coords)) <= Center(coords).lat <= Max(Lats(coords))
    ensures Min(Lngs(coords)) <= Center(coords).lng <= Max(Lngs(coords))
  {
    var c := Center(coords);
    var lats, lngs := Lats(coords), Lngs(coords);
    assert c.lat == Sum(lats) / (|lats| as real) && c.lng == Sum(lngs) / (|lngs| as real);
    MeanBounds(lats, Min(lats), Max(lats), c.lat);
    MeanBounds(lngs, Min(lngs), Max(lngs), c.lng);
  }

  /** A list of copies of one point is centred on that point. */
  lemma CenterOfCopies(coords: seq<Point>, p: Point)
    requires coords != []
    requires forall k :: 0 <= k < |coords| ==> coords[k] == p
    ensures Center(coords) == p
  {
    var c := Center(coords);
    var lats, lngs := Lats(coords), Lngs(coords);
    assert c.lat == Sum(lats) / (|lats| as real) && c.lng == Sum(lngs) / (|lngs| as real);
    MeanBounds(lats, p.lat, p.lat, c.lat);
    MeanBounds(lngs, p.lng, p.lng, c.lng);
  }

  /** `kilometersToMeters`: there are a thousand metres in a kilometre. */
  function KilometersToMeters(km: real): (r: real)
    ensures r / 1000.0 == km
  {
    km * 1000.0
  }

  /** `metersToKilometers`: a metre is a thousandth of a kilometre. */
  function MetersToKilometers(m: real): (r: real)
    ensures r * 1000.0 == m
  {
    m / 1000.0
  }

  /** Converting kilometres to metres and back gives the original distance. */
  lemma KilometersRoundTrip(km: real)
    ensures MetersToKilometers(KilometersToMeters(km)) == km
  {
  }

  /** Converting metres to kilometres and back gives the original distance. */
  lemma MetersRoundTrip(m: real)
    ensures KilometersToMeters(MetersToKilometers(m)) == m
  {
  }

  /** Both conversions preserve order, so a larger radius in one unit is larger in the other. */
  lemma ConversionsMonotonic(a: real, b: real)
    ensures a <= b <==> KilometersToMeters(a) <= KilometersToMeters(b)
    ensures a <= b <==> MetersToKilometers(a) <= MetersToKilometers(b)
  {
  }
}
