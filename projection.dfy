/** The Location Mapper's preview: recorded coordinates normalised into a
    100 by 100 box (longitude to x, latitude to y with the axis inverted,
    since screen y grows downwards) and drawn as one closed SVG path. */
module Projection {

  /** One recorded position sample, in degrees. */
  datatype Coord = Coord(lat: real, lng: real)

  /** A span of zero is replaced by this value before dividing by it. */
  const Epsilon: real := 0.0001

  /** The box the preview is drawn in is `Size` by `Size` units. */
  const Size: real := 100.0

  /** One SVG path command: move, line, close. */
  datatype Cmd = M(x: real, y: real) | L(x: real, y: real) | Z

  function MinOf(xs: seq<real>): (m: real)
    requires xs != []
    ensures m in xs
    ensures forall i :: 0 <= i < |xs| ==> m <= xs[i]
  {
    if |xs| == 1 then xs[0]
    else
      var rest := MinOf(xs[1..]);
      if xs[0] <= rest then xs[0] else rest
  }

  function MaxOf(xs: seq<real>): (m: real)
    requires xs != []
    ensures m in xs
    ensures forall i :: 0 <= i < |xs| ==> xs[i] <= m
  {
    if |xs| == 1 then xs[0]
    else
      var rest := MaxOf(xs[1..]);
      if xs[0] >= rest then xs[0] else rest
  }

  function Lats(ps: seq<Coord>): (r: seq<real>)
    ensures |r| == |ps| && forall i :: 0 <= i < |ps| ==> r[i] == ps[i].lat
  {
    seq(|ps|, i requires 0 <= i < |ps| => ps[i].lat)
  }

  function Lngs(ps: seq<Coord>): (r: seq<real>)
    ensures |r| == |ps| && forall i :: 0 <= i < |ps| ==> r[i] == ps[i].lng
  {
    seq(|ps|, i requires 0 <= i < |ps| => ps[i].lng)
  }

  /** `maxv - minv || 0.0001`: the span, or Epsilon when it is zero. */
  function Range(minv: real, maxv: real): (r: real)
    requires minv <= maxv
    ensures r > 0.0
    ensures maxv > minv ==> r == maxv - minv
    ensures maxv == minv ==> r == Epsilon
  {
    if maxv - minv == 0.0 then Epsilon else maxv - minv
  }

  /** The bounding box of a non-empty path. */
  datatype Bounds = Bounds(minLat: real, maxLat: real, minLng: real, maxLng: real)

  function BoundsOf(ps: seq<Coord>): (b: Bounds)
    requires ps != []
    ensures b.minLat <= b.maxLat && b.minLng <= b.maxLng
    ensures forall i :: 0 <= i < |ps| ==> b.minLat <= ps[i].lat <= b.maxLat && b.minLng <= ps[i].lng <= b.maxLng
  {
    var lats, lngs := Lats(ps), Lngs(ps);
    Bounds(MinOf(lats), MaxOf(lats), MinOf(lngs), MaxOf(lngs))
  }

  /** `((v - lo) / range) * 100`, the position of `v` scaled into the box. */
  function Norm(v: real, lo: real, hi: real): real
    requires lo <= hi
  {
    ((v - lo) / Range(lo, hi)) * Size
  }

  /** x = ((lng - minLng) / lngRange) * 100 */
  function X(p: Coord, b: Bounds): real
    requires b.minLng <= b.maxLng
  {
    Norm(p.lng, b.minLng, b.maxLng)
  }

  /** y = 100 - ((lat - minLat) / latRange) * 100 */
  function Y(p: Coord, b: Bounds): real
    requires b.minLat <= b.maxLat
  {
    Size - Norm(p.lat, b.minLat, b.maxLat)
  }

  /** The preview path: empty below two points, otherwise one M, then an L
      per further point, then Z. */
  function SvgPath(ps: seq<Coord>): (path: seq<Cmd>)
  {
    if |ps| < 2 then []
    else
      var b := BoundsOf(ps);
      seq(|ps|, i requires 0 <= i < |ps| =>
        if i == 0 then M(X(ps[i], b), Y(ps[i], b)) else L(X(ps[i], b), Y(ps[i], b))) + [Z]
  }

  lemma SvgPathAt(ps: seq<Coord>, i: nat)
    requires |ps| >= 2 && i < |ps|
    ensures |SvgPath(ps)| == |ps| + 1
    ensures SvgPath(ps)[i].x == X(ps[i], BoundsOf(ps)) && SvgPath(ps)[i].y == Y(ps[i], BoundsOf(ps))
  {
  }

  lemma NormInBox(v: real, lo: real, hi: real)
    requires lo <= v <= hi
    ensures 0.0 <= Norm(v, lo, hi) <= Size
  {
    var r := Range(lo, hi);
    var a := v - lo;
    assert 0.0 <= a <= r;
    assert a / r <= 1.0 by {
      assert (a / r) * r == a;
    }
  }

  lemma NormAtLow(lo: real, hi: real)
    requires lo <= hi
    ensures Norm(lo, lo, hi) == 0.0
  {
  }

  lemma NormAtHigh(lo: real, hi: real)
    requires lo < hi
    ensures Norm(hi, lo, hi) == Size
  {
    var r := Range(lo, hi);
    assert r == hi - lo;
    assert (hi - lo) / r == 1.0;
  }

  lemma NormMonotone(v: real, w: real, lo: real, hi: real)
    requires lo <= hi && v <= w
    ensures Norm(v, lo, hi) <= Norm(w, lo, hi)
  {
    var r := Range(lo, hi);
    assert (w - lo) / r - (v - lo) / r == (w - v) / r;
  }

  /** Every drawn point is inside the 100 by 100 box. */
  lemma SvgPathInBox(ps: seq<Coord>, i: nat)
    requires |ps| >= 2 && i < |ps|
    ensures 0.0 <= SvgPath(ps)[i].x <= Size && 0.0 <= SvgPath(ps)[i].y <= Size
  {
    var b := BoundsOf(ps);
    SvgPathAt(ps, i);
    NormInBox(ps[i].lng, b.minLng, b.maxLng);
    NormInBox(ps[i].lat, b.minLat, b.maxLat);
  }

  /** The shape of the path: nothing below two points; otherwise exactly
      one command per point, the first an M, the others L, closed by Z. */
  lemma SvgPathShape(ps: seq<Coord>)
    ensures |ps| < 2 <==> SvgPath(ps) == []
    ensures |ps| >= 2 ==>
      var path := SvgPath(ps);
      |path| == |ps| + 1 && path[0].M? && path[|ps|] == Z &&
      forall i :: 1 <= i < |ps| ==> path[i].L?
  {
  }

  /** A point of minimum longitude is drawn at x = 0 (the left edge). */
  lemma SvgPathMinLng(ps: seq<Coord>, i: nat)
    requires |ps| >= 2 && i < |ps|
    requires forall j :: 0 <= j < |ps| ==> ps[i].lng <= ps[j].lng
    ensures SvgPath(ps)[i].x == 0.0
  {
    var b := BoundsOf(ps);
    SvgPathAt(ps, i);
    MinIsBound(Lngs(ps), i);
    NormAtLow(b.minLng, b.maxLng);
  }

  /** A point of maximum latitude is drawn at y = 0 (the top edge) when
      some point lies further south; when every latitude is the same the
      epsilon span puts every point at y = 100 instead (SvgPathDegenerate). */
  lemma SvgPathMaxLat(ps: seq<Coord>, i: nat)
    requires |ps| >= 2 && i < |ps|
    requires forall j :: 0 <= j < |ps| ==> ps[j].lat <= ps[i].lat
    ensures (exists j :: 0 <= j < |ps| && ps[j].lat < ps[i].lat) ==> SvgPath(ps)[i].y == 0.0
  {
    var b := BoundsOf(ps);
    SvgPathAt(ps, i);
    MaxIsBound(Lats(ps), i);
    if b.minLat < b.maxLat {
      NormAtHigh(b.minLat, b.maxLat);
    } else {
      NormAtLow(b.minLat, b.maxLat);
    }
  }

  /** A point of maximum longitude is drawn at x = 100 when some point lies
      further west. */
  lemma SvgPathMaxLng(ps: seq<Coord>, i: nat)
    requires |ps| >= 2 && i < |ps|
    requires forall j :: 0 <= j < |ps| ==> ps[j].lng <= ps[i].lng
    ensures (exists j :: 0 <= j < |ps| && ps[j].lng < ps[i].lng) ==> SvgPath(ps)[i].x == Size
  {
    var b := BoundsOf(ps);
    SvgPathAt(ps, i);
    MaxIsBound(Lngs(ps), i);
    if b.minLng < b.maxLng {
      NormAtHigh(b.minLng, b.maxLng);
    }
  }

  /** A point of minimum latitude is drawn at y = 100 (the bottom edge). */
  lemma SvgPathMinLat(ps: seq<Coord>, i: nat)
    requires |ps| >= 2 && i < |ps|
    requires forall j :: 0 <= j < |ps| ==> ps[i].lat <= ps[j].lat
    ensures SvgPath(ps)[i].y == Size
  {
    var b := BoundsOf(ps);
    SvgPathAt(ps, i);
    MinIsBound(Lats(ps), i);
    NormAtLow(b.minLat, b.maxLat);
  }

  /** An element below or equal to every other is the minimum. */
  lemma MinIsBound(xs: seq<real>, i: nat)
    requires i < |xs| && forall j :: 0 <= j < |xs| ==> xs[i] <= xs[j]
    ensures MinOf(xs) == xs[i]
  {
  }

  lemma MaxIsBound(xs: seq<real>, i: nat)
    requires i < |xs| && forall j :: 0 <= j < |xs| ==> xs[j] <= xs[i]
    ensures MaxOf(xs) == xs[i]
  {
  }

  /** When every point shares the longitude, the epsilon keeps the division
      defined and every point lands on x = 0; likewise y = 100 for a shared
      latitude. */
  lemma SvgPathDegenerate(ps: seq<Coord>, i: nat)
    requires |ps| >= 2 && i < |ps|
    ensures (forall j :: 0 <= j < |ps| ==> ps[j].lng == ps[0].lng) ==> SvgPath(ps)[i].x == 0.0
    ensures (forall j :: 0 <= j < |ps| ==> ps[j].lat == ps[0].lat) ==> SvgPath(ps)[i].y == Size
  {
    var b := BoundsOf(ps);
    SvgPathAt(ps, i);
    if forall j :: 0 <= j < |ps| ==> ps[j].lng == ps[0].lng {
      MinIsBound(Lngs(ps), i);
      NormAtLow(b.minLng, b.maxLng);
    }
    if forall j :: 0 <= j < |ps| ==> ps[j].lat == ps[0].lat {
      MinIsBound(Lats(ps), i);
      NormAtLow(b.minLat, b.maxLat);
    }
  }

  /** The projection keeps the order of coordinates: a point further east is
      never drawn further left, one further north never drawn lower. */
  lemma SvgPathMonotone(ps: seq<Coord>, i: nat, j: nat)
    requires |ps| >= 2 && i < |ps| && j < |ps|
    ensures ps[i].lng <= ps[j].lng ==> SvgPath(ps)[i].x <= SvgPath(ps)[j].x
    ensures ps[i].lat <= ps[j].lat ==> SvgPath(ps)[j].y <= SvgPath(ps)[i].y
  {
    var b := BoundsOf(ps);
    SvgPathAt(ps, i);
    SvgPathAt(ps, j);
    if ps[i].lng <= ps[j].lng { NormMonotone(ps[i].lng, ps[j].lng, b.minLng, b.maxLng); }
    if ps[i].lat <= ps[j].lat { NormMonotone(ps[i].lat, ps[j].lat, b.minLat, b.maxLat); }
  }
}
