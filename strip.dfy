/**
 * What the strip-mesh builder produces from the point history, on values:
 * per sample point two vertices (left and right of the centre line) with
 * position, UV, alpha and colour, and a quad-strip index list.
 */
module Strip {
  import opened Geometry

  /** The editor properties the builder reads. */
  datatype Style = Style(
    headWidth: real, tailWidth: real,
    headAlpha: int, tailAlpha: int,
    headColor: Color, tailColor: Color,
    useFastSqrt: bool, mode: CoordinateMode)

  /** Cached extent of the sprite's UV rectangle; areaH is the V extent. */
  datatype UvCache = UvCache(uMin: real, uMax: real, vMin: real, vMax: real, areaH: real)

  /**
   * Everything one build reads: the point history (oldest first), the style,
   * the UV cache, the square-root routines and, for Local mode, the inverse
   * of the node's world matrix.
   */
  datatype Frame = Frame(points: seq<Vec3>, style: Style, uv: UvCache, num: Numerics, inverseWorld: Mat4)

  /** Interpolation parameter of point i of n: 0 at the oldest (tail), 1 at the newest (head). */
  function Param(i: nat, n: nat): (t: real)
    requires i < n && 2 <= n
    ensures 0.0 <= t <= 1.0
    ensures i == 0 <==> t == 0.0
    ensures i == n - 1 <==> t == 1.0
  {
    i as real / (n - 1) as real
  }

  function HalfWidth(s: Style, t: real): real
  {
    (s.tailWidth + (s.headWidth - s.tailWidth) * t) * 0.5
  }

  /** An 8-bit channel interpolated from its tail value to its head value, normalised to 0..1. */
  function Channel(tail: int, head: int, t: real): real
  {
    var tailNorm := tail as real / 255.0;
    var headNorm := head as real / 255.0;
    tailNorm + (headNorm - tailNorm) * t
  }

  function Alpha(s: Style, t: real): real
  {
    Channel(s.tailAlpha, s.headAlpha, t)
  }

  /** A colour with channels normalised to 0..1. */
  datatype Rgb = Rgb(r: real, g: real, b: real)

  function Shade(s: Style, t: real): Rgb
  {
    Rgb(Channel(s.tailColor.r, s.headColor.r, t),
     Channel(s.tailColor.g, s.headColor.g, t),
     Channel(s.tailColor.b, s.headColor.b, t))
  }

  /** Un-normalised planar tangent at point i: central difference, the endpoint repeated at the ends. */
  function Direction(points: seq<Vec3>, i: nat): Vec2
    requires i < |points|
  {
    var n := |points|;
    var prev := points[if i > 0 then i - 1 else i];
    var next := points[if i < n - 1 then i + 1 else i];
    Vec2(next.x - prev.x, next.y - prev.y)
  }

  /**
   * Tangent normalisation. A squared length at most 0.0001 leaves the
   * direction as it is; otherwise it is scaled by the fast reciprocal square
   * root or divided by the square root, as useFastSqrt selects.
   */
  function Unit(dx: real, dy: real, useFastSqrt: bool, num: Numerics): Vec2
  {
    var lenSq := dx * dx + dy * dy;
    if useFastSqrt then
      if lenSq > 0.0001 then
        var invLen := FastInvSqrt(num, lenSq);
        Vec2(dx * invLen, dy * invLen)
      else
        Vec2(dx, dy)
    else
      var len: Positive := if lenSq > 0.0001 then Sqrt(num, lenSq) else 1.0;
      Vec2(dx / len, dy / len)
  }

  /** Normal at point i: the unit tangent turned a quarter to the left. */
  function Normal(fr: Frame, i: nat): Vec2
    requires i < |fr.points|
  {
    var d := Direction(fr.points, i);
    var u := Unit(d.x, d.y, fr.style.useFastSqrt, fr.num);
    Vec2(-u.y, u.x)
  }

  /** The left and right vertices of one point. */
  datatype VertexPair = VertexPair(lx: real, ly: real, rx: real, ry: real)

  /** The vertices half a width either side of p along the normal: left p + n * w, right p - n * w. */
  function Offset(p: Vec3, nrm: Vec2, halfW: real): VertexPair
  {
    VertexPair(p.x + nrm.x * halfW, p.y + nrm.y * halfW, p.x - nrm.x * halfW, p.y - nrm.y * halfW)
  }

  /** World-space left and right vertices of point i. */
  function Sides(fr: Frame, i: nat): VertexPair
    requires 2 <= |fr.points| && i < |fr.points|
  {
    Offset(fr.points[i], Normal(fr, i), HalfWidth(fr.style, Param(i, |fr.points|)))
  }

  /** Both vertices of a pair through m (x and y after the perspective divide). */
  function Project(m: Mat4, w: VertexPair): VertexPair
  {
    var l := Transform2(m, w.lx, w.ly);
    var r := Transform2(m, w.rx, w.ry);
    VertexPair(l.x, l.y, r.x, r.y)
  }

  /** The vertices as emitted: unchanged in World mode, through the inverse world matrix in Local mode. */
  function Emitted(fr: Frame, i: nat): VertexPair
    requires 2 <= |fr.points| && i < |fr.points|
  {
    var w := Sides(fr, i);
    if fr.style.mode == Local then Project(fr.inverseWorld, w) else w
  }

  /** The six position floats of point i: left x, y, 0 then right x, y, 0. */
  function PositionBlock(fr: Frame, i: nat): seq<real>
    requires 2 <= |fr.points| && i < |fr.points|
  {
    var e := Emitted(fr, i);
    [e.lx, e.ly, 0.0, e.rx, e.ry, 0.0]
  }

  /** The V coordinate of a point with parameter t: vMax side at the tail, vMin at the head. */
  function V(uv: UvCache, t: real): real
  {
    uv.vMin + uv.areaH * (1.0 - t)
  }

  /** The four UV floats of a point: left (uMin, v), right (uMax, v). */
  function UvBlock(uv: UvCache, t: real): seq<real>
  {
    [uv.uMin, V(uv, t), uv.uMax, V(uv, t)]
  }

  function AlphaBlock(s: Style, t: real): seq<real>
  {
    [Alpha(s, t), Alpha(s, t)]
  }

  function ColorBlock(s: Style, t: real): seq<real>
  {
    var c := Shade(s, t);
    [c.r, c.g, c.b, c.r, c.g, c.b]
  }

  /** The two triangles of segment i, between vertex pairs (2i, 2i+1) and (2i+2, 2i+3). */
  function QuadBlock(i: nat): seq<int>
  {
    [2 * i, 2 * i + 1, 2 * i + 2, 2 * i + 2, 2 * i + 1, 2 * i + 3]
  }

  /**
   * The five mesh arrays hold the strip of fr: the sizes, then entry k of each
   * per-point array is entry k mod w of the block of point k / w (w floats per
   * point), and entry k of the index list is entry k mod 6 of segment k / 6.
   */
  ghost predicate LaidOut(positions: seq<real>, uvs: seq<real>, alphas: seq<real>, colors: seq<real>,
                          indices: seq<int>, fr: Frame)
  {
    var n := |fr.points|;
    && 2 <= n
    && |positions| == 6 * n && |uvs| == 4 * n && |alphas| == 2 * n && |colors| == 6 * n
    && |indices| == 6 * (n - 1)
    && PositionsUpTo(positions, fr, |positions|)
    && UvsUpTo(uvs, fr, |uvs|)
    && AlphasUpTo(alphas, fr, |alphas|)
    && ColorsUpTo(colors, fr, |colors|)
    && IndicesUpTo(indices, |indices|)
  }

  /**
   * Entry k of s. The layout predicates below are stated on this name, so a
   * proof draws on them only where it asks for a particular entry.
   */
  function At<T>(s: seq<T>, k: nat): T
    requires k < |s|
  {
    s[k]
  }

  /** The first m position floats are laid out (6 per point). */
  ghost predicate PositionsUpTo(positions: seq<real>, fr: Frame, m: nat)
  {
    && 2 <= |fr.points| && m <= |positions| && m <= 6 * |fr.points|
    && forall k :: 0 <= k < m ==> At(positions, k) == PositionBlock(fr, k / 6)[k % 6]
  }

  /** The first m uv floats are laid out (4 per point). */
  ghost predicate UvsUpTo(uvs: seq<real>, fr: Frame, m: nat)
  {
    && 2 <= |fr.points| && m <= |uvs| && m <= 4 * |fr.points|
    && forall k :: 0 <= k < m ==> At(uvs, k) == UvBlock(fr.uv, Param(k / 4, |fr.points|))[k % 4]
  }

  /** The first m alpha floats are laid out (2 per point). */
  ghost predicate AlphasUpTo(alphas: seq<real>, fr: Frame, m: nat)
  {
    && 2 <= |fr.points| && m <= |alphas| && m <= 2 * |fr.points|
    && forall k :: 0 <= k < m ==> At(alphas, k) == AlphaBlock(fr.style, Param(k / 2, |fr.points|))[k % 2]
  }

  /** The first m colour floats are laid out (6 per point). */
  ghost predicate ColorsUpTo(colors: seq<real>, fr: Frame, m: nat)
  {
    && 2 <= |fr.points| && m <= |colors| && m <= 6 * |fr.points|
    && forall k :: 0 <= k < m ==> At(colors, k) == ColorBlock(fr.style, Param(k / 6, |fr.points|))[k % 6]
  }

  /** The first m indices are laid out (6 per segment). */
  ghost predicate IndicesUpTo(indices: seq<int>, m: nat)
  {
    m <= |indices| && forall k :: 0 <= k < m ==> At(indices, k) == QuadBlock(k / 6)[k % 6]
  }

  /** Every index of a laid-out strip names one of its 2n vertices. */
  lemma IndicesInRange(indices: seq<int>, n: nat)
    requires 2 <= n && |indices| == 6 * (n - 1)
    requires forall k :: 0 <= k < |indices| ==> indices[k] == QuadBlock(k / 6)[k % 6]
    ensures forall k :: 0 <= k < |indices| ==> 0 <= indices[k] < 2 * n
  {
    forall k | 0 <= k < |indices|
      ensures 0 <= indices[k] < 2 * n
    {
      var i := k / 6;
      assert i <= n - 2;
      assert indices[k] == QuadBlock(i)[k % 6];
    }
  }

  /** ... and every one of the 2n vertices is used by some triangle. */
  lemma EveryVertexUsed(indices: seq<int>, n: nat)
    requires 2 <= n && |indices| == 6 * (n - 1)
    requires forall k :: 0 <= k < |indices| ==> indices[k] == QuadBlock(k / 6)[k % 6]
    ensures forall v :: 0 <= v < 2 * n ==> v in indices
  {
    forall v | 0 <= v < 2 * n
      ensures v in indices
    {
      var i := v / 2;
      var k := if i < n - 1 then 6 * i + v % 2 else 6 * (n - 2) + (if v % 2 == 0 then 2 else 5);
      assert k / 6 == (if i < n - 1 then i else n - 2);
      assert indices[k] == v;
    }
  }

  /**
   * The two vertices of a pair share alpha, colour and V; the left one takes
   * uMin and the right one uMax; and every z position is 0.
   */
  lemma PairsShareAttributes(positions: seq<real>, uvs: seq<real>, alphas: seq<real>, colors: seq<real>,
                             indices: seq<int>, fr: Frame, i: nat)
    requires LaidOut(positions, uvs, alphas, colors, indices, fr)
    requires i < |fr.points|
    ensures alphas[2 * i] == alphas[2 * i + 1]
    ensures colors[6 * i] == colors[6 * i + 3] && colors[6 * i + 1] == colors[6 * i + 4]
            && colors[6 * i + 2] == colors[6 * i + 5]
    ensures uvs[4 * i] == fr.uv.uMin && uvs[4 * i + 2] == fr.uv.uMax && uvs[4 * i + 1] == uvs[4 * i + 3]
    ensures positions[6 * i + 2] == 0.0 && positions[6 * i + 5] == 0.0
  {
    assert (2 * i) / 2 == i && (2 * i + 1) / 2 == i;
    assert (4 * i) / 4 == i && (4 * i + 1) / 4 == i && (4 * i + 2) / 4 == i && (4 * i + 3) / 4 == i;
    assert (6 * i) / 6 == i && (6 * i + 1) / 6 == i && (6 * i + 2) / 6 == i;
    assert (6 * i + 3) / 6 == i && (6 * i + 4) / 6 == i && (6 * i + 5) / 6 == i;
    assert At(alphas, 2 * i) == At(alphas, 2 * i + 1);
    assert At(colors, 6 * i) == At(colors, 6 * i + 3) && At(colors, 6 * i + 1) == At(colors, 6 * i + 4);
    assert At(colors, 6 * i + 2) == At(colors, 6 * i + 5);
    assert At(uvs, 4 * i) == fr.uv.uMin && At(uvs, 4 * i + 2) == fr.uv.uMax;
    assert At(uvs, 4 * i + 1) == At(uvs, 4 * i + 3);
    assert At(positions, 6 * i + 2) == 0.0 && At(positions, 6 * i + 5) == 0.0;
  }

  /** The oldest point takes the tail style exactly and the newest the head style exactly. */
  lemma EndpointsTakeEndStyles(s: Style, uv: UvCache, n: nat)
    requires 2 <= n
    ensures HalfWidth(s, Param(0, n)) == s.tailWidth / 2.0
    ensures HalfWidth(s, Param(n - 1, n)) == s.headWidth / 2.0
    ensures AlphaBlock(s, Param(0, n)) == [s.tailAlpha as real / 255.0, s.tailAlpha as real / 255.0]
    ensures AlphaBlock(s, Param(n - 1, n)) == [s.headAlpha as real / 255.0, s.headAlpha as real / 255.0]
    ensures Shade(s, Param(0, n))
            == Rgb(s.tailColor.r as real / 255.0, s.tailColor.g as real / 255.0, s.tailColor.b as real / 255.0)
    ensures Shade(s, Param(n - 1, n))
            == Rgb(s.headColor.r as real / 255.0, s.headColor.g as real / 255.0, s.headColor.b as real / 255.0)
    ensures UvBlock(uv, Param(0, n))[1] == uv.vMin + uv.areaH
    ensures UvBlock(uv, Param(n - 1, n))[1] == uv.vMin
  {
  }

  /** A squared length at most 0.0001 is left as it is by both normalisation paths. */
  lemma ShortTangentUnscaled(dx: real, dy: real, useFastSqrt: bool, num: Numerics)
    requires dx * dx + dy * dy <= 0.0001
    ensures Unit(dx, dy, useFastSqrt, num) == Vec2(dx, dy)
  {
  }

  /** Above the threshold the standard path divides by the square root of the squared length. */
  lemma StandardUnit(dx: real, dy: real, num: Numerics)
    requires dx * dx + dy * dy > 0.0001
    ensures Unit(dx, dy, false, num) == Vec2(dx / Sqrt(num, dx * dx + dy * dy), dy / Sqrt(num, dx * dx + dy * dy))
  {
  }

  /** With an exact square root the standard path yields a unit vector. */
  lemma ExactSqrtGivesUnit(dx: real, dy: real, num: Numerics)
    requires dx * dx + dy * dy > 0.0001
    requires num.sqrt(dx * dx + dy * dy) * num.sqrt(dx * dx + dy * dy) == dx * dx + dy * dy
    ensures var u := Unit(dx, dy, false, num); u.x * u.x + u.y * u.y == 1.0
  {
    var lenSq := dx * dx + dy * dy;
    var len := Sqrt(num, lenSq);
    StandardUnit(dx, dy, num);
    assert (dx / len) * (dx / len) == (dx * dx) / (len * len);
    assert (dy / len) * (dy / len) == (dy * dy) / (len * len);
    assert (dx * dx) / (len * len) + (dy * dy) / (len * len) == lenSq / (len * len);
  }

  /**
   * In World mode the pair of point i straddles the point: their midpoint is
   * the point and they lie half a width away along the normal on either side.
   */
  lemma PairStraddlesPoint(fr: Frame, i: nat)
    requires 2 <= |fr.points| && i < |fr.points| && fr.style.mode == World
    ensures var e := Emitted(fr, i); var p := fr.points[i];
            (e.lx + e.rx) / 2.0 == p.x && (e.ly + e.ry) / 2.0 == p.y
    ensures var e := Emitted(fr, i); var nrm := Normal(fr, i);
            var halfW := HalfWidth(fr.style, Param(i, |fr.points|));
            e.lx - e.rx == 2.0 * halfW * nrm.x && e.ly - e.ry == 2.0 * halfW * nrm.y
  {
    OffsetStraddles(fr.points[i], Normal(fr, i), HalfWidth(fr.style, Param(i, |fr.points|)));
  }

  /** Offsetting p by the normal scaled by h either way: midpoint p, difference 2h along the normal. */
  lemma OffsetStraddles(p: Vec3, nrm: Vec2, h: real)
    ensures var o := Offset(p, nrm, h);
            && (o.lx + o.rx) / 2.0 == p.x && (o.ly + o.ry) / 2.0 == p.y
            && o.lx - o.rx == 2.0 * h * nrm.x && o.ly - o.ry == 2.0 * h * nrm.y
  {
  }

  /** Scaling a unit vector by w gives a vector of squared length w * w. */
  lemma ScaledUnitLength(w: real, a: real, b: real)
    requires a * a + b * b == 1.0
    ensures (w * a) * (w * a) + (w * b) * (w * b) == w * w
  {
    calc {
      (w * a) * (w * a) + (w * b) * (w * b);
      w * w * (a * a + b * b);
      w * w;
    }
  }

  /** Offsetting along a unit normal puts the two sides 2h apart. */
  lemma OffsetSpans(p: Vec3, nrm: Vec2, h: real)
    requires nrm.x * nrm.x + nrm.y * nrm.y == 1.0
    ensures var o := Offset(p, nrm, h);
            (o.lx - o.rx) * (o.lx - o.rx) + (o.ly - o.ry) * (o.ly - o.ry) == (2.0 * h) * (2.0 * h)
  {
    var o := Offset(p, nrm, h);
    OffsetStraddles(p, nrm, h);
    assert o.lx - o.rx == (2.0 * h) * nrm.x && o.ly - o.ry == (2.0 * h) * nrm.y;
    ScaledUnitLength(2.0 * h, nrm.x, nrm.y);
  }

  /**
   * When the normal has unit length (an exact square root), the pair of a
   * World-mode point is exactly the interpolated width apart.
   */
  lemma PairSpansWidth(fr: Frame, i: nat)
    requires 2 <= |fr.points| && i < |fr.points| && fr.style.mode == World
    requires var nrm := Normal(fr, i); nrm.x * nrm.x + nrm.y * nrm.y == 1.0
    ensures var e := Emitted(fr, i);
            var w := 2.0 * HalfWidth(fr.style, Param(i, |fr.points|));
            (e.lx - e.rx) * (e.lx - e.rx) + (e.ly - e.ry) * (e.ly - e.ry) == w * w
  {
    var nrm := Normal(fr, i);
    var h := HalfWidth(fr.style, Param(i, |fr.points|));
    assert Emitted(fr, i) == Offset(fr.points[i], nrm, h);
    OffsetSpans(fr.points[i], nrm, h);
  }

  /** Extremes of the four corners of a sprite's UV rectangle (u at even, v at odd positions). */
  ghost predicate IsUvExtent(uv8: seq<real>, uMin: real, uMax: real, vMin: real, vMax: real)
    requires |uv8| == 8
  {
    && (forall k :: 0 <= k < 8 && k % 2 == 0 ==> uMin <= uv8[k] <= uMax)
    && (forall k :: 0 <= k < 8 && k % 2 == 1 ==> vMin <= uv8[k] <= vMax)
    && (exists k :: 0 <= k < 8 && k % 2 == 0 && uv8[k] == uMin)
    && (exists k :: 0 <= k < 8 && k % 2 == 0 && uv8[k] == uMax)
    && (exists k :: 0 <= k < 8 && k % 2 == 1 && uv8[k] == vMin)
    && (exists k :: 0 <= k < 8 && k % 2 == 1 && uv8[k] == vMax)
  }

  /** The min/max scan over the four (u, v) corners of the sprite's UV rectangle. */
  method ScanUvRect(uv8: seq<real>) returns (uMin: real, uMax: real, vMin: real, vMax: real)
    requires |uv8| == 8
    ensures IsUvExtent(uv8, uMin, uMax, vMin, vMax)
    ensures uMin <= uMax && vMin <= vMax
  {
    uMin, uMax := uv8[0], uv8[0];
    vMin, vMax := uv8[1], uv8[1];
    ghost var iuMin, iuMax, ivMin, ivMax := 0, 0, 1, 1;
    var i := 0;
    while i < 8
      invariant 0 <= i <= 8 && i % 2 == 0
      invariant uMin <= uv8[0] <= uMax && vMin <= uv8[1] <= vMax
      invariant forall k :: 0 <= k < i && k % 2 == 0 ==> uMin <= uv8[k] <= uMax
      invariant forall k :: 0 <= k < i && k % 2 == 1 ==> vMin <= uv8[k] <= vMax
      invariant 0 <= iuMin < 8 && iuMin % 2 == 0 && uv8[iuMin] == uMin
      invariant 0 <= iuMax < 8 && iuMax % 2 == 0 && uv8[iuMax] == uMax
      invariant 0 <= ivMin < 8 && ivMin % 2 == 1 && uv8[ivMin] == vMin
      invariant 0 <= ivMax < 8 && ivMax % 2 == 1 && uv8[ivMax] == vMax
    {
      var u := uv8[i];
      var v := uv8[i + 1];
      ghost var prev := (uMin, uMax, vMin, vMax);
      if u < uMin { uMin := u; iuMin := i; }
      if u > uMax { uMax := u; iuMax := i; }
      if v < vMin { vMin := v; ivMin := i + 1; }
      if v > vMax { vMax := v; ivMax := i + 1; }
      assert uMin <= prev.0 && prev.1 <= uMax && vMin <= prev.2 && prev.3 <= vMax;
      assert uMin <= uv8[i] <= uMax && vMin <= uv8[i + 1] <= vMax;
      i := i + 2;
    }
  }

  /** Scan results are unique: any two extents of the same rectangle agree. */
  lemma UvExtentUnique(uv8: seq<real>, a: UvCache, b: UvCache)
    requires |uv8| == 8
    requires IsUvExtent(uv8, a.uMin, a.uMax, a.vMin, a.vMax)
    requires IsUvExtent(uv8, b.uMin, b.uMax, b.vMin, b.vMax)
    ensures a.uMin == b.uMin && a.uMax == b.uMax && a.vMin == b.vMin && a.vMax == b.vMax
  {
  }
}
