/**
 * The SuperTrail component: a ring-buffer history of sampled node positions,
 * the per-tick sampling and decay step, the strip-mesh builder and the
 * resets, all working in place on the component's own fields.
 */
module Component {
  import opened Geometry
  import Ring
  import Sampling
  import Strip

  /** The four (u, v) corners of a sprite frame's UV rectangle. */
  type UvQuad = s: seq<real> | |s| == 8 witness [0.0, 0.0, 0.0, 0.0, 0.0, 0.0, 0.0, 0.0]

  /** The sprite frame as the component sees it: whether its texture is loaded, and its UVs. */
  datatype SpriteFrame = SpriteFrame(hasTexture: bool, uv: UvQuad)

  /** A JS array whose length is assigned: cut down, or padded with holes (here `hole`). */
  function Resized<T>(s: seq<T>, len: nat, hole: T): (r: seq<T>)
    ensures |r| == len
    ensures forall k :: 0 <= k < len && k < |s| ==> r[k] == s[k]
  {
    if len <= |s| then s[..len] else s + seq(len - |s|, _ => hole)
  }

  /**
   * Writing x0 .. x5 in order from position 6 * i leaves block i holding them
   * and every entry before it as it was.
   */
  lemma WroteSix<T>(s0: seq<T>, s: seq<T>, i: nat, at: nat, x0: T, x1: T, x2: T, x3: T, x4: T, x5: T)
    requires at == 6 * i && at + 6 <= |s0|
    requires s == s0[at := x0][at + 1 := x1][at + 2 := x2][at + 3 := x3][at + 4 := x4][at + 5 := x5]
    ensures |s| == |s0|
    ensures forall k :: 0 <= k < at ==> s[k] == s0[k]
    ensures forall k :: at <= k < at + 6 ==> k / 6 == i && s[k] == [x0, x1, x2, x3, x4, x5][k % 6]
  {
  }

  /** The same for a block of four entries. */
  lemma WroteFour<T>(s0: seq<T>, s: seq<T>, i: nat, at: nat, x0: T, x1: T, x2: T, x3: T)
    requires at == 4 * i && at + 4 <= |s0|
    requires s == s0[at := x0][at + 1 := x1][at + 2 := x2][at + 3 := x3]
    ensures |s| == |s0|
    ensures forall k :: 0 <= k < at ==> s[k] == s0[k]
    ensures forall k :: at <= k < at + 4 ==> k / 4 == i && s[k] == [x0, x1, x2, x3][k % 4]
  {
  }

  /** The same for a block of two entries. */
  lemma WroteTwo<T>(s0: seq<T>, s: seq<T>, i: nat, at: nat, x0: T, x1: T)
    requires at == 2 * i && at + 2 <= |s0|
    requires s == s0[at := x0][at + 1 := x1]
    ensures |s| == |s0|
    ensures forall k :: 0 <= k < at ==> s[k] == s0[k]
    ensures forall k :: at <= k < at + 2 ==> k / 2 == i && s[k] == [x0, x1][k % 2]
  {
  }

  /** Writing point i's position block after the first i extends the laid-out prefix by one block. */
  lemma ExtendPositions(s0: seq<real>, fr: Strip.Frame, i: nat, at: nat,
                        x0: real, x1: real, x2: real, x3: real, x4: real, x5: real)
    requires at == 6 * i && i < |fr.points| && |s0| == 6 * |fr.points| && Strip.PositionsUpTo(s0, fr, at)
    requires [x0, x1, x2, x3, x4, x5] == Strip.PositionBlock(fr, i)
    ensures Strip.PositionsUpTo(s0[at := x0][at + 1 := x1][at + 2 := x2][at + 3 := x3][at + 4 := x4][at + 5 := x5],
                                fr, at + 6)
  {
    var s := s0[at := x0][at + 1 := x1][at + 2 := x2][at + 3 := x3][at + 4 := x4][at + 5 := x5];
    WroteSix(s0, s, i, at, x0, x1, x2, x3, x4, x5);
  }

  /** The same for point i's uv block. */
  lemma ExtendUvs(s0: seq<real>, fr: Strip.Frame, i: nat, at: nat, x0: real, x1: real, x2: real, x3: real)
    requires at == 4 * i && 2 <= |fr.points| && i < |fr.points| && |s0| == 4 * |fr.points|
    requires Strip.UvsUpTo(s0, fr, at)
    requires [x0, x1, x2, x3] == Strip.UvBlock(fr.uv, Strip.Param(i, |fr.points|))
    ensures Strip.UvsUpTo(s0[at := x0][at + 1 := x1][at + 2 := x2][at + 3 := x3], fr, at + 4)
  {
    var s := s0[at := x0][at + 1 := x1][at + 2 := x2][at + 3 := x3];
    WroteFour(s0, s, i, at, x0, x1, x2, x3);
  }

  /** The same for point i's alpha block. */
  lemma ExtendAlphas(s0: seq<real>, fr: Strip.Frame, i: nat, at: nat, x0: real, x1: real)
    requires at == 2 * i && 2 <= |fr.points| && i < |fr.points| && |s0| == 2 * |fr.points|
    requires Strip.AlphasUpTo(s0, fr, at)
    requires [x0, x1] == Strip.AlphaBlock(fr.style, Strip.Param(i, |fr.points|))
    ensures Strip.AlphasUpTo(s0[at := x0][at + 1 := x1], fr, at + 2)
  {
    var s := s0[at := x0][at + 1 := x1];
    WroteTwo(s0, s, i, at, x0, x1);
  }

  /** The same for point i's colour block. */
  lemma ExtendColors(s0: seq<real>, fr: Strip.Frame, i: nat, at: nat,
                     x0: real, x1: real, x2: real, x3: real, x4: real, x5: real)
    requires at == 6 * i && 2 <= |fr.points| && i < |fr.points| && |s0| == 6 * |fr.points|
    requires Strip.ColorsUpTo(s0, fr, at)
    requires [x0, x1, x2, x3, x4, x5] == Strip.ColorBlock(fr.style, Strip.Param(i, |fr.points|))
    ensures Strip.ColorsUpTo(s0[at := x0][at + 1 := x1][at + 2 := x2][at + 3 := x3][at + 4 := x4][at + 5 := x5],
                             fr, at + 6)
  {
    var s := s0[at := x0][at + 1 := x1][at + 2 := x2][at + 3 := x3][at + 4 := x4][at + 5 := x5];
    WroteSix(s0, s, i, at, x0, x1, x2, x3, x4, x5);
  }

  /** The same for segment i's six indices. */
  lemma ExtendIndices(s0: seq<int>, i: nat, at: nat, x0: int, x1: int, x2: int, x3: int, x4: int, x5: int)
    requires at == 6 * i && at + 6 <= |s0| && Strip.IndicesUpTo(s0, at)
    requires [x0, x1, x2, x3, x4, x5] == Strip.QuadBlock(i)
    ensures Strip.IndicesUpTo(s0[at := x0][at + 1 := x1][at + 2 := x2][at + 3 := x3][at + 4 := x4][at + 5 := x5], at + 6)
  {
    var s := s0[at := x0][at + 1 := x1][at + 2 := x2][at + 3 := x3][at + 4 := x4][at + 5 := x5];
    WroteSix(s0, s, i, at, x0, x1, x2, x3, x4, x5);
  }

  /**
   * The interpolated attributes of point i: the v coordinate of its uv pair,
   * its alpha and its colour, from the hoisted, normalised end values.
   */
  method PointAttributes(ghost fr: Strip.Frame, i: nat, n: nat, vLo: real, vSpan: real,
                         tailA: real, headA: real, tailR: real, tailG: real, tailB: real,
                         headR: real, headG: real, headB: real)
    returns (v: real, alpha: real, r: real, g: real, b: real)
    requires 2 <= n && i < n
    requires tailA == fr.style.tailAlpha as real / 255.0 && headA == fr.style.headAlpha as real / 255.0
    requires tailR == fr.style.tailColor.r as real / 255.0 && headR == fr.style.headColor.r as real / 255.0
    requires tailG == fr.style.tailColor.g as real / 255.0 && headG == fr.style.headColor.g as real / 255.0
    requires tailB == fr.style.tailColor.b as real / 255.0 && headB == fr.style.headColor.b as real / 255.0
    requires vLo == fr.uv.vMin && vSpan == fr.uv.areaH
    ensures [fr.uv.uMin, v, fr.uv.uMax, v] == Strip.UvBlock(fr.uv, Strip.Param(i, n))
    ensures [alpha, alpha] == Strip.AlphaBlock(fr.style, Strip.Param(i, n))
    ensures [r, g, b, r, g, b] == Strip.ColorBlock(fr.style, Strip.Param(i, n))
  {
    var t := i as real / (n - 1) as real;
    alpha := tailA + (headA - tailA) * t;
    r := tailR + (headR - tailR) * t;
    g := tailG + (headG - tailG) * t;
    b := tailB + (headB - tailB) * t;
    v := vLo + vSpan * (1.0 - t);
    assert t == Strip.Param(i, n);
    assert Strip.V(fr.uv, t) == v;
    assert Strip.Alpha(fr.style, t) == alpha;
    assert Strip.Shade(fr.style, t) == Strip.Rgb(r, g, b);
  }


  /**
   * The writes of one iteration of the vertex pass: point i's two positions,
   * its uv pair, its two alphas and its two colours, each at the next free
   * offset of its array.
   */
  method WritePoint(pos: seq<real>, uv: seq<real>, alp: seq<real>, col: seq<real>, ghost fr: Strip.Frame, i: nat,
                    lx: real, ly: real, rx: real, ry: real, uLo: real, v: real, uHi: real,
                    alpha: real, r: real, g: real, b: real)
    returns (pos': seq<real>, uv': seq<real>, alp': seq<real>, col': seq<real>)
    requires 2 <= |fr.points| && i < |fr.points|
    requires |pos| == 6 * |fr.points| && |uv| == 4 * |fr.points| && |alp| == 2 * |fr.points| && |col| == 6 * |fr.points|
    requires Strip.PositionsUpTo(pos, fr, 6 * i) && Strip.UvsUpTo(uv, fr, 4 * i)
    requires Strip.AlphasUpTo(alp, fr, 2 * i) && Strip.ColorsUpTo(col, fr, 6 * i)
    requires [lx, ly, 0.0, rx, ry, 0.0] == Strip.PositionBlock(fr, i)
    requires [uLo, v, uHi, v] == Strip.UvBlock(fr.uv, Strip.Param(i, |fr.points|))
    requires [alpha, alpha] == Strip.AlphaBlock(fr.style, Strip.Param(i, |fr.points|))
    requires [r, g, b, r, g, b] == Strip.ColorBlock(fr.style, Strip.Param(i, |fr.points|))
    ensures |pos'| == |pos| && |uv'| == |uv| && |alp'| == |alp| && |col'| == |col|
    ensures Strip.PositionsUpTo(pos', fr, 6 * (i + 1)) && Strip.UvsUpTo(uv', fr, 4 * (i + 1))
    ensures Strip.AlphasUpTo(alp', fr, 2 * (i + 1)) && Strip.ColorsUpTo(col', fr, 6 * (i + 1))
  {
    var at := 6 * i;
    ExtendPositions(pos, fr, i, at, lx, ly, 0.0, rx, ry, 0.0);
    pos' := pos[at := lx][at + 1 := ly][at + 2 := 0.0][at + 3 := rx][at + 4 := ry][at + 5 := 0.0];
    at := 4 * i;
    ExtendUvs(uv, fr, i, at, uLo, v, uHi, v);
    uv' := uv[at := uLo][at + 1 := v][at + 2 := uHi][at + 3 := v];
    at := 2 * i;
    ExtendAlphas(alp, fr, i, at, alpha, alpha);
    alp' := alp[at := alpha][at + 1 := alpha];
    at := 6 * i;
    ExtendColors(col, fr, i, at, r, g, b, r, g, b);
    col' := col[at := r][at + 1 := g][at + 2 := b][at + 3 := r][at + 4 := g][at + 5 := b];
  }

  class SuperTrail {
    // Editor properties.
    var coordinateMode: CoordinateMode
    var useFastSqrt: bool
    var maxPoints: nat
    var minDistance: real
    var headWidth: real
    var tailWidth: real
    var headAlpha: int
    var tailAlpha: int
    var fadeTime: real
    var headColor: Color
    var tailColor: Color
    var spriteFrame: Option<SpriteFrame>

    // Cached extent of the sprite frame's UV rectangle.
    var uvMin: real
    var uvMax: real
    var vMin: real
    var vMax: real
    var uvAreaH: real
    var uvDirty: bool

    var paused: bool

    // The mesh handed to the render adapter.
    var positions: seq<real>
    var uvs: seq<real>
    var indices: seq<int>
    var alphas: seq<real>
    var colors: seq<real>

    // Whether the last tick appended a point, and the decay accumulator.
    var hasNewPoint: bool
    var fadeAccum: real

    // The ring buffer: a pool of slots, the slot of the oldest point and the number of points.
    var pointPool: seq<Vec3>
    var pointHead: nat
    var pointCount: nat

    /** The render data is marked for update (its vertex data is dirty). */
    var renderDirty: bool

    /**
     * The ring is addressed modulo maxPoints, and once it holds points the
     * pool has at least maxPoints slots.
     */
    ghost predicate RingValid()
      reads this`maxPoints, this`pointHead, this`pointCount, this`pointPool
    {
      && 0 < maxPoints
      && pointHead < maxPoints
      && pointCount <= maxPoints
      && (pointCount > 0 ==> |pointPool| >= maxPoints)
    }

    /** A valid ring, and an accumulator that holds only a fraction. */
    ghost predicate Valid()
      reads this`maxPoints, this`pointHead, this`pointCount, this`pointPool, this`fadeAccum
    {
      RingValid() && 0.0 <= fadeAccum < 1.0
    }

    /** The point history, oldest first. */
    ghost function History(): (h: seq<Vec3>)
      reads this`maxPoints, this`pointHead, this`pointCount, this`pointPool
      requires RingValid()
      ensures |h| == pointCount
    {
      if pointCount == 0 then [] else Ring.Logical(pointPool, pointHead, pointCount, maxPoints)
    }

    ghost function Settings(): Sampling.Settings
      reads this`maxPoints, this`minDistance, this`fadeTime, this`paused
    {
      Sampling.Settings(maxPoints, minDistance, fadeTime, paused)
    }

    function TrailStyle(): Strip.Style
      reads this`headWidth, this`tailWidth, this`headAlpha, this`tailAlpha,
            this`headColor, this`tailColor, this`useFastSqrt, this`coordinateMode
    {
      Strip.Style(headWidth, tailWidth, headAlpha, tailAlpha, headColor, tailColor, useFastSqrt, coordinateMode)
    }

    ghost function UvRect(): Strip.UvCache
      reads this`uvMin, this`uvMax, this`vMin, this`vMax, this`uvAreaH
    {
      Strip.UvCache(uvMin, uvMax, vMin, vMax, uvAreaH)
    }

    predicate Textured()
      reads this`spriteFrame
    {
      spriteFrame.Some? && spriteFrame.value.hasTexture
    }

    /** The mesh arrays are all empty. */
    ghost predicate MeshEmpty()
      reads this`positions, this`uvs, this`indices, this`alphas, this`colors
    {
      positions == [] && uvs == [] && indices == [] && alphas == [] && colors == []
    }

    /** A new component with the editor defaults, an empty pool and no sprite frame. */
    constructor ()
      ensures Valid() && History() == [] && pointPool == [] && MeshEmpty()
      ensures maxPoints == 20 && minDistance == 3.0 && fadeTime == 0.1
      ensures headWidth == 32.0 && tailWidth == 0.0 && headAlpha == 255 && tailAlpha == 0
      ensures headColor == White && tailColor == White
      ensures coordinateMode == World && useFastSqrt && !paused
      ensures spriteFrame == None && uvDirty
    {
      coordinateMode := World;
      useFastSqrt := true;
      maxPoints := 20;
      minDistance := 3.0;
      headWidth := 32.0;
      tailWidth := 0.0;
      headAlpha := 255;
      tailAlpha := 0;
      fadeTime := 0.1;
      headColor := White;
      tailColor := White;
      spriteFrame := None;
      uvMin, uvMax, vMin, vMax, uvAreaH := 0.0, 1.0, 0.0, 1.0, 1.0;
      uvDirty := true;
      paused := false;
      positions, uvs, indices, alphas, colors := [], [], [], [], [];
      hasNewPoint := false;
      fadeAccum := 0.0;
      pointPool := [];
      pointHead, pointCount := 0, 0;
      renderDirty := false;
    }

    /** Grows the pool to maxPoints slots (new slots hold the origin) and empties the ring. */
    method InitPointPool()
      requires Valid()
      modifies this`pointPool, this`pointHead, this`pointCount
      ensures Valid() && pointHead == 0 && pointCount == 0 && History() == []
      ensures |pointPool| == if |old(pointPool)| < maxPoints then maxPoints else |old(pointPool)|
      ensures pointPool[..|old(pointPool)|] == old(pointPool)
      ensures forall k :: |old(pointPool)| <= k < |pointPool| ==> pointPool[k] == Origin
    {
      var poolSize := maxPoints;
      while |pointPool| < poolSize
        invariant |old(pointPool)| <= |pointPool|
        invariant |pointPool| <= if |old(pointPool)| < poolSize then poolSize else |old(pointPool)|
        invariant pointPool[..|old(pointPool)|] == old(pointPool)
        invariant forall k :: |old(pointPool)| <= k < |pointPool| ==> pointPool[k] == Origin
        decreases poolSize - |pointPool|
      {
        pointPool := pointPool + [Origin];
      }
      pointHead := 0;
      pointCount := 0;
    }

    /** Loading: the pool is allocated and the ring is empty. */
    method OnLoad()
      requires Valid()
      modifies this`pointPool, this`pointHead, this`pointCount
      ensures Valid() && History() == [] && |pointPool| >= maxPoints
    {
      InitPointPool();
    }

    /**
     * Appends a point: into slot (head + count) mod maxPoints while the ring
     * is not full, otherwise over the oldest slot, advancing the head.
     */
    method AddPoint(x: real, y: real, z: real)
      requires Valid() && |pointPool| >= maxPoints
      modifies this`pointPool, this`pointHead, this`pointCount
      ensures Valid() && |pointPool| == |old(pointPool)|
      ensures old(pointCount) < maxPoints ==>
                && pointCount == old(pointCount) + 1 && pointHead == old(pointHead)
                && pointPool == old(pointPool)[Ring.Slot(old(pointHead), old(pointCount), maxPoints) := Vec3(x, y, z)]
      ensures old(pointCount) == maxPoints ==>
                && pointCount == maxPoints && pointHead == Ring.Slot(old(pointHead), 1, maxPoints)
                && pointPool == old(pointPool)[old(pointHead) := Vec3(x, y, z)]
      ensures History() == Ring.Window(old(History()) + [Vec3(x, y, z)], maxPoints)
    {
      var p := Vec3(x, y, z);
      ghost var h := History();
      if pointCount < maxPoints {
        var idx := (pointHead + pointCount) % maxPoints;
        Ring.AppendNotFull(pointPool, pointHead, pointCount, maxPoints, p);
        assert Ring.Logical(pointPool, pointHead, pointCount, maxPoints) == h;
        pointPool := pointPool[idx := p];
        pointCount := pointCount + 1;
      } else {
        Ring.AppendFull(pointPool, pointHead, maxPoints, p);
        pointPool := pointPool[pointHead := p];
        pointHead := (pointHead + 1) % maxPoints;
        assert (h + [p])[1..] == h[1..] + [p];
      }
    }

    /** Drops the oldest point by advancing the head; nothing happens on an empty ring. */
    method RemoveOldestPoint()
      requires Valid()
      modifies this`pointHead, this`pointCount
      ensures Valid()
      ensures old(pointCount) == 0 ==> pointHead == old(pointHead) && pointCount == 0
      ensures old(pointCount) > 0 ==>
                pointHead == Ring.Slot(old(pointHead), 1, maxPoints) && pointCount == old(pointCount) - 1
      ensures History() == if old(pointCount) == 0 then [] else old(History())[1..]
    {
      if pointCount > 0 {
        Ring.DropOldest(pointPool, pointHead, pointCount, maxPoints);
        pointHead := (pointHead + 1) % maxPoints;
        pointCount := pointCount - 1;
      }
    }

    /** Point `index` of the history, 0 being the oldest. */
    function GetPoint(index: nat): (p: Vec3)
      reads this`maxPoints, this`pointHead, this`pointCount, this`pointPool
      requires RingValid() && |pointPool| >= maxPoints
      ensures index < pointCount ==> p == History()[index]
    {
      var idx := (pointHead + index) % maxPoints;
      pointPool[idx]
    }

    /** The newest point, or None when the history is empty. */
    function GetLastPoint(): (r: Option<Vec3>)
      reads this`maxPoints, this`pointHead, this`pointCount, this`pointPool
      requires RingValid()
      ensures r.None? <==> pointCount == 0
      ensures r.Some? ==> r.value == History()[pointCount - 1]
    {
      if pointCount == 0 then None
      else
        var idx := (pointHead + pointCount - 1) % maxPoints;
        Some(pointPool[idx])
    }

    /** Enabling: the history, the accumulator and the mesh are reset, and the pool is ready. */
    method OnEnable()
      requires Valid()
      modifies this`pointHead, this`pointCount, this`fadeAccum, this`hasNewPoint, this`pointPool,
               this`positions, this`uvs, this`indices, this`alphas, this`colors, this`renderDirty
      ensures Valid() && History() == [] && fadeAccum == 0.0 && !hasNewPoint && MeshEmpty()
      ensures pointHead == 0
      ensures |pointPool| >= maxPoints
      ensures |old(pointPool)| >= maxPoints ==> pointPool == old(pointPool)
      ensures renderDirty
    {
      pointHead := 0;
      pointCount := 0;
      fadeAccum := 0.0;
      hasNewPoint := false;
      positions, uvs, indices, alphas, colors := [], [], [], [], [];
      if |pointPool| < maxPoints {
        InitPointPool();
      }
      renderDirty := true;
    }

    /** Disabling: the history, the accumulator and the mesh are reset. */
    method OnDisable()
      requires Valid()
      modifies this`pointHead, this`pointCount, this`fadeAccum, this`hasNewPoint,
               this`positions, this`uvs, this`indices, this`alphas, this`colors
      ensures Valid() && History() == [] && pointHead == 0 && fadeAccum == 0.0 && !hasNewPoint && MeshEmpty()
    {
      pointHead := 0;
      pointCount := 0;
      fadeAccum := 0.0;
      hasNewPoint := false;
      positions, uvs, indices, alphas, colors := [], [], [], [], [];
    }

    /** Clears the trail at once and marks the render data for update. */
    method Clear()
      requires Valid()
      modifies this`pointHead, this`pointCount, this`fadeAccum, this`hasNewPoint,
               this`positions, this`uvs, this`indices, this`alphas, this`colors, this`renderDirty
      ensures Valid() && History() == [] && pointHead == 0 && fadeAccum == 0.0 && !hasNewPoint && MeshEmpty()
      ensures renderDirty
    {
      pointHead := 0;
      pointCount := 0;
      fadeAccum := 0.0;
      hasNewPoint := false;
      positions, uvs, indices, alphas, colors := [], [], [], [], [];
      renderDirty := true;
    }

    /** Stops sampling; the existing trail stays (and keeps decaying). */
    method Pause()
      requires Valid()
      modifies this`paused
      ensures paused && History() == old(History())
    {
      paused := true;
    }

    /** Resumes sampling; the existing trail stays. */
    method Resume()
      requires Valid()
      modifies this`paused
      ensures !paused && History() == old(History())
    {
      paused := false;
    }

    method IsPaused() returns (b: bool)
      ensures b == paused
    {
      b := paused;
    }

    /** Assigning a different sprite frame invalidates the UV cache and marks the render data. */
    method SetSpriteFrame(value: Option<SpriteFrame>)
      modifies this`spriteFrame, this`uvDirty, this`renderDirty
      ensures value == old(spriteFrame) ==>
                spriteFrame == old(spriteFrame) && uvDirty == old(uvDirty) && renderDirty == old(renderDirty)
      ensures value != old(spriteFrame) ==> spriteFrame == value && uvDirty && renderDirty
    {
      if spriteFrame == value {
        return;
      }
      spriteFrame := value;
      uvDirty := true;
      renderDirty := true;
    }

    /**
     * One frame. Without a textured sprite frame nothing happens. Otherwise
     * the node's world position wp is sampled, the idle decay runs, and the
     * mesh is rebuilt (two or more points) or emptied. `inverseWorld` is the
     * inverse of the node's world matrix, used in Local mode.
     */
    method Update(dt: real, wp: Vec3, inverseWorld: Mat4, num: Numerics)
      requires Valid() && dt >= 0.0
      modifies this`pointPool, this`pointHead, this`pointCount, this`hasNewPoint, this`fadeAccum,
               this`positions, this`uvs, this`indices, this`alphas, this`colors,
               this`uvMin, this`uvMax, this`vMin, this`vMax, this`uvAreaH, this`uvDirty, this`renderDirty
      ensures Valid()
      ensures !Textured() ==> unchanged(this)
      ensures Textured() ==>
                var t := Sampling.Tick(old(History()), old(fadeAccum), wp, dt, old(Settings()));
                && History() == t.history && fadeAccum == t.accum && hasNewPoint == t.hasNewPoint
      // The render data is marked dirty when a point was appended or removed, or fewer than two remain.
      ensures Textured() ==>
                renderDirty == (old(renderDirty) || hasNewPoint || pointCount < old(pointCount) || pointCount < 2)
      ensures Textured() && pointCount < 2 ==>
                MeshEmpty() && UvRect() == old(UvRect()) && uvDirty == old(uvDirty)
      ensures Textured() && pointCount >= 2 ==>
                && !uvDirty
                && (old(uvDirty) ==> Strip.IsUvExtent(spriteFrame.value.uv, uvMin, uvMax, vMin, vMax)
                                     && uvAreaH == vMax - vMin)
                && (!old(uvDirty) ==> UvRect() == old(UvRect()))
                && Strip.LaidOut(positions, uvs, alphas, colors, indices,
                                 Strip.Frame(History(), TrailStyle(), UvRect(), num, inverseWorld))
    {
      if Textured() {
        Step(dt, wp, inverseWorld, num);
      }
    }

    /** A tick with a textured sprite frame: sample and decay the history, then present the mesh. */
    method Step(dt: real, wp: Vec3, inverseWorld: Mat4, num: Numerics)
      requires Valid() && Textured() && dt >= 0.0
      modifies this`pointPool, this`pointHead, this`pointCount, this`hasNewPoint, this`fadeAccum,
               this`positions, this`uvs, this`indices, this`alphas, this`colors,
               this`uvMin, this`uvMax, this`vMin, this`vMax, this`uvAreaH, this`uvDirty, this`renderDirty
      ensures Valid()
      ensures var t := Sampling.Tick(old(History()), old(fadeAccum), wp, dt, old(Settings()));
              && History() == t.history && fadeAccum == t.accum && hasNewPoint == t.hasNewPoint
      ensures renderDirty == (old(renderDirty) || hasNewPoint || pointCount < old(pointCount) || pointCount < 2)
      ensures pointCount < 2 ==> MeshEmpty() && UvRect() == old(UvRect()) && uvDirty == old(uvDirty)
      ensures pointCount >= 2 ==>
                && !uvDirty
                && (old(uvDirty) ==> Strip.IsUvExtent(spriteFrame.value.uv, uvMin, uvMax, vMin, vMax)
                                     && uvAreaH == vMax - vMin)
                && (!old(uvDirty) ==> UvRect() == old(UvRect()))
                && Strip.LaidOut(positions, uvs, alphas, colors, indices,
                                 Strip.Frame(History(), TrailStyle(), UvRect(), num, inverseWorld))
    {
      var dataChanged := Advance(wp, dt);
      Present(inverseWorld, num, dataChanged);
    }

    /**
     * The emitted left and right vertices of point i of the history: the
     * tangent from its neighbours, normalised, turned into the normal, scaled
     * by the interpolated half width and, in Local mode, projected through im
     * (the inverse of the node's world matrix).
     */
    method EmitPair(i: nat, n: nat, useLocalMode: bool, im: Mat4, num: Numerics, ghost fr: Strip.Frame)
      returns (localLx: real, localLy: real, localRx: real, localRy: real)
      requires Valid() && 2 <= n == pointCount && i < n
      requires fr.points == History() && fr.style == TrailStyle() && fr.num == num && fr.inverseWorld == im
      requires useLocalMode <==> coordinateMode == Local
      ensures var e := Strip.Emitted(fr, i);
              localLx == e.lx && localLy == e.ly && localRx == e.rx && localRy == e.ry
    {
      var p := GetPoint(i);
      var pPrev := GetPoint(if i > 0 then i - 1 else i);
      var pNext := GetPoint(if i < n - 1 then i + 1 else i);

      // Tangent, normalised, and turned into the normal.
      var dx := pNext.x - pPrev.x;
      var dy := pNext.y - pPrev.y;
      assert Vec2(dx, dy) == Strip.Direction(fr.points, i);
      var u := Strip.Unit(dx, dy, useFastSqrt, num);
      var nrm := Vec2(-u.y, u.x);

      // Interpolation parameter and half width.
      var t := Strip.Param(i, n);
      var halfW := Strip.HalfWidth(TrailStyle(), t);

      // Left and right vertices, projected in Local mode.
      var w := Strip.Offset(p, nrm, halfW);
      var e := if useLocalMode then Strip.Project(im, w) else w;
      localLx, localLy, localRx, localRy := e.lx, e.ly, e.rx, e.ry;
    }

    /**
     * The mesh part of a tick: rebuild the mesh from at least two points,
     * otherwise empty it, and mark the render data dirty when the history
     * changed or the mesh was emptied.
     */
    method Present(inverseWorld: Mat4, num: Numerics, dataChanged: bool)
      requires Valid() && Textured()
      modifies this`positions, this`uvs, this`indices, this`alphas, this`colors,
               this`uvMin, this`uvMax, this`vMin, this`vMax, this`uvAreaH, this`uvDirty, this`renderDirty
      ensures renderDirty == (old(renderDirty) || dataChanged || pointCount < 2)
      ensures pointCount < 2 ==> MeshEmpty() && UvRect() == old(UvRect()) && uvDirty == old(uvDirty)
      ensures pointCount >= 2 ==>
                && !uvDirty
                && (old(uvDirty) ==> Strip.IsUvExtent(spriteFrame.value.uv, uvMin, uvMax, vMin, vMax)
                                     && uvAreaH == vMax - vMin)
                && (!old(uvDirty) ==> UvRect() == old(UvRect()))
                && Strip.LaidOut(positions, uvs, alphas, colors, indices,
                                 Strip.Frame(History(), TrailStyle(), UvRect(), num, inverseWorld))
    {
      var changed := dataChanged;
      if pointCount >= 2 {
        BuildMesh(inverseWorld, num);
      } else {
        positions, uvs, indices, alphas, colors := [], [], [], [], [];
        changed := true;
      }
      if changed {
        renderDirty := true;
      }
    }

    /**
     * The history part of a tick: make sure the pool has maxPoints slots,
     * sample wp, then let the tail decay. Answers whether a point was
     * appended or removed.
     */
    method Advance(wp: Vec3, dt: real) returns (changed: bool)
      requires Valid() && dt >= 0.0
      modifies this`pointPool, this`pointHead, this`pointCount, this`hasNewPoint, this`fadeAccum
      ensures Valid()
      ensures var t := Sampling.Tick(old(History()), old(fadeAccum), wp, dt, old(Settings()));
              && History() == t.history && fadeAccum == t.accum && hasNewPoint == t.hasNewPoint
              && (changed <==> t.hasNewPoint || |t.history| < |old(History())|)
      ensures changed <==> hasNewPoint || pointCount < old(pointCount)
    {
      ghost var h0 := History();
      if |pointPool| < maxPoints {
        InitPointPool();
      }
      assert History() == h0;
      Sample(wp);
      ghost var sampled := History();
      ghost var d := Sampling.Decay(|h0|, old(fadeAccum), hasNewPoint, fadeTime, dt);
      changed := Fade(dt);
      assert !hasNewPoint ==> History() == h0[d.removed..];
      Ring.DropFrontIsSuffix(h0, d.removed);
      assert fadeAccum == d.accum;
      if hasNewPoint {
        changed := true;
      }
    }

    /**
     * Samples the node's world position wp: nothing while paused; otherwise
     * wp is appended when the history is empty or wp is at least minDistance
     * (in the plane) from the newest point.
     */
    method Sample(wp: Vec3)
      requires Valid() && |pointPool| >= maxPoints
      modifies this`pointPool, this`pointHead, this`pointCount, this`hasNewPoint
      ensures Valid() && |pointPool| >= maxPoints
      ensures hasNewPoint == Sampling.Appends(old(History()), wp, minDistance, paused)
      ensures History() == if hasNewPoint then Ring.Window(old(History()) + [wp], maxPoints) else old(History())
    {
      ghost var h := History();
      assert Vec3(wp.x, wp.y, wp.z) == wp;
      var appended := false;
      if !paused {
        var last := GetLastPoint();
        if last.Some? {
          assert last.value == h[|h| - 1];
          if Sampling.PlanarDistSq(last.value, wp) >= minDistance * minDistance {
            AddPoint(wp.x, wp.y, wp.z);
            appended := true;
          }
        } else {
          AddPoint(wp.x, wp.y, wp.z);
          appended := true;
        }
      }
      assert appended == Sampling.Appends(h, wp, minDistance, paused);
      assert History() == if appended then Ring.Window(h + [wp], maxPoints) else h;
      hasNewPoint := appended;
    }

    /** Removes the k oldest points, or every point when there are fewer. */
    method RemoveOldestPoints(k: nat)
      requires Valid()
      modifies this`pointHead, this`pointCount
      ensures Valid()
      ensures History() == old(History())[if k <= old(pointCount) then k else old(pointCount)..]
    {
      ghost var h := History();
      var i := 0;
      while i < k && pointCount > 0
        invariant Valid()
        invariant 0 <= i <= k && i <= |h|
        invariant History() == h[i..]
      {
        RemoveOldestPoint();
        i := i + 1;
      }
    }

    /**
     * Idle decay: when nothing was appended, fading is on and points remain,
     * the accumulator gains count / fadeTime per second and its whole part of
     * oldest points is removed; otherwise the accumulator is reset. Answers
     * whether points were due for removal.
     */
    method Fade(dt: real) returns (removed: bool)
      requires Valid() && dt >= 0.0
      modifies this`pointHead, this`pointCount, this`fadeAccum
      ensures Valid()
      ensures var d := Sampling.Decay(old(pointCount), old(fadeAccum), hasNewPoint, fadeTime, dt);
              History() == old(History())[d.removed..] && fadeAccum == d.accum && (removed <==> d.removed > 0)
    {
      ghost var h := History();
      ghost var d := Sampling.Decay(pointCount, fadeAccum, hasNewPoint, fadeTime, dt);
      removed := false;
      if !hasNewPoint && fadeTime > 0.0 && pointCount > 0 {
        var accum := fadeAccum + Sampling.Rate(pointCount, fadeTime) * dt;
        assert d == Sampling.Settle(accum, |h|);
        var removeCount := accum.Floor;
        if removeCount > 0 {
          fadeAccum := accum - removeCount as real;
          RemoveOldestPoints(removeCount);
          removed := true;
        } else {
          fadeAccum := accum;
        }
      } else {
        fadeAccum := 0.0;
      }
    }

    /**
     * Rebuilds the mesh from the history: two vertices per point (position,
     * UV, alpha, colour) and two triangles per segment. The UV rectangle is
     * rescanned first when the cache is dirty.
     */
    method BuildMesh(inverseWorld: Mat4, num: Numerics)
      requires Valid()
      modifies this`positions, this`uvs, this`indices, this`alphas, this`colors,
               this`uvMin, this`uvMax, this`vMin, this`vMax, this`uvAreaH, this`uvDirty
      ensures pointCount < 2 ==> MeshEmpty() && UvRect() == old(UvRect()) && uvDirty == old(uvDirty)
      ensures pointCount >= 2 && spriteFrame.None? ==> unchanged(this)
      ensures pointCount >= 2 && spriteFrame.Some? ==>
                && !uvDirty
                && (old(uvDirty) ==> Strip.IsUvExtent(spriteFrame.value.uv, uvMin, uvMax, vMin, vMax)
                                     && uvAreaH == vMax - vMin)
                && (!old(uvDirty) ==> UvRect() == old(UvRect()))
                && Strip.LaidOut(positions, uvs, alphas, colors, indices,
                                 Strip.Frame(History(), TrailStyle(), UvRect(), num, inverseWorld))
    {
      var n := pointCount;
      if n < 2 {
        positions, uvs, indices, alphas, colors := [], [], [], [], [];
        return;
      }
      if spriteFrame.None? {
        return;
      }
      RefreshUvRect();
      FillMesh(inverseWorld, num);
    }

    /** Rebuilds the five mesh arrays from the history, the style and the UV cache. */
    method FillMesh(inverseWorld: Mat4, num: Numerics)
      requires Valid() && 2 <= pointCount
      modifies this`positions, this`uvs, this`indices, this`alphas, this`colors
      ensures Strip.LaidOut(positions, uvs, alphas, colors, indices,
                            Strip.Frame(History(), TrailStyle(), UvRect(), num, inverseWorld))
    {
      ghost var fr := Strip.Frame(History(), TrailStyle(), UvRect(), num, inverseWorld);
      var pos, uv, alp, col := VertexPass(inverseWorld, num, fr);
      var idx := IndexPass(pointCount);
      positions, uvs, alphas, colors, indices := pos, uv, alp, col, idx;
      assert History() == fr.points && TrailStyle() == fr.style && UvRect() == fr.uv;
    }

    /** Rescans the sprite's UV rectangle when the cache is marked dirty, and clears the mark. */
    method RefreshUvRect()
      requires spriteFrame.Some?
      modifies this`uvMin, this`uvMax, this`vMin, this`vMax, this`uvAreaH, this`uvDirty
      ensures !uvDirty
      ensures old(uvDirty) ==> Strip.IsUvExtent(spriteFrame.value.uv, uvMin, uvMax, vMin, vMax)
                               && uvAreaH == vMax - vMin
      ensures !old(uvDirty) ==> UvRect() == old(UvRect())
    {
      if uvDirty {
        uvMin, uvMax, vMin, vMax := Strip.ScanUvRect(spriteFrame.value.uv);
        uvAreaH := vMax - vMin;
        uvDirty := false;
      }
    }

    /**
     * The vertex pass of a rebuild: for every point, oldest first, its two
     * emitted vertices, its uv pair, its two alphas and its two colours,
     * written into the per-vertex arrays resized to 2n vertices.
     */
    method VertexPass(inverseWorld: Mat4, num: Numerics, ghost fr: Strip.Frame)
      returns (pos: seq<real>, uv: seq<real>, alp: seq<real>, col: seq<real>)
      requires Valid() && 2 <= pointCount
      requires fr.points == History() && fr.style == TrailStyle() && fr.uv == UvRect()
      requires fr.num == num && fr.inverseWorld == inverseWorld
      ensures |pos| == 6 * pointCount && |uv| == 4 * pointCount && |alp| == 2 * pointCount && |col| == 6 * pointCount
      ensures Strip.PositionsUpTo(pos, fr, |pos|) && Strip.UvsUpTo(uv, fr, |uv|)
      ensures Strip.AlphasUpTo(alp, fr, |alp|) && Strip.ColorsUpTo(col, fr, |col|)
    {
      var n := pointCount;
      var useLocalMode := coordinateMode == Local;
      var im := inverseWorld;

      var tailAlphaNorm := tailAlpha as real / 255.0;
      var headAlphaNorm := headAlpha as real / 255.0;
      var tailColorR := tailColor.r as real / 255.0;
      var tailColorG := tailColor.g as real / 255.0;
      var tailColorB := tailColor.b as real / 255.0;
      var headColorR := headColor.r as real / 255.0;
      var headColorG := headColor.g as real / 255.0;
      var headColorB := headColor.b as real / 255.0;

      var vertCount := n * 2;
      var posLen := vertCount * 3;
      var uvLen := vertCount * 2;
      var colorLen := vertCount * 3;
      pos := Resized(positions, posLen, 0.0);
      uv := Resized(uvs, uvLen, 0.0);
      alp := Resized(alphas, vertCount, 0.0);
      col := Resized(colors, colorLen, 0.0);

      var uLo, uHi, vLo, vSpan := uvMin, uvMax, vMin, uvAreaH;
      assert fr.uv.uMin == uLo && fr.uv.uMax == uHi && fr.uv.vMin == vLo && fr.uv.areaH == vSpan;
      assert tailAlphaNorm == fr.style.tailAlpha as real / 255.0 && headAlphaNorm == fr.style.headAlpha as real / 255.0;
      assert tailColorR == fr.style.tailColor.r as real / 255.0 && headColorR == fr.style.headColor.r as real / 255.0;
      assert tailColorG == fr.style.tailColor.g as real / 255.0 && headColorG == fr.style.headColor.g as real / 255.0;
      assert tailColorB == fr.style.tailColor.b as real / 255.0 && headColorB == fr.style.headColor.b as real / 255.0;
      assert |fr.points| == n;
      var posIdx, uvIdx, alphaIdx, colorIdx := 0, 0, 0, 0;
      var i := 0;
      while i < n
        modifies {}
        invariant 0 <= i <= n
        invariant posIdx == 6 * i && uvIdx == 4 * i && alphaIdx == 2 * i && colorIdx == 6 * i
        invariant |pos| == 6 * n && |uv| == 4 * n && |alp| == 2 * n && |col| == 6 * n
        invariant Strip.PositionsUpTo(pos, fr, posIdx) && Strip.UvsUpTo(uv, fr, uvIdx)
        invariant Strip.AlphasUpTo(alp, fr, alphaIdx) && Strip.ColorsUpTo(col, fr, colorIdx)
      {
        var localLx, localLy, localRx, localRy := EmitPair(i, n, useLocalMode, im, num, fr);
        var vV, alpha, r, g, b := PointAttributes(fr, i, n, vLo, vSpan, tailAlphaNorm, headAlphaNorm,
                                                  tailColorR, tailColorG, tailColorB, headColorR, headColorG, headColorB);
        pos, uv, alp, col := WritePoint(pos, uv, alp, col, fr, i, localLx, localLy, localRx, localRy,
                                        uLo, vV, uHi, alpha, r, g, b);
        posIdx, uvIdx, alphaIdx, colorIdx := posIdx + 6, uvIdx + 4, alphaIdx + 2, colorIdx + 6;
        i := i + 1;
      }
    }

    /** The index pass of a rebuild: two triangles per segment between consecutive vertex pairs. */
    method IndexPass(n: nat) returns (idx: seq<int>)
      requires 2 <= n
      ensures |idx| == 6 * (n - 1) && Strip.IndicesUpTo(idx, |idx|)
    {
      var indexCount := (n - 1) * 6;
      idx := Resized(indices, indexCount, 0);
      var indexIdx := 0;
      var i := 0;
      while i < n - 1
        modifies {}
        invariant 0 <= i <= n - 1
        invariant indexIdx == 6 * i && |idx| == 6 * (n - 1)
        invariant Strip.IndicesUpTo(idx, indexIdx)
      {
        var start := i * 2;
        var v0 := start;
        var v1 := start + 1;
        var v2 := start + 2;
        var v3 := start + 3;
        ExtendIndices(idx, i, indexIdx, v0, v1, v2, v2, v1, v3);
        idx := idx[indexIdx := v0][indexIdx + 1 := v1][indexIdx + 2 := v2][indexIdx + 3 := v2][indexIdx + 4 := v1][indexIdx + 5 := v3];
        indexIdx := indexIdx + 6;
        i := i + 1;
      }
    }
  }
}
