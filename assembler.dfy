/**
 * The render adapter's buffer fills: guarded copies of the component's mesh
 * arrays into the chunk's interleaved vertex buffer (stride floats per
 * vertex: x, y, z, u, v, r, g, b, a, then padding), and offset copies of its
 * indices into the mesh buffer's 16-bit index buffer.
 *
 * Both buffers are typed arrays: a store past the end is silently ignored
 * and an index store keeps the value modulo 2^16. PutRow is that store
 * semantics for a run of consecutive entries.
 */
module Assembler {
  import opened Geometry
  import Strip
  import Component

  /** buf with entries at, at + 1, ... replaced by row; entries that would lie past its end are dropped. */
  function PutRow<T>(buf: seq<T>, at: nat, row: seq<T>): (r: seq<T>)
    ensures |r| == |buf|
  {
    seq(|buf|, j requires 0 <= j < |buf| => if at <= j < at + |row| then row[j - at] else buf[j])
  }

  /**
   * The vertex buffer after writing, for each vertex i in turn, its row of
   * fields starting at field lo of its record (entry i * stride + lo).
   */
  function Written(buf: seq<real>, stride: nat, lo: nat, rows: seq<seq<real>>): (r: seq<real>)
    ensures |r| == |buf|
    decreases |rows|
  {
    if rows == [] then buf
    else
      var i := |rows| - 1;
      PutRow(Written(buf, stride, lo, rows[..i]), i * stride + lo, rows[i])
  }

  /** Every row fits in its vertex record: it ends before the next vertex begins. */
  predicate RowsFit(stride: nat, lo: nat, rows: seq<seq<real>>)
  {
    forall i :: 0 <= i < |rows| ==> lo + |rows[i]| <= stride
  }

  // ---------------------------------------------------------------------
  // What each fill writes

  /** The 16-bit store of an index: the value modulo 2^16. */
  function Wrap16(x: int): (r: int)
    ensures 0 <= r < 0x1_0000
    ensures 0 <= x < 0x1_0000 ==> r == x
  {
    x % 0x1_0000
  }

  /** The index-buffer entries of one fill: each index shifted by the chunk's first vertex. */
  function IndexRow(vid: int, indices: seq<int>): (r: seq<int>)
    ensures |r| == |indices|
  {
    seq(|indices|, k requires 0 <= k < |indices| => Wrap16(vid + indices[k]))
  }

  /**
   * The guard of the full vertex fill, as the adapter computes it:
   * vertCount = positions.length / 3 and the position, uv, colour and alpha
   * lengths must be 3, 2, 3 and 1 times vertCount.
   */
  predicate VertexDataConsistent(positions: seq<real>, uvs: seq<real>, colors: seq<real>, alphas: seq<real>)
  {
    var vertCount := |positions| as real / 3.0;
    && |positions| as real == vertCount * 3.0
    && |uvs| as real == vertCount * 2.0
    && |colors| as real == vertCount * 3.0
    && |alphas| as real == vertCount
  }

  /** The guard of the uv refresh: the same, without the position length. */
  predicate AttributeDataConsistent(positions: seq<real>, uvs: seq<real>, colors: seq<real>, alphas: seq<real>)
  {
    var vertCount := |positions| as real / 3.0;
    && |uvs| as real == vertCount * 2.0
    && |colors| as real == vertCount * 3.0
    && |alphas| as real == vertCount
  }

  /** The guard of the colour refresh: only the colour and alpha lengths. */
  predicate ColorDataConsistent(positions: seq<real>, colors: seq<real>, alphas: seq<real>)
  {
    var vertCount := |positions| as real / 3.0;
    && |colors| as real == vertCount * 3.0
    && |alphas| as real == vertCount
  }

  /**
   * The position fields of vertex i: copied in World mode; in Local mode the
   * point (x, y, 0) is taken through the node's world matrix.
   */
  function PositionRow(mode: CoordinateMode, m: Mat4, positions: seq<real>, i: nat): (r: seq<real>)
    requires 3 * i + 3 <= |positions|
    ensures |r| == 3
  {
    var x := positions[3 * i];
    var y := positions[3 * i + 1];
    if mode == Local then
      var p := Transform2(m, x, y);
      [p.x, p.y, TransformZ(m, x, y)]
    else
      [x, y, positions[3 * i + 2]]
  }

  /** The colour fields of vertex i: its rgb and its alpha. */
  function ColorRow(colors: seq<real>, alphas: seq<real>, i: nat): (r: seq<real>)
    requires 3 * i + 3 <= |colors| && i < |alphas|
    ensures |r| == 4
  {
    [colors[3 * i], colors[3 * i + 1], colors[3 * i + 2], alphas[i]]
  }

  /** The attribute fields of vertex i: its uv pair, then its colour fields. */
  function AttributeRow(uvs: seq<real>, colors: seq<real>, alphas: seq<real>, i: nat): (r: seq<real>)
    requires 2 * i + 2 <= |uvs| && 3 * i + 3 <= |colors| && i < |alphas|
    ensures |r| == 6
  {
    [uvs[2 * i], uvs[2 * i + 1]] + ColorRow(colors, alphas, i)
  }

  /** The records of the full fill: position fields then attribute fields, one per vertex. */
  function VertexRows(mode: CoordinateMode, m: Mat4, positions: seq<real>, uvs: seq<real>,
                      colors: seq<real>, alphas: seq<real>): (rows: seq<seq<real>>)
    requires |positions| == 3 * |alphas| && |uvs| == 2 * |alphas| && |colors| == 3 * |alphas|
    ensures |rows| == |alphas| && forall i :: 0 <= i < |rows| ==> |rows[i]| == 9
  {
    seq(|alphas|, i requires 0 <= i < |alphas| =>
      PositionRow(mode, m, positions, i) + AttributeRow(uvs, colors, alphas, i))
  }

  /** The rows of the uv refresh (fields 3 to 8 of every vertex). */
  function AttributeRows(uvs: seq<real>, colors: seq<real>, alphas: seq<real>): (rows: seq<seq<real>>)
    requires |uvs| == 2 * |alphas| && |colors| == 3 * |alphas|
    ensures |rows| == |alphas| && forall i :: 0 <= i < |rows| ==> |rows[i]| == 6
  {
    seq(|alphas|, i requires 0 <= i < |alphas| => AttributeRow(uvs, colors, alphas, i))
  }

  /** The rows of the colour refresh (fields 5 to 8 of every vertex). */
  function ColorRows(colors: seq<real>, alphas: seq<real>): (rows: seq<seq<real>>)
    requires |colors| == 3 * |alphas|
    ensures |rows| == |alphas| && forall i :: 0 <= i < |rows| ==> |rows[i]| == 4
  {
    seq(|alphas|, i requires 0 <= i < |alphas| => ColorRow(colors, alphas, i))
  }

  // ---------------------------------------------------------------------
  // Store semantics

  /** One typed-array store: an index past the end is ignored. */
  method Store<T>(a: array<T>, j: nat, x: T)
    modifies a
    ensures a[..] == PutRow(old(a[..]), j, [x])
  {
    if j < a.Length {
      a[j] := x;
    }
  }

  /** Writing nothing changes nothing. */
  lemma PutNothing<T>(buf: seq<T>, at: nat)
    ensures PutRow(buf, at, []) == buf
  {
  }

  /** Two consecutive runs of stores are one run of their concatenation. */
  lemma PutRowThenNext<T>(buf: seq<T>, at: nat, r1: seq<T>, r2: seq<T>)
    ensures PutRow(PutRow(buf, at, r1), at + |r1|, r2) == PutRow(buf, at, r1 + r2)
  {
    var lhs := PutRow(PutRow(buf, at, r1), at + |r1|, r2);
    var rhs := PutRow(buf, at, r1 + r2);
    forall j | 0 <= j < |buf|
      ensures lhs[j] == rhs[j]
    {
      if at <= j < at + |r1| {
        assert (r1 + r2)[j - at] == r1[j - at];
      } else if at + |r1| <= j < at + |r1| + |r2| {
        assert (r1 + r2)[j - at] == r2[j - at - |r1|];
      }
    }
  }

  /** The four colour stores of one vertex. */
  method StoreColor(vb: array<real>, at: nat, r: real, g: real, b: real, a: real)
    modifies vb
    ensures vb[..] == PutRow(old(vb[..]), at, [r, g, b, a])
  {
    ghost var v0 := vb[..];
    Store(vb, at, r);
    Store(vb, at + 1, g);
    PutRowThenNext(v0, at, [r], [g]);
    Store(vb, at + 2, b);
    PutRowThenNext(v0, at, [r, g], [b]);
    Store(vb, at + 3, a);
    PutRowThenNext(v0, at, [r, g, b], [a]);
  }

  /** The six attribute stores of one vertex: uv, then colour. */
  method StoreAttributes(vb: array<real>, at: nat, u: real, v: real, r: real, g: real, b: real, a: real)
    modifies vb
    ensures vb[..] == PutRow(old(vb[..]), at, [u, v] + [r, g, b, a])
  {
    ghost var v0 := vb[..];
    Store(vb, at, u);
    Store(vb, at + 1, v);
    PutRowThenNext(v0, at, [u], [v]);
    StoreColor(vb, at + 2, r, g, b, a);
    PutRowThenNext(v0, at, [u, v], [r, g, b, a]);
  }

  /** The nine stores of one vertex: position, then attributes. */
  method StoreVertex(vb: array<real>, at: nat, x: real, y: real, z: real,
                     u: real, v: real, r: real, g: real, b: real, a: real)
    modifies vb
    ensures vb[..] == PutRow(old(vb[..]), at, [x, y, z] + ([u, v] + [r, g, b, a]))
  {
    ghost var v0 := vb[..];
    Store(vb, at, x);
    Store(vb, at + 1, y);
    PutRowThenNext(v0, at, [x], [y]);
    Store(vb, at + 2, z);
    PutRowThenNext(v0, at, [x, y], [z]);
    StoreAttributes(vb, at + 3, u, v, r, g, b, a);
    PutRowThenNext(v0, at, [x, y, z], [u, v] + [r, g, b, a]);
  }

  /** Row i of the full fill, given its fields. */
  lemma VertexRowAt(mode: CoordinateMode, m: Mat4, positions: seq<real>, uvs: seq<real>,
                    colors: seq<real>, alphas: seq<real>, i: nat,
                    x: real, y: real, z: real, u: real, v: real, r: real, g: real, b: real, a: real)
    requires |positions| == 3 * |alphas| && |uvs| == 2 * |alphas| && |colors| == 3 * |alphas|
    requires i < |alphas| && [x, y, z] == PositionRow(mode, m, positions, i)
    requires u == uvs[2 * i] && v == uvs[2 * i + 1]
    requires r == colors[3 * i] && g == colors[3 * i + 1] && b == colors[3 * i + 2] && a == alphas[i]
    ensures VertexRows(mode, m, positions, uvs, colors, alphas)[i] == [x, y, z] + ([u, v] + [r, g, b, a])
  {
  }

  /** The transform's three coordinates share one reciprocal weight rhw. */
  lemma TransformFields(m: Mat4, x: real, y: real, rhw: real)
    requires rhw == Rhw(m, x, y)
    ensures Transform2(m, x, y) == Vec2((m.m00 * x + m.m04 * y + m.m12) * rhw, (m.m01 * x + m.m05 * y + m.m13) * rhw)
    ensures TransformZ(m, x, y) == (m.m02 * x + m.m06 * y + m.m14) * rhw
  {
  }

  /** The Local-mode loop of the full fill: every point goes through the world matrix m. */
  method FillLocal(vb: array<real>, stride: nat, m: Mat4, positions: seq<real>, uvs: seq<real>,
                   colors: seq<real>, alphas: seq<real>)
    requires |positions| == 3 * |alphas| && |uvs| == 2 * |alphas| && |colors| == 3 * |alphas|
    modifies vb
    ensures vb[..] == Written(old(vb[..]), stride, 0, VertexRows(Local, m, positions, uvs, colors, alphas))
  {
    var vertCount := |positions| as real / 3.0;
    ghost var n := |alphas|;
    ghost var rows := VertexRows(Local, m, positions, uvs, colors, alphas);
    ghost var b0 := vb[..];
    var i := 0;
    while i as real < vertCount
      invariant 0 <= i <= n
      invariant vb[..] == Written(b0, stride, 0, rows[..i])
    {
      var posIdx, uvIdx, colorIdx := i * 3, i * 2, i * 3;
      var x := positions[posIdx];
      var y := positions[posIdx + 1];
      var rhw := Rhw(m, x, y);
      TransformFields(m, x, y, rhw);
      var px := (m.m00 * x + m.m04 * y + m.m12) * rhw;
      var py := (m.m01 * x + m.m05 * y + m.m13) * rhw;
      var pz := (m.m02 * x + m.m06 * y + m.m14) * rhw;
      var u, v := uvs[uvIdx], uvs[uvIdx + 1];
      var r, g, b, a := colors[colorIdx], colors[colorIdx + 1], colors[colorIdx + 2], alphas[i];
      VertexRowAt(Local, m, positions, uvs, colors, alphas, i, px, py, pz, u, v, r, g, b, a);
      StoreVertex(vb, i * stride, px, py, pz, u, v, r, g, b, a);
      WrittenStep(b0, stride, 0, rows, i);
      i := i + 1;
    }
    assert rows[..i] == rows;
  }

  /** The World-mode loop of the full fill: positions are copied as they are. */
  method FillWorld(vb: array<real>, stride: nat, ghost m: Mat4, positions: seq<real>, uvs: seq<real>,
                   colors: seq<real>, alphas: seq<real>)
    requires |positions| == 3 * |alphas| && |uvs| == 2 * |alphas| && |colors| == 3 * |alphas|
    modifies vb
    ensures vb[..] == Written(old(vb[..]), stride, 0, VertexRows(World, m, positions, uvs, colors, alphas))
  {
    var vertCount := |positions| as real / 3.0;
    ghost var n := |alphas|;
    ghost var rows := VertexRows(World, m, positions, uvs, colors, alphas);
    ghost var b0 := vb[..];
    var i := 0;
    while i as real < vertCount
      invariant 0 <= i <= n
      invariant vb[..] == Written(b0, stride, 0, rows[..i])
    {
      var posIdx, uvIdx, colorIdx := i * 3, i * 2, i * 3;
      var x := positions[posIdx];
      var y := positions[posIdx + 1];
      var z := positions[posIdx + 2];
      var u, v := uvs[uvIdx], uvs[uvIdx + 1];
      var r, g, b, a := colors[colorIdx], colors[colorIdx + 1], colors[colorIdx + 2], alphas[i];
      VertexRowAt(World, m, positions, uvs, colors, alphas, i, x, y, z, u, v, r, g, b, a);
      StoreVertex(vb, i * stride, x, y, z, u, v, r, g, b, a);
      WrittenStep(b0, stride, 0, rows, i);
      i := i + 1;
    }
    assert rows[..i] == rows;
  }

  /** Writing the first i + 1 rows is writing the first i, then row i. */
  lemma WrittenStep(buf: seq<real>, stride: nat, lo: nat, rows: seq<seq<real>>, i: nat)
    requires i < |rows|
    ensures Written(buf, stride, lo, rows[..i + 1])
            == PutRow(Written(buf, stride, lo, rows[..i]), i * stride + lo, rows[i])
  {
    assert rows[..i + 1][..i] == rows[..i];
  }

  // ---------------------------------------------------------------------
  // The adapter

  /**
   * The render data of one component: the chunk's vertex buffer and vertex
   * offset, the vertex format's stride, and the mesh buffer's index buffer
   * and write offset.
   */
  class RenderData {
    var vb: array<real>
    var floatStride: nat
    var vertexOffset: nat
    var iData: array<int>
    var indexOffset: nat

    /** The vertex format holds at least the nine floats the adapter writes. */
    ghost predicate Valid()
      reads this`floatStride
    {
      floatStride >= 9
    }

    constructor (vb: array<real>, floatStride: nat, vertexOffset: nat, iData: array<int>, indexOffset: nat)
      requires floatStride >= 9
      ensures Valid()
      ensures this.vb == vb && this.floatStride == floatStride && this.vertexOffset == vertexOffset
      ensures this.iData == iData && this.indexOffset == indexOffset
    {
      this.vb := vb;
      this.floatStride := floatStride;
      this.vertexOffset := vertexOffset;
      this.iData := iData;
      this.indexOffset := indexOffset;
    }

    /**
     * Copies the component's indices, shifted by the chunk's vertex offset,
     * into the index buffer from the current write offset on, and advances
     * the write offset by their number.
     */
    method UpdateIndices(comp: Component.SuperTrail)
      modifies iData, this`indexOffset
      ensures iData[..] == PutRow(old(iData[..]), old(indexOffset), IndexRow(vertexOffset, comp.indices))
      ensures indexOffset == old(indexOffset) + |comp.indices|
    {
      var vid := vertexOffset;
      var ib := iData;
      var offset := indexOffset;
      var indices := comp.indices;
      ghost var b0 := ib[..];
      ghost var row := IndexRow(vid, indices);
      PutNothing(b0, offset);
      var i := 0;
      while i < |indices|
        modifies ib
        invariant 0 <= i <= |indices| && offset == indexOffset + i
        invariant ib[..] == PutRow(b0, indexOffset, row[..i])
      {
        Store(ib, offset, Wrap16(vid + indices[i]));
        PutRowThenNext(b0, indexOffset, row[..i], [row[i]]);
        assert row[..i] + [row[i]] == row[..i + 1];
        offset := offset + 1;
        i := i + 1;
      }
      assert row[..|indices|] == row;
      indexOffset := indexOffset + |indices|;
    }

    /**
     * The full vertex fill. When the uv, colour and alpha lengths agree with
     * positions.length / 3 every vertex record gets its position (through
     * the world matrix in Local mode), uv, colour and alpha; otherwise
     * nothing is written.
     */
    method UpdateVertexsAndUv(comp: Component.SuperTrail, worldMatrix: Mat4)
      requires Valid()
      modifies vb
      ensures !VertexDataConsistent(comp.positions, comp.uvs, comp.colors, comp.alphas) ==> vb[..] == old(vb[..])
      ensures VertexDataConsistent(comp.positions, comp.uvs, comp.colors, comp.alphas) ==>
                && |comp.positions| == 3 * |comp.alphas| && |comp.uvs| == 2 * |comp.alphas|
                && |comp.colors| == 3 * |comp.alphas|
                && vb[..] == Written(old(vb[..]), floatStride, 0,
                                     VertexRows(comp.coordinateMode, worldMatrix, comp.positions,
                                                comp.uvs, comp.colors, comp.alphas))
    {
      var positions, uvs, colors, alphas := comp.positions, comp.uvs, comp.colors, comp.alphas;
      var vertCount := |positions| as real / 3.0;
      var expectedPosLen := vertCount * 3.0;
      var expectedUvLen := vertCount * 2.0;
      var expectedColorLen := vertCount * 3.0;
      var expectedAlphaLen := vertCount;
      if |positions| as real != expectedPosLen || |uvs| as real != expectedUvLen
         || |colors| as real != expectedColorLen || |alphas| as real != expectedAlphaLen {
        return;
      }
      GuardCounts(positions, uvs, colors, alphas);
      if comp.coordinateMode == Local {
        FillLocal(vb, floatStride, worldMatrix, positions, uvs, colors, alphas);
      } else {
        FillWorld(vb, floatStride, worldMatrix, positions, uvs, colors, alphas);
      }
    }

    /**
     * The uv refresh: fields 3 to 8 (uv, colour, alpha) of every vertex,
     * under the same length guard without the position check; positions
     * are left as they are.
     */
    method UpdateJustUv(comp: Component.SuperTrail)
      requires Valid()
      modifies vb
      ensures !AttributeDataConsistent(comp.positions, comp.uvs, comp.colors, comp.alphas) ==> vb[..] == old(vb[..])
      ensures AttributeDataConsistent(comp.positions, comp.uvs, comp.colors, comp.alphas) ==>
                && |comp.uvs| == 2 * |comp.alphas| && |comp.colors| == 3 * |comp.alphas|
                && vb[..] == Written(old(vb[..]), floatStride, 3, AttributeRows(comp.uvs, comp.colors, comp.alphas))
    {
      var positions, uvs, colors, alphas := comp.positions, comp.uvs, comp.colors, comp.alphas;
      var vertCount := |positions| as real / 3.0;
      var expectedUvLen := vertCount * 2.0;
      var expectedColorLen := vertCount * 3.0;
      var expectedAlphaLen := vertCount;
      if |uvs| as real != expectedUvLen || |colors| as real != expectedColorLen || |alphas| as real != expectedAlphaLen {
        return;
      }
      AttributeGuardCounts(positions, uvs, colors, alphas);
      var n := |alphas|;
      var stride := floatStride;
      ghost var rows := AttributeRows(uvs, colors, alphas);
      ghost var b0 := vb[..];
      var i := 0;
      while i as real < vertCount
        invariant 0 <= i <= n
        invariant vb[..] == Written(b0, stride, 3, rows[..i])
      {
        var offset := i * stride;
        var uvIdx, colorIdx := i * 2, i * 3;
        StoreAttributes(vb, offset + 3, uvs[uvIdx], uvs[uvIdx + 1],
                        colors[colorIdx], colors[colorIdx + 1], colors[colorIdx + 2], alphas[i]);
        WrittenStep(b0, stride, 3, rows, i);
        i := i + 1;
      }
      assert rows[..n] == rows;
    }

    /**
     * The colour refresh: fields 5 to 8 (colour and alpha) of every vertex,
     * when there is a vertex and the colour and alpha lengths agree with
     * positions.length / 3; otherwise nothing is written.
     */
    method UpdateColor(comp: Component.SuperTrail)
      requires Valid()
      modifies vb
      ensures (|comp.positions| == 0 || !ColorDataConsistent(comp.positions, comp.colors, comp.alphas))
              ==> vb[..] == old(vb[..])
      ensures |comp.positions| != 0 && ColorDataConsistent(comp.positions, comp.colors, comp.alphas) ==>
                && |comp.colors| == 3 * |comp.alphas|
                && vb[..] == Written(old(vb[..]), floatStride, 5, ColorRows(comp.colors, comp.alphas))
    {
      var positions, colors, alphas := comp.positions, comp.colors, comp.alphas;
      var vertCount := |positions| as real / 3.0;
      if vertCount == 0.0 {
        return;
      }
      var expectedColorLen := vertCount * 3.0;
      var expectedAlphaLen := vertCount;
      if |colors| as real != expectedColorLen || |alphas| as real != expectedAlphaLen {
        return;
      }
      ColorGuardCounts(positions, colors, alphas);
      var n := |alphas|;
      var stride := floatStride;
      ghost var rows := ColorRows(colors, alphas);
      ghost var b0 := vb[..];
      var i := 0;
      while i as real < vertCount
        invariant 0 <= i <= n
        invariant vb[..] == Written(b0, stride, 5, rows[..i])
      {
        var offset := i * stride;
        var colorIdx := i * 3;
        StoreColor(vb, offset + 5, colors[colorIdx], colors[colorIdx + 1], colors[colorIdx + 2], alphas[i]);
        WrittenStep(b0, stride, 5, rows, i);
        i := i + 1;
      }
      assert rows[..n] == rows;
    }
  }

  // ---------------------------------------------------------------------
  // Properties

  /**
   * The full guard holds exactly when the position, uv and colour lengths
   * are 3, 2 and 3 times the alpha length (then vertCount is that length).
   */
  lemma GuardCounts(positions: seq<real>, uvs: seq<real>, colors: seq<real>, alphas: seq<real>)
    ensures VertexDataConsistent(positions, uvs, colors, alphas) <==>
            |positions| == 3 * |alphas| && |uvs| == 2 * |alphas| && |colors| == 3 * |alphas|
  {
    var vertCount := |positions| as real / 3.0;
    assert vertCount * 3.0 == |positions| as real;
  }

  /**
   * The uv refresh's guard is the same condition: the alpha check already
   * forces positions.length to be 3 times the alpha length.
   */
  lemma AttributeGuardCounts(positions: seq<real>, uvs: seq<real>, colors: seq<real>, alphas: seq<real>)
    ensures AttributeDataConsistent(positions, uvs, colors, alphas) <==>
            |positions| == 3 * |alphas| && |uvs| == 2 * |alphas| && |colors| == 3 * |alphas|
  {
    var vertCount := |positions| as real / 3.0;
    assert vertCount * 3.0 == |positions| as real;
  }

  /** The colour refresh's guard in integer terms. */
  lemma ColorGuardCounts(positions: seq<real>, colors: seq<real>, alphas: seq<real>)
    ensures ColorDataConsistent(positions, colors, alphas) <==>
            |positions| == 3 * |alphas| && |colors| == 3 * |alphas|
  {
    var vertCount := |positions| as real / 3.0;
    assert vertCount * 3.0 == |positions| as real;
  }

  /** A later vertex record starts after every field of an earlier one. */
  lemma LaterRecord(i: nat, i': nat, stride: nat, lo: nat, k: nat)
    requires i < i' && lo + k < stride
    ensures i * stride + lo + k < i' * stride + lo
    decreases i' - i
  {
    if i + 1 < i' {
      LaterRecord(i, i' - 1, stride, lo, k);
    }
    assert i' * stride == (i' - 1) * stride + stride;
  }

  /**
   * Reading back: after the fill, field lo + k of vertex i holds entry k of
   * row i, whenever that entry lies inside the buffer.
   */
  lemma {:induction false} WrittenAt(buf: seq<real>, stride: nat, lo: nat, rows: seq<seq<real>>, i: nat, k: nat)
    requires RowsFit(stride, lo, rows)
    requires i < |rows| && k < |rows[i]| && i * stride + lo + k < |buf|
    ensures Written(buf, stride, lo, rows)[i * stride + lo + k] == rows[i][k]
    decreases |rows|
  {
    var last := |rows| - 1;
    if i < last {
      assert RowsFit(stride, lo, rows[..last]);
      assert rows[..last][i] == rows[i];
      WrittenAt(buf, stride, lo, rows[..last], i, k);
      LaterRecord(i, last, stride, lo, k);
    }
  }

  /** Entries outside every written field keep their old value. */
  lemma {:induction false} WrittenElsewhere(buf: seq<real>, stride: nat, lo: nat, rows: seq<seq<real>>, j: nat)
    requires j < |buf|
    requires forall i :: 0 <= i < |rows| ==> !(i * stride + lo <= j < i * stride + lo + |rows[i]|)
    ensures Written(buf, stride, lo, rows)[j] == buf[j]
    decreases |rows|
  {
    if rows != [] {
      var last := |rows| - 1;
      assert forall i :: 0 <= i < last ==> rows[..last][i] == rows[i];
      WrittenElsewhere(buf, stride, lo, rows[..last], j);
    }
  }

  /** The buffer already holds every in-range entry of every row. */
  predicate Holds(buf: seq<real>, stride: nat, lo: nat, rows: seq<seq<real>>)
  {
    forall i, k :: 0 <= i < |rows| && 0 <= k < |rows[i]| && i * stride + lo + k < |buf| ==>
      buf[i * stride + lo + k] == rows[i][k]
  }

  /** Storing a run the buffer already holds changes nothing. */
  lemma PutHeldRow(buf: seq<real>, at: nat, row: seq<real>)
    requires forall k :: 0 <= k < |row| && at + k < |buf| ==> buf[at + k] == row[k]
    ensures PutRow(buf, at, row) == buf
  {
    forall j | 0 <= j < |buf|
      ensures PutRow(buf, at, row)[j] == buf[j]
    {
      if at <= j < at + |row| {
        assert buf[at + (j - at)] == row[j - at];
      }
    }
  }

  /** Writing rows that the buffer already holds changes nothing. */
  lemma {:induction false} WrittenNoOp(buf: seq<real>, stride: nat, lo: nat, rows: seq<seq<real>>)
    requires Holds(buf, stride, lo, rows)
    ensures Written(buf, stride, lo, rows) == buf
    decreases |rows|
  {
    if rows != [] {
      var last := |rows| - 1;
      var front := rows[..last];
      assert Holds(buf, stride, lo, front) by {
        forall i, k | 0 <= i < |front| && 0 <= k < |front[i]| && i * stride + lo + k < |buf|
          ensures buf[i * stride + lo + k] == front[i][k]
        {
          assert front[i] == rows[i];
        }
      }
      WrittenNoOp(buf, stride, lo, front);
      var at := last * stride + lo;
      forall k | 0 <= k < |rows[last]| && at + k < |buf|
        ensures buf[at + k] == rows[last][k]
      {
        assert buf[last * stride + lo + k] == rows[last][k];
      }
      PutHeldRow(buf, at, rows[last]);
    }
  }

  /**
   * A uv refresh right after a full fill of the same component data changes
   * nothing: it rewrites fields 3 to 8 with the values the fill put there.
   */
  lemma UvRefreshAfterFillIsNoOp(buf: seq<real>, stride: nat, mode: CoordinateMode, m: Mat4,
                                 positions: seq<real>, uvs: seq<real>, colors: seq<real>, alphas: seq<real>)
    requires stride >= 9
    requires |positions| == 3 * |alphas| && |uvs| == 2 * |alphas| && |colors| == 3 * |alphas|
    ensures var filled := Written(buf, stride, 0, VertexRows(mode, m, positions, uvs, colors, alphas));
            Written(filled, stride, 3, AttributeRows(uvs, colors, alphas)) == filled
  {
    var full := VertexRows(mode, m, positions, uvs, colors, alphas);
    var attrs := AttributeRows(uvs, colors, alphas);
    var filled := Written(buf, stride, 0, full);
    forall i, k | 0 <= i < |attrs| && 0 <= k < |attrs[i]| && i * stride + 3 + k < |filled|
      ensures filled[i * stride + 3 + k] == attrs[i][k]
    {
      WrittenAt(buf, stride, 0, full, i, 3 + k);
      assert full[i][3 + k] == attrs[i][k];
    }
    WrittenNoOp(filled, stride, 3, attrs);
  }

  /**
   * A colour refresh right after a full fill of the same component data
   * changes nothing either.
   */
  lemma ColorRefreshAfterFillIsNoOp(buf: seq<real>, stride: nat, mode: CoordinateMode, m: Mat4,
                                    positions: seq<real>, uvs: seq<real>, colors: seq<real>, alphas: seq<real>)
    requires stride >= 9
    requires |positions| == 3 * |alphas| && |uvs| == 2 * |alphas| && |colors| == 3 * |alphas|
    ensures var filled := Written(buf, stride, 0, VertexRows(mode, m, positions, uvs, colors, alphas));
            Written(filled, stride, 5, ColorRows(colors, alphas)) == filled
  {
    var full := VertexRows(mode, m, positions, uvs, colors, alphas);
    var cols := ColorRows(colors, alphas);
    var filled := Written(buf, stride, 0, full);
    forall i, k | 0 <= i < |cols| && 0 <= k < |cols[i]| && i * stride + 5 + k < |filled|
      ensures filled[i * stride + 5 + k] == cols[i][k]
    {
      WrittenAt(buf, stride, 0, full, i, 5 + k);
      assert full[i][5 + k] == cols[i][k];
    }
    WrittenNoOp(filled, stride, 5, cols);
  }

  /**
   * Local mode under the identity world matrix writes what World mode
   * writes, as long as every z is 0 (the builder writes z = 0).
   */
  lemma IdentityLocalIsWorld(positions: seq<real>, uvs: seq<real>, colors: seq<real>, alphas: seq<real>)
    requires |positions| == 3 * |alphas| && |uvs| == 2 * |alphas| && |colors| == 3 * |alphas|
    requires forall i :: 0 <= i < |alphas| ==> positions[3 * i + 2] == 0.0
    ensures VertexRows(Local, Identity, positions, uvs, colors, alphas)
            == VertexRows(World, Identity, positions, uvs, colors, alphas)
  {
    forall i | 0 <= i < |alphas|
      ensures PositionRow(Local, Identity, positions, i) == PositionRow(World, Identity, positions, i)
    {
      IdentityKeepsPoint(positions[3 * i], positions[3 * i + 1]);
    }
  }

  /**
   * The mesh the component builds from n >= 2 points passes every guard,
   * with 2n vertices, and its indices fit 16 bits unchanged when the chunk's
   * first vertex leaves room for 2n vertices below 2^16.
   */
  lemma BuiltMeshPassesGuards(positions: seq<real>, uvs: seq<real>, alphas: seq<real>, colors: seq<real>,
                              indices: seq<int>, fr: Strip.Frame, vid: nat)
    requires Strip.LaidOut(positions, uvs, alphas, colors, indices, fr)
    requires vid + 2 * |fr.points| <= 0x1_0000
    ensures VertexDataConsistent(positions, uvs, colors, alphas) && |alphas| == 2 * |fr.points|
    ensures AttributeDataConsistent(positions, uvs, colors, alphas)
    ensures ColorDataConsistent(positions, colors, alphas) && |positions| != 0
    ensures forall k :: 0 <= k < |indices| ==> IndexRow(vid, indices)[k] == vid + indices[k]
  {
    GuardCounts(positions, uvs, colors, alphas);
    AttributeGuardCounts(positions, uvs, colors, alphas);
    ColorGuardCounts(positions, colors, alphas);
    var n := |fr.points|;
    forall k | 0 <= k < |indices|
      ensures indices[k] == Strip.QuadBlock(k / 6)[k % 6]
    {
      assert Strip.At(indices, k) == indices[k];
    }
    Strip.IndicesInRange(indices, n);
  }

  /** The empty mesh passes the full guard and the fill writes nothing. */
  lemma EmptyMeshWritesNothing(buf: seq<real>, stride: nat, mode: CoordinateMode, m: Mat4)
    ensures VertexDataConsistent([], [], [], [])
    ensures Written(buf, stride, 0, VertexRows(mode, m, [], [], [], [])) == buf
  {
    assert VertexRows(mode, m, [], [], [], []) == [];
  }
}
