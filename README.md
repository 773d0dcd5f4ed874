# SuperTrail core, modelled in Dafny

SuperTrail is a trail component for a 2D game engine. As its node moves, it
leaves behind a tapering, fading ribbon drawn as a textured, vertex-coloured
triangle strip. This project models the component's core and proves
properties of it. The core has four parts:

- **Point history** (`ring.dfy`, `Component.SuperTrail`). This is a ring
  buffer: a pool of slots addressed by a head slot and a count, modulo
  `maxPoints`.
  - The logical history is oldest first.
  - Each append leaves the last `maxPoints` of the old history followed by
    the new point (`SuperTrail.AddPoint`).
  - Each removal drops exactly the oldest point (`SuperTrail.RemoveOldestPoint`).
  - `k` appends into an empty ring leave the newest `min(k, maxPoints)` of
    them, in order (`Ring.RingKeepsNewest`).
- **Per-tick sampling and decay** (`sampling.dfy`, `SuperTrail.Update`).
  - A tick appends the node's world position when the history is empty, or
    when the position is at least `minDistance` from the newest point in the
    XY plane. Nothing is appended while paused.
  - When nothing was appended, a fractional accumulator gains
    `count / fadeTime` points per second. The whole part of the accumulator
    is then removed from the tail.
  - `Sampling.Tick` states the tick on values. The class methods are proved
    to update their fields exactly as it says.
- **Strip mesh builder** (`strip.dfy`, `SuperTrail.BuildMesh`). From
  n ≥ 2 points it builds the following, written in place through running
  index counters:
  - 2n vertices, two per point, each with a position, a uv pair, an alpha
    and an RGB colour.
  - 6(n − 1) indices, two triangles per segment.
  - `Strip.LaidOut` states the exact layout of all five arrays as a function
    of the history, the style, the UV cache, the square-root routines and the
    inverse world matrix.
- **Render-adapter fills** (`assembler.dfy`, `Assembler.RenderData`).
  - The full fill copies position (through the world matrix in Local mode),
    uv, colour and alpha into an interleaved vertex buffer with a stride of
    at least 9.
  - The uv refresh and the colour refresh rewrite only fields 3–8 and 5–8 of
    each vertex.
  - The index fill copies the indices, shifted by the chunk's vertex offset,
    into a 16-bit index buffer.
  - Each vertex fill is guarded by length checks against
    `positions.length / 3`, and writes nothing when the checks fail.
  - The buffers are arrays. A store past the end of a typed array is ignored,
    and an index store keeps its value modulo 2^16.

The node's world position, the frame's `dt`, the node's world matrix and its
inverse are parameters. The two square-root routines (`Math.sqrt` and the
bit-trick `fastInvSqrt`) are uninterpreted function values inside
`Geometry.Numerics`. Numbers are Dafny `real`s.

### The fade time

The editor tooltip of `fadeTime` (`assets/SuperTrail/SuperTrail.ts:153`)
describes it as the time, in seconds, for the trail to disappear completely
after the node stops. The decay step (`assets/SuperTrail/SuperTrail.ts:350-356`)
recomputes the rate `pointCount / fadeTime` from the shrinking count on every
tick, so the trail decays roughly geometrically instead. The model follows
the code:

- `Sampling.DecayScenario` proves that with `fadeTime = 1`, ten static points
  and ten idle ticks of 0.1 s, four points remain after one `fadeTime`, with
  an accumulator of 0.8.
- `Sampling.IdleTickOverFadeTimeEmpties` proves that a single idle tick at
  least `fadeTime` long empties the history.

## Model

| member | source | states |
|---|---|---|
| Geometry.Rhw | assets/SuperTrail/SuperTrail.ts:787-788 | The reciprocal homogeneous weight of (x, y, 0, 1): 1 / (m03 x + m07 y + m15), or 1 when that weight is 0 |
| Geometry.Transform2 | assets/SuperTrail/SuperTrail.ts:787-792 | The x and y of (x, y, 0, 1) under the matrix, multiplied by the reciprocal weight |
| Geometry.TransformZ | assets/SuperTrail/SuperTrail.ts:793 | The z of the same transform, multiplied by the reciprocal weight |
| Geometry.IdentityKeepsPoint | assets/SuperTrail/SuperTrail.ts:787-793 | Under the identity matrix, the homogeneous transform leaves (x, y) unchanged and yields z = 0 |
| Ring.ModBelowTwice | assets/SuperTrail/SuperTrail.ts:235 | A value below twice the modulus reduces by at most one subtraction, as the head/count slot arithmetic relies on |
| Ring.Window | assets/SuperTrail/SuperTrail.ts:232-243 | A ring of capacity m holds the newest m elements of everything appended, or all of them while fewer than m were appended |
| Ring.Slot | assets/SuperTrail/SuperTrail.ts:235 | Logical position i of a ring with head h and capacity m lives in slot (h + i) mod m |
| Ring.Logical | assets/SuperTrail/SuperTrail.ts:252-256 | The history read back from the pool: entry i is the point in slot (head + i) mod maxPoints, for i below the count |
| Ring.AppendAll | assets/SuperTrail/SuperTrail.ts:232-243 | The contents after appending each element in turn to a capacity-m ring, one window per append |
| Ring.SlotsDistinct | assets/SuperTrail/SuperTrail.ts:252-256 | The first maxPoints logical positions of the ring occupy pairwise different slots |
| Ring.ShiftSlot | assets/SuperTrail/SuperTrail.ts:241 | Advancing the head by one slot shifts every logical position down by one |
| Ring.AppendNotFull | assets/SuperTrail/SuperTrail.ts:233-237 | Writing slot (head + count) mod maxPoints and incrementing the count adds the point as newest and keeps the older points |
| Ring.AppendFull | assets/SuperTrail/SuperTrail.ts:238-242 | On a full ring, overwriting the head slot and advancing the head drops the oldest point and adds the new one as newest |
| Ring.DropOldest | assets/SuperTrail/SuperTrail.ts:245-250 | Advancing the head of a non-empty ring removes exactly the oldest element and keeps the rest in order |
| Ring.DropFront | assets/SuperTrail/SuperTrail.ts:357-359 | Removing the oldest element k times (k at most the length) shortens the history by exactly k |
| Ring.DropFrontIsSuffix | assets/SuperTrail/SuperTrail.ts:357-359 | Removing the oldest element k times leaves exactly the suffix of the history from position k |
| Ring.WindowAbsorbs | assets/SuperTrail/SuperTrail.ts:232-243 | Truncating to the newest m twice is the same as truncating once after all the appends |
| Ring.AppendAllIsWindow | assets/SuperTrail/SuperTrail.ts:232-243 | Appending a sequence point by point to a ring of capacity m gives the last m of everything appended |
| Ring.RingKeepsNewest | assets/SuperTrail/SuperTrail.ts:232-256 | A ring that starts empty holds the newest min(k, m) of its k appends, in insertion order |
| Sampling.PlanarDistSq | assets/SuperTrail/SuperTrail.ts:334-336 | The squared planar distance is non-negative and is zero for equal x and y, whatever z is |
| Sampling.Settle | assets/SuperTrail/SuperTrail.ts:355-360 | Settling removes at most count points and leaves an accumulator in [0, 1) |
| Sampling.Appends | assets/SuperTrail/SuperTrail.ts:327-343 | A tick appends its world position exactly when it is not paused and either the history is empty or the planar squared distance to the newest point is at least minDistance squared |
| Sampling.Decays | assets/SuperTrail/SuperTrail.ts:352 | Decay runs exactly on a tick that appended nothing, with a positive fadeTime and a non-empty history |
| Sampling.Rate | assets/SuperTrail/SuperTrail.ts:353 | The fade speed is the point count divided by fadeTime, in points per second |
| Sampling.Decay | assets/SuperTrail/SuperTrail.ts:350-365 | Removes at most count points; when nothing decays, removes none and resets the accumulator to 0; otherwise leaves the accumulator in [0, 1) |
| Sampling.DecayConserves | assets/SuperTrail/SuperTrail.ts:352-362 | Removes no more whole points than were accumulated; removed plus remaining accumulator equals what was accumulated, unless the whole history went |
| Sampling.Tick | assets/SuperTrail/SuperTrail.ts:327-370 | Appends iff the sampling gate holds, and then windows the history to maxPoints; otherwise removes only from the tail; keeps count ≤ maxPoints and the accumulator in [0, 1); changed iff appended, removed, or fewer than two points remain |
| Sampling.TickWithoutDecay | assets/SuperTrail/SuperTrail.ts:350-365 | With fadeTime ≤ 0 a tick only samples: the history is windowed after an append and kept otherwise |
| Sampling.Run | assets/SuperTrail/SuperTrail.ts:318-370 | The history after a sequence of ticks, each fed its world position and the same dt |
| Sampling.Accepted | assets/SuperTrail/SuperTrail.ts:333-343 | Reference sampler on an unbounded list: keeps a position exactly when no point was kept yet or it lies at least minDistance (in the plane) from the last kept one |
| Sampling.Newest | assets/SuperTrail/SuperTrail.ts:258-262 | The newest point of a history, or none when it is empty |
| Sampling.AcceptedThenWindowed | assets/SuperTrail/SuperTrail.ts:337-342 | After an append the newest point is the appended one, and later windowing absorbs the earlier one |
| Sampling.RunWithoutDecay | assets/SuperTrail/SuperTrail.ts:327-343 | Without decay and pausing, the ring after any run of ticks is the newest maxPoints of an independent distance-gated reference sampler's output |
| Sampling.IdleGainCoversCount | assets/SuperTrail/SuperTrail.ts:353-354 | An idle step of at least fadeTime accumulates at least one point per remaining point |
| Sampling.IdleDecayRemovesAll | assets/SuperTrail/SuperTrail.ts:352-362 | An idle decay step of at least fadeTime removes every point |
| Sampling.IdleTickOverFadeTimeEmpties | assets/SuperTrail/SuperTrail.ts:350-362 | An idle tick at least fadeTime long empties the history |
| Sampling.ScenarioAccepted | assets/SuperTrail/SuperTrail.ts:333-339 | With a gate of 3, the reference sampler rejects only (0,2), which is 2 from (0,0) |
| Sampling.SamplingScenario | assets/SuperTrail/SuperTrail.ts:327-343 | Capacity 4, gate 3, positions (0,0) (0,2) (0,5) (0,8) (0,11) (0,14): the ring ends as the last four |
| Sampling.IdleDecay | assets/SuperTrail/SuperTrail.ts:352-362 | Repeated idle ticks never increase the point count |
| Sampling.IdleTenthOfSecond | assets/SuperTrail/SuperTrail.ts:353-360 | With fadeTime 1 and dt 0.1, c points accumulate c/10, and the whole part of the accumulator is removed |
| Sampling.IdleTick | assets/SuperTrail/SuperTrail.ts:352-362 | One idle tick of the decay scenario steps from (c, accum) to (next, nextAccum) |
| Sampling.DecayScenario | assets/SuperTrail/SuperTrail.ts:352-362 | fadeTime 1, ten static points, ten idle ticks of 0.1 s: four points remain, with accumulator 0.8 |
| Strip.Param | assets/SuperTrail/SuperTrail.ts:536 | t lies in [0, 1]; it is 0 exactly at the oldest point and 1 exactly at the newest |
| Strip.IndicesInRange | assets/SuperTrail/SuperTrail.ts:604-616 | Every index of the quad-strip pattern names one of the 2n vertices |
| Strip.HalfWidth | assets/SuperTrail/SuperTrail.ts:537 | Half the width at parameter t, linear from tailWidth at the tail to headWidth at the head |
| Strip.Channel | assets/SuperTrail/SuperTrail.ts:482-489 | An 8-bit channel divided by 255 and interpolated linearly from its tail value (t = 0) to its head value (t = 1) |
| Strip.Alpha | assets/SuperTrail/SuperTrail.ts:538 | The vertex alpha at parameter t: the alpha channel interpolated from tailAlpha to headAlpha |
| Strip.Shade | assets/SuperTrail/SuperTrail.ts:540-542 | The vertex colour at parameter t: each of r, g and b interpolated from tailColor to headColor |
| Strip.Direction | assets/SuperTrail/SuperTrail.ts:510-516 | The planar tangent at point i is the central difference of its neighbours, with the point itself standing in for the missing neighbour at either end |
| Strip.Unit | assets/SuperTrail/SuperTrail.ts:517-529 | Tangent normalisation: a squared length at most 0.0001 leaves the direction unscaled (fast path) or divided by 1; otherwise it is scaled by the fast reciprocal square root or divided by the square root |
| Strip.Normal | assets/SuperTrail/SuperTrail.ts:531-533 | The normal at point i is its normalised tangent turned a quarter to the left, (-dy, dx) |
| Strip.Offset | assets/SuperTrail/SuperTrail.ts:544-548 | The left vertex lies at p + n * halfW and the right at p - n * halfW |
| Strip.Sides | assets/SuperTrail/SuperTrail.ts:510-548 | The world-space vertex pair of point i: offset along its normal by the half width at its parameter |
| Strip.Project | assets/SuperTrail/SuperTrail.ts:552-563 | Both vertices of a pair taken through the inverse world matrix, with the reciprocal weight (1 when the weight is 0) |
| Strip.Emitted | assets/SuperTrail/SuperTrail.ts:550-570 | The emitted pair is projected in Local mode and the world-space pair unchanged in World mode |
| Strip.PositionBlock | assets/SuperTrail/SuperTrail.ts:572-578 | The six position floats of point i: left x, y, 0, then right x, y, 0 |
| Strip.V | assets/SuperTrail/SuperTrail.ts:581 | The v coordinate at parameter t is vMin + areaH * (1 - t): vMax at the tail, vMin at the head |
| Strip.UvBlock | assets/SuperTrail/SuperTrail.ts:580-585 | The four uv floats of a point: (uMin, v) for the left vertex and (uMax, v) for the right |
| Strip.AlphaBlock | assets/SuperTrail/SuperTrail.ts:587-589 | Both vertices of a point carry the same alpha |
| Strip.ColorBlock | assets/SuperTrail/SuperTrail.ts:591-597 | Both vertices of a point carry the same r, g, b |
| Strip.QuadBlock | assets/SuperTrail/SuperTrail.ts:600-616 | Segment i is two triangles (2i, 2i+1, 2i+2) and (2i+2, 2i+1, 2i+3) |
| Strip.LaidOut | assets/SuperTrail/SuperTrail.ts:491-616 | The five mesh arrays hold the strip: 6n positions, 4n uvs, 2n alphas, 6n colours and 6(n-1) indices, each entry the matching entry of its point block or segment block |
| Strip.IsUvExtent | assets/SuperTrail/SuperTrail.ts:454-468 | uMin and uMax are the smallest and largest u, and vMin and vMax the smallest and largest v, among the four corners of the sprite UVs |
| Strip.EveryVertexUsed | assets/SuperTrail/SuperTrail.ts:604-616 | Every one of the 2n vertices appears in some triangle |
| Strip.PairsShareAttributes | assets/SuperTrail/SuperTrail.ts:572-597 | The two vertices of a point share alpha, RGB and v; left u = uMin, right u = uMax; both z positions are 0 |
| Strip.EndpointsTakeEndStyles | assets/SuperTrail/SuperTrail.ts:536-542 | The oldest point takes exactly the tail width, alpha, colour and v = vMin + areaH; the newest takes the head values and v = vMin |
| Strip.ShortTangentUnscaled | assets/SuperTrail/SuperTrail.ts:519-529 | A tangent with squared length ≤ 0.0001 is left unscaled by both normalisation paths |
| Strip.StandardUnit | assets/SuperTrail/SuperTrail.ts:525-528 | Above the threshold, the standard path divides both components by the square root of the squared length |
| Strip.ExactSqrtGivesUnit | assets/SuperTrail/SuperTrail.ts:525-528 | With an exact square root, the standard path yields a unit tangent |
| Strip.PairStraddlesPoint | assets/SuperTrail/SuperTrail.ts:544-548 | In World mode the midpoint of a point's pair is the point, and the pair differs by twice the half width along the normal |
| Strip.OffsetStraddles | assets/SuperTrail/SuperTrail.ts:545-548 | Offsetting by ±normal·h gives midpoint p and a difference of 2h along the normal |
| Strip.OffsetSpans | assets/SuperTrail/SuperTrail.ts:545-548 | Offsetting along a unit normal puts the two sides exactly 2h apart |
| Strip.PairSpansWidth | assets/SuperTrail/SuperTrail.ts:532-548 | With a unit normal, a World-mode pair is exactly the interpolated width apart |
| Strip.ScanUvRect | assets/SuperTrail/SuperTrail.ts:454-468 | The results bound every corner's u (v), each equals some corner's u (v), and uMin ≤ uMax, vMin ≤ vMax |
| Strip.UvExtentUnique | assets/SuperTrail/SuperTrail.ts:454-468 | Any two extents of the same UV quad agree, so the scan's result is determined |
| Component.Resized | assets/SuperTrail/SuperTrail.ts:498-502 | Assigning an array length gives that length and keeps the surviving prefix |
| Component.SuperTrail.RingValid | assets/SuperTrail/SuperTrail.ts:222-256 | The ring invariant: a positive capacity, the head below it, the count at most it, and a pool of at least maxPoints slots once points exist |
| Component.SuperTrail.Valid | assets/SuperTrail/SuperTrail.ts:350-362 | The ring invariant, and a fade accumulator that holds only the fraction left after whole points are removed |
| Component.SuperTrail.History | assets/SuperTrail/SuperTrail.ts:252-256 | The point history, oldest first, read from the pool through the head and count |
| Component.SuperTrail.Textured | assets/SuperTrail/SuperTrail.ts:319 | update proceeds only when a sprite frame with a texture is set |
| Component.SuperTrail.MeshEmpty | assets/SuperTrail/SuperTrail.ts:375-381 | All five mesh arrays are empty, as update leaves them with fewer than two points |
| Component.PointAttributes | assets/SuperTrail/SuperTrail.ts:536-542 | The hoisted, normalised end values interpolated at t = i/(n−1) give exactly the point's uv, alpha and colour blocks |
| Component.WritePoint | assets/SuperTrail/SuperTrail.ts:572-597 | One iteration's writes extend the laid-out prefix of all four per-vertex arrays by one point |
| Component.SuperTrail.constructor | assets/SuperTrail/SuperTrail.ts:57-192 | The editor defaults, an empty history and pool, empty mesh arrays, and a dirty UV cache |
| Component.SuperTrail.InitPointPool | assets/SuperTrail/SuperTrail.ts:222-230 | The pool grows to maxPoints slots holding the origin, existing slots are kept, and the history is empty |
| Component.SuperTrail.OnLoad | assets/SuperTrail/SuperTrail.ts:213-220 | After loading, the pool has maxPoints slots and the history is empty |
| Component.SuperTrail.AddPoint | assets/SuperTrail/SuperTrail.ts:232-243 | Not full: slot (head+count) mod maxPoints is written and the count grows. Full: the head slot is overwritten and the head advances. Either way the history becomes the last maxPoints of old history + [p] |
| Component.SuperTrail.RemoveOldestPoint | assets/SuperTrail/SuperTrail.ts:245-250 | No-op on an empty history; otherwise the head advances, the count drops, and the history loses exactly its oldest point |
| Component.SuperTrail.GetPoint | assets/SuperTrail/SuperTrail.ts:252-256 | Index i below the count reads logical element i (0 = oldest) |
| Component.SuperTrail.GetLastPoint | assets/SuperTrail/SuperTrail.ts:258-262 | None iff the count is 0; otherwise the newest point of the history |
| Component.SuperTrail.OnEnable | assets/SuperTrail/SuperTrail.ts:264-290 | History, head, accumulator, new-point flag and mesh arrays are reset; the pool has at least maxPoints slots (a large enough pool is untouched); the render data is marked |
| Component.SuperTrail.OnDisable | assets/SuperTrail/SuperTrail.ts:292-312 | Head, count, accumulator, new-point flag and mesh arrays are reset |
| Component.SuperTrail.Clear | assets/SuperTrail/SuperTrail.ts:394-417 | Head, count, accumulator, new-point flag and mesh arrays are reset, and the render data is marked |
| Component.SuperTrail.Pause | assets/SuperTrail/SuperTrail.ts:422-424 | Sampling is suspended and the history is kept |
| Component.SuperTrail.Resume | assets/SuperTrail/SuperTrail.ts:429-431 | Sampling is resumed and the history is kept |
| Component.SuperTrail.IsPaused | assets/SuperTrail/SuperTrail.ts:436-438 | Answers the paused flag |
| Component.SuperTrail.SetSpriteFrame | assets/SuperTrail/SuperTrail.ts:75-85 | The same frame changes nothing; a different frame is stored, the UV cache is invalidated and the render data is marked |
| Component.SuperTrail.Update | assets/SuperTrail/SuperTrail.ts:318-391 | No textured frame: nothing changes. Otherwise history, accumulator and new-point flag follow Sampling.Tick; dirty marking follows append, removal or < 2 points; < 2 points gives an empty mesh and leaves the UV cache and its dirty flag as they were; otherwise the mesh is exactly Strip.LaidOut of the new history, with the UV cache rescanned when it was dirty |
| Component.SuperTrail.EmitPair | assets/SuperTrail/SuperTrail.ts:510-570 | The four emitted coordinates of point i are Strip.Emitted: normalised central-difference tangent, normal, interpolated half width, and Local-mode projection |
| Component.SuperTrail.Step | assets/SuperTrail/SuperTrail.ts:321-391 | With a textured frame: history, accumulator and new-point flag follow Sampling.Tick; the mesh and the UV cache end as Present states for the new history |
| Component.SuperTrail.Present | assets/SuperTrail/SuperTrail.ts:372-390 | ≥ 2 points: the UV cache is clean (rescanned when it was dirty) and the mesh is laid out from the history; otherwise the mesh is emptied and marked, and the UV cache and its dirty flag are left as they were; marked iff data changed or it was emptied |
| Component.SuperTrail.Advance | assets/SuperTrail/SuperTrail.ts:321-370 | The pool is readied, then the history, accumulator and flag become Sampling.Tick's; answers whether a point was appended or removed, that is whether the flag is set or the count went down |
| Component.SuperTrail.Sample | assets/SuperTrail/SuperTrail.ts:327-348 | The new-point flag is the gate (not paused, and empty history or planar distance ≥ minDistance); on append the history is windowed, otherwise kept |
| Component.SuperTrail.RemoveOldestPoints | assets/SuperTrail/SuperTrail.ts:358-360 | The loop removes min(k, count) oldest points and keeps the rest in order |
| Component.SuperTrail.Fade | assets/SuperTrail/SuperTrail.ts:350-365 | The history loses exactly Sampling.Decay's removed count from the tail and the accumulator becomes Decay's; answers whether any were due |
| Component.SuperTrail.BuildMesh | assets/SuperTrail/SuperTrail.ts:440-471 | < 2 points: all arrays are emptied; no sprite frame: nothing changes; otherwise the UV cache is valid and the five arrays are laid out exactly |
| Component.SuperTrail.FillMesh | assets/SuperTrail/SuperTrail.ts:473-617 | The five mesh arrays are exactly Strip.LaidOut for the history, style and UV cache: sizes 6n/4n/2n/6n/6(n−1) and every entry |
| Component.SuperTrail.RefreshUvRect | assets/SuperTrail/SuperTrail.ts:454-471 | A dirty cache is rescanned to the corners' extent with areaH = vMax − vMin and is cleared; a clean cache is kept |
| Component.SuperTrail.VertexPass | assets/SuperTrail/SuperTrail.ts:481-598 | The per-vertex arrays are resized to 2n vertices and every position, uv, alpha and colour entry is point k's block entry |
| Component.SuperTrail.IndexPass | assets/SuperTrail/SuperTrail.ts:600-616 | 6(n−1) indices, segment i holding (2i, 2i+1, 2i+2, 2i+2, 2i+1, 2i+3) |
| Assembler.Wrap16 | assets/SuperTrail/SuperTrail.ts:742 | A 16-bit store keeps a value in [0, 2^16) and keeps in-range values unchanged |
| Assembler.IndexRow | assets/SuperTrail/SuperTrail.ts:740-743 | The index-buffer entries of one fill: each index plus the chunk's first vertex, stored modulo 2^16 |
| Assembler.PutRow | assets/SuperTrail/SuperTrail.ts:790-799 | A run of typed-array stores from a given offset: entries in range are replaced, stores past the end are dropped, the length is kept |
| Assembler.Written | assets/SuperTrail/SuperTrail.ts:779-822 | The vertex buffer after every vertex i, in order, has its row stored from field lo of its record (entry i * stride + lo) |
| Assembler.RowsFit | assets/SuperTrail/SuperTrail.ts:771 | Each row fits within one vertex record of floatStride fields |
| Assembler.VertexDataConsistent | assets/SuperTrail/SuperTrail.ts:751-767 | The full fill's guard: with vertCount = positions.length / 3, the position, uv, colour and alpha lengths are 3, 2, 3 and 1 times vertCount |
| Assembler.AttributeDataConsistent | assets/SuperTrail/SuperTrail.ts:829-839 | The uv refresh's guard: the same, without the position length |
| Assembler.ColorDataConsistent | assets/SuperTrail/SuperTrail.ts:863-873 | The colour refresh's guard: only the colour and alpha lengths |
| Assembler.PositionRow | assets/SuperTrail/SuperTrail.ts:784-815 | The position fields of vertex i: (x, y, 0) through the world matrix with the reciprocal weight in Local mode, x, y, z copied in World mode |
| Assembler.ColorRow | assets/SuperTrail/SuperTrail.ts:883-886 | The colour fields of vertex i: r, g, b from colors[3i..3i+2], then alphas[i] |
| Assembler.AttributeRow | assets/SuperTrail/SuperTrail.ts:850-855 | The attribute fields of vertex i: its uv pair, then its colour fields |
| Assembler.VertexRows | assets/SuperTrail/SuperTrail.ts:779-822 | The full fill writes nine fields per vertex: its position fields, then its attribute fields |
| Assembler.AttributeRows | assets/SuperTrail/SuperTrail.ts:845-856 | The uv refresh writes fields 3 to 8 of every vertex |
| Assembler.ColorRows | assets/SuperTrail/SuperTrail.ts:879-887 | The colour refresh writes fields 5 to 8 of every vertex |
| Assembler.Store | assets/SuperTrail/SuperTrail.ts:742 | A typed-array store changes exactly the addressed entry, or nothing past the end |
| Assembler.StoreColor | assets/SuperTrail/SuperTrail.ts:883-886 | The colour stores write r, g, b, a into four consecutive entries |
| Assembler.StoreAttributes | assets/SuperTrail/SuperTrail.ts:850-855 | The attribute stores write u, v, r, g, b, a into six consecutive entries |
| Assembler.StoreVertex | assets/SuperTrail/SuperTrail.ts:791-799 | The nine stores of one vertex write position then attributes consecutively |
| Assembler.TransformFields | assets/SuperTrail/SuperTrail.ts:787-793 | All three transformed coordinates share the one reciprocal weight rhw |
| Assembler.FillLocal | assets/SuperTrail/SuperTrail.ts:776-800 | Local-mode loop: the buffer becomes the full-fill rows with positions through the world matrix |
| Assembler.FillWorld | assets/SuperTrail/SuperTrail.ts:801-822 | World-mode loop: the buffer becomes the full-fill rows with positions copied |
| Assembler.RenderData.constructor | assets/SuperTrail/SuperTrail.ts:734-738 | The render data holds the chunk's buffer, stride and vertex offset and the mesh buffer's index buffer and offset |
| Assembler.RenderData.UpdateIndices | assets/SuperTrail/SuperTrail.ts:730-745 | Entry indexOffset + k receives vid + indices[k] (16-bit), and the offset advances by indices.length |
| Assembler.RenderData.UpdateVertexsAndUv | assets/SuperTrail/SuperTrail.ts:747-824 | Guard failure: nothing is written. Guard success: the lengths are 3/2/3 × vertices, and each vertex record receives position, uv, colour and alpha |
| Assembler.RenderData.UpdateJustUv | assets/SuperTrail/SuperTrail.ts:825-857 | Guard failure: nothing is written; otherwise only fields 3–8 of each vertex are rewritten |
| Assembler.RenderData.UpdateColor | assets/SuperTrail/SuperTrail.ts:859-888 | No vertices or guard failure: nothing is written; otherwise only fields 5–8 of each vertex are rewritten |
| Assembler.GuardCounts | assets/SuperTrail/SuperTrail.ts:751-767 | The full guard holds iff the position, uv and colour lengths are 3, 2 and 3 times the alpha length |
| Assembler.AttributeGuardCounts | assets/SuperTrail/SuperTrail.ts:829-839 | The uv guard, though it omits the position check, is the same condition |
| Assembler.ColorGuardCounts | assets/SuperTrail/SuperTrail.ts:863-873 | The colour guard holds iff the position and colour lengths are 3 times the alpha length |
| Assembler.LaterRecord | assets/SuperTrail/SuperTrail.ts:790 | A later vertex record starts after every field of an earlier one |
| Assembler.WrittenAt | assets/SuperTrail/SuperTrail.ts:779-822 | After a fill, field lo + k of vertex i reads back row i's entry k, when it lies inside the buffer |
| Assembler.WrittenElsewhere | assets/SuperTrail/SuperTrail.ts:845-856 | Entries outside every written field (the positions, in a refresh) keep their old values |
| Assembler.PutHeldRow | assets/SuperTrail/SuperTrail.ts:850-855 | Storing values a run already holds changes nothing |
| Assembler.WrittenNoOp | assets/SuperTrail/SuperTrail.ts:845-856 | Writing rows the buffer already holds changes nothing |
| Assembler.UvRefreshAfterFillIsNoOp | assets/SuperTrail/SuperTrail.ts:825-857 | A uv refresh right after a full fill of the same data leaves the buffer unchanged |
| Assembler.ColorRefreshAfterFillIsNoOp | assets/SuperTrail/SuperTrail.ts:859-888 | A colour refresh right after a full fill of the same data leaves the buffer unchanged |
| Assembler.IdentityLocalIsWorld | assets/SuperTrail/SuperTrail.ts:776-822 | With the identity matrix and all z = 0, Local mode writes what World mode writes |
| Assembler.BuiltMeshPassesGuards | assets/SuperTrail/SuperTrail.ts:491-502 | A mesh built from n points passes all three guards with 2n vertices; its indices are written without wrapping when vid + 2n ≤ 2^16 |
| Assembler.EmptyMeshWritesNothing | assets/SuperTrail/SuperTrail.ts:751-767 | The empty mesh passes the full guard, and the full fill then writes nothing |

## Left out

- `fastInvSqrt` (the float/int32 bit trick) and `Math.sqrt` are uninterpreted functions. The only fact assumed about the square root is that it is positive on positive input. Unit-length facts are stated under the hypothesis of an exact square root.
- `Mat4.invert` is not modelled. The inverse world matrix is a parameter of `Update`, and the adapter's world matrix is a parameter of `UpdateVertexsAndUv`.
- Floating-point rounding is not modelled, neither JS doubles nor the Float32 vertex buffer. All numbers are `real`. The guards' `vertCount * 3` comparisons are exact, so a fractional `positions.length / 3` always fails the guards.
- `Vec3` slots are values. The source's in-place `set` on pooled `Vec3` objects, and the aliasing of returned `Vec3` references, are not captured.
- `maxPoints` is fixed after construction: no member of the model assigns it, and `RingValid` keeps the head below it, so it could not be lowered even on an empty ring.
  - In assets/SuperTrail/SuperTrail.ts it is a public field (line 106). Only a larger value re-initialises the pool (lines 322-323), which resets the head and the count.
  - A smaller value leaves `_pointHead` as it was, possibly at or above the new `maxPoints`. Once the ring fills, the full branch of `_addPoint` (line 240) then writes slot `_pointHead`, which lies outside the slots the modular reads see.
  - For example, lower `maxPoints` to 4 while the ring is empty and its head is 6. Four appends fill slots 2, 3, 0 and 1. The fifth is written to slot 6 and never read back, the head moves to 3, and the first of the four points then reads as the newest.
- The following engine plumbing is not part of this model:
  - `DynamicAtlasManager` packing.
  - The atlas side effect and `textureDirty` of the sprite-frame setter. Only its cache invalidation and the render marking are kept.
  - `createData`, `updateRenderData`, `fillBuffers`, `renderData.resize`, `setIndexBuffer` and the JSB branch.
  - `_render`, `_canRender`, `_flushAssembler` and the assembler registration.
- `markForUpdateRenderData` and `renderData.vertDirty = true` are modelled as one boolean field, `renderDirty`.
- The adapter methods' `if (!renderData) return` checks are not modelled. `RenderData` is always present.
- Only the `hasTexture` flag and the eight UV floats of a sprite frame are modelled. Frame identity is value equality.
- Component.SuperTrail.Update is split into `Step` (the tick with a textured frame), `Advance` (sampling and decay) and `Present` (mesh). Its mesh build is split into `RefreshUvRect`, `VertexPass`, `IndexPass`, `EmitPair`, `PointAttributes` and `WritePoint`. The mesh arrays are built in local sequences and assigned to the fields once, so the writes are not interleaved with other field updates.
- Component.SuperTrail.Update requires `dt >= 0`. The source does not check this, but the engine never passes a negative frame time.
- Assembler.RenderData.UpdateVertexsAndUv is split into the two loops `FillLocal` and `FillWorld`.
- The vertex padding beyond field 8 of a record is not written by any fill, and the model writes none.
