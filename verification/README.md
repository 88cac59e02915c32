# Romly Blender add-on: the exact layer of the mesh generators

This project models, in Dafny, the part of the Romly Blender add-on that
does not depend on Blender itself: the list-and-index bookkeeping that
builds `(vertices, faces)` meshes, the profile builders that produce
ordered vertex lists, the parameter derivations and validators of the
operators, and a few exact geometric maps. Blender only consumes the
output of this layer: the booleans, modifiers, convex hulls and UV
unwraps that follow are not modelled.

Coordinates are triples of `real` (`Geometry.Vec3`), indices are `nat`,
and a mesh is a `Geometry.Mesh(vertices, faces)`. Floating point is
modelled as exact real arithmetic; no rounding claim is made. `sin`,
`cos`, `tan`, `atan2`, `sqrt` and the rotation matrices are parameters of
the members that use them: either plain values (the cosine and sine of a
fixed step angle), maps such as `Geometry.PlaneMap`, or function-typed
parameters about which a ghost predicate states the one structural fact a
proof needs (`IsSqrt`, `Pythagorean`, `IsAtan2`, `FullTurn`).
`math.isclose` is the explicit tolerance test `Geometry.IsClose`.
Blender clamps a value assigned to a property into the property's hard
range (`Geometry.Clamp`). The model applies this where a preset or a
derived value can fall outside that range: the rail presets and the
clothoid's derived quantity.

One module per source file of the add-on:

| module | file |
|---|---|
| `Geometry` | vectors, meshes, Python's `math.floor`/`math.ceil`/`%`, `math.isclose` |
| `RomlyUtils` | `romly_utils.py` |
| `Revolve`, `JisScrew` | `add_jis_screw.py` (`Revolve` holds `add_revolved_surface`) |
| `FaceTiling`, `AluminumExtrusion` | `add_aluminum_extrusion.py` (`FaceTiling` holds the disjoint-cover facts of the face assembly) |
| `ReuleauxTetrahedron` | `add_reuleaux_tetrahedron.py` |
| `Sphericon` | `add_sphericon.py` |
| `CompressionSpring` | `add_compression_spring.py` |
| `LinearGuide` | `add_linear_guide.py` |
| `Clothoid` | `add_clothoid_curve.py` |
| `ReuleauxPolygon` | `add_reuleaux_polygon.py` |
| `CrossExtrusion` | `add_cross_extrusion.py` |
| `LeadScrew` | `add_lead_screw.py` |
| `DonutCylinder` | `add_donut_cylinder.py` |
| `PinHeader` | `add_pinheader.py` |
| `Coupling` | `add_coupling.py` |
| `LoadCell` | `add_loadcell.py` |
| `Oloid` | `add_oloid.py` |

Append-only mesh building (the source mutates `vertices` and `faces` in
place) is modelled by functions and methods that return the extended
mesh; "old data unchanged" is then a statement about prefixes.

## Model

| member | source | states |
|---|---|---|
| RomlyUtils.AppendRaised | romly_utils.py:185-188 | one copy per listed index, in order, each the listed vertex with z raised by the offset; the existing vertices are a prefix of the result |
| RomlyUtils.SideQuads | romly_utils.py:190-204 | one quad per listed index; quad i joins edge (i, i+1) of the ring to the copies, and the last quad wraps back to the first index |
| RomlyUtils.ExtrudeFace | romly_utils.py:185-207 | `extrude_face` appends exactly one raised copy per listed index (x and y unchanged), one side quad per index and, with `cap`, the copies' indices in reverse order; the old vertices and faces are unchanged |
| RomlyUtils.ExtrudeFaceKeepsWellFormed | romly_utils.py:185-207 | when every listed index names an existing vertex, every index of every face after the extrusion is below the new vertex count |
| RomlyUtils.SideQuadsInBounds | romly_utils.py:190-204 | the side quads only name listed indices and copies, so they are in bounds of the grown vertex list |
| RomlyUtils.TranslateVertices | romly_utils.py:126-128 | the list branch of `translate_vertices` keeps the length and order and replaces each element by element + offset, so the in-place loop computes the same list as the element-wise translation `TranslateAll` |
| RomlyUtils.TranslateVerticesUndo | romly_utils.py:126-128 | translating by the offset and then by its negation gives back the original list |
| JisScrew.StripZeros | add_jis_screw.py:51 | `rstrip('0')` returns a prefix of the input that does not end in '0', and everything it removed was '0' |
| JisScrew.TrimDecimalZeros | add_jis_screw.py:50-54 | a string without '.' is returned unchanged; otherwise the result is a prefix of the input |
| JisScrew.TrimDecimalZerosProperties | add_jis_screw.py:49-54 | on a string with at most one '.' (what `f'{value:.3f}'` produces) the result never ends in '.', has no trailing zero after the point, keeps every character before the point, and trimming again changes nothing |
| JisScrew.TrimDecimalZerosTwoPoints | add_jis_screw.py:50-54 | without the one-point guarantee the step is not idempotent: "1.." trims to "1." and then to "1" |
| JisScrew.Teeth | add_jis_screw.py:344-348 | `lead` teeth give three points each |
| JisScrew.TeethAt | add_jis_screw.py:344-348 | tooth t is minor/major/minor at z + pitch, z + pitch/2 and z, each t pitches below the first tooth |
| JisScrew.SharpProfile | add_jis_screw.py:340-349 | the sharp profile has 3·lead + 2 points, from the axis point at z = lead·pitch down to the axis point at the origin |
| JisScrew.SharpProfileTooth | add_jis_screw.py:342-349 | tooth t (from the top) runs from the minor radius at (lead − t) pitches through the major radius half a pitch lower to the minor radius at (lead − t − 1) pitches |
| JisScrew.SharpProfileTeethMeet | add_jis_screw.py:344-348 | the lower minor point of each tooth coincides with the upper minor point of the next, so the profile is continuous |
| JisScrew.RevolveTurns | add_jis_screw.py:357-359 | each of the `pitch_iteration` revolutions appends segments·k vertices and segments·(k − 1) faces, keeps the old vertices and well-formedness, and lowers the last vertex by one z offset |
| JisScrew.ThreadIterations | add_jis_screw.py:357 | `math.ceil(length / (lead * pitch)) + 2` is at least 2 |
| JisScrew.ThreadIterationsCover | add_jis_screw.py:357 | the turns beyond the extra two cover the length, and one turn fewer would not |
| JisScrew.ThreadReachesBelow | add_jis_screw.py:357-359 | the bottom of the revolved thread lies at least two leads below −length |
| JisScrew.LidFan | add_jis_screw.py:368-370 | the lid fan has one triangle per segment joining the lid centre to the first profile vertex of consecutive rings |
| JisScrew.BottomFan | add_jis_screw.py:379-383 | the bottom fan has one triangle per segment joining the bottom centre to the last profile vertex of consecutive rings, counted back from the end |
| JisScrew.BottomTriangle | add_jis_screw.py:381-383 | triangle i of the bottom fan names the bottom centre and the vertices i and i + 1 rings back from the last one |
| JisScrew.LidCap | add_jis_screw.py:366-376 | the lid is its fan plus the face over the first profile closed by the lid centre: segments + 1 faces |
| JisScrew.BottomCap | add_jis_screw.py:378-389 | the bottom is its fan plus the face over the last profile closed by the bottom centre: segments + 1 faces |
| JisScrew.CloseEnds | add_jis_screw.py:361-389 | the caps add the lid centre on the axis level with the first vertex and the bottom centre level with the last vertex, 2·segments + 2 faces, and keep the mesh well formed |
| JisScrew.CapsInBounds | add_jis_screw.py:366-389 | every cap face names an existing vertex |
| JisScrew.LidInBounds | add_jis_screw.py:366-376 | every lid face is in bounds once the two centres are appended |
| JisScrew.BottomInBounds | add_jis_screw.py:378-389 | every bottom face is in bounds once the two centres are appended |
| JisScrew.CreateThreadedCylinder | add_jis_screw.py:267-389 | the sharp-profile threaded cylinder has k + turns·segments·k + 2 vertices (k = 3·lead + 2) and turns·segments·(k − 1) + 2·segments + 2 faces, starts with the profile, puts the lid centre at lead·pitch and the bottom centre at least two leads below −length, and is well formed |
| JisScrew.TurnsLeaveRoomForCaps | add_jis_screw.py:357-383 | after at least one revolution the vertex list is long enough for the bottom fan to reach back segments rings |
| JisScrew.ArcVertices | add_jis_screw.py:97-123 | `make_arc_vertices` about Z returns segments + 1 points, all at the start point's height |
| JisScrew.CreateNut | add_jis_screw.py:648-658 | the bevel-free nut is the six hexagon corners (the duplicate seventh dropped) on z = 0, extruded by −thickness: 12 vertices, 8 faces, the hexagon face first and the reversed cap last, well formed |
| JisScrew.ThreadLength | add_jis_screw.py:831-836 | the thread length is 2d + 6 for lengths up to 129, 2d + 12 for lengths above 129 up to 219, and 2d + 25 above 219 |
| JisScrew.ThreadLengthMonotone | add_jis_screw.py:831-836 | a longer screw gets at least as long a thread |
| JisScrew.CalcUnthreadedLength | add_jis_screw.py:815-841 | the unthreaded length lies in [0, length] for non-negative length and diameter |
| JisScrew.UnthreadedLengthCases | add_jis_screw.py:838-841 | the screw is partly threaded exactly when the thread fits, otherwise the whole length is unthreaded; when it fits the two parts add up to the length |
| JisScrew.UpdateNutProperties | add_jis_screw.py:855-890 | a known size copies diameter, pitch, thread depth, nut diameter and (thin for type 3) nut height and resets the lead to 1; an unknown size keeps them; type 1 chamfers only the bottom, types 2 and 3 both sides |
| JisScrew.UpdateNutPropertiesIdempotent | add_jis_screw.py:855-890 | pressing the same size button twice changes nothing the second time |
| JisScrew.DecimalString | add_jis_screw.py:892-893 | the decimal spelling of a number is a non-empty digit string without a leading zero |
| JisScrew.DecimalStringValue | add_jis_screw.py:892-893 | `int` of the decimal spelling gives the number back |
| JisScrew.LengthPreset | add_jis_screw.py:892 | a preset sets a length exactly when it is 'l' followed by at least one digit and nothing else |
| JisScrew.UpdateScrewLength | add_jis_screw.py:892-893 | any other preset leaves the length unchanged |
| JisScrew.LengthPresetRoundTrip | add_jis_screw.py:892-893 | the preset 'l' + str(n) sets the length to exactly n |
| JisScrew.ScrewExecuteCheck | add_jis_screw.py:1101-1115 | the screw operator cancels exactly when the unthreaded length it computed exceeds the length, and otherwise goes on with that unthreaded length |
| JisScrew.ScrewCancelsOnlyWhenManual | add_jis_screw.py:1101-1115 | for non-negative length and diameter the fully and standard half-threaded screws never cancel; a hand-set unthreaded length cancels exactly when it exceeds the length |
| JisScrew.NutExecuteCheck | add_jis_screw.py:1281-1289 | the nut operator cancels exactly when the hole is at least as wide as the nut, and otherwise cuts the thread only for a positive hole diameter |
| Revolve.NextRing | add_jis_screw.py:160-166 | one pass copies every vertex of the previous ring, keeping the ring's length |
| Revolve.TurnedHeight | add_jis_screw.py:162-163 | after n passes a vertex has risen by n increments: the turn about Z keeps the height |
| Revolve.Ring | add_jis_screw.py:158-166 | every ring has as many vertices as the profile ring |
| Revolve.RingIsNextRing | add_jis_screw.py:158-166 | the first ring is one pass over the profile ring and every later ring is one pass over the ring before it |
| Revolve.RevolveVertices | add_jis_screw.py:158-166 | `steps` passes append steps·k vertices |
| Revolve.RevolveVerticesPrefix | add_jis_screw.py:165-166 | the passes only append: every existing vertex is unchanged |
| Revolve.LastRing | add_jis_screw.py:161 | after a pass the last k vertices are the newest ring, which the next pass reads |
| Revolve.RevolveVerticesStep | add_jis_screw.py:158-166 | one more pass appends the last k vertices raised and turned once more |
| Revolve.RevolveRingFromPrevious | add_jis_screw.py:160-166 | every appended vertex is the vertex k places back, raised by `z_offset / segments` and turned about Z |
| Revolve.RevolveVerticesAt | add_jis_screw.py:158-166 | vertex i of ring j is profile vertex i after j + 1 passes, and lies within the appended vertices |
| Revolve.RevolveLastHeight | add_jis_screw.py:162 | after `steps` passes the end of the profile has climbed `steps` increments |
| Revolve.RingQuads | add_jis_screw.py:169-175 | the quads of a pass, indexed from the vertex count n reached after it, join profile edge (j, j+1) of the previous ring to the new ring: k − 1 quads |
| Revolve.StepFaces | add_jis_screw.py:169-181 | one pass appends k − 1 quads joining the two rings edge by edge and, with `close`, one quad joining the profile's last vertex back to its first |
| Revolve.RevolveFaces | add_jis_screw.py:158-181 | `steps` passes append steps·((k − 1) + [close]) faces |
| Revolve.StepFacesInBounds | add_jis_screw.py:169-181 | the faces of one pass name only the previous ring and the new one |
| Revolve.RevolveFacesInBounds | add_jis_screw.py:158-181 | every appended face names a vertex that exists once the passes are done |
| Revolve.RevolveFacesAt | add_jis_screw.py:169-181 | the faces of pass t sit at offset t·(faces per pass) and stitch ring t − 1 to ring t |
| Revolve.Pass | add_jis_screw.py:159-181 | one iteration of the loop appends k vertices |
| Revolve.Passes | add_jis_screw.py:158-181 | n iterations append n·k vertices |
| Revolve.PassesSplit | add_jis_screw.py:158-181 | the interleaved loop builds the same vertices and faces as the two separate recursions |
| Revolve.Sweep | add_jis_screw.py:158-181 | the loop (run as a method) yields the profile followed by the rings and the old faces followed by the stitching faces |
| Revolve.SweepRings | add_jis_screw.py:158-166 | every vertex the sweep appends is the one a ring back, raised and turned, and the profile's end has climbed `segments` increments |
| Revolve.SweepShape | add_jis_screw.py:158-181 | the sweep appends segments·k vertices after the untouched old ones and segments·(k − 1) (+ segments with `close`) faces, keeping every face in bounds |
| Revolve.AddRevolvedSurface | add_jis_screw.py:134-181 | `add_revolved_surface` appends segments·k vertices and segments·(k − 1) (+ segments with `close`) faces, keeps the old vertices and faces, builds each new vertex from the one a ring back raised by `z_offset / segments` and turned, keeps the mesh well formed and lifts the end of the profile by `z_offset` in total |
| FaceTiling.TiledFace | add_aluminum_extrusion.py:277-287 | in a tiling each face is the contiguous index run that starts after all earlier faces' indices |
| FaceTiling.TiledIsPartition | add_aluminum_extrusion.py:258-315 | a tiled mesh is well formed, each face's indices are strictly increasing, different faces share no index, and every vertex index is named by some face |
| AluminumExtrusion.MirrorPoint | add_aluminum_extrusion.py:37-60 | `mirror_point` leaves the point alone for a zero normal; otherwise the midpoint of the point and its image lies on the mirror plane |
| AluminumExtrusion.MirrorFlipsHeight | add_aluminum_extrusion.py:54-58 | the image's signed height above the plane is the negation of the point's |
| AluminumExtrusion.MirrorInvolution | add_aluminum_extrusion.py:37-60 | mirroring twice in the same plane gives the point back |
| AluminumExtrusion.MirrorFixesPlane | add_aluminum_extrusion.py:37-60 | a point on the plane (p·n = 0) is its own image |
| AluminumExtrusion.MirrorAcrossX | add_aluminum_extrusion.py:176-179 | for the normal (−1, 0, 0) the mirror maps x to −x |
| AluminumExtrusion.MirrorAcrossY | add_aluminum_extrusion.py:250-251 | for the normals (0, ±1, 0) the mirror maps y to −y |
| AluminumExtrusion.MirrorAcrossDiagonal | add_aluminum_extrusion.py:241-242 | for the normal (1, 1, 0) the mirror maps (x, y) to (−y, −x) |
| AluminumExtrusion.MirrorAll | add_aluminum_extrusion.py:285-286 | mirroring a list keeps its length and order |
| AluminumExtrusion.FindIntersection | add_aluminum_extrusion.py:91-108 | `find_intersection` returns None for parallel segments and otherwise only p + t·r with both ratios at most 1 |
| AluminumExtrusion.SegmentParamsNonNegative | add_aluminum_extrusion.py:100-103 | under a true square root both ratios are quotients of lengths, never negative, so the lower-bound test always passes |
| AluminumExtrusion.PlanarCrossLength | add_aluminum_extrusion.py:96-101 | for vectors in the plane z = 0 the length of the cross product is the absolute value of the planar cross product |
| AluminumExtrusion.FindIntersectionInPlane | add_aluminum_extrusion.py:91-108 | the as-written intersection for segments in the plane: None for parallel segments, and any point it returns lies on the first segment, p + a·r with a in [0, 1], and in the plane z = 0 |
| AluminumExtrusion.FindIntersectionMagnitudes | add_aluminum_extrusion.py:91-108 | under a true square root and for planar segments, the source's length-based `find_intersection` equals the closed form that returns p + \|t\|·r exactly when the signed parameters satisfy \|t\| ≤ 1 and \|u\| ≤ 1 |
| AluminumExtrusion.FindIntersectionIgnoresSign | add_aluminum_extrusion.py:100-105 | when the lines meet behind the first segment's start (−1 ≤ t < 0) at a point of the second segment, the source returns p − t·r while the corrected test returns None |
| AluminumExtrusion.FindIntersectionAgreesInRange | add_aluminum_extrusion.py:91-108 | where the corrected test finds a point, the source returns the same point |
| AluminumExtrusion.FindIntersection2 | add_aluminum_extrusion.py:91-108 | the corrected intersection (signed parameters) returns None for parallel segments and stays in the plane of planar input |
| AluminumExtrusion.FindIntersection2OnBoth | add_aluminum_extrusion.py:91-108 | the corrected intersection is p + t·r = q + u·s with t and u in [0, 1]: a point of both segments |
| AluminumExtrusion.LineMeets | add_aluminum_extrusion.py:100-105 | with t and u the cross-product ratios, p + t·r and q + u·s coincide |
| AluminumExtrusion.TopLeft | add_aluminum_extrusion.py:189-220 | `make_topleft_vertices` succeeds exactly when both as-written intersections it asks for return a point, and then returns 14 points in the plane z = 0 starting at the origin, with the first intersection at index 3 and the second at index 11 |
| AluminumExtrusion.TopLeftTipOffWall | add_aluminum_extrusion.py:189-220 | for the in-range profile size 20, slot 6, inner slot 12, core 16, bone 1, both bones meet their wall just behind their start; the source still finds both tips and builds the section, and the first tip lies off the wall line y = 6 |
| AluminumExtrusion.TopMiddleLeft | add_aluminum_extrusion.py:133-169 | `make_topmiddle_left_vertices` succeeds exactly when the as-written intersections it asks for return a point, and then returns 13 points with `core`, 12 without, in the plane z = 0, with the diagonal tip at index 3 and the inner wall at size/2 minus the middle or outer wall thickness |
| AluminumExtrusion.MirrorBlock | add_aluminum_extrusion.py:173-180 | a mirrored block exists exactly when the block does, with the same length and each point mirrored in order |
| AluminumExtrusion.MirrorX | add_aluminum_extrusion.py:173-180 | `make_topmiddle_right_vertices` and `make_topright_vertices` negate x of every point, in order |
| AluminumExtrusion.MirrorY | add_aluminum_extrusion.py:247-252 | `make_leftmiddle_bottom_vertices` negates y of every point, in order |
| AluminumExtrusion.MirrorDiagonal | add_aluminum_extrusion.py:238-243 | `make_leftmiddle_top_vertices` maps every (x, y) to (−y, −x), in order |
| AluminumExtrusion.AllAcrossX | add_aluminum_extrusion.py:285-286 | mirroring a list in the normal (−1, 0, 0) negates every x |
| AluminumExtrusion.AllAcrossY | add_aluminum_extrusion.py:285-286 | mirroring a list in the normal (0, 1, 0) negates every y |
| AluminumExtrusion.AllAcrossDiagonal | add_aluminum_extrusion.py:285-286 | mirroring a list in the normal (1, 1, 0) maps every (x, y) to (−y, −x) |
| AluminumExtrusion.LeftMiddleBottomIsQuarterTurn | add_aluminum_extrusion.py:238-252 | the two mirrors compose to a quarter turn: the bottom left-middle block is the plain middle block rotated 90° counter-clockwise |
| AluminumExtrusion.Aiueo | add_aluminum_extrusion.py:277-287 | each `aiueo` call appends the block moved by the offset and then its mirror image, plus exactly two faces: the contiguous index ranges of the two copies |
| AluminumExtrusion.AiueoKeepsTiled | add_aluminum_extrusion.py:277-287 | each `aiueo` call keeps the faces a tiling of the vertices |
| AluminumExtrusion.MirrorKeepsHeight | add_aluminum_extrusion.py:37-60 | a mirror whose normal has no z part keeps z |
| AluminumExtrusion.AiueoKeepsPlanar | add_aluminum_extrusion.py:277-287 | placing and mirroring planar blocks keeps the outline in the plane z = 0 |
| AluminumExtrusion.MirrorsKeepPlanar | add_aluminum_extrusion.py:173-252 | the mirrored blocks of planar blocks are planar |
| AluminumExtrusion.BlocksOfPlanar | add_aluminum_extrusion.py:133-252 | every block the builders return lies in the plane z = 0 |
| AluminumExtrusion.ColumnStep | add_aluminum_extrusion.py:294-305 | one pass of the column loop adds four faces and keeps the faces a tiling of planar vertices |
| AluminumExtrusion.ColumnsShape | add_aluminum_extrusion.py:292-305 | after i columns there are 4·i faces tiling planar vertices |
| AluminumExtrusion.RowsShape | add_aluminum_extrusion.py:307-313 | after j rows there are 4·x_slots + 4·j faces tiling planar vertices |
| AluminumExtrusion.SectionShape | add_aluminum_extrusion.py:292-315 | the whole outline has 4·x_slots + 4·(y_slots − 1) faces tiling planar vertices |
| AluminumExtrusion.Bottom | add_aluminum_extrusion.py:258-315 | `make_aluminum_extrusion_bottom` builds a section exactly when every block it uses gets all its intersections; otherwise the source fails on a missing point, which is the None result |
| AluminumExtrusion.BottomShape | add_aluminum_extrusion.py:258-315 | whenever it builds, `make_aluminum_extrusion_bottom` returns 4·x_slots + 4·(y_slots − 1) faces (4·x_slots for no rows), pairwise disjoint and together naming every vertex exactly once, all in the plane z = 0 |
| AluminumExtrusion.CoreColumns | add_aluminum_extrusion.py:295-296 | CORE is false exactly for the interior columns 0 < i < x_slots − 1 when y_slots ≥ 2 and x_slots ≥ 3 |
| AluminumExtrusion.HoleCenterOpposite | add_aluminum_extrusion.py:542-546 | the centre hole of slot (x, y) is the negation of that of the opposite slot |
| AluminumExtrusion.HoleCentersSymmetric | add_aluminum_extrusion.py:542-546 | the set of centre holes is symmetric about the origin |
| AluminumExtrusion.ColumnOffsetIsHoleCenter | add_aluminum_extrusion.py:292-305 | the column loop places column i on the centre of slot (i, 0) |
| AluminumExtrusion.RowOffsetIsHoleCenter | add_aluminum_extrusion.py:308-313 | the row loop places row i's lower block on slot (0, i) and its upper block on slot (0, i − 1) |
| ReuleauxTetrahedron.FloorDiv | add_reuleaux_tetrahedron.py:442 | Python's `//` rounds toward negative infinity: q·b ≤ a < q·b + b for b > 0 and the mirrored bounds for b < 0 |
| ReuleauxTetrahedron.EdgeVertexCount | add_reuleaux_tetrahedron.py:415-442 | `calculate_subdivided_edge_vertex_count` raises exactly for n < 0 |
| ReuleauxTetrahedron.EdgeVertexCountClosedForm | add_reuleaux_tetrahedron.py:415-442 | for n ≥ 0 the count is 2^(n+1) + 1, so 0 gives 3 and 2 gives 9 as documented |
| ReuleauxTetrahedron.EdgeSegmentsDouble | add_reuleaux_tetrahedron.py:415-442 | each extra subdivision doubles the number of segments along an edge |
| ReuleauxTetrahedron.CreateRegularTetrahedron | add_reuleaux_tetrahedron.py:276-331 | `create_regular_tetrahedron` raises exactly for an origin outside {center, bottom, apex}, and otherwise returns 4 vertices and 4 faces |
| ReuleauxTetrahedron.OriginPlacement | add_reuleaux_tetrahedron.py:312-321 | after the offset 'apex' puts vertex 3 at the origin, 'bottom' the centroid of vertices 0, 1, 2, and 'center' the centroid of all four |
| ReuleauxTetrahedron.OriginKeepsShape | add_reuleaux_tetrahedron.py:320-321 | the offset moves every vertex by the same vector, so all differences between vertices are kept |
| ReuleauxTetrahedron.TablesSound | add_reuleaux_tetrahedron.py:324-330 | `opposite_vertex_indices[i]` is the one vertex not in face i; for each edge the sphere-centre pair and the arc endpoints partition {0, 1, 2, 3}, both adjoining faces contain both endpoints, and their opposite vertices are the two sphere centres |
| ReuleauxTetrahedron.Midpoint | add_reuleaux_tetrahedron.py:246-248 | a midpoint m of a and b satisfies m + m = a + b |
| ReuleauxTetrahedron.SubdivideTriangle | add_reuleaux_tetrahedron.py:218-267 | `subdivide_triangle` appends exactly the three edge midpoints, keeps the old vertices, returns the three corners followed by the three new indices, and returns four triangles whose indices are all in bounds |
| ReuleauxTetrahedron.SubdivisionQuarters | add_reuleaux_tetrahedron.py:259-265 | each of the four new triangles has a quarter of the original's cross-product normal: same orientation, a quarter of the area |
| ReuleauxTetrahedron.SubdivideAll | add_reuleaux_tetrahedron.py:355-360 | one round over n triangles appends 3·n vertices, returns 4·n triangles in bounds and 6·n vertex indices, all in bounds |
| ReuleauxTetrahedron.Rounds | add_reuleaux_tetrahedron.py:353-360 | k rounds keep the old vertices, produce the closed-form face and vertex counts, and keep every face and returned index in bounds |
| ReuleauxTetrahedron.CountsClosedForm | add_reuleaux_tetrahedron.py:353-360 | k rounds turn n triangles into n·4^k triangles and add n·(4^k − 1) vertices |
| ReuleauxTetrahedron.FindNearestVertex | add_reuleaux_tetrahedron.py:450-475 | `find_nearest_vertex` returns −1 exactly for an empty index list; otherwise a listed index no other listed index is strictly closer to, and the first one on a tie |
| ReuleauxTetrahedron.ArcSpan | add_reuleaux_tetrahedron.py:517-519 | the normalised span lies in (0, 2π], differs from end − start by a whole number of turns, and is a full turn exactly when end − start is a whole number of turns |
| ReuleauxTetrahedron.SpanWhole | add_reuleaux_tetrahedron.py:517 | Python's `%` on floats differs from its argument by a whole multiple of the modulus and is zero exactly for whole multiples |
| Sphericon.KeptIndices | add_sphericon.py:46-52 | the surviving indices are strictly increasing, in bounds, and name only vertices with y ≥ −0.0001 |
| Sphericon.KeptIndicesExact | add_sphericon.py:46-52 | an index survives exactly when its vertex has y ≥ −0.0001 |
| Sphericon.NewIndexLocates | add_sphericon.py:55 | `index_map` sends a surviving index to its position among the survivors |
| Sphericon.NewIndexOrder | add_sphericon.py:55 | `index_map` keeps the order of surviving indices |
| Sphericon.KeptVertices | add_sphericon.py:52 | entry k of the new vertex list is the vertex at the k-th surviving index, so the list is exactly the vertices with y ≥ −0.0001 in their original order, never more than the input |
| Sphericon.SurvivingEdges | add_sphericon.py:49 | an edge is kept exactly when both its endpoints survive; never more edges than the input |
| Sphericon.Remap | add_sphericon.py:55-56 | a remapped edge names, in the new list, the same coordinates as the original edge |
| Sphericon.RemoveYMinusVertices | add_sphericon.py:46-58 | `remove_y_minus_vertices` returns as its vertex list exactly the vertices with y ≥ −0.0001 in their original order, no more edges than it got, keeps one edge per surviving edge, and every new edge is in bounds and joins the same coordinates as before |
| Sphericon.EdgeRing | add_sphericon.py:95-100 | the initial edges are n edges, all in bounds |
| Sphericon.EdgeRingClosed | add_sphericon.py:95-100 | edge i starts at vertex i and the edge before it (cyclically) is the only one that ends there: the edges form the closed ring |
| Sphericon.SplitAt | add_sphericon.py:104-113 | splitting edge i appends a vertex exactly when the edge meets the Z axis strictly inside (0.0001, 0.9999) of its length; the edge count and the edges before i are kept, and all edges stay in bounds |
| Sphericon.SplitAtReplaces | add_sphericon.py:108-113 | a split appends the meeting point, drops edge i, and appends the edge from the new vertex to `edge[1]` when `edge[0]` has y < 0, else to `edge[0]` |
| Sphericon.SplitEdges | add_sphericon.py:103-113 | the reversed loop over the edges keeps their count and all indices in bounds, and appends at most one vertex per edge after the untouched old ones |
| Sphericon.RotationBase | add_sphericon.py:91-116 | the rotation base has at most twice as many vertices and at most as many edges as the circle, all in bounds, and only vertices with y ≥ −0.0001 |
| CompressionSpring.DeadFit | add_compression_spring.py:146-147 | the dead coils granted never exceed those requested |
| CompressionSpring.ActiveFit | add_compression_spring.py:156 | the active coils are never negative |
| CompressionSpring.CoilsFromFreeLength | add_compression_spring.py:134-158 | `calc_coils_from_free_length` grants at most the requested top and bottom dead coils and a non-negative number of active coils |
| CompressionSpring.FitCoils | add_compression_spring.py:143-158 | the fitting steps grant at most the requested dead coils and non-negative active coils from any budget |
| CompressionSpring.CoilsFitBudget | add_compression_spring.py:143-158 | with ground ends the budget starts at free length + w, else at the free length; when there are active coils the granted coils use exactly that budget |
| CompressionSpring.ActiveUsesRest | add_compression_spring.py:156 | when active coils are granted they fill what is left after the final wire diameter |
| CompressionSpring.FreeLengthRoundTrip | add_compression_spring.py:123-158 | feeding `get_free_length(ground_ends)` back as the free length (w > 0, p > 0, coils and dead coils ≥ 0) gives back exactly the top dead, bottom dead and active coils |
| CompressionSpring.FitCoilsExact | add_compression_spring.py:143-158 | a budget of exactly p·c + w·dt + w·db + w is fitted as (dt, db, c) |
| CompressionSpring.GroundEndsShorten | add_compression_spring.py:123-130 | grinding the ends shortens the free length by one wire diameter, and within the property ranges it stays non-negative |
| CompressionSpring.TurnPlan | add_compression_spring.py:162-171 | `add_coils` does nothing for coils ≤ 0 and otherwise makes ⌊coils⌋ full turns of 360° followed by one partial turn of less than 360° |
| CompressionSpring.TurnPlanTotal | add_compression_spring.py:166-171 | the turns add up to coils·360° |
| CompressionSpring.WireCenterX | add_compression_spring.py:178-180 | the wire circle's centre is (outer − wire)/2 from the axis, on the negative side exactly for a right-hand wind |
| CompressionSpring.CapFace | add_compression_spring.py:210-211 | the end cap face is the last `count` vertex indices in order, all in bounds |
| LinearGuide.FirstIndex | add_linear_guide.py:286-295 | the first row a test accepts, or none exactly when no row is accepted |
| LinearGuide.Get | add_linear_guide.py:270 | a dict lookup finds a value stored under the key, or none exactly when the key is absent |
| LinearGuide.UpdateRail | add_linear_guide.py:268-280 | a known preset assigns Wr, Hr, the two outer-hole fields, the inner-hole diameter and the hole pitch, each raised to the properties' hard minimum where it falls below it, so a row that meets the minimum is stored exactly; the preset's name is recorded. An unknown key only clears the recorded name |
| LinearGuide.UpdateRailSpec | add_linear_guide.py:268-280 | `update_rail_spec` of the rail operator, whose six properties have `min=1`. A key outside the table only clears the name. mgn05 is stored with outer hole depth 1 instead of its 0.8. Every other key stores its row's six dimensions exactly, and the key is recorded |
| LinearGuide.RailSpecsMinimum | add_linear_guide.py:41-52 | every rail row except mgn05 meets the properties' minimum of 1 (add_linear_guide.py:326-335) |
| LinearGuide.RailSpecsAtLeast | add_linear_guide.py:41-52 | no dimension in `RAIL_SPECS` is below 0.8 |
| LinearGuide.RailName | add_linear_guide.py:284-295 | the lookup returns '' exactly when no row matches all six dimensional fields (weight ignored), and otherwise the name of a matching row |
| LinearGuide.RailSpecsNamed | add_linear_guide.py:41-52 | every rail name is non-empty, so '' can mean "no size" |
| LinearGuide.RailSpecsDistinct | add_linear_guide.py:41-52 | the rail names are pairwise distinct |
| LinearGuide.RailSpecToName | add_linear_guide.py:284-295 | `cuurent_rail_spec_to_name` over `RAIL_SPECS` returns '' exactly when no row matches |
| LinearGuide.NotCloseWhenApart | add_linear_guide.py:287 | within the table's magnitudes, values at least 0.1 apart are never `math.isclose` |
| LinearGuide.RailWidthsApart | add_linear_guide.py:41-52 | the ten rail widths `Wr` are pairwise at least 0.1 apart |
| LinearGuide.RailRoundTrip | add_linear_guide.py:268-295 | on any table with distinct names and widths, a preset i whose dimensions meet the properties' minimum returns key i when it is applied and then looked up |
| LinearGuide.RailPresetRoundTrip | add_linear_guide.py:268-295 | applying a `RAIL_SPECS` preset and looking the name up returns the same key exactly for the nine sizes other than mgn05 |
| LinearGuide.Mgn05Unrecognised | add_linear_guide.py:270-295 | after choosing mgn05 the outer hole depth is 1, and the lookup returns '': 1 is not close to 0.8, and every other size is wider |
| LinearGuide.RailPresetRoundTripAtLowerMinimum | add_linear_guide.py:268-295 | with the properties' minimum at most 0.8, every one of the ten presets names itself after it is chosen |
| LinearGuide.UpdateBlock | add_linear_guide.py:458-482 | a known block preset copies its nine dimensions, the screw-hole diameter when the screw size is known and the rail's `Hr` when the rail is known; an unknown key changes nothing |
| LinearGuide.UpdateBlockSpec | add_linear_guide.py:458-482 | `update_block_spec` over `BLOCK_SPECS` changes nothing for a key outside the table; a key in it copies the row's dimensions and grease hole, the screw diameter when the screw size is known, and the rail's Hr |
| LinearGuide.BlockName | add_linear_guide.py:493-509 | the lookup returns '' exactly when no row matches within 0.01 on the nine block fields and its rail's `Hr`, and otherwise the name of a matching row |
| LinearGuide.BlockSpecsNamed | add_linear_guide.py:131-152 | the block table has pairwise distinct, non-empty names |
| LinearGuide.BlockSpecToName | add_linear_guide.py:493-509 | `current_block_spec_to_name` over `BLOCK_SPECS` returns '' exactly when no row matches |
| LinearGuide.BlockSpecsApart | add_linear_guide.py:131-152 | every block row names a known rail, stays within the bounds the tolerance argument needs, and differs from every other row by at least 0.1 in some compared field |
| LinearGuide.BlockRailsKnown | add_linear_guide.py:131-152 | every block row's rail is a `RAIL_SPECS` key |
| LinearGuide.BlockSpecsDiffer | add_linear_guide.py:131-152 | every two block rows differ by at least 0.1 in some compared field |
| LinearGuide.SameRowMatches | add_linear_guide.py:458-506 | properties copied from a row, with that row's rail `Hr`, match that row |
| LinearGuide.DifferentRowNoMatch | add_linear_guide.py:495-506 | properties copied from one row never match a row that differs from it by 0.1 in some compared field |
| LinearGuide.BlockRoundTrip | add_linear_guide.py:458-509 | on any table whose rows are told apart, applying preset i and looking it up returns key i |
| LinearGuide.BlockPresetRoundTrip | add_linear_guide.py:458-509 | applying any of the 20 `BLOCK_SPECS` presets and looking the name up returns the same key |
| LinearGuide.ScrewHoleCenters | add_linear_guide.py:586-600 | 4 holes at (±b/2, ±c/2) when b, c > 0, 2 at x = ±b/2 when only b > 0, 2 at z = ±c/2 when only c > 0, else 1 at the centre; all distinct and at y = depth − height |
| LinearGuide.ScrewHolesSymmetric | add_linear_guide.py:586-600 | the hole set is symmetric under x ↦ −x and under z ↦ −z |
| LinearGuide.RailHoleZs | add_linear_guide.py:417-425 | the rail holes are at offset, offset + pitch, … up to the length, and the next step would pass it (the loop ends for pitch ≥ 1) |
| LinearGuide.RailHolesSpaced | add_linear_guide.py:417-425 | there is a hole exactly when offset ≤ length; all holes lie in [offset, length], one pitch apart |
| LinearGuide.RailCut | add_linear_guide.py:617-619 | the rail cut box spans x within ±(W/2 − N), y from −(Hr + clearance) to 0 and z within ±(L/2 + 0.1) |
| Clothoid.RadiusOfCurvature | add_clothoid_curve.py:111-117 | the radius is infinite exactly at t = 0; elsewhere it is the reciprocal of a·t |
| Clothoid.RadiusDecreasing | add_clothoid_curve.py:111-117 | for a > 0 the radius of curvature strictly decreases along the curve and stays positive |
| Clothoid.StepCount | add_clothoid_curve.py:100-102 | the number of integration steps is ⌊t / dt⌋: zero below one step, otherwise n·dt ≤ t < (n + 1)·dt |
| Clothoid.Spiral | add_clothoid_curve.py:97-108 | the integrated point stays in the plane z = 0 |
| Clothoid.EulerSpiral | add_clothoid_curve.py:97-108 | for t below one step the spiral point is the origin |
| Clothoid.SpiralUnitSteps | add_clothoid_curve.py:102-107 | with a true cosine and sine each integration step has length dt, so the curve is sampled at unit speed |
| Clothoid.SampleTimes | add_clothoid_curve.py:123-124 | n + 1 sample times from 0 to t_max, one step t_max / n apart |
| Clothoid.CurveVertices | add_clothoid_curve.py:120-130 | one vertex per sample time, the first at the origin, all in the plane z = 0; t_max defaults to L² / (A² π) |
| Clothoid.Mirror45Reflection | add_clothoid_curve.py:259-265 | the quarter turn followed by the y flip is a reflection: applied twice it is the identity, and it keeps distances |
| Clothoid.MirrorTail | add_clothoid_curve.py:215-222 | the mirrored half has as many points as the curve, starts at the origin, and point i is the reflection of the curve read backwards, made relative to the reflected end |
| Clothoid.OnlyCorner | add_clothoid_curve.py:185-225 | the corner is the curve followed by its mirrored half: twice as many points, the curve as prefix, and the half starting where the curve ends |
| Clothoid.OnlyCornerSymmetric | add_clothoid_curve.py:215-225 | the corner ends on the diagonal x = y, and the second half is the 45-degree mirror image of the first read backwards |
| Clothoid.ScaleAll | add_clothoid_curve.py:369 | every corner vertex is multiplied by the scale |
| Clothoid.CornerScale | add_clothoid_curve.py:366-368 | the scale is 1 when the corner fits in half the rectangle; otherwise it shrinks the corner exactly to min(w/2, h/2) |
| Clothoid.Corners | add_clothoid_curve.py:371-388 | the outline is four copies of the corner, in order bottom-right, top-right reversed, top-left, bottom-left reversed |
| Clothoid.CornerRectangle | add_clothoid_curve.py:332-393 | an outline is produced exactly when the corner is non-empty and its width is non-zero or already fits (Python fails otherwise); it has four corners' worth of points and the scaled corner fits in half the rectangle |
| Clothoid.StraightEdgeNonNegative | add_clothoid_curve.py:366-373 | the straight bottom and top edges between the corners have non-negative length |
| Clothoid.RectanglePointSymmetric | add_clothoid_curve.py:371-391 | for a corner in the XY plane the outline is point-symmetric about the origin: the second half is the first half negated |
| Clothoid.Specify | add_clothoid_curve.py:467-498 | the two quantities the user chose are kept, and all three stay within their properties' ranges. The derived quantity is stored unchanged exactly when it lies within the range of the property it is assigned to; otherwise Blender clamps it. R and A lie in [0.1, 100]. L is at least 0.1, and at most 100 on the corner plate (add_clothoid_curve.py:539-541) |
| Clothoid.SpecifyConsistent | add_clothoid_curve.py:489-501 | after the derivation, R·L = A² and the parameter the curve is built with, √(R·L), equals A, exactly when the derived quantity lay within its property's range |
| Clothoid.SpecifyClamps | add_clothoid_curve.py:467-501 | the curve operator given L = 0.1 and A = 100 stores R = 100 rather than 100000, and builds its curve with √10 rather than with the A it shows |
| ReuleauxPolygon.PlanArc | add_reuleaux_polygon.py:68-82 | arc i runs between polygon vertices (i + n//2) mod n and (i + n//2 + 1) mod n; it is centred on a vertex exactly when n is odd |
| ReuleauxPolygon.PlanArcIndices | add_reuleaux_polygon.py:71-82 | the start and end indices are i + n//2 and i + n//2 + 1 wrapped once past n |
| ReuleauxPolygon.OddArcOpposite | add_reuleaux_polygon.py:68-75 | for odd n each arc is centred on vertex i and joins two neighbouring vertices, neither of them i |
| ReuleauxPolygon.EvenArcOpposite | add_reuleaux_polygon.py:76-82 | for even n ≥ 4 each arc is centred on the midpoint of edge (i, i+1) and joins two neighbouring vertices, neither of which is on that edge |
| ReuleauxPolygon.CenterPoint | add_reuleaux_polygon.py:78 | the even-case centre v_i + (v_{i+1} − v_i)/2 is the midpoint of the edge |
| ReuleauxPolygon.ArcSpan | add_reuleaux_polygon.py:183-186 | the span is the angle difference, or that plus a full turn when the difference is not positive; it is positive whenever the difference exceeds −2π |
| ReuleauxPolygon.ArcSpanInTurn | add_reuleaux_polygon.py:179-186 | for atan2 angles in (−π, π] the span lies in (0, 2π] |
| ReuleauxPolygon.ArcAngles | add_reuleaux_polygon.py:189-190 | segments + 1 angles, from the start angle to the start plus the span, evenly spaced |
| ReuleauxPolygon.ArcPoint | add_reuleaux_polygon.py:191-193 | each arc point lies in the plane of the centre |
| ReuleauxPolygon.PointsAt | add_reuleaux_polygon.py:189-193 | one point per angle, each on the circle at that angle |
| ReuleauxPolygon.CreateArc | add_reuleaux_polygon.py:174-195 | segments + 1 points, all in the plane of the centre |
| ReuleauxPolygon.PolarPoint | add_reuleaux_polygon.py:176-181 | the point at a vector's own length and atan2 angle from the centre is the centre plus that vector |
| ReuleauxPolygon.CreateArcPoints | add_reuleaux_polygon.py:174-195 | the first point is at the start angle and the last at the start angle plus the span, both at the start's radius |
| ReuleauxPolygon.CreateArcEnds | add_reuleaux_polygon.py:174-195 | the arc starts exactly at `start`, and ends exactly at `end` when `end` is as far from the centre as `start` |
| ReuleauxPolygon.TurnPoint | add_reuleaux_polygon.py:184-193 | adding the full turn to a non-positive difference does not move the point it gives |
| ReuleauxPolygon.SideArc | add_reuleaux_polygon.py:72-82 | the arc of each side has segments + 1 points |
| ReuleauxPolygon.SideArcs | add_reuleaux_polygon.py:71-82 | one arc per side, in side order |
| ReuleauxPolygon.Outline | add_reuleaux_polygon.py:67-82 | the outline has n·(segments + 1) points |
| ReuleauxPolygon.OutlineBlock | add_reuleaux_polygon.py:67-82 | the j-th block of segments + 1 outline points is exactly the arc of side j |
| ReuleauxPolygon.ReuleauxMesh | add_reuleaux_polygon.py:67-94 | the mesh has one point per arc point, each the arc point turned 90 degrees about z, (x, y, z) to (−y, x, z), and a single n-gon face over all of them in order, with every index in bounds |
| ReuleauxPolygon.NameIn | add_reuleaux_polygon.py:154-161 | a tabled side count gets its table entry; any other gets the generic name |
| ReuleauxPolygon.PolygonNamesFit | add_reuleaux_polygon.py:133-152 | every table entry for an even side count starts with "Reuleaux-ish" and every entry for an odd count has no dash |
| ReuleauxPolygon.NameInIsh | add_reuleaux_polygon.py:154-161 | over a table of that shape, the name contains "-ish" exactly when the side count is even |
| ReuleauxPolygon.PolygonNameIsh | add_reuleaux_polygon.py:122-163 | the object name contains "-ish" exactly when the side count is even, for tabled and untabled counts alike |
| CrossExtrusion.CrossOutline | add_cross_extrusion.py:36-55 | four corner points of the crossing plus two end points per side for each bar of positive thickness, all at z = 0 |
| CrossExtrusion.CrossOutlineSymmetric | add_cross_extrusion.py:36-55 | the outline is point-symmetric: its second half is its first half negated, point for point |
| CrossExtrusion.Sweep | add_cross_extrusion.py:57-61 | the outline becomes one face over all its points; only a positive height extrudes it (twice the vertices, n + 2 faces), otherwise the flat face is left; indices stay in bounds |
| CrossExtrusion.SweepHeights | add_cross_extrusion.py:57-61 | with a positive height the bottom vertices are the outline and the top ones the outline raised by the height |
| CrossExtrusion.OriginShift | add_cross_extrusion.py:136-139 | the origin shift moves vertices only along z |
| CrossExtrusion.PlacedCrossSpans | add_cross_extrusion.py:126-139 | after the shift the solid spans one height from its base, and the origin is at its top, middle or bottom as chosen |
| LeadScrew.ThreadTopLength | add_lead_screw.py:31-33 | crest and root together with both flanks fill exactly one pitch: 2·top + 2·t = pitch |
| LeadScrew.SectionOf | add_lead_screw.py:31-36 | the section built from the properties satisfies the same pitch identity |
| LeadScrew.Trapezoid | add_lead_screw.py:44-48 | one thread section has four corners |
| LeadScrew.TrapezoidShape | add_lead_screw.py:44-48 | the trapezoid spans exactly one pitch along z, both flanks rise by top/2 + t around a flat of length top on the minor radius, and it lies in the plane y = 0 |
| LeadScrew.StartZ | add_lead_screw.py:42-50 | the section of start i begins i pitches up |
| LeadScrew.ThreadSections | add_lead_screw.py:39-50 | four vertices and one face per start, each face over exactly its own four new vertices |
| LeadScrew.ThreadSectionAt | add_lead_screw.py:43-50 | vertices 4i to 4i + 3 are the trapezoid of start i, i pitches up |
| LeadScrew.ThreadSectionsMeet | add_lead_screw.py:43-50 | each start's trapezoid ends at the height where the next one begins, so the starts cover the lead without gap or overlap |
| LeadScrew.PitchIterationCovers | add_lead_screw.py:53-62 | at least two revolutions, and after the cutter is lowered by one lead the revolutions reach at least one lead past the rod's length |
| DonutCylinder.Radii | add_donut_cylinder.py:170-178 | the wall is the given thickness when a thickness is given, and half the difference of the diameters otherwise |
| DonutCylinder.RadiiMatchPanel | add_donut_cylinder.py:125-140 | the solid has exactly the derived size the panel shows: thickness (D − d)/2, hole D − 2t, or diameter d + 2t |
| DonutCylinder.Execute | add_donut_cylinder.py:169-214 | the operator proceeds exactly when 0 ≤ hole radius < outer radius, refusing a too-large hole with its own message first; it cuts a hole exactly when the hole radius is positive and a pie exactly when the amount is under a full turn |
| DonutCylinder.ExecuteRefusals | add_donut_cylinder.py:105-186 | within the property ranges the diameter-and-hole method is refused exactly for d ≥ D, the diameter-and-thickness method exactly for t > D/2, and the hole-and-thickness method never |
| DonutCylinder.ExecuteShift | add_donut_cylinder.py:193-214 | the cylinder, centred on the cursor, is shifted so that the cursor ends at its top, middle or bottom as chosen |
| DonutCylinder.PieOutline | add_donut_cylinder.py:55-70 | the cutter outline starts at the +y point and the centre, then the +y point turned by the amount; two more corners under half a turn, one more under three quarters, and the last corner (s, s); all at z = 0 |
| DonutCylinder.PieCutter | add_donut_cylinder.py:72-78 | the outline is one face over its indices reversed, extruded with a cap: twice the vertices, n + 2 faces, all indices in bounds |
| Geometry.RotateAll | add_donut_cylinder.py:78 | every point is turned about z by the rotation with the given cosine and sine, keeping length and order; the pie cutter uses it for its rotation and the Reuleaux polygon for its quarter turn |
| DonutCylinder.PieCutterHeights | add_donut_cylinder.py:72-78 | the cutter stands on z = 0: its first n vertices are at height 0 and the extruded ones at the cut height, whatever the rotation |
| PinHeader.CreateBox | add_pinheader.py:41-62 | eight vertices and the six box faces; vertex k lies half the size above or below the offset on each axis according to its bit pattern (bit 2 for x, bit 1 for y, bit 0 for z) |
| PinHeader.BoxFacesShape | add_pinheader.py:52-59 | the six faces are in-bounds quads, each in one side plane of the cube and walking round it along cube edges, and every corner belongs to exactly three faces |
| PinHeader.BoxSpan | add_pinheader.py:61 | with a non-negative height the box spans its size along each axis, centred on the offset |
| PinHeader.BevelEdges | add_pinheader.py:263-315 | for a box of non-zero height the block's bevel goes exactly on the four upright edges of the side faces and the pin's exactly on the other edges, including every edge of the top and bottom |
| PinHeader.PinPitchValue | add_pinheader.py:148-154 | "127" gives 1.27 and "200" gives 2.00; every other identifier falls back to 2.54 |
| PinHeader.PresetFor | add_pinheader.py:173-191 | a preset exists exactly for the three pitch identifiers, and its block width is the pitch's value |
| PinHeader.PresetsValid | add_pinheader.py:173-202 | every preset meets the properties' minimums, its pin is thinner than the block, and the concave cut is made for every pitch except 1.27 |
| PinHeader.PinLength | add_pinheader.py:301 | the pin is longer than the block by exactly the top and bottom lengths |
| PinHeader.PinThroughBlock | add_pinheader.py:254-303 | the block spans z from 0 to its height, and the pin reaches `bottom` below the block's base and `top` above its top |
| PinHeader.ShiftFace | add_pinheader.py:87-90 | every index of a face is moved up by the offset |
| PinHeader.ShiftFaces | add_pinheader.py:87-90 | each face of a part is shifted the same way |
| PinHeader.Relocate | add_pinheader.py:85-86 | each vertex, taken in the frame of the first object, is at the same place in space as before |
| PinHeader.Combine | add_pinheader.py:81-91 | the joined mesh has the parts' total vertices and faces, and it is well formed when every part is |
| PinHeader.ShiftedInBounds | add_pinheader.py:87-91 | faces in bounds for a part stay in bounds after being shifted past the vertices before it |
| PinHeader.CombinePlacesPart | add_pinheader.py:84-91 | part i's vertex k lands after the earlier parts' vertices, at the same place in space, and its faces land after the earlier parts' faces, shifted by the earlier vertex count |
| PinHeader.CreateCombinedObject | add_pinheader.py:68-100 | an empty list is refused; otherwise the result takes the first object's location and holds every part's vertices and faces |
| PinHeader.CombineKeepsFirst | add_pinheader.py:81-99 | the first object's vertices and faces are unchanged at the front of the joined mesh |
| Coupling.Cylinder | add_coupling.py:92-100 | a cylinder cut reaches `minus` below and `plus` above the height it is placed at |
| Coupling.MiddleDiameter | add_coupling.py:349 | the middle bore's diameter is the larger shaft diameter plus the clearance |
| Coupling.CouplingBores | add_coupling.py:94-115 | two shaft bores, and a third, middle bore exactly when the insertions leave a gap |
| Coupling.BoresGoThrough | add_coupling.py:94-115 | the lower bore (d2) pokes out of the base to the insertion depth, the upper (d1) from the insertion depth below the top out past it, the middle bore fills exactly the gap, and every height of the coupling lies in some bore |
| Coupling.CouplingBevelEdges | add_coupling.py:39-53 | an edge in an end plane is bevelled exactly when its faces' dot product is below the threshold; an edge rising more than 0.02, or with an end more than 0.01 from both end planes, never is |
| Coupling.SetScrewCuts | add_coupling.py:156-178 | two cuts when the angle is within 0.01 of zero, four otherwise; a threaded cutter is tilted by −90 degrees and a plain one by 90 |
| Coupling.SetScrewCutsMirrored | add_coupling.py:164-178 | the cuts at the top repeat those at the bottom at height length − position with the same turns; every cut is turned by 0 or the angle, and a turned cut exists exactly when the angle is more than 0.01 from zero |
| Coupling.SetScrewCutterReachesOut | add_coupling.py:158-162 | the plain cutter runs from the axis out past the coupling's outer wall |
| Coupling.UpdateSetScrewSizes | add_coupling.py:221-227 | a known size copies its diameter and pitch; an unknown one changes nothing |
| Coupling.UpdateSetScrewSizesIdempotent | add_coupling.py:221-227 | applying the same size twice changes nothing the second time |
| Coupling.SlitProfile | add_coupling.py:191-199 | a profile exists exactly when the width and the turn count are positive: four points in the plane y = 0 from x = −diameter to x = −0.1, `width` tall around the start height |
| Coupling.SlitCentred | add_coupling.py:193 | the slit's centre line is centred on half the length, and it stays between the ends when turns and width fit in the length |
| Coupling.RevolveTurns | add_coupling.py:200-202 | each turn adds four vertices and four faces per ring, the profile stays in front, indices stay in bounds, and the last vertex climbs `distance` per turn |
| Coupling.MakeSlit | add_coupling.py:190-210 | no slit unless width and count are positive; otherwise the revolved mesh closed by two caps (the first and the last four vertices), in bounds, whose last vertex has climbed count·distance |
| Coupling.Caps | add_coupling.py:205-206 | the two caps are the first ring and the last four vertices, both in bounds |
| Coupling.Execute | add_coupling.py:348-358 | at least the two shaft bores; set-screw cuts exactly when enabled; a slit exactly when enabled with positive width and count |
| Coupling.MiddleBoreWider | add_coupling.py:348-350 | with a positive clearance the middle bore is wider than both shaft bores |
| LoadCell.Template | add_loadcell.py:37-54 | a template is found exactly when its key is in the table, and it is that key's row |
| LoadCell.Find | add_loadcell.py:152 | a key lookup succeeds exactly when some row has the key, and returns that row's value |
| LoadCell.TemplatesFit | add_loadcell.py:37-54 | in every template the screw holes lie inside the bar and clear of the cutout holes |
| LoadCell.UpdateTemplates | add_loadcell.py:151-166 | a known template overwrites every property with its row; an unknown one changes nothing |
| LoadCell.UpdateTemplatesIdempotent | add_loadcell.py:151-166 | choosing the same template twice changes nothing the second time |
| LoadCell.ThinCutters | add_loadcell.py:67-74 | two thinning cutters exactly when the thin length is positive, none otherwise |
| LoadCell.ThinCuttersLeaveStrip | add_loadcell.py:68-74 | the cutters are mirror images in x, span the bar's height and the thin length, and leave the strip |x| ≤ thinWidth/2 |
| LoadCell.CutoutPlan | add_loadcell.py:79-101 | nothing is cut without a positive hole diameter; otherwise a hole at −distance/2 and, for a positive distance, one at +distance/2; the bridge exactly when it has height and the holes are further apart than wide; the centre hole exactly when its diameter is positive |
| LoadCell.BridgeOnlyBetweenSeparateHoles | add_loadcell.py:86-95 | when the bridge is cut there are two holes, symmetric about y = 0, with a positive gap between them |
| LoadCell.ScrewHoles | add_loadcell.py:105-130 | an unknown screw size cuts nothing; otherwise two holes per pass (one when b is not positive) at x = ±screwX/2, at y = a/2 or a/2 + b on the chosen side, raised by (h + 2)/2 only when threaded, with the size's diameter |
| LoadCell.ZOffset | add_loadcell.py:320-324 | the top or bottom choice moves that face of the centred bar to z = 0; any other choice does not move it |
| LoadCell.BackNamesContainBack | add_loadcell.py:318-319 | every rear choice contains "back", so its offset is negated |
| LoadCell.OriginOnChosenHole | add_loadcell.py:310-319 | each front or rear choice moves the chosen screw hole, or the middle of the pair, to y = 0, and the centre choice does not shift |
| LoadCell.HolesAlongY | add_loadcell.py:119-126 | the first pass puts the inner hole first and the outer one after it |
| LoadCell.FrontOffsets | add_loadcell.py:311-317 | the front choices shift by a/2, a/2 + b/2 and a/2 + b |
| LoadCell.BackOffsets | add_loadcell.py:311-319 | the rear choices shift by the negated offsets |
| LoadCell.PlaceVertices | add_loadcell.py:325-326 | skipping the shift when both offsets are zero gives the same vertices as always applying it |
| Oloid.RotateX90 | add_oloid.py:214-228 | the quarter turn about x keeps x and the distance from the x axis |
| Oloid.RotateX90Order | add_oloid.py:214-228 | two quarter turns are the half turn, four are the identity, and the turn keeps dot products |
| Oloid.CircleVertices | add_oloid.py:239-265 | n points, all at z = 0, point i at `radius` times the cosine and sine of its angle from the centre |
| Oloid.CircleVerticesOnCircle | add_oloid.py:259-265 | with a true cosine and sine every point lies `radius` from the centre in its plane |
| Oloid.SecondCircle | add_oloid.py:61-64 | each point of the second circle is the matching point turned a quarter about x and moved `radius` along x |
| Oloid.OloidVertices | add_oloid.py:58-64 | the vertices are the two circles, n points each |
| Oloid.CirclesOnSeams | add_oloid.py:93-104 | every first-circle vertex is `radius` from the origin in z = 0 and every second-circle vertex `radius` from (radius, 0, 0) in y = 0, so each passes its seam test |
| Oloid.CentresOnOtherCircle | add_oloid.py:93-104 | each circle's centre lies on the other circle and passes the other's seam test |
| Oloid.FarthestX | add_oloid.py:150-172 | no vertex is returned exactly when no vertex has a negative x; otherwise the returned vertex has the smallest x, and every earlier vertex a larger one |
| Oloid.FirstLeftmostUnique | add_oloid.py:165-172 | at most one vertex is first with the smallest negative x, so the result is determined |

## Left out

- Blender plumbing: the operators' `draw` and `invoke`, menus, `register`/`unregister`, object linking and selection, and moving objects to the cursor; these are `bpy` calls with nothing to state.
- Work done by Blender's mesh engine: boolean, bevel, screw and array modifiers, `convex_hull`, UV unwrap, `bmesh` edits and `cleanup_mesh`. The model stops at the meshes, cutters and bevel-edge predicates handed to them.
- Floating-point numerics: coordinates are exact reals, and no rounding claim is made.
- Transcendental functions: `sin`, `cos`, `tan`, `atan2`, `sqrt` and the rotation matrices and quaternions are parameters.
- The clothoid's Euler integration uses a `cos`/`sin` parameter. `tangent_at` and the clothoid-and-arc corner (`create_clothoid_and_arc_corner_vertices`) are not modelled. The rectangle takes its corner as an input.
- The circle computation of `sphere_intersection` and the coordinates of `make_arc_vertices` are not modelled. The √3/√6 coordinates of the regular tetrahedron are parameters. Only the angle-span rule is modelled.
- The lead screw's revolve of its sections, the rod cylinder and the boolean cut are Blender operations. The model covers the sections and the revolution count.
- `pgettext` translation and `units_to_string` are not modelled: they only produce display strings. The load cell's and the coupling's object names are left out for the same reason.
- The bevel branch of `create_threaded_cylinder` and the bevelled nut are left out: both are built from `make_arc_vertices` arcs. The pan-head, flat-head and Phillips heads and the chamfer objects are left out because they are booleans over those arcs.
- `romly_utils.create_box`, `create_box_from_corners`, `create_cylinder`, `make_circle_vertices`, `rotate_vertices` and `rotated_vector` are not part of this model. The generators' calls to them appear as boxes given by their corners, cylinders given by their radius and end heights, or rotations passed as parameters. In the real-number model the Reuleaux polygon's 90-degree turn is exact, so it is modelled as the map (x, y, z) to (−y, x, z). The source's floating-point rotation matrix only approximates this map.
- `SCREW_SPECS` is not part of this model. Screw sizes are an `Option` parameter, where `None` stands for an unknown size.
- The pin header's array modifier and its offsets are Blender modifiers and are not modelled.
- The files with no exact layer of their own are not modelled: the STL exports, the blend1 cleaner, the UI panels, the modifier helpers, the translation table, `add_box.py`, `add_nut_hole.py` and `add_lead_nut.py`.
- Oloid.OloidVertices: its contract gives only the vertex count. Where the points lie is stated separately, in `CircleVertices`, `SecondCircle` and `CirclesOnSeams`.
- JisScrew.TrimDecimalZerosProperties: the "no dangling point" and idempotence claims hold only for strings with at most one decimal point. `f'{x:.3f}'` guarantees this, and "1.." is a counterexample without it.
- Revolve.AddRevolvedSurface: requires a ring of at least one vertex. With an empty ring and `close`, the source emits a face naming vertex `n`, which does not exist.
- LinearGuide.RailHoleZs: requires a pitch of at least 1. This is the property's minimum (add_linear_guide.py:335), so every call site meets it. With a pitch ≤ 0 the source loop would never end.
- LoadCell.OriginOnChosenHole: requires b ≥ 0. This is the property's minimum (add_loadcell.py:202), so every call site meets it.
- Coupling.RevolveTurns: the slit calls `romly_utils.add_revolved_surface`, which is not part of this model. Other callers pass it `ccw` and `rotation_degree`. The model assumes that with those left at their defaults it behaves like the `add_revolved_surface` of add_jis_screw.py:134-181, which is `Revolve.AddRevolvedSurface` here, and it takes the turn direction as the `spin` parameter.
- Definitions without a contract of their own are described by the rows of the lemmas about them: `LoadCell.YOffset` by `FrontOffsets`, `BackOffsets` and `OriginOnChosenHole`; `Oloid.Distance` by `CentresOnOtherCircle` and `CirclesOnSeams`; `LeadScrew.PitchIteration` by `PitchIterationCovers`; `Coupling.IsCouplingBevelEdge` by `CouplingBevelEdges`; `CrossExtrusion.CreateCrossExtrusion` and `PlaceCross` by `SweepHeights` and `PlacedCrossSpans`; `Clothoid.Mirror45` by `Mirror45Reflection` and `MirrorTail`; `Clothoid.CornerPoint` by `Corners`; `AluminumExtrusion.TopMiddleRight`, `TopRight`, `LeftMiddleTop` and `LeftMiddleBottom` by `MirrorX`, `MirrorY`, `MirrorDiagonal` and `LeftMiddleBottomIsQuarterTurn`; `AluminumExtrusion.Columns` and `Rows` by `ColumnsShape`, `RowsShape` and `SectionShape`; `AluminumExtrusion.HoleCenter` by `HoleCenterOpposite`, `HoleCentersSymmetric`, `ColumnOffsetIsHoleCenter` and `RowOffsetIsHoleCenter`; `CompressionSpring.FreeLength` by `FreeLengthRoundTrip` and `GroundEndsShorten`; `JisScrew.UnthreadedLengthFor` by `ScrewExecuteCheck`; `PinHeader.BlockBox` and `PinBox` by `PinThroughBlock`; `ReuleauxTetrahedron.OriginOffset` by `OriginPlacement`; `ReuleauxPolygon.PolygonName` by `PolygonNameIsh`.
- Geometry helpers (vector arithmetic, `Range`, `Reverse`, `Ceil`, `PyMod`) and the arithmetic lemmas behind the proofs have no rows: they model nothing of their own.

## Findings

| source | as written | input that shows it | evidently intended | confidence | as-written member | corrected member |
|---|---|---|---|---|---|---|
| add_aluminum_extrusion.py:96-108 | `find_intersection` computes t and u as ratios of the magnitudes of cross products. Both are therefore never negative, and the `0 <= t` and `0 <= u` tests never fail | segment (0,0)–(2,0) against segment (−1,−1)–(−1,1): the lines meet at (−1,0) with t = −1/2, and the function returns (1,0) instead of None | signed parameters, so that a point is returned only when the segments really cross | not executed | AluminumExtrusion.FindIntersectionIgnoresSign | AluminumExtrusion.FindIntersection2OnBoth |
| add_linear_guide.py:334 | the outer-hole-depth property of the rail operator has `min=1`, and the mgn05 preset's depth is 0.8 (add_linear_guide.py:42). Blender clamps the assigned 0.8 to 1, so the lookup of add_linear_guide.py:284-295 no longer finds mgn05 | choosing mgn05: the stored depth is 1, and the name is '' | a minimum no higher than the smallest preset dimension, so that every preset is stored as listed and names itself | medium, not executed: this relies on Blender clamping assignments to the hard minimum | LinearGuide.Mgn05Unrecognised | LinearGuide.RailPresetRoundTripAtLowerMinimum |

The section builders (`TopLeft`, `TopMiddleLeft` and the blocks mirrored
from them, and so `Bottom`) follow the code as written: their tips come from
`FindIntersectionInPlane`, which `FindIntersectionMagnitudes` proves equal to
`find_intersection`. The discrepancy therefore shows in the sections
themselves. `AluminumExtrusion.TopLeftTipOffWall` gives an example: for the
in-range profile size 20, slot 6, inner slot 12, core 16 and bone 1, both
diagonal bones meet their wall just behind their start. The source still
returns a tip there, and the first tip lies off the wall line y = 6. The
corrected `FindIntersection2` stands beside the as-written version.
`FindIntersectionAgreesInRange` shows that the two agree wherever the
corrected test finds a point.

The rail operator is modelled as written: `UpdateRailSpec` assigns with the
properties' minimum of 1, and `RailPresetRoundTrip` fails for mgn05 alone.
`UpdateRail` takes the minimum as a parameter. The corrected
`RailPresetRoundTripAtLowerMinimum` is a statement about the same function
with a minimum of at most 0.8.
