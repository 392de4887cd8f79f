# webgl-pathtracer: build-time data layout and BVH traversal, modelled in Dafny

The repository is a WebGL path tracer. Before the GPU renders, JavaScript prepares the scene:
- it loads glTF meshes and materials and decodes a Radiance `.hdr` environment map;
- it splits the environment map into importance-sampling bins;
- it builds a bounding-volume hierarchy (BVH) over the triangles;
- it packs triangles, nodes and materials into textures and a uniform buffer.

The fragment shader then reads those textures back and walks the BVH with a small stack.

This project models that pipeline and proves what each step promises:

| module (file) | models |
|---|---|
| `Common`, `Geometry` (common.dfy, geometry.dfy) | `Option`/`Result`, a NaN-aware number `Num`, powers of two, vertices and triangles |
| `Bounds` (bounds.dfy) | `newAABB`, `growBounds`, `mmax`, `surfaceArea`, `longestAxis` of bvh.js |
| `BvhSplit` (bvh_split.dfy) | per-node work of `buildNode`: triangle annotation, the union box, the binned SAH search (3 axes × 7 boundaries), the degenerate fallback, the partition |
| `BvhTree` (bvh_tree.dfy) | `newNode`, the child back-patching, the work stack of `createBVH`, and the invariant of the whole build |
| `BvhBuild` (bvh_build.dfy) | the builder class whose fields are the globals `trisBVH`, `nodesBVH`, `stackBVH`, and `compressBVH` |
| `Hdr` (hdr.dfy) | `parseHDR`: header lines, the `2,2` marker, the width check, the run-length decoding of the four channels, and the RGBE-to-float conversion |
| `EnvBins` (env_bins.dfy) | `getRadiance`, `processBins` and the radiance total of `handleHDRI`; the globals are fields of a class |
| `Gltf` (gltf.dfy) | `getElementSize`, `getTypedArrayConstructor`, the length of `handleAttribute`, the material defaults and triangle grouping of `handleGLTF` |
| `Spectral` (spectral.dfy) | `sampleWavelength`, the trapezoid CDF and the inverse-table pass of `passTextures` |
| `TexLayout` (tex_layout.dfy) | the triangle, node and bounds texel placement of `passTextures` |
| `MaterialBuffer` (materials.dfy) | `loadMaterials`, and `getMaterial` reading the buffer back |
| `Shader` (shader.dfy) | the reads of `getNode`, `getBounds`, `getTrianglePos` and `getTriData`; the guard of `intersectTriangle`; the stack loop of `traverseBVH` |

**How the model is built**
- Code that changes state is a method with loops or fields. Each method is proved equal to a pure specification function. The properties are lemmas about those functions.
- Coordinates and radiance are `real`. Indices are `int`.
- The ±Infinity of `newAABB` is a three-valued extended real, `XReal`.
- A JavaScript `undefined` that turns a sum into NaN is a `Num`.

**Where the code and its documentation differ, the model follows the code:**
- `getRadiance` adds green twice and never adds blue.
- A split whose midpoints all coincide can yield an internal node with one child (`childb == 0`).
- A material without `pbrMetallicRoughness` keeps only its name. `loadMaterials` then fails when it spreads `material.albedo`. The model returns an error at that index.
- An `emissiveStrength` of 0 counts as 1, because of the JavaScript `||`.

## Model

| member | source | states |
|---|---|---|
| Bounds.Min | bvh.js:30-32 | Math.min on extended reals: the result is at most both arguments and is one of them |
| Bounds.Max | bvh.js:34-36 | Math.max on extended reals: the result is at least both arguments and is one of them |
| Bounds.Merged | bvh.js:41-50 | the box mmax leaves contains the old box and both corners mi, ma |
| Bounds.MergedIsLeast | bvh.js:41-50 | any box containing the old box and (mi, ma) contains the merged box |
| Bounds.MergedIntoEmpty | bvh.js:6-50 | mmax(newAABB(), mi, ma) is exactly the box with corners mi and ma |
| Bounds.MergedMonotone | bvh.js:41-50 | merging the same corners into nested boxes keeps them nested |
| Bounds.SurfaceArea | bvh.js:107-114 | w·h + h·d + d·w with no factor 2; non-negative when min ≤ max on every axis |
| Bounds.LongestAxis | bvh.js:53-60 | an axis of maximal extent, and every lower axis has a strictly smaller extent (first maximum, ties to the lower axis) |
| Bounds.AllocAabb | bvh.js:6-12 | a fresh 3×2 array holding +∞ mins and −∞ maxes |
| Bounds.GrowBounds | bvh.js:28-39 | widens the array in place to the box grown by point p |
| Bounds.Mmax | bvh.js:41-50 | widens the array in place to Merged(old box, mi, ma) |
| BvhSplit.Annotate | bvh.js:78-92 | keeps the triangle; mi ≤ midpoint ≤ ma on every axis, and every vertex lies between mi and ma |
| BvhSplit.GrownThree | bvh.js:84-91 | growing newAABB by the three vertices gives exactly the box (mi, ma) recorded by Annotate |
| BvhSplit.BoundsOf | bvh.js:130-133 | the accumulated box holds every triangle's (mi, ma); it is finite for a non-empty subset, and ordered when every triangle is |
| BvhSplit.BoundsOfIsLeast | bvh.js:130-133 | every box holding all the triangles contains BoundsOf |
| BvhSplit.BoundsOfSubset | bvh.js:130-133 | the box of a sub-multiset lies inside the box of the whole |
| BvhSplit.PartitionSplits | bvh.js:211-221 | left ++ right is a permutation of the triangles; left midpoints are < compare and right ones are ≥ compare |
| BvhSplit.Weighted | bvh.js:178-183 | count × area is non-negative when the area is |
| BvhSplit.SideCostNonNeg | bvh.js:174-184 | one side's SAH share is never negative |
| BvhSplit.CheapSplitHasTwoSides | bvh.js:174-200 | a candidate costing at most 1e9 has triangles on both sides, because an empty side costs 1e12 |
| BvhSplit.Costs | bvh.js:149-173 | the 21 candidate costs, in the axis-major, boundary-minor order the loops visit them |
| BvhSplit.SearchUpToIsFirstMinimum | bvh.js:145-192 | after k candidates, minCost is a visited cost, no visited cost is smaller, and every earlier one is strictly larger |
| BvhSplit.SearchIsMinimal | bvh.js:145-192 | the chosen cost is at most the SAH cost of every axis and boundary |
| BvhSplit.SearchIsAttained | bvh.js:145-192 | the chosen (axis, split) has exactly the chosen cost |
| BvhSplit.FirstApartIsFirst | bvh.js:202-208 | the fallback picks the first axis where the first two midpoints differ by more than 1e-6, or none exists |
| BvhSplit.Fallback | bvh.js:200-209 | no such axis leaves the plane unchanged; otherwise the plane midway between the two midpoints separates the first two triangles |
| BvhSplit.MemberSide | bvh.js:214-221 | each triangle ends on the side its midpoint selects |
| BvhSplit.OppositePairSplits | bvh.js:200-221 | if the first two triangles are on opposite sides, both sides are non-empty |
| BvhSplit.ChosenPlaneHasTwoSides | bvh.js:194-221 | a cheap SAH split, or a fallback axis, partitions into two non-empty sides |
| BvhSplit.CoincidentHaveOneSide | bvh.js:200-221 | when all midpoints coincide, every plane leaves one side empty |
| BvhSplit.UnionBounds | bvh.js:130-133 | the mmax loop computes BoundsOf |
| BvhSplit.SideBoxes | bvh.js:162-173 | the counting loop returns both side counts and both side boxes |
| BvhSplit.SideCostOf | bvh.js:174-184 | a side's cost: 1e12 when empty, else count × surface area |
| BvhSplit.CandidateCostLoop | bvh.js:155-184 | one candidate's SAH cost, as SahCost |
| BvhSplit.SearchLoop | bvh.js:145-192 | the nested search loops return exactly Search (the first strict minimum) |
| BvhSplit.FallbackLoop | bvh.js:200-209 | the fallback loop returns exactly Fallback |
| BvhSplit.PartitionLoop | bvh.js:211-221 | the partition loop returns exactly LeftOf and RightOf, in input order |
| BvhTree.NewNode | bvh.js:14-26 | start, len, childa, childb are 0; the placeholder box is ordered and 100 tall on y |
| BvhTree.InternalIsLarge | bvh.js:135 | a node that is not a leaf has at least 2 triangles and depth at most 32 |
| BvhTree.Patch | bvh.js:119-125 | the parent gets the new index in childa if childa is 0, otherwise in childb; other nodes are unchanged |
| BvhTree.Halves | bvh.js:194-221 | the two halves of buildNode together are a permutation of its triangles |
| BvhTree.InitialInv | bvh.js:73-94 | the build invariant holds with empty arrays and the root item (tris, −1, 0) on the stack |
| BvhTree.StepInv | bvh.js:95-100 | one buildNode call keeps the invariant and strictly decreases the stack weight (Σ 2^(34−depth) − 1), so the loop terminates without the 1e7 cap |
| BvhTree.LeafRange | bvh.js:135-141 | trisBVH[start..start+len) of a leaf is its subset in order |
| BvhTree.LeafRangesOrdered | bvh.js:136-139 | leaf ranges are appended in node order, without overlap |
| BvhTree.BuiltPermutation | bvh.js:94-103 | when the stack empties, trisBVH is a permutation of the input and node 0 is the root |
| BvhTree.BuiltBoxes | bvh.js:130-138 | every node's box holds every triangle of its subset; no depth exceeds 33 |
| BvhTree.BuiltLeaf | bvh.js:135-141 | a leaf's range lies inside trisBVH, holds its subset, and has no children |
| BvhTree.BuiltLeavesOrdered | bvh.js:136-139 | an earlier leaf's range ends before a later leaf's starts |
| BvhTree.BuiltInternal | bvh.js:223-227 | an internal node has len 0 and childa > its index; a non-zero childb is too; the children's subsets together are its own |
| BvhTree.ChildBoxWithin | bvh.js:130-133 | a child's box lies inside its parent's box |
| BvhBuild.AnnotateAll | bvh.js:78-92 | each triangle is annotated by Annotate, in order |
| BvhBuild.TriWords | bvh.js:238-246 | compressBVH emits 40 numbers per triangle |
| BvhBuild.NodeWords | bvh.js:250-254 | compressBVH emits 12 numbers per node |
| BvhBuild.FlatTrisLayout | bvh.js:237-247 | the triangle array has 40·n entries, and entries 40i..40i+40 are triangle i's words |
| BvhBuild.FlatNodesLayout | bvh.js:249-255 | the node array has 12·n entries, and entries 12k..12k+12 are node k's words |
| BvhBuild.TriangleWords | bvh.js:239-245 | vertex j of triangle i has its position at 40i+12j+0..2, uv at +4..5 and normal at +8..10 |
| BvhBuild.VertexSlice | bvh.js:239-245 | the 12 entries of vertex j of triangle i are its vertex words |
| BvhBuild.MaterialWord | bvh.js:246 | entry 40i+36 is triangle i's material |
| BvhBuild.TriWordsVertex | bvh.js:239-246 | within one triangle's 40 words, vertex j sits at 12j and the material at 36 |
| BvhBuild.NodeWordsAt | bvh.js:250-254 | entries 12k..12k+3 are start, len, childa, childb; 12k+4..6 the min corner; 12k+8..10 the max corner |
| BvhBuild.SplitNode | bvh.js:145-221 | the search, the fallback and the partition loop together produce Halves |
| BvhBuild.Builder.constructor | bvh.js:64-66 | the three global arrays start empty |
| BvhBuild.Builder.PushToStack | bvh.js:68-71 | appends (t, p, d) to the stack and changes nothing else |
| BvhBuild.Builder.BuildNode | bvh.js:118-229 | the new state is BuildNodeSpec of the old state and the work item |
| BvhBuild.Builder.AppendInternal | bvh.js:223-227 | appends the internal node, then pushes the non-empty halves with parent = its index |
| BvhBuild.Builder.CreateBvh | bvh.js:73-105 | annotates the input, drains the stack keeping the build invariant, and returns compressBVH's arrays |
| BvhBuild.Builder.CompressBvh | bvh.js:233-258 | the arrays are FlatTris(trisBVH) and FlatNodes(nodesBVH) |
| Hdr.LineAt | gltfLoader.js:354-362 | the line is the bytes up to the next 0x0A, with no newline in it; the cursor moves past the newline, or to the end |
| Hdr.TrimStart | gltfLoader.js:370 | drops exactly the leading whitespace |
| Hdr.TrimEnd | gltfLoader.js:370 | drops exactly the trailing whitespace |
| Hdr.Split | gltfLoader.js:373 | at least one part, none containing the separator |
| Hdr.SplitJoin | gltfLoader.js:373 | joining the parts with the separator gives back the line |
| Hdr.ParseDecimal | gltfLoader.js:374-375 | parseInt reads back the decimal digits of every natural number |
| Hdr.HeaderFrom | gltfLoader.js:364-378 | skips '#' and empty lines, keeps the last trimmed FORMAT= line, and takes height = part 2 and width = part 4 of the first ±Y line; the cursor ends past that line |
| Hdr.PacketAt | gltfLoader.js:403-415 | one packet: a count > 128 repeats the next byte count − 128 times, otherwise count literal bytes follow |
| Hdr.Runs | gltfLoader.js:401-416 | packets until at least `need` values are decoded; the cursor only moves forward |
| Hdr.Channels | gltfLoader.js:400-417 | the channels decode one after the other |
| Hdr.Scanline | gltfLoader.js:388-417 | a scanline needs the bytes 2, 2 and a big-endian width equal to `width`, then four channels |
| Hdr.ChannelsShape | gltfLoader.js:400-417 | decoding n channels gives n channels of at least width values each |
| Hdr.ScanlineShape | gltfLoader.js:400-417 | a decoded scanline has four channels covering the width |
| Hdr.RadianceSign | gltfLoader.js:424-433 | a decoded value is ≥ 0, and 0 exactly when the mantissa or the exponent byte is 0 |
| Hdr.RowPixels | gltfLoader.js:418-434 | three floats per pixel of a row |
| Hdr.Lines | gltfLoader.js:388-435 | decoding n scanlines gives n entries |
| Hdr.PixelsLength | gltfLoader.js:384 | the pixels of n rows are 3·width·n floats |
| Hdr.DecodeLength | gltfLoader.js:384-437 | a decoded image holds the Float32Array of width·height·3 floats: that many for numeric dimensions, none when one is NaN |
| Hdr.BadDimensionsIff | gltfLoader.js:384-385 | the typed-array constructors throw a RangeError exactly for a negative width, or a positive width with a negative height |
| Hdr.PacketInverts | gltfLoader.js:403-415 | the bytes of a run (1..127 copies) or literal (1..128 bytes) packet decode to its expansion |
| Hdr.RunsInvertsEncode | gltfLoader.js:400-417 | decoding the encoding of well-formed packets gives their concatenated expansion, ending right after the encoding |
| Hdr.ReadLine | gltfLoader.js:354-362 | readLine returns LineAt |
| Hdr.ReadHeader | gltfLoader.js:364-378 | the header loop returns HeaderFrom |
| Hdr.FillRun | gltfLoader.js:404-409 | writes n copies of value into the channel slots of x = i0..i0+n−1 below width, leaving the other channels unchanged |
| Hdr.FillLiteral | gltfLoader.js:410-415 | copies the literal bytes into the channel slots, leaving the other channels unchanged |
| Hdr.DecodePacket | gltfLoader.js:403-415 | decodes one packet into the scanline buffer, as PacketAt |
| Hdr.DecodeChannel | gltfLoader.js:400-417 | the while loop for one channel fills scanline[4x+c] with Runs' values |
| Hdr.DecodeScanline | gltfLoader.js:388-417 | checks the marker and width and fills all four channels, as Scanline |
| Hdr.ConvertPixel | gltfLoader.js:419-433 | appends the three floats of one pixel |
| Hdr.ConvertRow | gltfLoader.js:418-434 | appends the floats of one row and advances offset by 3·width |
| Hdr.ReadRow | gltfLoader.js:388-434 | decodes and converts one scanline |
| Hdr.ReadPixels | gltfLoader.js:384-435 | the row loop fills data with exactly Pixels of the decoded scanlines |
| Hdr.ParseHdr | gltfLoader.js:351-438 | parseHDR returns Decode(bytes): the image (empty for a NaN or non-positive height), or the error for a bad format, a RangeError, a bad marker or a width mismatch (always, for a NaN width) |
| EnvBins.IntIndex | gltfLoader.js:450-452 | at integer (x, y), getRadiance reads index 3·(y·width + x) |
| EnvBins.RadianceDefined | gltfLoader.js:450-452 | inside the image, the radiance is the red value plus the green value twice |
| EnvBins.RadianceIgnoresBlue | gltfLoader.js:450-452 | changing only blue values never changes any radiance |
| EnvBins.RadianceAtHalfIsNaN | gltfLoader.js:471-477 | at a half-integer x, the read is undefined and the radiance is NaN |
| EnvBins.StepsCount | gltfLoader.js:475-476 | `for (x = a; x < b; x++)` runs exactly Steps(a, b) times |
| EnvBins.StepsFromZero | gltfLoader.js:518-519 | from 0 to a whole number b, the loop runs b times |
| EnvBins.ColumnDefined | gltfLoader.js:476-478 | a column sum is a number iff the start and every read are |
| EnvBins.RectSumDefined | gltfLoader.js:474-479 | a rectangle sum is a number iff every read inside it is |
| EnvBins.Tiles | gltfLoader.js:458-489 | at least one and at most 2^(33−depth) rectangles; the first starts at the input's corner and the last ends at its opposite corner |
| EnvBins.LeafIff | gltfLoader.js:464-468 | the input is kept whole exactly when radiance < 80000, w·h < 1 or depth > 32 |
| EnvBins.TilesInside | gltfLoader.js:458-489 | every point of an emitted rectangle lies in the input |
| EnvBins.TilesCover | gltfLoader.js:458-489 | every point of the input lies in some emitted rectangle |
| EnvBins.HalvesDisjoint | gltfLoader.js:470-472 | the two halves of a split share no point |
| EnvBins.TilesDisjoint | gltfLoader.js:458-489 | no point lies in two emitted rectangles |
| EnvBins.WholeImageDefined | gltfLoader.js:517-522 | the total radiance of a whole image is a number |
| EnvBins.Flatten | gltfLoader.js:465 | four numbers per rectangle |
| EnvBins.FlattenAt | gltfLoader.js:465 | entries 4i..4i+3 are rectangle i's ax, ay, bx, by |
| EnvBins.FlattenAppend | gltfLoader.js:465 | flattening distributes over concatenation |
| EnvBins.EnvMap.constructor | gltfLoader.js:442-446 | bins starts empty |
| EnvBins.EnvMap.RadianceSum | gltfLoader.js:474-479 | the nested loops sum getRadiance over the rectangle, as BinSum |
| EnvBins.EnvMap.ProcessBins | gltfLoader.js:458-489 | appends exactly the flattened Tiles to bins, keeps the earlier entries, and leaves the image alone |
| EnvBins.EnvMap.HandleHdri | gltfLoader.js:509-524 | unless redoBins, stores the image and appends the tiles of the whole image, weighted by its total radiance; with redoBins nothing changes |
| Gltf.ElementSize | gltfLoader.js:306-314 | 2, 3 or 4 exactly for VEC2, VEC3 or VEC4; every other type gives 1 |
| Gltf.ArrayForInverts | gltfLoader.js:316-326 | each typed-array kind has one component code, and that code maps back to it |
| Gltf.ArrayForRejects | gltfLoader.js:316-326 | null exactly for codes outside 5120, 5121, 5122, 5123, 5125, 5126 |
| Gltf.AttributeLength | gltfLoader.js:288-304 | a length exists iff the component type is known, and it is count·ElementSize(type): between count and 4·count and a multiple of the element size |
| Gltf.Basename | gltfLoader.js:162 | `uri.split('/').pop()`: the longest suffix without '/' |
| Gltf.MaterialInUnit | gltfLoader.js:156-218 | factors in [0, 1] give albedo, metallic, roughness and a numeric transmission in [0, 1]; metallic is ≤ 0.9 or exactly 1 |
| Gltf.ExtensionFields | gltfLoader.js:201-206 | ior is 1.5 and transmission 0 without their extension, the field when it is present, and NaN (undefined) exactly when the extension lacks its field |
| Gltf.AlbedoDefaults | gltfLoader.js:160-171 | textured iff a base colour texture is named; then albedo is 0,0,0; with no texture and no factor it is 1,1,1 |
| Gltf.ZeroStrengthIsOne | gltfLoader.js:194-200 | an emissive strength of 0 leaves the emissive factor unscaled |
| Gltf.LoadMaterials | gltfLoader.js:156-219 | one material per glTF material, each MaterialOf |
| Gltf.Verts | gltfLoader.js:253-274 | one vertex per index read |
| Gltf.VertsAt | gltfLoader.js:253-274 | vertex i is built from index i |
| Gltf.GroupUngroup | gltfLoader.js:252-279 | n groups of three give n triangles whose vertices are the first 3n in order, all with the primitive's material |
| Gltf.TriangleStep | gltfLoader.js:274-278 | pushing the completed triangle extends the grouping by one |
| Gltf.PrimitiveTriangles | gltfLoader.js:252-279 | the index loop yields PrimitiveTris: ⌊|indices|/3⌋ triangles, the leftover indices dropped |
| Gltf.MeshMaterials | gltfLoader.js:239-241 | every triangle's material is below the bound, an absent one being 0 |
| Gltf.SceneMaterials | gltfLoader.js:223-241 | every scene triangle's material names a loaded material |
| Gltf.MeshTriangles | gltfLoader.js:239-280 | the primitives' triangles in order |
| Gltf.LoadTriangles | gltfLoader.js:221-284 | all nodes' triangles in order, with numTris their count |
| Spectral.Bracket | compile.js:6-16 | the first index i ≥ k with cdf[i−1] ≤ xi ≤ cdf[i], or past the end |
| Spectral.SampleWavelength | compile.js:5-18 | the search loop returns Lookup: the interpolated position at the first bracket, or 1 |
| Spectral.InterpBounds | compile.js:10-15 | the result for bracket i lies in [(i−1)/n, i/n] |
| Spectral.InterpMono | compile.js:10-15 | within one bracket the result is non-decreasing in xi |
| Spectral.LookupInUnit | compile.js:5-18 | for a strictly increasing CDF, the result is a number in [0, 1] |
| Spectral.BelowTableIsOne | compile.js:5-18 | below cdf[0] the result is 1 |
| Spectral.LookupMonotone | compile.js:5-18 | for xi ≥ cdf[0], the result is non-decreasing in xi, including the saturating 1 above the table |
| Spectral.CdfClosedForm | compile.js:148-158 | 2·integral·cdf[k] = 2·Σ_{i≤k} s_i − s_0 − s_k |
| Spectral.CdfLast | compile.js:148-158 | the last value is 1 − (s_0 + s_{n−1})/(2·integral), so at most 1 for non-negative samples |
| Spectral.CdfStep | compile.js:150-158 | with positive samples, each value exceeds the one before |
| Spectral.CdfIncreasing | compile.js:150-158 | with positive samples, the CDF is strictly increasing |
| Spectral.SumPositive | compile.js:137-140 | positive samples give a positive integral |
| Spectral.Integral | compile.js:137-140 | the loop sums r + g + b over the table |
| Spectral.Cdf | compile.js:147-158 | one value per sample: cdf[0] = 0, then the trapezoid steps |
| Spectral.BuildCdf | compile.js:147-158 | the loop fills a fresh array with Cdf |
| Spectral.InvertTable | compile.js:160-165 | writes Lookup(cdf, i/(len−1)) into cie[4i+3] and changes no other entry |
| Spectral.AlphaMonotone | compile.js:160-165 | the written alpha values lie in [0, 1] and are non-decreasing in i |
| Spectral.CieLut | compile.js:137-165 | the whole pass: the integral, the CDF, and the alpha channel rewritten with RGB untouched |
| TexLayout.SlotValues | compile.js:47-50 | the four slots of a vertex: [pos, material], [uv, −1, material], [normal, material], [tangent] |
| TexLayout.TriDims | compile.js:24-29 | H = min(3n, 8190) = 3·uTriMax with uTriMax ≤ 2730; the width is a positive multiple of 4 and holds every triangle's column |
| TexLayout.TriWriteForm | compile.js:43-44 | ⌊3i/3m⌋ = ⌊i/m⌋ and 3i mod 3m = 3(i mod m) |
| TexLayout.TriOffsetIsTexel | compile.js:43-50 | the float offset passed to set is 4 × the texel index |
| TexLayout.TriPlacement | compile.js:43-50 | slot s of vertex j of triangle i lands inside the texture, on the texel that decodes back to (i, j, s) |
| TexLayout.TriSlotPlaced | compile.js:43-50 | every texel decodes to a slot that is written there |
| TexLayout.TriSlotsDisjoint | compile.js:40-51 | distinct (i, j, s) get disjoint 4-float ranges inside H·16·⌈3n/8190⌉ floats |
| TexLayout.SetSlot | compile.js:47-50 | one set call writes one more slot |
| TexLayout.SetVertex | compile.js:45-51 | one vertex's four set calls |
| TexLayout.PassTriangles | compile.js:20-52 | the triangle texture has H·W·4 floats, and float k is component k mod 4 of TriTexel(k/4) |
| TexLayout.NodeDims | compile.js:74-75 | 1 ≤ H = min(N, 8192) and W = ⌈N/8192⌉ ≥ 1 hold every node's column |
| TexLayout.U32 | compile.js:85-96 | a Uint32Array store: below 2^32, and the identity on [0, 2^32) |
| TexLayout.BlockPlacement | compile.js:88-99 | entry c of node i lands inside the texture, on the texel that decodes back to (i, c) |
| TexLayout.BlockEntryPlaced | compile.js:88-99 | every texel decodes to a node entry that is written there |
| TexLayout.NodeOffsets | compile.js:92-99 | the offsets 4⌊i/H⌋ + (i mod H)·4W and 6⌊i/H⌋ (+3) + (i mod H)·6W are the texels of the block layout |
| TexLayout.SetNode | compile.js:88-100 | one iteration writes node i's words and its two corners |
| TexLayout.PassNodes | compile.js:74-100 | the node texture holds [start, len, childa, childb] per node and the bounds texture the min then max corner, every other texel zero |
| MaterialBuffer.Pointer | compile.js:231-236 | a pointer is a number, negative exactly when there is no texture |
| MaterialBuffer.Pushed | compile.js:231-237 | at most one image is pushed per reference |
| MaterialBuffer.Textures | compile.js:229-257 | a material pushes TexCount ≤ 3 images |
| MaterialBuffer.Blocks | compile.js:229-257 | four entries in each array, and the material's images in order |
| MaterialBuffer.Packed | compile.js:224-257 | after n materials, each array has 4n entries and the image list has Refs(n) images |
| MaterialBuffer.PackedAt | compile.js:229-259 | entry k of the packed arrays is exactly material k's blocks, with pointers starting at Refs(k) |
| MaterialBuffer.RefsGrow | compile.js:231-256 | a later material's pointers come after all of an earlier one's |
| MaterialBuffer.PointersResolve | compile.js:231-256 | each pointer is −1 when absent, otherwise an index of the image list holding that texture |
| MaterialBuffer.AlbedoLayersIncrease | compile.js:231-237 | albedo texture layers strictly increase with the material index, with no deduplication |
| MaterialBuffer.PushPointer | compile.js:231-237 | pushes images.length or −1, and the image if present |
| MaterialBuffer.PushBlocks | compile.js:229-257 | the pushes for one material append exactly its Blocks to the four arrays and its textures to the image list (PackStep) |
| MaterialBuffer.PushMaterial | compile.js:229-257 | when the four arrays and the image list hold the packing of the materials before k, one loop iteration on material k leaves them holding the packing up to and including k |
| MaterialBuffer.LoadMaterials | compile.js:220-259 | succeeds iff every material is complete; the buffer is a ++ b ++ c ++ d of 16·M floats; otherwise it names the first material with only a name |
| MaterialBuffer.Block | shaders/fragShader.js:50-55 | the vec4 of array q for material k |
| MaterialBuffer.ReadBack | shaders/fragShader.js:101-135 | getMaterial on the uploaded buffer recovers material k's factors, NaN included, and each layer is absent or names its texture |
| Shader.GetNodeReadsNode | shaders/fragShader.js:143-146 | with uNodeMax = nodeTexHeight, getNode(i) reads inside the texture the texel holding node i's four words |
| Shader.GetBoundsReadsBox | shaders/fragShader.js:137-141 | getBounds(i) reads node i's min corner, and its max corner one texel right |
| Shader.GetTriangleReadsSlot | shaders/fragShader.js:148-176 | with uTriMax = triTexHeight/3, the texel at column +s and row +j of triangle i's base holds slot s of vertex j |
| Shader.I32 | shaders/fragShader.js:247 | `ivec4(uvec4)`: a 32-bit two's-complement value congruent to the stored word |
| Shader.NodeInfo | shaders/fragShader.js:247 | the four ints traverseBVH sees for node i |
| Shader.NodeInfoRoundTrip | shaders/fragShader.js:247 | for fields in [0, 2^31) the info is exactly start, len, childa, childb |
| Shader.TrianglePosRoundTrip | shaders/fragShader.js:148-155 | getTrianglePos(i) returns triangle i's three vertex positions |
| Shader.TriDataRoundTrip | shaders/fragShader.js:157-176 | getTriData(i) returns triangle i's uvs, normals, tangents and material |
| Shader.Intersect | shaders/fragShader.js:180-192 | replaced by the candidate iff u, v ≥ 0, u + v ≤ 1 and 0 ≤ t ≤ data.t; otherwise unchanged; t never grows |
| Shader.TestLeaf | shaders/fragShader.js:249-253 | after the leaf loop, t is at most every valid candidate's t in start..start+len−1; the record is unchanged or one of them |
| Shader.PushChildren | shaders/fragShader.js:255-273 | pushes only children whose distance is ≤ t, keeps the stack below, and leaves the nearer child on top |
| Shader.TraverseBvh | shaders/fragShader.js:240-279 | at most 512 iterations from node 0, stopping early only on an empty stack; the stack grows by at most one per iteration; the result is the initial record or the closest valid candidate among the tested triangles, all of which lie in leaves |

## Left out

- I/O and WebGL:
  - all `gl.*` calls, `fetch`, `File` and `Image`;
  - main.js, camera.js and shaders/vertShader.js;
  - the shading half of shaders/fragShader.js (materials, sampling, random numbers, tone mapping).
  - Images are represented by their file names.
- Floating point:
  - all arithmetic is exact over `real`;
  - `Float32Array` rounding is not modelled;
  - `Math.pow(2, e − 136)` is an exact power of two.
- Ray tests: intersectBox and the barycentric maths of intersectTriangle are parameters of the traversal (a distance per node, a (u, v, t) per triangle), not computations.
- Vertex transforms: the gl-matrix scale, rotation and translation of vertices in handleGLTF is an abstract transform parameter.
- Typed arrays:
  - handleAttribute keeps only the length `count · elementSize`, not the typed view over the buffer.
  - The caller guarantees that every index of a primitive is inside its attributes.
- BvhBuild.Builder.CreateBvh: drops the `1e7` iteration cap. The stack weight proves the loop ends long before it.
- BvhBuild.AnnotateAll: createBVH writes `midpoint`, `mi` and `ma` onto the caller's own triangle objects. The model returns annotated copies instead, so it does not capture that in-place update of the caller's array or its aliasing. Nothing in the core reads those fields back outside the build.
- Gltf.MaterialInUnit: bounds transmission to [0, 1] only when it is a number. A transmission extension without its factor stores `undefined`, which is NaN once packed (Gltf.ExtensionFields).
- BvhBuild.Builder.CompressBvh: its result is never used by the renderer, which uploads `trisBVH` and `nodesBVH` directly. It is modelled as the separate function it is.
- Hdr.ParseHdr: the JavaScript has two failures that the model makes explicit:
  - with no ±Y line, the header loop never ends (HeaderNeverEnds);
  - reads past the end of the input give `undefined` (Truncated).
  The model returns an error for each instead of looping or reading `undefined`. A RangeError of a typed-array constructor is the error BadDimensions; a missing (NaN) or negative dimension that does not throw is kept in the returned image.
- Hdr: a run that goes past the width writes outside the scanline buffer, which typed arrays ignore. The model ignores those writes too.
- Spectral.CieLut:
  - the CIE table constant is not part of this model;
  - the table is a parameter with positive samples, which the CDF proofs need;
  - the `uCIEintegral` uniform is left out.
- Shader.TraverseBvh:
  - the stack is a sequence, and the 16-slot GLSL array is not enforced;
  - it does not prove that pruned subtrees hold no closer hit, because that depends on the box test bounding the triangle test, which the model leaves abstract.
- Shader: GLSL integer division is modelled for non-negative indices only, which is all the layout produces.
- MaterialBuffer.ReadBack: covers the uniform-buffer reads of getMaterial. It does not cover texture sampling, the 2.2 gamma or the squaring of roughness.
