# pico-engine core, modelled in Dafny

pico-engine is a fixed-point software rasteriser for a microcontroller with
an LCD, plus a double-buffered swapchain. This project models the part of it
that is plain integer and bit logic, and proves properties of that model:

- the homogeneous clipper `pgl_clip`: its 16-slot ring-buffer queue, the six
  clip planes, and the shape, vertices and winding of the subtriangles it emits;
- back-face culling and the strict LESS depth test;
- the rasteriser `pgl_draw_filled_triangle`: the y-sort, the scanlines of
  both halves, the `[start_x, end_x)` x loop and its write discipline;
- `pgl_clear`, which fills the buffers one replicated 32-bit word at a time;
- the swapchain state machine, the bounded scene list, and the RGB565 byte swap
  `device_display` does before sending a frame;
- the helper macros, the colour and depth build configuration, and the RGB332
  palette.

Fixed-point values are raw integers. The fixed-point library (`q_mul`,
`q_div`, `q_vec4_dot`, …) is not part of this model. Where the control flow
depends on it, it is a function parameter (an "oracle"):

- `Clipper.DotOracle` for the dot product with a plane vector;
- `Rasteriser.EdgeOracle` for where a scanline meets an edge;
- `Rasteriser.ShadeOracle` for the fragment shader and `depth_map`.

Stored colours and depths are `nat`s (`Raster.Pixel`). Word and byte work
(`pgl_clear`, the display byte swap, the macros) is done on `bv16`/`bv32`.

Files: `wrappers.dfy` (Option, Result), `macros.dfy`, `depth.dfy`,
`colour.dfy`, `clip_queue.dfy`, `clipper.dfy`, `clip_loop.dfy`,
`clip_winding.dfy`, `cull.dfy`, `raster.dfy`, `rasteriser.dfy`, `clear.dfy`,
`swapchain.dfy`, `scene.dfy`, `display.dfy`.

## Model

| member | source | states |
|---|---|---|
| Macros.Wrap32 | src/common/macros.h:28 | two's-complement wrap of an integer into `int32_t`: identity in range, congruent modulo 2^32 |
| Macros.Bit | src/common/macros.h:39 | `BIT(n)` is a non-zero power of two |
| Macros.SetBit | src/common/macros.h:40-43 | after `SET_BIT` the bit checks true and every other bit is unchanged |
| Macros.ClearBit | src/common/macros.h:41-43 | after `CLEAR_BIT` the bit checks false and every other bit is unchanged |
| Macros.ToggleBit | src/common/macros.h:42-43 | `TOGGLE_BIT` flips the checked bit and leaves the others alone |
| Macros.CheckBitShift | src/common/macros.h:43 | `CHECK_BIT(x, n)` holds exactly when bit `n` of `x`, shifted down to bit 0, is 1 |
| Macros.ToggleTwice | src/common/macros.h:42 | toggling the same bit twice is the identity |
| Macros.SetClearIdempotent | src/common/macros.h:40-43 | setting a set bit, or clearing a clear one, changes nothing |
| Macros.IsPowerOf2 | src/common/macros.h:20 | `IS_POWER_OF_2(x)` holds exactly for the 32 single-bit values of a `uint32_t` |
| Macros.AlignUpBounds | src/common/macros.h:22 | for a power-of-two alignment and no wrap-around, `AlignUp(x, a)` (`ALIGN_UP`) is the multiple of `a` in `[x, x + a)` |
| Macros.AlignDownBounds | src/common/macros.h:23 | for a power-of-two alignment, `AlignDown(x, a)` (`ALIGN_DOWN`) is the multiple of `a` in `(x - a, x]` |
| Macros.Sign | src/common/macros.h:25 | `SIGN(x)` is -1, 0 or 1 and has the sign of `x` |
| Macros.Abs | src/common/macros.h:28 | `ABS(x)` is non-negative and equals `x` or `-x`, except at the most negative `int32_t`, where it wraps to itself |
| Macros.Smaller | src/common/macros.h:26 | `SMALLER` is the minimum: no greater than either argument, and one of them |
| Macros.Greater | src/common/macros.h:27 | `GREATER` is the maximum: no less than either argument, and one of them |
| Macros.Clamp | src/common/macros.h:29 | `CLAMP` lands in `[min, max]` when `min <= max`, returns `x` when it is in range, and tests the lower bound first |
| Macros.ClampIdempotent | src/common/macros.h:29 | clamping twice is clamping once |
| Macros.Interp | src/common/macros.h:30 | `INTERP(x, y, 0) = y`, `INTERP(x, y, 1) = x`, and `INTERP(x, x, a) = x` |
| Macros.Swap | src/common/macros.h:32-37 | `SWAP` exchanges the two cells, leaves every other cell alone, and permutes the contents |
| Macros.SwapTwice | src/common/macros.h:32-37 | swapping the same two cells twice restores them |
| Depth.ResolveDepth | src/common/depth.h:7-29 | no depth format or both formats defined resolve to 8 bits; exactly one defined keeps it |
| Depth.Nearest | src/common/depth.h:39-43 | `DEPTH_NEAREST` is a depth and is below or equal to every depth |
| Depth.Furthest | src/common/depth.h:40-44 | `DEPTH_FURTHEST` is a depth and is above or equal to every depth, the maximum of `depth_t` |
| Depth.Range | src/common/depth.h:47 | `DEPTH_RANGE` is one less than the number of `depth_t` values, and every depth lies in `[DEPTH_NEAREST, DEPTH_NEAREST + DEPTH_RANGE]` |
| Colour.ResolveColour | src/colour/colour.h:8-19 | no colour format or both formats defined resolve to RGB332; exactly one defined keeps it |
| Colour.ColourBits | src/colour/colour.h:23-25 | `colour_t` is 8 bits wide exactly under RGB332 and 16 bits exactly under RGB565 |
| Colour.NamedColour | src/colour/colour.h:31-53 | under RGB332, `COLOUR_<name>` fits a `colour_t` and identifies its name: no other palette entry has the same value |
| Colour.PaletteDistinct | src/colour/rgb332.h:13-35 | two palette names share a value exactly when they are the same name |
| Colour.Rgb332Value | src/colour/rgb332.h:13-35 | every palette entry, read backwards through the independent value-to-name table `NameOf`, gives back its name |
| Colour.MasksPartitionByte | src/colour/rgb332.h:9-11 | the red, green and blue masks are pairwise disjoint and together cover `0xFF` |
| Colour.ChannelsRecompose | src/colour/rgb332.h:9-11 | every RGB332 byte is the union of its three channels |
| Colour.PaletteAlgebra | src/colour/rgb332.h:13-21 | red, green and blue are their masks, yellow, magenta and cyan the unions of two, black is empty and white is all three |
| ClipQueue.Init | src/pgl/pgl.c:86-90 | a freshly initialised queue is valid and empty |
| ClipQueue.IsEmpty | src/pgl/pgl.c:92-95 | `front == back` exactly when the queue holds nothing |
| ClipQueue.IsFull | src/pgl/pgl.c:97-100 | `(back + 1) % 16 == front` exactly when the queue holds 15 triangles |
| ClipQueue.Length | src/pgl/pgl.c:102-106 | the length is the number of triangles held, below 16 |
| ClipQueue.Push | src/pgl/pgl.c:109-114 | pushing onto a full queue changes nothing; otherwise the triangle is appended behind the others |
| ClipQueue.PushContents | src/pgl/pgl.c:111-113 | a push onto a queue that is not full appends to the contents |
| ClipQueue.Pop | src/pgl/pgl.c:117-123 | popping an empty queue returns null and changes nothing; otherwise it returns the oldest triangle and removes it, storage untouched |
| ClipQueue.Run | src/pgl/pgl.c:92-123 | any sequence of pushes and pops keeps `front` and `back` in `[0, 16)` |
| ClipQueue.LengthCountsOps | src/pgl/pgl.c:102-123 | when no push is dropped and no pop finds the queue empty, the length is the initial length plus pushes minus pops |
| Clipper.PlaneVector | src/pgl/pgl.c:131-138 | every clip plane vector has `w` equal to 1 or -1 |
| Clipper.InsideOutsideDiffer | src/pgl/pgl.c:154-178 | an inside and an outside vertex have different dot products, so `dot0 - dot1` is non-zero where the weight is computed |
| Clipper.InsideSign | src/pgl/pgl.c:154-156 | for a plane with `w = 1` a vertex is inside exactly when its dot product is positive, for `w = -1` exactly when it is negative |
| Clipper.InsideFlags | src/pgl/pgl.c:150-156 | vertex `i` is inside exactly when `plane.w * dot(position, plane) > 0` |
| Clipper.CountInside | src/pgl/pgl.c:157 | the number of inside vertices is at most 3; 3 exactly when all are inside, 0 exactly when none is |
| Clipper.SwapOrder | src/pgl/pgl.c:165-213 | after the conditional `SWAP`s the vertex order is a permutation, with the lone outside vertex (two inside) or the lone inside vertex (one inside) in slot 0 |
| Clipper.Shape | src/pgl/pgl.c:159-232 | per plane, 3 inside vertices yield the triangle itself, 2 yield two subtriangles, 1 yields one, 0 yield none; every vertex is an inside corner or a cut on a crossing edge |
| Clipper.InstantiateFromInput | src/pgl/pgl.c:177-225 | every new vertex lies on an edge from an inside to an outside vertex, its weight's divisor is non-zero, and position and texture coordinate share one `alpha` |
| Clipper.ClipTriangle | src/pgl/pgl.c:159-232 | on actual triangles: the input itself when all inside, two, one or no subtriangles otherwise |
| Clipper.ClipTriangleFromInput | src/pgl/pgl.c:159-232 | every vertex of every emitted subtriangle is an inside input vertex or a cut on a crossing input edge |
| Clipper.ClipStage | src/pgl/pgl.c:147-233 | one plane at most doubles the number of triangles |
| Clipper.Reverse | src/pgl/pgl.c:237-241 | the reversal of a sequence, element by element |
| Clipper.Requeue | src/pgl/pgl.c:111-242 | the next plane's queue holds the outputs from the last to the first, at most 15 of them, the rest dropped by the full-queue check |
| Clipper.ClipFrom | src/pgl/pgl.c:145-244 | the planes from the current one on, applied to the queued triangles: a result that is not an overflow holds at most 16 subtriangles |
| Clipper.ClipReference | src/pgl/pgl.c:127-245 | the whole six-plane clip of one triangle: a result that is not an overflow holds at most 16 subtriangles |
| Clipper.ClipFromInside | src/pgl/pgl.c:159-242 | a triangle inside every remaining plane comes out unchanged |
| Clipper.ClipInside | src/pgl/pgl.c:159-244 | a triangle inside all six planes comes out unchanged, and `last_index` is 0 |
| Clipper.OutsideStage | src/pgl/pgl.c:159-242 | a triangle wholly outside the current plane leaves nothing from that stage on |
| Clipper.InsideStage | src/pgl/pgl.c:159-242 | a triangle wholly inside a plane that is not the last is requeued alone for the next plane |
| Clipper.ClipFromNothing | src/pgl/pgl.c:145-243 | an empty queue stays empty through all remaining planes |
| Clipper.ClipOutside | src/pgl/pgl.c:235-244 | a triangle wholly outside one plane is clipped away, and `last_index` is -1 |
| Clipper.ClipOutsideFrom | src/pgl/pgl.c:145-243 | a triangle wholly outside a later plane is clipped away from any earlier plane on |
| ClipLoop.RequeueStep | src/pgl/pgl.c:111-239 | pushing one more output adds it behind the others unless the queue already holds 15 |
| ClipLoop.RequeuePush | src/pgl/pgl.c:237-241 | pushing `subtriangles[j]` after `subtriangles[j+1..]` gives the re-queued outputs from `j` on |
| ClipLoop.PopStage | src/pgl/pgl.c:147-149 | popping the oldest queued triangle splits its outputs off the front of the plane's outputs |
| ClipLoop.Emit | src/pgl/pgl.c:161-231 | `subtriangles[++last_index] = …` appends the pieces, and fails exactly when a write would land past slot 15 |
| ClipLoop.ClipNext | src/pgl/pgl.c:147-232 | one turn of the inner loop shortens the queue, and what is written plus what remains to clip is the plane's output |
| ClipLoop.ClipPlane | src/pgl/pgl.c:147-233 | the inner loop empties the queue and writes exactly the plane's outputs from slot 0, failing exactly when there are more than 16 |
| ClipLoop.EmptyFrom | src/pgl/pgl.c:147-149 | draining a queue leaves it valid and empty |
| ClipLoop.RequeueAll | src/pgl/pgl.c:235-242 | the re-queue loop leaves the queue holding the outputs from the last to the first, the pushes onto a full queue dropped |
| ClipLoop.Clip | src/pgl/pgl.c:127-245 | `pgl_clip` computes the six-plane reference result, and returns the index of the last subtriangle, -1 when nothing survives |
| ClipWinding.PerimeterPos | src/pgl/pgl.c:177-187 | every output vertex has a position on the input's boundary; corners and edge cuts alternate |
| ClipWinding.CorrectedKeepsWinding | src/pgl/pgl.c:159-232 | with the two-inside arms exchanged, every subtriangle has the input's winding, in every case |
| ClipWinding.AsWrittenKeepsWindingUnlessTwoInside | src/pgl/pgl.c:201-232 | as written, with 3, 1 or 0 vertices inside, every subtriangle has the input's winding |
| ClipWinding.AsWrittenTwoInsideReversesWinding | src/pgl/pgl.c:163-199 | as written, with two vertices inside, both subtriangles have the opposite winding to the input |
| ClipWinding.ExampleCuts | src/pgl/pgl.c:177-187 | the example triangle's near-plane cuts are the midpoints of edges 0-1 and 0-2 |
| ClipWinding.ExampleScreen | src/pgl/pgl.c:256-263 | the example's corners and cuts in normalised device coordinates |
| ClipWinding.OutsideFirstShapes | src/pgl/pgl.c:190-199 | the subtriangles emitted when only vertex 0 is outside, as written and corrected |
| ClipWinding.ExampleOnScreen | src/pgl/pgl.c:177-187 | the example has only vertex 0 behind the near plane, and its corners and cuts land on the stated screen points |
| ClipWinding.ExampleFacesViewer | src/pgl/pgl.c:256-263 | the example's screen triangle has positive area and is not culled |
| ClipWinding.ExampleDrawn | src/pgl/pgl.c:256-263 | the example triangle itself, before clipping, is not culled |
| ClipWinding.AsWrittenPiecesCulled | src/pgl/pgl.c:190-199 | the two screen triangles of the as-written arm have negative area and are culled |
| ClipWinding.CorrectedPiecesDrawn | src/pgl/pgl.c:190-199 | the two screen triangles of the corrected arm have positive area and are drawn |
| ClipWinding.PiecesOnScreen | src/pgl/pgl.c:190-263 | for any triangle with only vertex 0 behind the near plane, the cull decisions of the screen pieces carry over to the subtriangles the clipper emits |
| ClipWinding.AsWrittenExampleCulled | src/pgl/pgl.c:190-263 | every subtriangle the source emits for the example is culled |
| ClipWinding.CorrectedExampleDrawn | src/pgl/pgl.c:190-263 | every subtriangle the corrected arms emit for the example is drawn |
| ClipWinding.NearPlaneExample | src/pgl/pgl.c:190-263 | a counter-clockwise triangle crossing the near plane is not culled, yet both subtriangles the source emits are culled; the corrected arms emit two that are drawn |
| Cull.ShoelaceArea | src/pgl/pgl.c:256-263 | the area is the shoelace sum of the three vertices, and a triangle is culled exactly when that sum is negative (clockwise on screen) |
| Cull.CullRotationInvariant | src/pgl/pgl.c:256-263 | the cull decision does not depend on which vertex comes first |
| Cull.CullReversal | src/pgl/pgl.c:256-263 | reversing the vertex order negates the area, so exactly one order of a non-degenerate triangle is culled |
| Cull.DegenerateNotCulled | src/pgl/pgl.c:262 | a triangle with two coincident vertices has zero area and is not culled |
| Raster.Store | src/pgl/pgl.c:371-372 | a store writes one cell and leaves every other cell unchanged |
| Raster.DepthTestOrder | src/pgl/pgl.c:249-254 | the stored depth itself fails the LESS test, a depth at or below a passing one passes too, and a sample passes exactly when plotting it changes the stored depth |
| Raster.Plot | src/pgl/pgl.c:364-373 | a sample that passes the LESS test writes both colour and depth; one that fails changes nothing; other pixels are untouched |
| Raster.PlotTwice | src/pgl/pgl.c:364-373 | plotting an identical fragment again is a no-op |
| Raster.DrawAll | src/pgl/pgl.c:359-375 | drawing samples in order keeps the framebuffer's shape |
| Raster.At | src/pgl/pgl.c:359-375 | the samples at a pixel are exactly those of the sequence at that pixel |
| Raster.Least | src/pgl/pgl.c:249-254 | the least of a starting depth and the samples' depths: a lower bound of all, and one of them |
| Raster.DrawAllPixel | src/pgl/pgl.c:359-438 | after drawing, each pixel holds the least of its old depth and its samples' depths, with the colour of the first sample reaching that least depth below the old one, or the old colour |
| Raster.LeastBelow | src/pgl/pgl.c:253 | a starting depth no greater than every sample's depth is the least |
| Raster.FirstColourFound | src/pgl/pgl.c:253-371 | when some sample reaches the target depth, the fallback colour does not matter |
| Raster.FirstColourOf | src/pgl/pgl.c:364-373 | the colour kept is that of a sample at the least depth |
| Raster.LeastStable | src/pgl/pgl.c:253 | redrawing the samples over their least depth keeps it |
| Raster.DrawAllDiscipline | src/pgl/pgl.c:364-436 | stored depths never increase; an unchanged depth means an unchanged colour; a changed pixel holds one sample's colour and depth together; the depth is at most every sample's depth there |
| Raster.DrawAllTwice | src/pgl/pgl.c:359-375 | drawing the same samples twice gives the same framebuffer as drawing them once |
| Raster.ClearedDepthTest | src/pgl/pgl.c:249-254 | against a pixel at `DEPTH_FURTHEST`, every nearer depth passes the LESS test and `DEPTH_FURTHEST` fails it |
| Rasteriser.SortByY | src/pgl/pgl.c:302-304 | after the three conditional swaps, `f0.y <= f1.y <= f2.y` and the fragments are a permutation of the input |
| Rasteriser.SortSorted | src/pgl/pgl.c:302-304 | fragments already in order are left in place |
| Rasteriser.Ordered | src/pgl/pgl.c:348-417 | after the conditional swap `start_x <= end_x`, and the pair is the computed pair or its swap |
| Rasteriser.RowSpan | src/pgl/pgl.c:336-417 | every scanline of either half is in order |
| Rasteriser.HalfSpans | src/pgl/pgl.c:332-396 | a half with edge height 0 is skipped; otherwise its rows `top..bottom` are each visited once, in order |
| Rasteriser.DrawnSpansSloped | src/pgl/pgl.c:319-343 | a drawn scanline of the upper half has `f0.y < f1.y` and `f0.y < f2.y`, and one of the lower half has `f1.y < f2.y` and `f0.y < f2.y`, so the zero offset of a flat edge never reaches a drawn scanline |
| Rasteriser.Spans | src/pgl/pgl.c:332-440 | every scanline of the triangle is in order |
| Rasteriser.SpansRows | src/pgl/pgl.c:332-396 | the upper half's rows come first, then the lower half's, each half skipped when flat |
| Rasteriser.Shade | src/pgl/pgl.c:361-370 | the sample computed at `x` on a scanline lies at `(x, y)` |
| Rasteriser.SpanSamples | src/pgl/pgl.c:359 | one sample per `x` from `start_x` up to `end_x - 1`, in order |
| Rasteriser.SpanCoverage | src/pgl/pgl.c:359 | a scanline draws pixel `x` exactly when `start_x <= x < end_x` |
| Rasteriser.DrawFilledTriangle | src/pgl/pgl.c:299-441 | drawing succeeds exactly when every sample is on the screen, and keeps the framebuffer's shape |
| Rasteriser.DrawTriangleTwice | src/pgl/pgl.c:299-441 | drawing the same triangle twice changes nothing the first drawing did not |
| Rasteriser.DrawTriangleDiscipline | src/pgl/pgl.c:364-436 | drawing a triangle never raises a stored depth, and a pixel it changes holds the colour and depth of one of its samples |
| Rasteriser.DrawAllSnoc | src/pgl/pgl.c:359-375 | drawing one more sample plots it onto what the earlier samples left |
| Rasteriser.DrawSpan | src/pgl/pgl.c:356-375 | the x loop succeeds exactly when the whole scanline is on screen, and then leaves what drawing its samples in order leaves |
| Clear.LaneCount | src/pgl/pgl.c:489-492 | a word holds 2 or 4 pixels |
| Clear.ColourPacking | src/pgl/pgl.c:486-493 | colour words hold four pixels exactly when `colour_t` is 8 bits wide |
| Clear.DepthPacking | src/pgl/pgl.c:502-509 | depth words hold four pixels exactly when `depth_t` is 8 bits wide |
| Clear.Replicate8Lanes | src/pgl/pgl.c:488-504 | every byte of `(c << 24) \| (c << 16) \| (c << 8) \| c` is `c` |
| Clear.Replicate16Lanes | src/pgl/pgl.c:491-507 | both half-words of `(c << 16) \| c` are `c` |
| Clear.Replicate | src/pgl/pgl.c:486-508 | every lane of the fill word is the clear value |
| Clear.RowStartMonotone | src/pgl/pgl.c:28-29 | in the row-major array, row `y` ends no later than a later row starts |
| Clear.AreaProduct | src/pgl/pgl.c:489-492 | the plane has `SCREEN_HEIGHT * SCREEN_WIDTH` cells |
| Clear.RowsFit | src/pgl/pgl.c:28-29 | every row lies inside the plane's memory |
| Clear.Unflatten | src/pgl/pgl.c:494-510 | reading memory as rows puts cell `y * width + x` at `[y][x]` |
| Clear.FlattenLength | src/pgl/pgl.c:28-29 | the memory of a plane has `SCREEN_HEIGHT * SCREEN_WIDTH` cells |
| Clear.FlattenAt | src/pgl/pgl.c:494-510 | one pixel `[y][x]` of a shaped plane sits at its row-major memory address |
| Clear.FlattenIndex | src/pgl/pgl.c:494-510 | pixel `[y][x]` sits at memory index `y * width + x` |
| Clear.UnflattenFlatten | src/pgl/pgl.c:494-510 | the `uint32_t` view and the row view describe the same memory: reading back gives the plane |
| Clear.Covered | src/pgl/pgl.c:489-508 | `count` words cover all but fewer than one word's pixels, and all of them when the pixel count is a multiple of the lane count |
| Clear.StoreWord | src/pgl/pgl.c:496-497 | `buffer[i] = value` puts lane `j` at pixel `i * lanes + j` and changes no other pixel |
| Clear.FillWords | src/pgl/pgl.c:496-513 | the fill loop writes the clear value to every covered pixel and leaves the rest as they were |
| Clear.ClearedPlane | src/pgl/pgl.c:482-515 | a cleared plane keeps the screen's shape |
| Clear.ClearPlane | src/pgl/pgl.c:486-497 | clearing through the word view gives the cleared plane |
| Clear.ClearBuffers | src/pgl/pgl.c:482-515 | `pgl_clear` clears the colours exactly when bit 0 is set and the depths exactly when bit 1 is set, and leaves the other buffer as it was |
| Clear.WholeCovered | src/pgl/pgl.c:482-515 | when the pixel count is a multiple of 4, the whole words cover every cell for either packing |
| Clear.ClearWholePlane | src/pgl/pgl.c:482-515 | when the pixel count is a multiple of 4, every pixel of a cleared plane holds the clear value |
| Clear.ClearLeavesLastPixel | src/pgl/pgl.c:489-508 | when the pixel count is not a multiple of the lane count, the last pixel keeps its old value |
| Clear.FurthestValue | src/common/depth.h:40-44 | `DEPTH_FURTHEST` as a clear value fits a lane and has the furthest depth's value |
| Clear.ClearedDepthsPass | src/pgl/pgl.c:249-514 | after clearing the depths to `DEPTH_FURTHEST`, every nearer depth passes the test at every pixel and `DEPTH_FURTHEST` fails |
| Clear.ClearPlaneTwice | src/pgl/pgl.c:482-515 | clearing twice to the same value is clearing once |
| Swapchain.Init | src/swapchain/swapchain.c:15-23 | the initial state draws into buffer 0, has the draw buffer available and no swap pending, so the first acquire returns buffer 0 |
| Swapchain.AcquireDraw | src/swapchain/swapchain.c:25-32 | acquiring succeeds exactly when the draw buffer is available; it then returns the draw index and takes the buffer, and otherwise returns none and changes nothing |
| Swapchain.DisplayIndex | src/swapchain/swapchain.c:4-38 | the display index names a buffer and always differs from the draw index |
| Swapchain.RequestSwap | src/swapchain/swapchain.c:40-43 | a request sets the request flag and nothing else |
| Swapchain.SwapBuffers | src/swapchain/swapchain.c:45-51 | without a request nothing changes; with one the draw index flips to the display buffer, the request is cleared and the draw buffer is available again |
| Swapchain.Step | src/swapchain/swapchain.c:25-51 | every step keeps the draw index naming a buffer |
| Swapchain.RunValid | src/swapchain/swapchain.c:25-51 | over any interleaving the draw index stays 0 or 1 |
| Swapchain.StepDrawIndex | src/swapchain/swapchain.c:45-51 | a step changes the draw index exactly when it is a swap with a request pending |
| Swapchain.DrawIndexOnlyBySwap | src/swapchain/swapchain.c:25-51 | over any interleaving, a changed draw index implies some swap took effect |
| Swapchain.AvailableOnlyBySwap | src/swapchain/swapchain.c:27-50 | once taken, the draw buffer is available again only after some swap took effect, and it stays taken at every step up to that swap, so every acquire before it fails |
| Swapchain.TargetStableUntilRequest | src/swapchain/swapchain.c:25-51 | between an acquire and the renderer's request, any interleaving leaves the state as it was, and the draw target is never the display buffer |
| Swapchain.AcquireTwice | src/swapchain/swapchain.c:27-31 | a second acquire right after the first fails |
| Scene.Init | src/graphics/scene.c:4-8 | a new scene has no models and the given camera |
| Scene.Add | src/graphics/scene.c:10-14 | adding to a full scene is a no-op; otherwise the model lands at index `count` and the count grows by one; earlier models and the camera are unchanged; the count stays at most 10 |
| Scene.Draw | src/graphics/scene.c:16-21 | drawing sets the camera first, then visits models `0..count-1` in order |
| Scene.AddAll | src/graphics/scene.c:10-14 | any number of additions keeps the count at most 10 |
| Scene.DrawAfterAdd | src/graphics/scene.c:13-20 | after adding to a scene that is not full, the new model is drawn last |
| Scene.AddAllKeepsFirst | src/graphics/scene.c:10-14 | adding models one by one keeps the first ones up to the capacity, in order, and drops the rest |
| Display.SwapBytes | src/device/device.c:251 | the result's high byte is the input's low byte and its low byte is the input's high byte |
| Display.SwapBytesInvolution | src/device/device.c:251 | swapping the bytes of a pixel twice restores it |
| Display.BytesDetermine | src/device/device.c:251 | a pixel is determined by its two bytes |
| Display.Swapped | src/device/device.c:247-252 | swapping a buffer keeps its length |
| Display.SwappedTwice | src/device/device.c:251 | swapping the whole buffer twice restores it |
| Display.PrepareScreen | src/device/device.c:245-253 | under RGB565 every pixel of the result is the input pixel at the same index with its bytes swapped, and the length is kept; under RGB332 the buffer is untouched |

## Left out

- The fixed-point library (`qglm`, selected by `common/fixed_point.h` and `common/qtype.h`) is not part of this model. `q_mul`, `q_div`, `q_vec4_dot`, `Q_TO_INT` and `depth_map` are oracles passed as parameters, so rounding, saturation and exact pixel coverage are not modelled.
- Clipper.InstantiateFromInput: the weight `alpha` is kept as a symbolic dividend and divisor rather than evaluated with `q_div`.
- Rasteriser.RowSpan: a scanline's ends come from an edge oracle, so which pixels a triangle covers is not modelled. A flat edge has offset 0, which assumes `q_mul(y0_diff, Q_ZERO)` is zero.
- The `q_div(Q_ONE, Q_FROM_INT(end_x - start_x))` at `pgl.c:357,420` divides by zero on an empty scanline. Its result is never used there, because the x loop runs no iterations; the model has no counterpart to it.
- Rasteriser.DrawnSpansSloped: `q_div(Q_ONE, Q_FROM_INT(ABS(dy1)))` and the `dy2` one (`pgl.c:319-320`), and the recomputed `dy1` one (`pgl.c:387`), run for every triangle. They divide by zero whenever the triangle has a flat top or a flat bottom. The quotient is discarded by the `dy != 0` ternaries that follow, and what `q_div` does on a zero divisor is not modelled. In the model a flat edge's offset is 0, and DrawnSpansSloped shows that this value is never used on a drawn scanline.
- Rasteriser.DrawFilledTriangle: a sample off the screen gives `Err(OffScreen)`, where the source reads and writes outside the framebuffer arrays.
- Cull.CullRotationInvariant: the cross product is computed exactly on raw values; `q_mul` rounding and overflow are not modelled.
- ClipWinding.NearPlaneExample: the example interpolates with exact integer division and takes a perspective divide of raw values; its numbers are exact in `Q16_16`, so no rounding arises.
- Clipper.ClipStage: subtriangles past `subtriangles[15]`, which the source writes out of bounds, are modelled as the `Overflow` outcome.
- Clear.Replicate: the shifts `colour << 24` and `depth << 24` (`pgl.c:488,504`) overflow C's `int` for bytes of `0x80` and above. Under RGB565 or DEPTH_16BIT, `colour << 16` and `depth << 16` (`pgl.c:491,507`) overflow it for values of `0x8000` and above. That includes the default clear depth `DEPTH_FURTHEST = 0xFFFF` (`pgl.c:71`). Each of these is undefined behaviour in C. The model computes the intended 32-bit word as a `bv32`, which is what a two's-complement target produces, so it says nothing about the undefined behaviour.
- Clear.ClearBuffers: the framebuffer cleared is `pgl.c`'s own `context.framebuffer`, not a swapchain image, as in the source.
- Clear.StoreWord: the lane order is that of a little-endian target.
- `pgl_draw`, the vertex and fragment shaders and the matrix setters (`pgl.c:277-295,445-470,524-584`) are left out. They are fixed-point transforms and glue around the modelled clipper, cull and rasteriser.
- The texture sampler (`pgl.c:267-273`) is a stub and is left out.
- `pgl/depth.h` is a stale duplicate of `common/depth.h` that shares its include guard; only `common/depth.h` is modelled.
- `swapchain.h:26-28` declares functions under names that differ from the definitions in `swapchain.c`; the definitions are modelled. The swapchain's buffer contents are not modelled, only their indices.
- Swapchain.Step: each swapchain function is one atomic step; `volatile` and interrupt memory ordering are not modelled.
- Macros.AlignUpBounds: `ALIGN_UP`/`ALIGN_DOWN` are modelled at 16 bits, not at the width of each caller's operands; the core does not use them.
- Macros.Sign: `SIGN`, `ABS` and `INTERP` are modelled on `int32_t` or on unbounded integers, not on every type the macros accept.
- Colour.NamedColour: the RGB565 palette (`colour/rgb565.h`) is not part of this model.
- Display.PrepareScreen: the LCD window, GPIO and SPI transfer after the loop, and the rest of `device/device.c`, `device/lcd.c` and `device/input.c`, are hardware I/O and are left out.
- Scene.Draw: `camera_set_view_proj` and `model_draw` are recorded as calls, not modelled.
- `main.c`, the mesh data and the thin glue in `graphics/` are left out.

## Findings

| source | as written | input that shows it | evidently intended | confidence | as-written member | corrected member |
|---|---|---|---|---|---|---|
| src/pgl/pgl.c:190-199 | with two vertices inside, the arm taken when the original `v0` was inside emits `{v10, v1, v2}, {v10, v2, v20}`, and the other arm emits `{v10, v20, v2}, {v10, v2, v1}`. Relative to the input, both orders reverse the winding. | a counter-clockwise triangle with `v0 = (0, 0, -3, 1)` behind the near plane and `v1 = (1, 0, 1, 1)`, `v2 = (0, 1, 1, 1)` in front (in units of `Q_ONE`): both emitted subtriangles have negative area and are culled as back faces | the two arms exchanged, as the comment "Preserve the winding order" and the one-inside case (`pgl.c:228-231`) have it, so every subtriangle keeps the input's winding | not executed | ClipWinding.AsWrittenTwoInsideReversesWinding, ClipWinding.AsWrittenExampleCulled | ClipWinding.CorrectedKeepsWinding |
