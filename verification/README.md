# A verified model of the QB64 runtime core

QB64 programs run on a C++ library that manages its own memory, handles, queues, codecs and a
software rasteriser. This project models the parts of that library with the most state and index
arithmetic and proves what they are for:

- **The BASIC string heap** (`HeapState`, `HeapSteps`, `StringHeap`): a bump allocator with an index
  list, tombstones, back-pointers, temporaries and two compactors. Every operation keeps the heap
  invariant and has its exact meaning on a map from descriptors to strings.
- **The textured-triangle rasteriser** (`FixedPoint`, `Rasteriser`, `Triangle`, `EdgeChoice`,
  `EdgeOrder`, `DrawTriangle`, `TextureShift`): edge set-up, two-phase scan, four-sided clipping and
  texture shifting in fixed point. Every row and pixel is drawn once, every texture coordinate is
  within a stated error of the exact interpolation, and every access is in bounds: for untiled
  triangles always, for tiled ones when no texture coordinate is shifted to 2^31 or beyond and the
  corners' texture coordinates differ by less than 2^30, so that the 32-bit fields and variables
  hold them and their gradients.
- **Timer and device events** (`Timers`, `TimerCalls`, `DeviceEvents`): two threads over a lock word
  as an interleaving state machine, what a program's calls have to do with the handlers that start,
  and the bounded event queues merged across devices.
- **Handle tables** (`HandleList`, `MemLocks`): stable addresses under doubling, and lock keys that
  make stale handles detectable.
- **Queues** (`RawStream`, `FrameBlock`, `ChunkBuffer`): three buffers that are first-in first-out.
- **Codecs and matchers** (`Digits`, `HexOctBin`, `Val`, `Base64`, `BitArray`, `Wildcard`): printers
  and parser of hexadecimal, octal and binary numbers, base64 (section 4 of RFC 4648), packed bit
  arrays, and the file name matcher.

`Powers` and `Arith` hold the arithmetic the others share, `Frames` the stereo frames.
`dafny verify dfyconfig.toml` checks the whole project.

## How the model relates to the code

- Pointers to string descriptors are numbers, the keys of a map; pointers into the string buffer are
  offsets, so that `realloc` moves nothing. A descriptor that is not on the heap denotes a window of
  the memory outside the buffer. The list of temporaries starts with its sentinel in slot 0.
- Structures the code updates in place are classes whose fields the methods reassign. Where the
  solver needs it, a method is tied to a function on values and the properties are proved about that.
- Integers are unbounded except where a width matters: the parser's 64-bit accumulator, the 32-bit
  index size of the handle list, the 32-bit fields of shifted texture coordinates and the 64-bit sums
  of memory accesses are written out, and it is proved when the 32-bit variables of a row keep their
  values (`TextureShift.RowsLossless`).
- Clocks, `malloc`, uninitialised memory, and what a program calls next are parameters: the theorems
  hold for every choice.

## Where the code does not do what it is meant to do

These are results of the proofs, with a concrete input and the exact condition where there is one:

- `HEX$` of -1 with a digit count of 0 prints nothing (`Val.HexRoundTrip`, `Val.HexOfMinusOneIsEmpty`).
  source/qb64pe.bas:20631 passes 0 for every 64-bit expression that is not a variable reference.
- `_MEMNEW(0)` leaves the kind of its lock as it was, so that a region can be freed twice
  (`MemLocks.MemNewSoundIff`, `MemLocks.ZeroBytesFreeTwice`). The keys are not disturbed by it
  (`MemLocks.StaleForever`).
- A memory access whose end is past 2^63 wraps and passes the test (`MemLocks.PassesIff`,
  `MemLocks.PassedOutside`).
- The file name matcher misses names of some patterns. It is right about every name of a pattern
  exactly when no `*` has another wildcard right behind it and a literal further on, and no run behind
  a `*` can be read past the place where it starts over (`Wildcard.ExactIff`). For a `*` and literals
  that means that the first literal does not recur (`Wildcard.EndingExactIff`); two `*` in front of
  literals reject every name without a `*` (`Wildcard.DoubleStarRejects`).
- `VAL` stores the digits before the decimal point in an array of 256 places without looking at its
  end; they stay inside exactly when at most 256 are significant (`Val.Accumulate`,
  `Val.TooManyDigits`).
- Switching a timer off does not stop the timer thread once that has seen the timer's last time set:
  it goes on to compare, by then with a last time of 0, or to write the trigger; and a trigger written
  behind OFF's own test is left behind for a later ON (`Timers.LateTrigger`, `Timers.LeftBehind`).
- A shifted texture coordinate wraps in its 32-bit field exactly if it reaches 2^31; it is then
  negative, and the tiled loops can read before the texture (`TextureShift.StoredCorners`,
  `TextureShift.ReadsBefore`).
- The texture shift in y compares with the width of the texture where it means the height; the shifted
  coordinates are still a whole number of copies away (`TextureShift.ShiftWhole`). The third corner's
  row is tested against 0 where all others are tested against 16 (`TextureShift.TestTexture`).
- Packed elements fit their 64-bit window at every index exactly for widths up to 58, and 60 and 64
  (`BitArray.WidthsThatFit`). The compiler accepts `_BIT * n` up to 64 (source/utilities/type.bas:722,
  source/qb64pe.bas:17811), so that elements of 59, 61, 62 and 63 bits lose bits at some indexes; for
  64 the masks are what an undefined shift makes of them (`BitArray.SetThenGetIff`).
- The index of a handle list stops growing at 2^31 - 1 handles, where its new size is narrowed to a
  negative number (`HandleList.LastIndex`, `HandleList.List.Add`).

## Model

| member | source | states |
|---|---|---|
| HeapState.PackStep | internal/c/libqb/src/qbs.cpp:160-172 | One turn of the sliding compactor, with its overlapping downward move, keeps every placed string's bytes, the order of the strings, what lies above the destination, and gaps of at most 32 bytes. |
| HeapState.PackDone | internal/c/libqb/src/qbs.cpp:152-173 | After the sliding pass the heap invariant holds again, the stack pointer has not risen, and every listed string shows the bytes it showed before. |
| HeapState.SurvivorsOrder | internal/c/libqb/src/qbs.cpp:123-132 | Index compaction keeps the surviving entries in their order and drops only tombstones. |
| HeapState.ReindexStep | internal/c/libqb/src/qbs.cpp:123-132 | Each turn of the index compactor writes back-pointers that match the new slots and moves no string. |
| HeapState.ReindexDone | internal/c/libqb/src/qbs.cpp:118-141 | After index compaction the heap invariant holds for the shorter list. |
| HeapState.ReindexView | internal/c/libqb/src/qbs.cpp:118-141 | Index compaction changes no visible string. |
| HeapSteps.GrowMem | internal/c/libqb/src/qbs.cpp:175-188 | Reallocating the buffer keeps the invariant and every string. |
| HeapSteps.ListNew | internal/c/libqb/src/qbs.cpp:253-262 | Listing a new string at the stack pointer keeps the invariant and adds exactly that string. |
| HeapSteps.AddWindow | internal/c/libqb/src/qbs.cpp:226-243 | Registering a window of outside memory keeps the invariant and adds exactly that string. |
| HeapSteps.TempNew | internal/c/libqb/src/qbs.cpp:279-287 | Entering a string in the list of temporaries keeps both directions of its links. |
| HeapSteps.TempDrop | internal/c/libqb/src/qbs.cpp:87-92 | Clearing a temporary's slot keeps the invariant up to that one slot. |
| HeapSteps.Unlist | internal/c/libqb/src/qbs.cpp:100-100 | A live heap string is found in the slot its back-pointer names, and taking it off the list keeps the rest of the invariant. |
| HeapSteps.Forget | internal/c/libqb/src/qbs.cpp:51-66 | Recycling a descriptor that is no longer listed keeps the invariant, removes exactly that string, and puts no live or repeated descriptor on the free stack. |
| HeapSteps.AcquireInv | internal/c/libqb/src/qbs.cpp:304-323 | Stealing a temporary's range, list slot and back-pointer keeps the invariant although the destination's old slot becomes a tombstone. |
| HeapSteps.AcquireView | internal/c/libqb/src/qbs.cpp:304-323 | After the steal the destination shows the temporary's bytes, the temporary is gone, and no other string has changed. |
| HeapSteps.RoomBefore | internal/c/libqb/src/qbs.cpp:349-369 | When every slot up to the next live string is dead, the space up to that string may be overwritten. |
| HeapSteps.WriteInv | internal/c/libqb/src/qbs.cpp:326-376 | Overwriting in the room a string has keeps the invariant, with the stack pointer lowered or raised as the code does. |
| HeapSteps.WriteView | internal/c/libqb/src/qbs.cpp:326-376 | Overwriting one string in place changes no other string. |
| HeapSteps.RelistView | internal/c/libqb/src/qbs.cpp:378-394 | Listing the destination again behind all others changes no other string. |
| HeapSteps.FillDone | internal/c/libqb/src/qbs.cpp:405-427 | Filling a part of a new string changes just that part of it. |
| HeapSteps.Shrink | internal/c/libqb/src/qbs.cpp:471-523 | Cutting a string down within its own range keeps the invariant and shows exactly the part cut out. |
| HeapSteps.WindowWrite | internal/c/libqb/src/qbs.cpp:293-301 | Writing a fixed string's memory changes no string whose memory it does not share. |
| StringHeap.Padded | internal/c/libqb/src/qbs.cpp:293-299 | Copying and padding leaves the source cut off or followed by spaces. |
| StringHeap.Heap.Pack | internal/c/libqb/src/qbs.cpp:157-173 | The whole sliding pass keeps the invariant and every string; afterwards the list is tight. |
| StringHeap.Heap.Concat | internal/c/libqb/src/qbs.cpp:152-189 | After compaction the buffer grows exactly when the code's test says so and by as much; the requested bytes fit behind the stack pointer and no string has changed. |
| StringHeap.Heap.CloseGaps | internal/c/libqb/src/qbs.cpp:122-133 | The in-place loop computes exactly the survivors of the list; only slot numbers change. |
| StringHeap.Heap.ConcatList | internal/c/libqb/src/qbs.cpp:118-141 | Afterwards there is a free slot in the index list, the list has no tombstones, and no string has changed. |
| StringHeap.Heap.NewDescriptor | internal/c/libqb/src/qbs.cpp:25-49 | The descriptor handed out, the last recycled one or the next of the pool, is used by no string and is not on the free stack. |
| StringHeap.Heap.MakeTmp | internal/c/libqb/src/qbs.cpp:279-287 | The string becomes a temporary with its slot recorded; nothing else changes. |
| StringHeap.Heap.New | internal/c/libqb/src/qbs.cpp:245-267 | A new string of the asked size appears and no other string changes, through whatever compaction and growth it takes. |
| StringHeap.Heap.Free | internal/c/libqb/src/qbs.cpp:82-116 | Exactly the freed string disappears, on all paths: temporary or not, last in the list or not, on the heap or not. |
| StringHeap.Heap.LowerSp | internal/c/libqb/src/qbs.cpp:107-113 | The stack pointer ends 32 bytes past the last listed string, or at the end of the buffer. |
| StringHeap.Heap.WriteInPlace | internal/c/libqb/src/qbs.cpp:326-376 | The destination holds the source's bytes and every other string is unchanged. |
| StringHeap.Heap.Acquire | internal/c/libqb/src/qbs.cpp:304-324 | The destination holds the temporary's bytes, the temporary is gone, every other string is unchanged. |
| StringHeap.Heap.TryExtend | internal/c/libqb/src/qbs.cpp:339-376 | Either the assignment is done, as the last string or into dead slots, with every other string unchanged, or nothing has changed; the branch that would skip the source's own slot cannot be reached. |
| StringHeap.Heap.Relocate | internal/c/libqb/src/qbs.cpp:378-394 | The destination moves behind all strings, after compaction if needed, and only it changes. |
| StringHeap.Heap.SetFixed | internal/c/libqb/src/qbs.cpp:292-301 | A fixed destination holds the source cut off or padded with spaces; strings that do not share its memory are unchanged. |
| StringHeap.Heap.Set | internal/c/libqb/src/qbs.cpp:289-403 | Assignment on every path: the destination holds the source's old bytes (cut or padded when fixed), a temporary source is gone, and every other string is unchanged. |
| StringHeap.Heap.NewFixed | internal/c/libqb/src/qbs.cpp:226-243 | Exactly one new string appears, over the given memory. |
| StringHeap.Heap.NewTxt | internal/c/libqb/src/qbs.cpp:210-224 | Exactly one new read-only temporary appears, over the literal's bytes. |
| StringHeap.Heap.Left | internal/c/libqb/src/qbs.cpp:471-495 | The result shows the first l bytes, none for a negative l and all for an l beyond the length; a temporary operand is reused or gone, and no other string changes. |
| StringHeap.Heap.Right | internal/c/libqb/src/qbs.cpp:497-523 | The result shows the last l bytes, likewise. |
| StringHeap.PartsMeet | internal/c/libqb/src/qbs.cpp:471-523 | The first bytes up to the last l and the last l bytes are together the whole string. |
| StringHeap.Heap.Add | internal/c/libqb/src/qbs.cpp:405-427 | The result shows both operands' bytes one behind the other; temporary operands are gone and no other string changes. |
| StringHeap.Heap.Cleanup | internal/c/libqb/include/qbs.h:97-106 | Exactly the temporaries created since the given length of the list are gone. |
| FixedPoint.IntPartFloor | internal/c/libqb/src/graphics.cpp:2277-2284 | The two-branch rounding of a fixed-point value is the floor, for negative values too. |
| FixedPoint.AlongWithin | internal/c/libqb/src/graphics.cpp:2182-2421 | A value that has not passed its share of the way lies between the two ends. |
| FixedPoint.AlongJump | internal/c/libqb/src/graphics.cpp:2196-2223 | The 64-bit clip jump of many rows never passes the exact position. |
| FixedPoint.TravelJump | internal/c/libqb/src/graphics.cpp:2225-2253 | Rows skipped above the screen leave an edge at most one unit per row short of the exact position, never past it. |
| FixedPoint.TravelStep | internal/c/libqb/src/graphics.cpp:2378-2385 | A row's step keeps the same bound. |
| FixedPoint.ShareAlign | internal/c/libqb/src/graphics.cpp:2342-2345 | Sub-pixel alignment by the truncated gradient reaches the first sampling point without passing it, at most one unit plus one per pixel short. |
| FixedPoint.SharePixel | internal/c/libqb/src/graphics.cpp:2365-2374 | A pixel's step keeps the bound. |
| FixedPoint.ShareClip | internal/c/libqb/src/graphics.cpp:2347-2355 | The left-clip jump keeps the bound. |
| FixedPoint.SlopeFitsIff | internal/c/libqb/src/graphics.cpp:2292-2302 | The 64-bit gradient survives its 32-bit variable for all ends half a pixel or more apart exactly when their texture coordinates differ by -2^30 to 2^30 - 1. |
| Rasteriser.SampleWithin | internal/c/libqb/src/graphics.cpp:2275-2386 | Every drawn pixel's texture coordinates lie between those of the row's two edges. |
| Rasteriser.BodyClip | internal/c/libqb/src/graphics.cpp:2347-2355 | Where the left clip divides, the divisor is positive, and the clipped start shows the right texture coordinates. |
| Rasteriser.BodyReady | internal/c/libqb/src/graphics.cpp:2292-2345 | Whatever the row ends' adjustments did, the alignment starts from the distance to the first sampling point, and no gradient is divided by zero. |
| Rasteriser.RowGradientFits | internal/c/libqb/src/graphics.cpp:2292-2345 | Wherever the pixel loop is entered its gradients are 0 or those of edges at least half a pixel apart, so that keeping these in 32 bits keeps them. |
| Rasteriser.Raster.Body | internal/c/libqb/src/graphics.cpp:2342-2374 | Alignment, clipping and the loop complete the row, with gradients that their 32-bit variables keep whenever those between the edges are kept. |
| Rasteriser.Raster.Texel | internal/c/libqb/src/graphics.cpp:2309-2333 | The texture index lies in the texture, tiled or not. |
| Rasteriser.Raster.Plot | internal/c/libqb/src/graphics.cpp:2309-2333 | One pixel shows its texel and no earlier pixel of the row is overwritten. |
| Rasteriser.Raster.Span | internal/c/libqb/src/graphics.cpp:2360-2374 | The pixel loop draws every column once, each with the texture coordinates of its sampling point. |
| Rasteriser.Raster.RightEnd | internal/c/libqb/src/graphics.cpp:2304-2326 | The right end is drawn as it is exactly if its sampling point lies beyond the edge and the triangle is not seamless. |
| Rasteriser.Raster.LeftEnd | internal/c/libqb/src/graphics.cpp:2328-2340 | The left end likewise; the loop then starts at the next sampling point. |
| Rasteriser.Raster.ScanRow | internal/c/libqb/src/graphics.cpp:2275-2386 | A row writes distinct pixels on the surface, each with the texel of the edge beyond which its sampling point lies or of that point between the edges; exactly the columns between the edges when these are in order (but for the last when seamless), and at most one of the two edges' columns when they have crossed. |
| Triangle.MadeReady | internal/c/libqb/src/graphics.cpp:729-757 | Edge set-up starts at the upper vertex with increments that belong to the two vertices. |
| Triangle.AdvanceReady | internal/c/libqb/src/graphics.cpp:2378-2385 | Stepping an edge to the next row keeps it on the edge. |
| Triangle.LeapReady | internal/c/libqb/src/graphics.cpp:2225-2253 | Jumping an edge many rows keeps it on the edge. |
| Triangle.ScannedMore | internal/c/libqb/src/graphics.cpp:2274-2386 | A row extends what has been scanned: rows follow one another without repeats, pixels stay distinct and inside the triangle's extents, and each shows what its own row has there between its edges. |
| Triangle.PaintedJoin | internal/c/libqb/src/graphics.cpp:2274-2386 | Writes to different rows do not overwrite each other. |
| Triangle.ScanRows | internal/c/libqb/src/graphics.cpp:2274-2386 | The scan loop scans exactly the rows from first to last. |
| Triangle.Pass | internal/c/libqb/src/graphics.cpp:2182-2386 | A run scans exactly its rows on the surface, clipped by a jump at the top and cut off at the bottom, and leaves the edges where the second run needs them. |
| EdgeChoice.ChooseSloped | internal/c/libqb/src/graphics.cpp:763-774 | Without a horizontal edge the two upper edges come first and the third continues the shorter one. |
| EdgeChoice.ChooseWedge | internal/c/libqb/src/graphics.cpp:776-788 | With one horizontal edge the other two run from top to bottom and meet at one end. |
| EdgeChoice.ChooseRow | internal/c/libqb/src/graphics.cpp:789-815 | A triangle that is one row is scanned from its leftmost to its rightmost vertex. |
| EdgeChoice.Choose | internal/c/libqb/src/graphics.cpp:729-831 | The edges are three different edges of the triangle in the shape the scan relies on, and the first is left of the second at the middle of the first run. |
| EdgeOrder.StepsNear | internal/c/libqb/src/graphics.cpp:2378-2385 | A stepped edge is less than one unit per row from its exact position. |
| EdgeOrder.WedgeOrder | internal/c/libqb/src/graphics.cpp:817-831 | Choosing left and right at the middle, with truncated increments, is wrong by at most two units per row and two, on every row of a triangle with a horizontal edge. |
| EdgeOrder.BentOrder | internal/c/libqb/src/graphics.cpp:817-831 | The same on both runs of a triangle without one, after the third edge has replaced the one that ended. |
| EdgeOrder.RowOrder | internal/c/libqb/src/graphics.cpp:2378-2385 | With the steps' own errors, a row's left edge is never more than four units per row and two right of its right edge. |
| DrawTriangle.CrossingSmall | internal/c/libqb/src/graphics.cpp:670-702 | For accepted coordinates the edges of a row cross by at most two pixels. |
| DrawTriangle.Draw | internal/c/libqb/src/graphics.cpp:704-2421 | Over both runs the rows scanned are exactly the vertical extent on the surface (less the last when seamless), each once, each between two different edges of the triangle, exactly the row's columns, no pixel twice, every pixel with the texture coordinates that these edges have at its sampling point, and nothing else is written; a triangle off the surface draws nothing. |
| DrawTriangle.VisibleIff | internal/c/libqb/src/graphics.cpp:713-727 | Nothing is drawn at once exactly if no pixel of the smallest rectangle around the vertices is on the surface. |
| TextureShift.ShiftWhole | internal/c/libqb/src/graphics.cpp:606-647 | The texture shift is a whole number of copies, and as a sum leaves no coordinate negative; it brings the least one into the first copy exactly unless that is past the first copy but below the size compared with. |
| TextureShift.StoredIff | internal/c/libqb/src/graphics.cpp:606-647 | In its 32-bit field a moved coordinate is kept, and not negative, exactly if the sum is below 2^31; else it is negative. |
| TextureShift.StoredCorners | internal/c/libqb/src/graphics.cpp:606-647 | No field becomes negative, and all are kept, exactly if the largest coordinate plus the shift is below 2^31, in x and in y. |
| TextureShift.TexelAgrees | internal/c/libqb/src/graphics.cpp:972-1028 | For coordinates that are not negative the remainders of C give the texel of the tiling. |
| TextureShift.ReadsBefore | internal/c/libqb/src/graphics.cpp:606-1028 | An accepted triangle on a texture three pixels wide whose coordinates wrap, so that its last row reads the texel before the texture. |
| TextureShift.ShiftInvisible | internal/c/libqb/src/graphics.cpp:606-647 | An endless tiling shows the same at the shifted coordinates. |
| TextureShift.FetchTiled | internal/c/libqb/src/graphics.cpp:587-668 | The texel fetched, tiled or not, is the one the endless tiling shows at the caller's own coordinates. |
| TextureShift.TestTexture | internal/c/libqb/src/graphics.cpp:532-585 | Coordinates out of range are refused, exactly those; tiling is on exactly if a coordinate may reach beyond the texture by the code's margins; without it all are inside. |
| TextureShift.Normalise | internal/c/libqb/src/graphics.cpp:587-668 | All corners move by the same shift and are kept in 32 bits; none is negative exactly if `Fits`, and then they have moved by whole numbers of copies; tiling is switched off again exactly if something was moved and every corner is now inside by the code's margins. |
| TextureShift.MapTriangle | internal/c/libqb/src/graphics.cpp:511-2421 | The whole procedure: refused exactly when a coordinate is out of range, with nothing drawn; otherwise drawn as stated for the drawing if the moved coordinates fit, and else given to the tiled loops with a negative coordinate. |
| TextureShift.RowsLossless | internal/c/libqb/src/graphics.cpp:532-2302 | On every row of an untiled triangle, and of a tiled one whose corners differ by less than 2^30, the 32-bit variables keep the texture coordinates of the edges and the gradients between them. |
| Timers.ThreadKeepsMutex | internal/c/qbx.cpp:1474-1512 | Every step of the timer thread keeps the lock protocol. |
| Timers.MakeKeepsFreeList | internal/c/qbx.cpp:1367-1391 | Every step of func__freetimer keeps the free list to the indexes that nobody holds. |
| Timers.MainKeepsInProgress | internal/c/qbx.cpp:1403-1472 | Every step of the other main-thread operations keeps state 2 to the timers on the handler stack. |
| Timers.StepKeeps | internal/c/qbx.cpp:1348-1612 | Every step of either thread, from any state of the invariant, accesses only slots that exist in an array that is not being moved, and keeps the invariant. |
| Timers.Always | internal/c/qbx.cpp:1348-1612 | Over every run of any interleaving the invariant holds and no access goes astray. |
| Timers.NoReentry | internal/c/qbx.cpp:1586-1612 | Over every run a handler that is about to start is not running, and state 2 holds exactly for the timers on the handler stack, where none is twice. |
| Timers.MutualExclusion | internal/c/qbx.cpp:1367-1391 | Over every run, from seeing the lock leave 1 to writing 0 the timer thread is not touching the array; and at any time the slot it is at has been initialised. |
| Timers.ThreadOnlyTriggers | internal/c/qbx.cpp:1474-1512 | Over every run the thread changes a state only from 0 to 1 and only below ontimer_nextfree. |
| Timers.FreshIndex | internal/c/qbx.cpp:1367-1391 | Over every run func__freetimer hands out an index that no allocated timer has, also while a handler of that index runs. |
| Timers.LateTrigger | internal/c/qbx.cpp:1446-1503 | When OFF has just finished the timer is triggered or the thread can still trigger it if and only if the write has come behind OFF's own test, or the thread had seen the last time set before (line 1485) and has not triggered yet; what it then compares with may be the last time that OFF has reset (line 1487). |
| Timers.LeftBehind | internal/c/qbx.cpp:1446-1503 | The thread's write between OFF's test and its last step: OFF finishes with the trigger left behind and no thread about to write another. |
| TimerCalls.ModeIs | internal/c/qbx.cpp:1403-1472 | Over every run a timer's field says exactly what the last ON, STOP, OFF or FREE that named it has made of it since it was handed out. |
| TimerCalls.EventIs | internal/c/qbx.cpp:1367-1426 | Over every run its event is that of the last ON TIMER that named it since then, or about to be. |
| TimerCalls.SinceOn | internal/c/qbx.cpp:1434-1472 | A timer is on exactly because of an ON after which no other call has switched it. |
| TimerCalls.Triggered | internal/c/qbx.cpp:1474-1612 | Over every run a trigger is the thread's write, with nothing since that has taken it back or served it. |
| TimerCalls.HandlerStarts | internal/c/qbx.cpp:1586-1612 | Over every run a handler that starts is that of a timer last switched by ON, with the event last set up, and triggered by the thread since it last ran. |
| TimerCalls.HandlerStartsIff | internal/c/qbx.cpp:1586-1612 | The scan of events starts a handler exactly then. |
| TimerCalls.HandlerServed | internal/c/qbx.cpp:1586-1612 | When the scan reaches such a timer its handler is entered before the scan passes it, whatever the thread does meanwhile. |
| TimerCalls.EventsVisitAll | internal/c/qbx.cpp:1586-1612 | A scan that starts no handler has looked at every timer from 0 on when it ends. |
| TimerCalls.HandlerReturns | internal/c/qbx.cpp:1586-1612 | When a handler returns its timer waits again and the scan goes on behind it. |
| TimerCalls.TriggeredWhenDue | internal/c/qbx.cpp:1483-1498 | The thread triggers a timer only after finding it allocated, with an event, on or stopped, waiting, with its last time set, and due, in this order in one visit. |
| TimerCalls.DueTriggers | internal/c/qbx.cpp:1483-1498 | And whenever all that holds during a visit it does trigger it. |
| TimerCalls.RetractedUnlessLate | internal/c/qbx.cpp:1413-1472 | Once ON TIMER, OFF or FREE has looked for a trigger to retract, there is one only if the thread has written it since. |
| DeviceEvents.CreatedKeeps | internal/c/qbx.cpp:1006-1028 | Creating an event keeps the window of recent events through doubling and drop-oldest, and stages a copy of the last event under the next number. |
| DeviceEvents.CommitKeeps | internal/c/qbx.cpp:1030-1032 | Committing extends the window by exactly the staged event, in order. |
| DeviceEvents.ShiftedKeeps | internal/c/qbx.cpp:1083-1087 | Moving on makes the oldest waiting event current and keeps the rest in order. |
| DeviceEvents.Input.Create | internal/c/qbx.cpp:1006-1028 | The staged event is the device's last one renumbered; nothing else changes but that a full queue loses its oldest event. |
| DeviceEvents.Input.Commit | internal/c/qbx.cpp:1030-1032 | The device's history grows by exactly the staged event. |
| DeviceEvents.Input.Oldest | internal/c/qbx.cpp:1056-1073 | The device found has the lowest waiting number of all devices; none is found exactly if none waits. |
| DeviceEvents.Input.DeviceInput | internal/c/qbx.cpp:1050-1091 | Without an argument the event delivered is the oldest of all devices and later than all delivered before, over the whole run; with one it is that device's oldest; a number of no device is an error, whose record is selected all the same and found without events. |
| HandleList.GrownIndexFits | internal/c/libqb/src/qblist.cpp:65-73 | The 32-bit size of the grown index is larger than before exactly below 2^30, and -1 at 2^31 - 1. |
| HandleList.PutRecord | internal/c/libqb/src/qblist.cpp:34-41 | Writing one handle's record changes the map from handles to records at that handle only. |
| HandleList.RecordAdded | internal/c/libqb/src/qblist.cpp:60-76 | The next slot becomes the record of a handle not used before, all zero, at an address no other handle has. |
| HandleList.PushStacked | internal/c/libqb/src/qblist.cpp:85-123 | Pushing a removed handle keeps the stack to the dead handles without repeats. |
| HandleList.PopStacked | internal/c/libqb/src/qblist.cpp:34-41 | Popping a handle keeps it so. |
| HandleList.BlockAdded | internal/c/libqb/src/qblist.cpp:47-59 | A new block leaves every record and address where it is. |
| HandleList.LastIndex | internal/c/libqb/src/qblist.cpp:65-73 | A size that doubling from 0 reaches below 2^31 fails to grow in 32 bits exactly at 2^31 - 1. |
| HandleList.List.BasesSuffice | internal/c/libqb/src/qblist.cpp:47-59 | The list's table of 64 block addresses suffices for its blocks exactly up to 2^63 - 64 handles, so in particular below 2^62. |
| HandleList.List.Add | internal/c/libqb/src/qblist.cpp:30-83 | The handle is not live, its record is all zero, every other record and every address is unchanged; this fails exactly with 2^31 - 1 handles and none free. |
| HandleList.List.Remove | internal/c/libqb/src/qblist.cpp:85-123 | Exactly a live handle is removed; a dead or unknown one is refused and nothing changes. |
| HandleList.List.Get | internal/c/libqb/src/qblist.cpp:134-143 | A record is found exactly for a live handle. |
| HandleList.List.GetIndex | internal/c/libqb/src/qblist.cpp:145-148 | From a live record's address the handle is found again. |
| HandleList.List.Write | internal/c/libqb/src/qblist.cpp:134-143 | Writing through a live record's address changes that record only. |
| MemLocks.KeyedIssue | internal/c/libqb/src/memblock.cpp:21-32 | A lock is issued under a key never used before, from the stack or from new memory, without disturbing any other lock. |
| MemLocks.KeyedRelease | internal/c/libqb/src/memblock.cpp:34-44 | Releasing kills exactly the lock's key. |
| MemLocks.ExistsIffNotDead | internal/c/libqb/src/memblock.cpp:131-139 | _MEMEXISTS of any block value the program can hold is true exactly while its key has not been freed. |
| MemLocks.NeverRevives | internal/c/libqb/src/memblock.cpp:21-67 | Over any later state a block that does not exist never exists again, although lock records are recycled. |
| MemLocks.MemFreeKeyed | internal/c/libqb/src/memblock.cpp:46-67 | _MEMFREE succeeds exactly for an existing block and leaves neither the block nor any copy of it alive, whatever zero-byte requests came before. |
| MemLocks.MemFreeOnce | internal/c/libqb/src/memblock.cpp:46-67 | While live malloc locks and allocated regions correspond one to one, _MEMFREE frees the block's region, once, and no other, and they correspond afterwards. |
| MemLocks.MemAtKeyed | internal/c/libqb/src/memblock.cpp:69-88 | A block over given memory exists under a new key, whatever came before. |
| MemLocks.DescribedGrants | internal/c/libqb/src/memblock.cpp:69-166 | From then on until its key is freed it grants exactly the memory described, and one made in error grants nothing. |
| MemLocks.MemNewKeyed | internal/c/libqb/src/memblock.cpp:90-129 | _MEMNEW gives an existing block under a new key. |
| MemLocks.AllocatedGrants | internal/c/libqb/src/memblock.cpp:90-166 | From then on until its key is freed it grants exactly the region malloc gave for it, which is allocated to its lock; without a region it grants nothing. |
| MemLocks.MemNewSoundIff | internal/c/libqb/src/memblock.cpp:90-129 | After _MEMNEW live malloc locks and allocated regions still correspond one to one exactly if the request was not for zero bytes on a lock left over from a malloc'ed block. |
| MemLocks.ZeroBytesFreeTwice | internal/c/libqb/src/memblock.cpp:112-116 | A run in which _MEMNEW(0) leads to a second free of the same region. |
| MemLocks.StaleForever | internal/c/libqb/src/memblock.cpp:21-129 | Over every run of allocations, frees, descriptions and other users of locks, zero-byte requests and double frees included, a block value that does not exist never exists again. |
| MemLocks.GrantsForever | internal/c/libqb/src/memblock.cpp:21-166 | Over every run a described or allocated block grants exactly its own bytes until its key is freed, and then none. |
| MemLocks.ChunksSuffice | internal/c/libqb/src/memblock.cpp:9-32 | Over every run a new lock record is the next of its chunk of 10000 and inside it. |
| MemLocks.SoundForeverIff | internal/c/libqb/src/memblock.cpp:21-129 | Over every run live malloc locks and allocated regions correspond one to one all the time, and no region is freed twice, exactly if no request for zero bytes is given the record of a malloc'ed block. |
| MemLocks.PassesIff | internal/c/libqb/src/memblock.cpp:141-156 | On sums of 64 bits the test of an access is passed exactly inside the block or where the end of the access is past 2^63. |
| MemLocks.PassedOutside | internal/c/libqb/src/memblock.cpp:141-156 | An access that is passed and not inside its block. |
| MemLocks.Memory.Free | internal/c/libqb/src/memblock.cpp:46-67 | The procedure on the lock pool updated in place, in any state of the pool: no error exactly for an existing block, which is then dead, and which error otherwise; memory in order stays so. |
| MemLocks.Memory.New | internal/c/libqb/src/memblock.cpp:90-129 | The procedure on the lock pool updated in place, in any state of the pool: the block exists with exactly the region of malloc, and memory in order stays so under exactly the condition of `MemNewSoundIff`. |
| MemLocks.Memory.AtOffset | internal/c/libqb/src/memblock.cpp:69-88 | The procedure on the lock pool updated in place: a block of exactly the given offset and size (or, in error, of none) exists under a new key, and nothing is freed. |
| MemLocks.Memory.Exist | internal/c/libqb/src/memblock.cpp:131-139 | -1 exactly while the key has not been freed. |
| MemLocks.Memory.Get | internal/c/libqb/src/memblock.cpp:141-166 | Access is granted exactly to an existing block and when the test on 64-bit sums is passed, so exactly inside the block when the end of the access is below 2^63; which error is raised otherwise. |
| MemLocks.Memory.Copy | internal/c/libqb/src/memblock.cpp:270-320 | Bytes are moved exactly between ranges of existing blocks that pass the test on 64-bit sums; inside the blocks as if through a buffer when the ranges overlap, and no other byte changes; each of the ten errors has exactly one cause. |
| Digits.PrintValue | internal/c/libqb/src/hexoctbin.cpp:55-67 | Printing n digits of a number and reading them gives the number modulo the base to the n, negative numbers in two's complement. |
| Digits.ValueCons | internal/c/libqb/src/qbs_val.cpp:204-230 | What a leading digit adds. |
| Digits.Alphabet | internal/c/libqb/src/hexoctbin.cpp:57-61 | The digits in order, and that letters are read in both cases. |
| HexOctBin.LastBitRange | internal/c/libqb/src/hexoctbin.cpp:24-52 | Above its highest zero a negative number is all ones, above its highest one a positive number all zeros. |
| HexOctBin.BitsRecover | internal/c/libqb/src/hexoctbin.cpp:24-52 | The bits chosen to be printed determine the number: as they are if it is not negative, by their top bit as the sign if it is. |
| HexOctBin.CountBits | internal/c/libqb/src/hexoctbin.cpp:24-52 | The loop finds exactly the bits to be printed. |
| HexOctBin.BitsAre | internal/c/libqb/src/hexoctbin.cpp:24-52 | How many these are: of a positive value as many as it needs; of a negative one the number given if it fits there with its sign, and else the first of 16, 32 and 64 where it does. |
| HexOctBin.Bin | internal/c/libqb/src/hexoctbin.cpp:12-70 | The digits written backwards into the buffer are the printed form. |
| HexOctBin.BinValue | internal/c/libqb/src/hexoctbin.cpp:12-70 | _BIN$ denotes the value modulo 2 to the printed bits. |
| HexOctBin.BinFirst | internal/c/libqb/src/hexoctbin.cpp:12-70 | A positive value is printed without zeros in front, zero as a single one. |
| HexOctBin.Oct | internal/c/libqb/src/hexoctbin.cpp:98-170 | The groups of three bits written backwards, with a partial one in front, are the printed form. |
| HexOctBin.OctValue | internal/c/libqb/src/hexoctbin.cpp:98-170 | OCT$ denotes the value modulo 2 to the printed bits, also when these are not a multiple of three. |
| HexOctBin.OctFirst | internal/c/libqb/src/hexoctbin.cpp:98-170 | The same of OCT$. |
| HexOctBin.Hex | internal/c/libqb/src/hexoctbin.cpp:198-259 | All sixteen digits written and the unwanted ones dropped give the printed form. |
| HexOctBin.NegativeFits | internal/c/libqb/src/hexoctbin.cpp:208-236 | The digits counted for a negative number leave one bit for its sign. |
| HexOctBin.HexFirst | internal/c/libqb/src/hexoctbin.cpp:198-259 | The same of HEX$. |
| HexOctBin.HexSizeIs | internal/c/libqb/src/hexoctbin.cpp:208-250 | The digits of a negative value: the number given if the value fits there with its sign or is -1, and else the first of 4, 8 and 16 where it fits. |
| HexOctBin.HexValue | internal/c/libqb/src/hexoctbin.cpp:198-259 | HEX$ denotes the value modulo 2 to the printed bits, and these determine it exactly unless -1 is printed with no digits. |
| Val.LeadBounds | internal/c/libqb/src/qbs_val.cpp:204-280 | A string's value lies between its first significant digit and the next one, at that digit's place. |
| Val.ScanMore | internal/c/libqb/src/qbs_val.cpp:204-253 | One digit more: it fits into 64 bits, or the whole number does not. |
| Val.ScanOctal | internal/c/libqb/src/qbs_val.cpp:255-280 | Octal digits are too many exactly from the twenty-third, or the twenty-second if the first is above one. |
| Val.ReadHex | internal/c/libqb/src/qbs_val.cpp:204-231 | The loop returns what the digits denote, or overflow. |
| Val.ReadBin | internal/c/libqb/src/qbs_val.cpp:232-254 | The same in binary. |
| Val.ReadOct | internal/c/libqb/src/qbs_val.cpp:255-281 | The same in octal. |
| Val.NonDecimal | internal/c/libqb/src/qbs_val.cpp:194-283 | The letter selects the base; overflow is raised exactly when the digits denote a number that does not fit into 64 bits, and otherwise that number is returned; without a letter it is zero. |
| Val.EitherCase | internal/c/libqb/src/qbs_val.cpp:199-256 | The letter may be of either case. |
| Val.BinRoundTrip | internal/c/libqb/src/qbs_val.cpp:232-254 | Reading &B and what _BIN$ prints gives the value modulo 2 to the printed bits, and sign extension the value, for every 64-bit value. |
| Val.OctRoundTrip | internal/c/libqb/src/qbs_val.cpp:255-281 | Reading &O and what OCT$ prints, likewise. |
| Val.HexRoundTrip | internal/c/libqb/src/qbs_val.cpp:204-231 | Reading &H and what HEX$ prints, likewise, for every value and size exactly except -1 with no digits. |
| Val.HexOfMinusOneIsEmpty | internal/c/libqb/src/hexoctbin.cpp:237-250 | There the string is empty and zero is read back. |
| Val.Accumulate | internal/c/libqb/src/qbs_val.cpp:86-104 | One more digit: the significant digits stay inside the array of 256 places exactly when there are at most 256; they are stored one behind the other and accumulate to their value, or to the largest 64-bit number once they exceed it. |
| Val.TooManyDigits | internal/c/libqb/src/qbs_val.cpp:86-91 | The digits of a string of 257 ones are written beyond the array, those of 256 ones are not. |
| Val.DecimalInteger | internal/c/libqb/src/qbs_val.cpp:28-149 | A decimal integer with a sign or none and blanks anywhere is read as the nearest signed 64-bit number if at most 256 digits are significant, and else written beyond the array. |
| Val.DigitsStop | internal/c/libqb/src/qbs_val.cpp:50-149 | What stands behind the digits decides: a point or one of D, E and F in either case makes a number with a fraction or exponent, anything else ends the integer. |
| Val.ReadNumber | internal/c/libqb/src/qbs_val.cpp:13-149 | The scan of the whole string, blanks, signs, digits and what ends them: an integer, what stands behind an ampersand, a number that goes on with a fraction or exponent, or a digit written beyond the array. |
| Base64.GroupQuad | internal/c/parts/data/modp_b64_data.h:293-481 | Through the tables, the four letters of three bytes give the three bytes back. |
| Base64.GroupAccepts | internal/c/parts/data/modp_b64_data.h:293-481 | A group is rejected exactly if it has a character outside the alphabet. |
| Base64.AlphabetIs | internal/c/parts/data/modp_b64_data.h:35-48 | The letters in the order of the table. |
| Base64.BitsInOrder | internal/c/parts/data/modp_b64.cpp:62-89 | The letters hold the bits of the bytes in order, six at a time from the highest on, then zeros and padding. |
| Base64.EncodeLength | internal/c/parts/data/modp_b64.h:126-140 | The encoding is four characters for every three bytes begun. |
| Base64.RoundTrip | internal/c/parts/data/modp_b64.cpp:55-168 | Decoding undoes encoding for every byte string and under every padding policy. |
| Base64.StrictAccepts | internal/c/parts/data/modp_b64.cpp:97-168 | The strict decoder accepts exactly the well-padded strings over the alphabet. |
| Base64.PoliciesAgree | internal/c/parts/data/modp_b64.cpp:97-116 | What the strict decoder accepts the others decode alike. |
| Base64.BodyAccepts | internal/c/parts/data/modp_b64.cpp:118-168 | Letters without padding are accepted exactly if they are letters, and give three bytes for four. |
| Base64.Canonical | internal/c/parts/data/modp_b64.cpp:55-168 | Encoding what was decoded gives the text back exactly if the unused bits of its last letter are zero. |
| Base64.EncodeData | internal/c/parts/data/modp_b64.cpp:52-89 | The loop writes exactly the encoding into a buffer of modp_b64_encode_data_len bytes. |
| Base64.DecodePadding | internal/c/parts/data/modp_b64.cpp:97-116 | The length left is that of the letters, or an error exactly where the policy says so. |
| Base64.DecodeData | internal/c/parts/data/modp_b64.cpp:118-168 | The loop writes exactly the decoded bytes into a buffer of modp_b64_decode_len bytes, or returns an error. |
| BitArray.GetIsElement | internal/c/libqb/src/bitops.cpp:9-14 | Where the element fits its window, getubits reads its bits. |
| BitArray.SetIsUpdate | internal/c/libqb/src/bitops.cpp:26-33 | setbits writes the element's bits and no other bit of memory. |
| BitArray.SetThenGet | internal/c/libqb/src/bitops.cpp:9-33 | With the masks of its width, after setting element i it reads as the value modulo 2 to the width, and every other element as before, although windows overlap. |
| BitArray.SignedReading | internal/c/libqb/src/bitops.cpp:16-24 | getbits reads the element with its top bit as the sign. |
| BitArray.WidthsThatFit | internal/c/libqb/src/bitops.cpp:9-33 | Elements fit their windows at every index exactly for widths up to 58, and 60 and 64. |
| BitArray.SetThenGetIff | internal/c/libqb/src/bitops.cpp:9-33 | Get after set returns the value modulo 2 to the width for all values exactly if the element fits its window and both masks are those of the width, which for 64 depends on a shift C++ leaves undefined. |
| BitArray.SetBitsAt | internal/c/libqb/src/bitops.cpp:26-33 | The procedure on memory changed in place, for every width the compiler accepts. |
| BitArray.GetUBitsAt | internal/c/libqb/src/bitops.cpp:9-14 | The procedure on memory, likewise. |
| BitArray.GetBitsAt | internal/c/libqb/src/bitops.cpp:16-24 | The procedure on memory, likewise, with the top bit as the sign. |
| Wildcard.TurnOk | internal/c/libqb/src/filesystem.cpp:515-551 | Every turn makes progress in a lexicographic measure, also when it goes back to the last star: the name has then been read further than the last time. |
| Wildcard.IsPatternMatching | internal/c/libqb/src/filesystem.cpp:510-554 | The loop terminates; true implies the name is in the pattern's language, and for good patterns the result is exact. |
| Wildcard.Soundness | internal/c/libqb/src/filesystem.cpp:510-554 | A name that is accepted is in the language of the pattern. |
| Wildcard.ExactForGood | internal/c/libqb/src/filesystem.cpp:510-554 | When behind every star there are no literals at all, or a run that begins with one and cannot be read past where it starts over, exactly the language is accepted. |
| Wildcard.ExactIff | internal/c/libqb/src/filesystem.cpp:510-554 | For every pattern the matcher is right about every name if and only if that condition holds. |
| Wildcard.EndingExactIff | internal/c/libqb/src/filesystem.cpp:510-554 | For patterns of a star and a literal w, the matcher is right about every name if and only if the first character of w does not recur in it. |
| Wildcard.LostName | internal/c/libqb/src/filesystem.cpp:515-551 | Where a run can be read past the place where it starts over, a name that is in the language and rejected. |
| Wildcard.BlockedRejects | internal/c/libqb/src/filesystem.cpp:517-526 | A star with another wildcard right behind it and a literal further on: every name without that wildcard in it is rejected, also a plain name that is in the language. |
| Wildcard.DoubleStarRejects | internal/c/libqb/src/filesystem.cpp:517-526 | For every nonempty literal, two stars in front of it reject every name without a star. |
| Wildcard.CoastingAccepts | internal/c/libqb/src/filesystem.cpp:517-526 | From a star with no literals behind it every name is accepted, also with more stars or question marks there. |
| RawStream.Stream.OnRead | internal/c/parts/audio/audio.cpp:495-554 | Each read returns the next queued frames in order, silence exactly when paused or when nothing is queued, and nothing after the end; frames played and queued are together those pushed. |
| RawStream.Stream.PushSampleFrames | internal/c/parts/audio/audio.cpp:436-449 | Frames go to the end of the queue. |
| RawStream.Stream.PushMono | internal/c/parts/audio/audio.cpp:456-462 | Mono samples go to the end of the queue with their gains. |
| RawStream.Stream.GetSampleFramesRemaining | internal/c/parts/audio/audio.cpp:477-481 | The number of frames queued, across both buffers. |
| RawStream.Generator.Conserved | internal/c/parts/audio/audio.cpp:1138-1156 | Frames played, then the consumer's rest, then the producer, then what a pause holds back, are together everything sent, in order. |
| RawStream.Generator.Play | internal/c/parts/audio/audio.cpp:495-554 | A read of the generator's stream hands out the next frames sent and keeps the account of everything sent, over reads and pauses alike. |
| RawStream.Generator.PushBufferForPlayback | internal/c/parts/audio/audio.cpp:1145-1156 | The wave buffer is sent once, to the stream or to what the pause holds back. |
| RawStream.Generator.Pause | internal/c/parts/audio/audio.cpp:1365-1373 | Resuming hands over everything held back, in order; pausing hands over nothing. |
| FrameBlock.DoubleBuffer.GetWriteBlock | internal/c/parts/audio/framework.h:101-112 | Room is given exactly when the block to write to is empty. |
| FrameBlock.DoubleBuffer.ReadFrames | internal/c/parts/audio/framework.h:116-153 | Exactly as many frames as asked for or as there are, in order, across the change of blocks, and precisely the rest remains; a block that has been used up is free to be written to at once. |
| ChunkBuffer.BytesAppend | internal/c/libqb/src/buffer.cpp:77-89 | A chunk hung on the end adds its bytes behind all others. |
| ChunkBuffer.Buffer.Write | internal/c/libqb/src/buffer.cpp:77-89 | The bytes go behind everything unread; the tail is the last entry's next-field. |
| ChunkBuffer.Buffer.Take | internal/c/libqb/src/buffer.cpp:42-65 | One turn takes the next bytes of the first entry, and drops an entry that is used up, also an empty one. |
| ChunkBuffer.Buffer.Read | internal/c/libqb/src/buffer.cpp:39-75 | Exactly as many bytes as asked for or as there are, and precisely the rest remains; the length stays that of the unread bytes. |
| ChunkBuffer.Buffer.Clear | internal/c/libqb/src/buffer.cpp:21-33 | Nothing is left. |

## Left out

- Conventional-memory strings (`qbs_cmem.cpp`), the strings of file fields, and `qbs_new_txt` without a length: other allocators, or copies of what is modelled.
- The growth of the list of temporaries, of the descriptor pool and of the free stack to more slots: they are sequences here, so only their contents are modelled.
- StringHeap.Heap.Set: assumes that source and destination do not partly share memory outside the buffer, and that a temporary is not assigned to itself; `memcpy` promises nothing there.
- StringHeap.Heap.New: does not model the 32-bit wrap-around of sizes and of the stack pointer.
- Case conversion and string comparison: loops over bytes without heap state.
- The six other copies of the triangle loop, blending and its tables, hardware images, and the conversion of floating-point coordinates to fixed point, whose results are parameters.
- DrawTriangle.Draw: integers are unbounded; `TextureShift.StoredCorners` and `TextureShift.RowsLossless` say when 32 bits hold all of them. For a tiled triangle whose corners differ by 2^30 or more (16384 texels) what a lost gradient draws is not modelled. Surfaces of 32768 pixels or more in a direction, whose fixed-point size would not fit into 32 bits, are not treated.
- TextureShift.MapTriangle: when a moved coordinate does not fit its field, what the tiled loops draw is not stated, only that they are given a negative coordinate.
- TextureShift.MapTriangle: when source and destination are the same surface, the texels written are not stated, only where they are written.
- Timers.Always: the flags that hasten event checks are left out; when a timer is due is left open, and so are the clock and the layout of the free list's buffer; after `stop_timers` the main thread does nothing until `start_timers`; an error handler that abandons a running timer handler is not modelled.
- Progress of the timer thread: once it has ended, a request for the lock is never confirmed, and the main thread waits.
- DeviceEvents.Input.DeviceInput: a number outside 0 to 1000 names no record of the array of devices; what the code finds there after raising the error is not modelled.
- HandleList.List.Add: when the index cannot grow nothing is promised about the list afterwards; `list_destroy` and the mutexes are left out.
- MemLocks.Memory.Copy: what a copy moves whose end is past 2^63 is not stated; `_MEMFILL`, which makes the same checks, is left out. What the allocator does after a region has been freed twice is not modelled, only the locks.
- `_BIN$`, `OCT$` and `HEX$` of floating-point values, and the fraction and exponent of VAL: there `Val.ReadNumber` says only that the number goes on.
- BitArray.SetThenGet: requires the masks of the width. For 64 the code shifts one by the width of its type, which C++ leaves undefined, so the masks are parameters there and `BitArray.SetThenGetIff` says which are right.
- Wildcard.IsPatternMatching: case folding on Windows is left out.
- RawStream.Stream.OnRead: calls are atomic; the callback takes no mutex in the code, so a push may be preempted there. Samples are real numbers.
- Waveform generation and mixing, the MML interpreter, and everything that talks to a device, the network or the operating system.
- Base64.DecodeData: bytes written before an invalid group is met stay in the buffer; the contract speaks of the result only.
