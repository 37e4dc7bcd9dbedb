# OVITO core pieces, modelled in Dafny

OVITO is a visualization program for particle simulations. This project
models these parts of it:

- **The work-distribution layer of the embedded Tachyon ray tracer's
  thread library** (`threads.c`):
  - the shared iterator that hands out consecutive tiles of a work range,
    with a sticky fatal-error flag;
  - the growable retry stack of failed tiles;
  - the pool-level tile request, which falls back to that stack;
  - the creation of the per-worker descriptors;
  - the bookkeeping of the counting barrier and the run barrier.
- **The triangle mesh** (`TriMesh`): its vertex, colour and face arrays,
  the cached bounding box, and the field layout that `saveToStream` writes
  and `loadFromStream` reads.
- **The XYZ file importer**: the first-line format check, and the scan
  that finds the animation frames of a file.
- **`LinkedFileObject`**: its list of scene objects (no duplicates,
  filtering, first-match lookup, save-flag propagation) and its attribute
  map.
- **The Tachyon renderer's frame loop**:
  - the image is cut into square tiles of `numthreads * 8` pixels;
  - the rows of each tile are interleaved among the threads;
  - each traced tile is copied from the RGB24 buffer into the ARGB32 frame
    buffer, flipped vertically, while progress is counted and cancellation
    is honoured.
- **`InvertSelectionModifier`**: inverts the particle selection in place.

Each lock-protected operation of `threads.c` is one atomic method on a
class. Each class also has a `State()` function that returns its fields as
a value, and a pure step function (`Step`, `CountingStep`, `RunStep`). The
methods are proved to perform that step. The properties of repeated calls
are lemmas about the step functions: exactly-once tiling, the sticky error
flag, and full barrier phases. Stateful C++ classes (`TriMesh`,
`LinkedFileObject`) are Dafny classes whose methods update their fields. In
each loop of the source, a Dafny loop is proved against a specification
function. The examples are the face loop of `loadFromStream`, the
search loop of `findSceneObject` (against `FirstOfClass`), the
backward removal loop of `removeInactiveObjects`, the line loop of
`scanFileForTimesteps`, the tile loops of `renderFrame` and the inversion
loop. Round trips and coverage are then proved about those functions.

Where the source relies on things outside itself, those become inputs:

| Outside dependency | Modelled as |
|---|---|
| Allocation failure | `allocOk` flag |
| Ray-traced image | `img` sequence |
| User cancellation | number of finished tiles after which the user cancels, or none |
| File lines | `Line` values: the line's buffer and its byte length |
| Stream | sequence of typed values (`StreamValue`) |
| Selection property (`outputStandardProperty`) | `selection` array |

## Model

| member | source | states |
|---|---|---|
| Iterators.SharedIterator.constructor | src/plugins/tachyon/tachyonlib/threads.c:1155-1161 | init zeroes the iterator: range [0,0), cursor 0, no fatal error |
| Iterators.SharedIterator.Set | src/plugins/tachyon/tachyonlib/threads.c:1174-1187 | set puts the cursor at the tile's start, takes its range and clears the fatal flag |
| Iterators.Step | src/plugins/tachyon/tachyonlib/threads.c:1191-1223 | a flagged iterator returns DONE and leaves cursor and caller's tile alone. Otherwise the cursor always moves by reqsize. A tile is granted iff the cursor was below the end, running from the cursor to min(cursor+reqsize, end). A DONE tile is {0, min(0,end)} |
| Iterators.SharedIterator.NextTile | src/plugins/tachyon/tachyonlib/threads.c:1191-1223 | the method's status, tile and new state are exactly `Step` of the old state |
| Iterators.AfterAdvances | src/plugins/tachyon/tachyonlib/threads.c:1199-1201 | after n calls the cursor has moved by n*reqsize, DONE calls included |
| Iterators.FatalIsSticky | src/plugins/tachyon/tachyonlib/threads.c:1198-1217 | once the flag is set, every later call is DONE and changes neither the iterator nor the caller's tile |
| Iterators.TileOfCall | src/plugins/tachyon/tachyonlib/threads.c:1179-1214 | after set({s,e}), call j of next_tile(k) grants [s+jk, min(s+jk+k, e)) while s+jk < e, and is DONE with {0, min(0,e)} after that |
| Iterators.CallsGrantingTiles | src/plugins/tachyon/tachyonlib/threads.c:1199-1214 | call j grants a tile iff j < ceil((e-s)/k) |
| Iterators.TilesAreConsecutive | src/plugins/tachyon/tachyonlib/threads.c:1199-1214 | each granted tile starts where the previous one ended |
| Iterators.ExactlyOnce | src/plugins/tachyon/tachyonlib/threads.c:1199-1214 | unit x is in the tile granted by call j iff s <= x < e and j == (x-s)/k. So the tiles cover the range, each unit exactly once |
| Iterators.GrantedTilesDisjoint | src/plugins/tachyon/tachyonlib/threads.c:1199-1214 | two different calls never grant a common unit |
| Iterators.GrantedTotal | src/plugins/tachyon/tachyonlib/threads.c:1199-1214 | the first n calls grant min(n*k, e-s) units in total |
| Iterators.SharedIterator.SetFatalError | src/plugins/tachyon/tachyonlib/threads.c:1227-1236 | raises the flag; nothing else changes |
| Iterators.SharedIterator.GetFatalError | src/plugins/tachyon/tachyonlib/threads.c:1240-1251 | returns -1 iff the flag is raised, and 0 iff it is not |
| TileStacks.TileStack.constructor | src/plugins/tachyon/tachyonlib/threads.c:1007-1027 | empty stack, growth rate 512, capacity `size` when positive and 0 otherwise |
| TileStacks.TileStack.Push | src/plugins/tachyon/tachyonlib/threads.c:1063-1089 | returns 0 and appends the tile when there is room or allocation succeeds. Capacity grows by 512 exactly when top reaches it. On allocation failure it returns -1 and leaves entries and storage unchanged. -1 <= top < size holds throughout |
| TileStacks.TileStack.Pop | src/plugins/tachyon/tachyonlib/threads.c:1092-1112 | on a non-empty stack, returns the last pushed tile and removes it (LIFO). On an empty stack, returns EMPTY and leaves the stack and the caller's tile unchanged |
| TileStacks.TileStack.PopAll | src/plugins/tachyon/tachyonlib/threads.c:1115-1127 | no entries remain; only top changes, so the capacity is kept |
| TileStacks.TileStack.Empty | src/plugins/tachyon/tachyonlib/threads.c:1130-1147 | returns 1 iff no entry is stored, 0 otherwise |
| TileStacks.TileStack.Compact | src/plugins/tachyon/tachyonlib/threads.c:1039-1060 | entries are kept. Capacity shrinks to the entry count only when larger and allocation succeeds, into fresh storage. Returns -1 exactly when a needed reallocation fails |
| Barriers.CountingBarrier.constructor | src/plugins/tachyon/tachyonlib/threads.c:853-865 | n clients, none waiting, phase 0, sum 0; the result field is left open |
| Barriers.CountingStep | src/plugins/tachyon/tachyonlib/threads.c:885-896 | one arrival keeps the barrier invariant (0 <= waiting < clients, phase 0 or 1, sum 0 when nobody waits), the client count, and reports the phase it arrived in |
| Barriers.CountingBarrier.Arrive | src/plugins/tachyon/tachyonlib/threads.c:885-896 | the method's new state and outputs are exactly `CountingStep` |
| Barriers.ArrivalsAccumulate | src/plugins/tachyon/tachyonlib/threads.c:887-888 | arrivals short of the last only count and add their increments; nobody is released |
| Barriers.PhaseCompletes | src/plugins/tachyon/tachyonlib/threads.c:885-896 | the n_clients-th arrival flips the phase, resets waiting and sum, and publishes the sum of all increments, which it is released with |
| Barriers.RunBarrier.constructor | src/plugins/tachyon/tachyonlib/threads.c:917-931 | n clients, none waiting, phase 0, no function posted |
| Barriers.RunStep | src/plugins/tachyon/tachyonlib/threads.c:955-969 | one arrival keeps the invariant and the client count, and reports the phase it arrived in |
| Barriers.RunBarrier.Arrive | src/plugins/tachyon/tachyonlib/threads.c:955-969 | the method's new state and outputs are exactly `RunStep` |
| Barriers.RunArrivalsRemember | src/plugins/tachyon/tachyonlib/threads.c:955-959 | non-final arrivals only count and remember the most recent non-NULL function and parameters |
| Barriers.RunPhaseCompletes | src/plugins/tachyon/tachyonlib/threads.c:961-969 | the last arrival moves the most recently posted non-NULL function and parameters to rslt/rsltparms, clears them, flips the phase and releases everybody with that job |
| Barriers.PollResult | src/plugins/tachyon/tachyonlib/threads.c:991-1001 | poll is 1 iff n_waiting == n_clients-1, else 0 |
| Barriers.RunBarrier.Poll | src/plugins/tachyon/tachyonlib/threads.c:991-1001 | the method returns `PollResult` of the barrier |
| ThreadPools.DeviceIds | src/plugins/tachyon/tachyonlib/threads.c:1292-1298 | a fresh array of workercount device ids: devlist[i], or -1 for every worker without a device list |
| ThreadPools.ThreadPool.constructor | src/plugins/tachyon/tachyonlib/threads.c:1277-1324 | worker i gets thread id i, thread count workercount, device devlist[i] (or -1) and speed 1.0. The iterator is zeroed, the error stack is empty with capacity 64, and the run barrier has workercount+1 clients |
| ThreadPools.ThreadPool.NextTile | src/plugins/tachyon/tachyonlib/threads.c:1497-1510 | the iterator takes one `Step`. A granted tile is returned with the stack untouched. On DONE with a non-empty stack, it returns CONTINUE with the most recently failed tile, popped. On DONE with an empty stack, DONE stands |
| ThreadPools.ThreadPool.TileFailed | src/plugins/tachyon/tachyonlib/threads.c:1517-1520 | returns 0 iff the error stack has room or the allocation succeeds, and then the tile is pushed onto it. On -1 the entries and the storage are unchanged |
| ThreadPools.ThreadPool.SetFatalError | src/plugins/tachyon/tachyonlib/threads.c:1524-1528 | raises the shared iterator's flag |
| ThreadPools.ThreadPool.GetFatalError | src/plugins/tachyon/tachyonlib/threads.c:1532-1536 | -1 iff the shared iterator's flag is raised, else 0 |
| ThreadPools.ThreadPool.Poll | src/plugins/tachyon/tachyonlib/threads.c:1363-1369 | 1 iff every worker waits at the run barrier, else 0 |
| ThreadPools.SchedDynamic | src/plugins/tachyon/tachyonlib/threads.c:1489-1493 | -1 without a pool; otherwise 0 and the pool's iterator is set to the tile |
| ThreadPools.MasterJobReachesAll | src/plugins/tachyon/tachyonlib/threads.c:945-987 | when the workers post NULL and the master posts a job, the phase releases everybody with the master's job, whatever the arrival order |
| TriMeshes.TriMesh.constructor | src/core/scene/objects/geometry/TriMesh.h:43 | empty mesh without vertex colours, empty box |
| TriMeshes.TriMesh.Clear | src/core/scene/objects/geometry/TriMesh.cpp:30-37 | no vertices, faces or colours; colours disabled; box emptied |
| TriMeshes.AddPointsEncloses | src/core/scene/objects/geometry/TriMesh.h:53-57 | adding points keeps what the box held and makes it hold every added point |
| TriMeshes.TriMesh.BoundingBox | src/core/scene/objects/geometry/TriMesh.h:53-57 | a cached non-empty box is returned as is. An empty one is recomputed from the vertices, cached, and encloses every vertex |
| TriMeshes.TriMesh.SetVertexCount | src/core/scene/objects/geometry/TriMesh.cpp:42-48 | n vertices with the old ones kept. Colours are resized to n, old ones kept, only while enabled. Faces are unchanged and the box is emptied |
| TriMeshes.TriMesh.Vertex | src/core/scene/objects/geometry/TriMesh.h:83-86 | defined only for 0 <= index < vertexCount; yields a vertex of the mesh |
| TriMeshes.TriMesh.SetVertex | src/core/scene/objects/geometry/TriMesh.h:103-106 | requires an index in range; only that vertex changes |
| TriMeshes.TriMesh.SetHasVertexColors | src/core/scene/objects/geometry/TriMesh.h:114-117 | sets the flag; colours are resized to the vertex count when enabling, to 0 when disabling, and the old ones are kept |
| TriMeshes.TriMesh.VertexColor | src/core/scene/objects/geometry/TriMesh.h:141-146 | defined only with colours enabled, one per vertex, and an index in range |
| TriMeshes.TriMesh.SetVertexColor | src/core/scene/objects/geometry/TriMesh.h:167-172 | same preconditions; only that colour changes |
| TriMeshes.TriMesh.InvalidateVertices | src/core/scene/objects/geometry/TriMesh.h:177-179 | the cached box becomes empty |
| TriMeshes.TriMesh.SetFaceCount | src/core/scene/objects/geometry/TriMesh.cpp:53-57 | n faces, the first ones kept |
| TriMeshes.TriMesh.Face | src/core/scene/objects/geometry/TriMesh.h:205-208 | defined only for 0 <= index < faceCount; yields a face of the mesh |
| TriMeshes.TriMesh.AddFace | src/core/scene/objects/geometry/TriMesh.cpp:63-67 | face count grows by exactly one, old faces are kept, and the result designates the last face |
| TriMeshes.TriMesh.SaveToStream | src/core/scene/objects/geometry/TriMesh.cpp:72-95 | writes `Encode` of the mesh: chunk 0x01, vertex vector, colour flag, colour vector, face count, six fields per face, chunk end |
| TriMeshes.ReadFaces | src/core/scene/objects/geometry/TriMesh.cpp:116-126 | the face loop returns exactly `DecodeFaces` |
| TriMeshes.TriMesh.LoadFromStream | src/core/scene/objects/geometry/TriMesh.cpp:100-129 | the outcome is `Decode` of the stream; on success the mesh is the decoded one and the box is empty |
| TriMeshes.DecodeFailures | src/core/scene/objects/geometry/TriMesh.cpp:100-129 | a load fails with the header's error, or with a read error when a face or the chunk end is missing |
| TriMeshes.DecodeEncodedFaces | src/core/scene/objects/geometry/TriMesh.cpp:85-126 | faces written field by field read back as the same faces |
| TriMeshes.DecodeFacesFailurePersists | src/core/scene/objects/geometry/TriMesh.cpp:119-126 | once a face cannot be read, no longer face list can be |
| TriMeshes.DecodeEncodedHeader | src/core/scene/objects/geometry/TriMesh.cpp:74-117 | a written header reads back its vertices, colour flag, colours and face count |
| TriMeshes.RoundTrip | src/core/scene/objects/geometry/TriMesh.cpp:72-129 | loading what saveToStream wrote gives back the same mesh (vertices, colour flag, colours, every face field) and stops right after the chunk, whatever follows |
| TriMeshes.LoadedColorsConsistent | src/core/scene/objects/geometry/TriMesh.cpp:113 | a saved mesh with consistent colours loads with consistent colours |
| XYZ.CString | src/plugins/particles/importer/xyz/XYZImporter.cpp:66-70 | the line is read up to its first NUL, which ends it |
| XYZ.CountLineScan | src/plugins/particles/importer/xyz/XYZImporter.cpp:70-85 | a line is whitespace, digits, whitespace iff the scan's first non-space starts a non-empty digit run followed only by whitespace |
| XYZ.CheckFileFormat | src/plugins/particles/importer/xyz/XYZImporter.cpp:65-87 | the first line is accepted iff it is empty or consists of optional whitespace, one or more digits, optional whitespace |
| XYZ.StrToULong | src/plugins/particles/importer/xyz/XYZImporter.cpp:165 | the %u conversion yields a value in [0, ULONG_MAX] |
| XYZ.AsInt32 | src/plugins/particles/importer/xyz/XYZImporter.cpp:165 | the converted value read back as an int lies in [-2^31, 2^31) and agrees with it modulo 2^32 |
| XYZ.ParticleCountOfCountLine | src/plugins/particles/importer/xyz/XYZImporter.cpp:165 | a count line whose digits denote at most 1e9 yields exactly that count |
| XYZ.BlankLine | src/plugins/particles/importer/xyz/XYZImporter.cpp:164 | a line ends the scan as blank iff its buffer starts with NUL (or is empty) |
| XYZ.DigitRunKind | src/plugins/particles/importer/xyz/XYZImporter.cpp:165-166 | a line of whitespace then a digit run worth v, whatever follows, declares v particles when v <= 1e9 and is rejected when 1e9 < v < 2^31. A run that fits an unsigned long is read modulo 2^32: it declares v mod 2^32 particles when that is <= 1e9, and is rejected otherwise |
| XYZ.NegativeCountIsBad | src/plugins/particles/importer/xyz/XYZImporter.cpp:165-166 | whitespace, '-', and a digit run worth v with 0 < v < 2^31 is rejected: sscanf stores 2^32 - v, which reads back as -v |
| XYZ.NoDigitIsBad | src/plugins/particles/importer/xyz/XYZImporter.cpp:165-166 | a non-blank line with no digit after its whitespace and optional sign is rejected |
| XYZ.SkipFrame | src/plugins/particles/importer/xyz/XYZImporter.cpp:177-188 | after the comment line and n atom lines the scan goes on at the next line, or stops at the end of the file or on cancellation after the first atom line |
| XYZ.SkipFrameLines | src/plugins/particles/importer/xyz/XYZImporter.cpp:177-188 | the skip loop ends as `SkipFrame` says, at the byte offset of the line it reaches |
| XYZ.ScanFileForTimesteps | src/plugins/particles/importer/xyz/XYZImporter.cpp:157-189 | the frames appended and the way the scan ends are exactly `Scan` of the lines |
| XYZ.FrameLabelsConsecutive | src/plugins/particles/importer/xyz/XYZImporter.cpp:155-174 | the k-th frame is labelled with the file name and frame number k |
| XYZ.FrameRecords | src/plugins/particles/importer/xyz/XYZImporter.cpp:158-188 | each record names a count line (non-blank, count in 0..1e9) by 1-based number and byte offset. The first is line 1, and each next one follows the previous frame's count, comment and atom lines |
| XYZ.ScanCompletes | src/plugins/particles/importer/xyz/XYZImporter.cpp:157-164 | a scan that completes stops at the end of the file or at a blank line, right after the last frame's lines |
| XYZ.InvalidCountError | src/plugins/particles/importer/xyz/XYZImporter.cpp:165-166 | the line an invalid-count error names is non-blank and has no count in 0..1e9 |
| LinkedFile.LinkedFileObject.constructor | src/core/dataset/importexport/LinkedFileObject.h:41 | a new container starts with an empty scene-object list, attribute map and frame list (the constructor's body, in LinkedFileObject.cpp, is not part of this model) |
| LinkedFile.LinkedFileObject.AddSceneObject | src/core/dataset/importexport/LinkedFileObject.h:105-110 | a new object gets the container's save flag and is appended. A listed one is left alone. The list stays free of duplicates |
| LinkedFile.FirstOfClass | src/core/dataset/importexport/LinkedFileObject.h:114-120 | the index of the first object of the class, or none when no object is of it |
| LinkedFile.LinkedFileObject.FindSceneObject | src/core/dataset/importexport/LinkedFileObject.h:114-120 | the search loop returns the object at `FirstOfClass`'s index: the first listed object of the class, or null iff none is of it |
| LinkedFile.KeepActiveIsFilter | src/core/dataset/importexport/LinkedFileObject.h:124-128 | filtering keeps exactly the listed active objects, in their order |
| LinkedFile.KeepActiveNoDuplicates | src/core/dataset/importexport/LinkedFileObject.h:124-128 | filtering keeps a list free of duplicates |
| LinkedFile.AllActiveIsFixpoint | src/core/dataset/importexport/LinkedFileObject.h:124-128 | a list of active objects is left as it is |
| LinkedFile.LinkedFileObject.RemoveInactiveObjects | src/core/dataset/importexport/LinkedFileObject.h:124-128 | the backward removal loop leaves exactly `KeepActive` of the old list |
| LinkedFile.LinkedFileObject.SetSaveWithScene | src/core/dataset/importexport/LinkedFileObject.h:133-138 | the container and every listed object get the flag |
| LinkedFile.LinkedFileObject.SetAttributes | src/core/dataset/importexport/LinkedFileObject.h:146 | the attribute map is replaced wholesale |
| LinkedFile.LinkedFileObject.ClearAttributes | src/core/dataset/importexport/LinkedFileObject.h:150 | the attribute map is empty |
| InvertSelection.Inverted | src/plugins/particles/modifier/selection/InvertSelectionModifier.cpp:36-37 | same length; entry i becomes 1 iff it was 0, and every entry is 0 or 1 |
| InvertSelection.InvertTwiceIsIdentity | src/plugins/particles/modifier/selection/InvertSelectionModifier.cpp:36-37 | inverting a 0/1 selection twice restores it |
| InvertSelection.InvertedCount | src/plugins/particles/modifier/selection/InvertSelectionModifier.cpp:36-37 | the inverted selection selects |s| minus the originally selected count |
| InvertSelection.ModifyParticles | src/plugins/particles/modifier/selection/InvertSelectionModifier.cpp:34-40 | the selection array is inverted in place and Success is returned |
| TachyonFrame.PixelTileIndex | src/plugins/tachyon/renderer/TachyonRenderer.cpp:205-209 | every pixel's tile coordinates are among those the loops visit |
| TachyonFrame.TilePartition | src/plugins/tachyon/renderer/TachyonRenderer.cpp:205-209 | pixel (y,x) lies in tile i iff i is its tile index, so the tiles cover the image without overlap |
| TachyonFrame.TileInImage | src/plugins/tachyon/renderer/TachyonRenderer.cpp:206-209 | every tile starts at multiples of the tile size, is clipped to the image, and is non-empty |
| TachyonFrame.AssignThreadParms | src/plugins/tachyon/renderer/TachyonRenderer.cpp:210-218 | thread thr gets startx = 1+xstart, stopx = xstop, xinc = 1, starty = thr+1+ystart, stopy = ystop, yinc = numthreads |
| TachyonFrame.RowOwner | src/plugins/tachyon/renderer/TachyonRenderer.cpp:215-217 | 1-based row y of a tile is traced by thread thr iff thr == (y-1-ystart) mod numthreads, so the threads split the rows disjointly and completely |
| TachyonFrame.ColumnsOfEveryThread | src/plugins/tachyon/renderer/TachyonRenderer.cpp:212-214 | every thread traces exactly columns xstart+1..xstop |
| TachyonFrame.CopyRow | src/plugins/tachyon/renderer/TachyonRenderer.cpp:230-239 | source row y lands in row h-1-y, columns xstart..xstop-1, as (src[2], src[1], src[0], 255); nothing else changes |
| TachyonFrame.CopyTile | src/plugins/tachyon/renderer/TachyonRenderer.cpp:229-239 | every pixel of the tile lands flipped and channel-swapped; nothing else changes |
| TachyonFrame.AreaOfRows | src/plugins/tachyon/renderer/TachyonRenderer.cpp:206-242 | the progress after ty full rows of tiles and tx tiles of the next is the area they cover |
| TachyonFrame.AllTilesArea | src/plugins/tachyon/renderer/TachyonRenderer.cpp:242 | the areas of all tiles add up to width times height |
| TachyonFrame.RenderTile | src/plugins/tachyon/renderer/TachyonRenderer.cpp:208-242 | one tile's parameters are set and exactly its pixels are copied |
| TachyonFrame.RenderTileRow | src/plugins/tachyon/renderer/TachyonRenderer.cpp:207-243 | the inner loop finishes its row of tiles unless cancelled, adding each tile's area to the progress |
| TachyonFrame.FrameLoopExit | src/plugins/tachyon/renderer/TachyonRenderer.cpp:206-207 | the loops stop after all tiles or at the first cancellation |
| TachyonFrame.RenderFrame | src/plugins/tachyon/renderer/TachyonRenderer.cpp:205-249 | returns not-cancelled. Progress grows by the area of the finished tiles. A frame-buffer pixel is converted iff its tile was finished, else unchanged. The threads hold the last tile's parameters |
| TachyonFrame.CompleteFrame | src/plugins/tachyon/renderer/TachyonRenderer.cpp:205-249 | without cancellation every tile is rendered, progress grows by w*h, and every pixel is converted |

## Left out

- Mutexes, spin locks, condition variables and thread creation in
  `threads.c`:
  - each locked body is one atomic step;
  - the `cond_wait` loop of both barriers is not modelled: an arrival
    either completes the phase or waits;
  - launch, wait, destroy and the worker thread procedure are modelled
    only through `MasterJobReachesAll`;
  - `rt_threadlaunch`, the device-scaled tile functions and OS queries
    are not modelled.
- `threads.h` is not part of this model. The values of `RT_SCHED_CONTINUE`,
  `RT_SCHED_DONE` and `RT_TILESTACK_EMPTY` are unknown, so they are
  enumerations.
- 32-bit overflow of the cursor, `top` and `size` in `threads.c`: integers
  are unbounded.
- The non-threaded build of `threads.c` (one worker, no barrier bookkeeping).
- `ThreadPools.ThreadPool.constructor` requires a non-negative worker count
  and a device list at least that long, which the C caller must ensure.
  The allocation failure that returns NULL is not modelled.
- `TileStacks.TileStack.constructor`: a failed `malloc` in init is not
  modelled.
- `Barriers.CountingBarrier.constructor` leaves the `result` field open:
  `rt_thread_barrier_init` never writes it, and it is read only after a
  completing arrival has set it.
- `Barriers.CountingBarrier.constructor` and
  `Barriers.RunBarrier.constructor` require at least one client, while the
  C init functions accept any count (with none, no arrival would ever be
  released). The only caller passes the worker count plus one. The `malloc`
  failure of `rt_thread_barrier_init` that returns NULL is not modelled.
- `TriMeshes.TriMesh.SetVertexCount`, `TriMeshes.TriMesh.SetHasVertexColors`,
  `TriMeshes.TriMesh.SetFaceCount`: the value `QVector::resize` gives new
  elements comes from the default constructors of `Point3`, `ColorA` and
  `TriMeshFace`, which are not part of this model, so the contracts leave
  new elements unspecified.
- TriMesh coordinates and colour components are floating point in the
  source and integers here. Ray intersection (`intersectRay`), face
  normals and the rendering helpers are not modelled.
- The stream classes are not part of this model:
  - `loadFromStream` requires the chunk end right after the faces, while
    `closeChunk` would skip unread data;
  - a failed read is an error result rather than an exception;
  - after a failed read the mesh is left partly loaded, and only the
    outcome is stated then.
- `TriMeshes.TriMesh.LoadFromStream`: a negative vertex, colour or face
  count in the stream is rejected here as a read error. The source passes
  the face count it reads to `QVector::resize` unchecked (TriMesh.cpp:116-118),
  and what a negative size does there is not part of this model. For the
  same reason `TriMeshes.TriMesh.SetVertexCount` and
  `TriMeshes.TriMesh.SetFaceCount` require `n >= 0`.
- `LinkedFile.LinkedFileObject.constructor`: the initial value of the
  container's `saveWithScene` flag is set in `LinkedFileObject.cpp`, which
  is not part of this model, so the constructor leaves it open.
- `TriMeshes.TriMesh.Vertex`, `TriMeshes.TriMesh.Face`,
  `TriMeshes.TriMesh.VertexColor`: the contract says the result is an
  element of the array, not which one. The read is the array access
  itself.
- `TriMesh::vertexCount`, `TriMesh::faceCount` and
  `LinkedFileObject::numberOfFrames` are plain reads of the array lengths.
  They appear as `VertexCount`, `FaceCount` and `NumberOfFrames` with no
  contract of their own.
- The XYZ first line is taken as given; the 20-character limit of
  `readLine(20)` is not modelled.
- The NUL tests inside the whitespace and digit loops of `checkFileFormat`
  can never fire: NUL is neither whitespace nor a digit. They are therefore
  left out.
- `scanFileForTimesteps`:
  - progress reporting is not modelled;
  - cancellation is a fixed input flag, noticed at the first check, after
    the first atom line of a frame;
  - reading past the last line is an end-of-file error;
  - the file name and modification time are inputs.
- `parseFile`, `inspectNewFile`, the column mapping, settings, dialogs and
  stream decompression of the XYZ importer are not modelled.
- `InvertSelection.ModifyParticles` takes the selection array as input.
  Getting or creating the selection property through
  `outputStandardProperty` is not modelled.
- `XYZ.StrToULong`, `XYZ.DigitRunKind`: the `%u` conversion is modelled as
  glibc's on a 64-bit (LP64) platform. `unsigned long` is 64 bits there, so
  `strtoul` saturates at 2^64-1 and negates modulo 2^64 before the result is
  truncated to 32 bits. Where `unsigned long` is 32 bits (Windows), digit
  runs of 2^32 or more convert differently.
- Undo, reference bookkeeping and change notification of
  `LinkedFileObject` and `InvertSelectionModifier` are not modelled.
  `dynamic_object_cast` is modelled as membership of a class name in the
  object's set of class names.
- The renderer:
  - ray tracing, the barrier that wakes the Tachyon threads, scene
    setup and clean-up are not modelled; the traced RGB24 image is an
    input;
  - the frame-buffer update is not modelled. The progress dialog's value
    is an unbounded counter (the starting value plus the area of the
    finished tiles); `QProgressDialog`'s range check in `setValue` and its
    automatic reset at the maximum, which can also clear the cancel flag,
    are not modelled;
  - cancellation is the number of finished tiles after which the user
    cancels;
  - `numthreads` is at least 1 (with 0 the source's loops would not
    advance).
