# opencuboids voxel core in Dafny

This is a verified model of the voxel-world logic of opencuboids, a Minecraft-style client and
server written in Rust. It covers the following pieces:

- **Chunk storage** (`Chunks`, chunk.dfy).
  - A chunk is a 32×32×32 array of `u8` block ids.
  - `pos_to_index` is the row-major flat index; it is proved a bijection onto the array.
  - `set_block` writes in place, and `get_block`/`try_get_block` read.
  - There are six face directions, as unit vectors in opposite pairs.
- **Terrain generation** (`WorldGen`, world_gen.dfy). `gen_blocks` sets to 1 every block of a
  chunk that lies below the height of its column.
- **The client's chunk store** (`ChunkManagement`, chunk_manager.dfy).
  - `get_block` works in world coordinates: a floor division picks the chunk, and a `u32` wrap
    followed by `% 32` gives the local position.
  - `chunk_update` is the recenter step. It clears the map, refills it ring by ring with freshly
    generated chunks, and hands the existing mesh entities to the chunks in order.
- **The chunk mesh** (`MeshVertex`, `MeshSpec`, `FaceBound`, `ChunkRenderer`).
  - The packed `u32` vertex and the cube tables.
  - `add_face`.
  - `ChunkMesh::new`, which emits a quad for every solid block face whose neighbour is air. It is
    proved equal to a functional specification.
  - The worst-case bound `MAX_QUADS`, proved by pairing the faces along each axis.
  - `chunk_mesh_gen`: a tick that drains the mesh queue and evicts far meshes.
- **The quad index buffer** (`QuadIndex`, quad_index.dfy). This is the sequence
  `Buffer::new_quad_index` uploads, including its `u16` truncation.
- **Input state** (`Inputs`, input.dfy). Sets of held, just-pressed and just-released buttons,
  and the per-frame event processing.
- **The frame timer** (`FrameTime`, time.dfy). The frame delta and the once-a-second frame-rate
  report.

Some modules change state in place in the source: chunk filling, the chunk map, the vertex array,
the mesh queue, the input sets and the timer. These are classes and methods in the model. Each
method is proved against a function of its inputs, and the properties are lemmas about those
functions. `Wrappers` (wrappers.dfy) holds the `Option` type.

## Model

| member | source | states |
|---|---|---|
| Chunks.Chunk.constructor | common/src/chunk.rs:11-16 | `Chunk::new(p)`: every block is air and the position is `p` |
| Chunks.Chunk.SetBlock | common/src/chunk.rs:20-22 | the array changes only at `pos_to_index(p)`, which now holds `id`; `get_block(p)` reads back `id`; for an in-chunk `p` every other in-chunk block and `pos` are unchanged |
| Chunks.ChunkData.TryGetBlock | common/src/chunk.rs:24-26 | `Some` exactly when every axis is in [0, 32), and then it is `get_block` |
| Chunks.PosToIndexInRange | common/src/chunk.rs:29-33 | an in-chunk position maps below `CHUNK_VOLUME`, and `IndexToPos` inverts the map |
| Chunks.IndexToPosInverse | common/src/chunk.rs:29-33 | every flat index is hit: `pos_to_index(IndexToPos(i)) == i` |
| Chunks.PosToIndexInjective | common/src/chunk.rs:29-33 | distinct in-chunk positions have distinct indices |
| Chunks.OutOfRangeAxisAliases | common/src/chunk.rs:20-33 | an x axis of 32 is outside the chunk, yet it indexes the cell of (0, y, z + 1) |
| Chunks.WrapU32 | client/src/world/chunk_manager.rs:18 | `as_uvec3` on one axis: the result is in [0, 2^32) and equals `v` mod 2^32 for `v` in [-2^32, 2^32) |
| Chunks.LocalPos | client/src/world/chunk_manager.rs:18 | `as_uvec3() % 32` always lies inside the chunk |
| Chunks.LocalPosIsOffset | server/src/world_gen.rs:4-12 | for a world position in chunk `k`, `as_uvec3() % 32` is the offset from the chunk's first block, including for negative coordinates |
| Chunks.DirectionsAreUnitAxes | common/src/chunk.rs:36-43 | each of the six vectors has exactly one ±1 component |
| Chunks.DirectionsPairUp | common/src/chunk.rs:36-43 | entry 2k + 1 is the negation of entry 2k |
| Chunks.DirectionsDistinct | common/src/chunk.rs:36-43 | the six vectors are pairwise distinct |
| WorldGen.GenBlocks | server/src/world_gen.rs:3-18 | the blocks become `Filled(old blocks, chunkPos, h)` and `pos` is unchanged; the result depends only on `chunkPos`, `h` and the old blocks |
| WorldGen.FilledAt | server/src/world_gen.rs:7-15 | local block `l` is 1 iff `start.y + l.y < h(start.x + l.x, start.z + l.z)`, and otherwise keeps its id |
| WorldGen.FilledWritesOnlyStone | server/src/world_gen.rs:12-13 | every block is either unchanged or 1 |
| WorldGen.FilledIdempotent | server/src/world_gen.rs:7-16 | generating twice gives the same blocks as generating once |
| WorldGen.GeneratedColumnsDownwardClosed | server/src/world_gen.rs:10-13 | from `Chunk::new`, a solid block has a solid block below it in the same column |
| ChunkManagement.GetBlock | client/src/world/chunk_manager.rs:15-22 | air whenever the owning chunk is not loaded |
| ChunkManagement.ChunkOfAndLocalPos | client/src/world/chunk_manager.rs:16-18 | `chunk * 32 + local == pos`, and every local axis is in [0, 32) |
| ChunkManagement.GetBlockFindsOwner | client/src/world/chunk_manager.rs:17-21 | world block `k * 32 + l` reads chunk `k`'s block `l` when `k` is loaded, and air otherwise |
| ChunkManagement.BoxSize | client/src/world/chunk_manager.rs:46-59 | the box of radius r holds (2r + 1)^3 chunks |
| ChunkManagement.CuboidSize | client/src/world/chunk_manager.rs:50-52 | the x, z, y ranges cover a product-sized set of coordinates |
| ChunkManagement.AssignMeshes | client/src/world/chunk_manager.rs:61-75 | one pass of the mesh loop: each chunk of the map gets exactly one slot, and slot j holds the next unconsumed existing entity, or a new one once they run out |
| ChunkManagement.EnumerationSize | client/src/world/chunk_manager.rs:61-75 | slots that enumerate a set without repetition are exactly as many as its elements |
| ChunkManagement.SlotsForStep | client/src/world/chunk_manager.rs:46-76 | a ring's pass extends the slots of the rings before it, continuing the entity iterator where it stopped |
| ChunkManagement.ChunkManager.constructor | client/src/world/chunk_manager.rs:8-12 | the default manager: an empty map, no center, an empty queue, and nothing loading |
| ChunkManagement.ChunkManager.InsertColumn | client/src/world/chunk_manager.rs:52-57 | the `y` loop inserts the generated chunks of one column of the ring |
| ChunkManagement.ChunkManager.InsertRing | client/src/world/chunk_manager.rs:47-59 | after one ring, the map holds the generated chunk at every coordinate of the box of radius i and keeps every other entry |
| ChunkManagement.ChunkManager.LoadRing | client/src/world/chunk_manager.rs:46-76 | after ring i, the map is exactly the box of radius i and the slots cover rings 0..i |
| ChunkManagement.ChunkManager.ChunkUpdate | client/src/world/chunk_manager.rs:25-84 | with an unchanged center, nothing changes; otherwise the center is the viewer's chunk and the map holds exactly the 125 chunks within distance 2, each generated with `pos` equal to its key; 153 mesh slots enumerate each ring's box once, in existing-entity order; the unconsumed entities are despawned |
| MeshVertex.CubeTablesWellFormed | client/src/render/chunk_renderer.rs:36-56 | `CUBE_INDICES` has 24 entries, each below 8; every `CUBE_VERTICES` component is 0 or 1 |
| MeshVertex.FacesLieOnTheirSide | client/src/render/chunk_renderer.rs:35-56 | the four corners of direction d lie on the side of the cube that d points at, and are pairwise distinct |
| MeshVertex.PackBitsRoundTrip | client/src/render/chunk_renderer.rs:69 | fields within their widths decode back from bits 0-5, 6-11, 12-17, 18-19 and 20-22, and the packed value is below 2^23 |
| MeshVertex.PackRoundTrip | client/src/render/chunk_renderer.rs:69 | corner positions of at most 32, a corner below 4 and a direction below 6 all decode unchanged |
| MeshVertex.FaceVertsDecode | client/src/render/chunk_renderer.rs:65-71 | vertex k of a face decodes to block position plus cube corner, corner index k, and the direction |
| MeshSpec.NeighbourBlockSource | client/src/render/chunk_renderer.rs:93-99 | the neighbour comes from the chunk iff it is inside [0, 32)^3; otherwise it comes from the chunk store at its world position, and reads as air when that chunk is absent |
| MeshSpec.EmitsInside | client/src/render/chunk_renderer.rs:88-100 | for an in-chunk neighbour, a face is emitted iff the block is solid and the neighbour is air |
| MeshSpec.ChunkFacesExactly | client/src/render/chunk_renderer.rs:87-108 | face (i, d) is in the emitted list iff block i is solid and its neighbour across d is air |
| MeshSpec.FacesOrdered | client/src/render/chunk_renderer.rs:87-92 | faces are emitted by block, and by direction within a block |
| MeshSpec.QuadVertsAt | client/src/render/chunk_renderer.rs:101-106 | vertices 4q .. 4q + 3 are the four vertices of the q-th emitted face |
| MeshSpec.MeshForCases | client/src/render/chunk_renderer.rs:111-122 | `None` iff no face is visible; a mesh carries the chunk's `pos` and four vertices per face |
| MeshSpec.MeshVerticesDecode | client/src/render/chunk_renderer.rs:65-71 | every mesh vertex decodes to in-range coordinates, corner index `v % 4` and its face's direction |
| FaceBound.PairAtMostTwo | client/src/render/chunk_renderer.rs:93-100 | two blocks adjacent along an axis show at most two faces along that axis together |
| FaceBound.FacesByAxis | client/src/render/chunk_renderer.rs:92 | the face count splits into the three per-axis counts |
| FaceBound.AxisBoundBelow | client/src/render/chunk_renderer.rs:16-17 | with pairs bounded, the first b blocks show at most b faces along one axis |
| FaceBound.FacesAtMostMaxQuads | client/src/render/chunk_renderer.rs:16-17 | every chunk, with any neighbours, shows at most `MAX_QUADS` faces, so the vertex array never overflows |
| ChunkRenderer.AddFace | client/src/render/chunk_renderer.rs:58-73 | exactly four vertices, those of the face, are written at `vertex_i`..`vertex_i + 3`; `vertex_i` advances by 4; every other entry is unchanged |
| ChunkRenderer.AddBlockFaces | client/src/render/chunk_renderer.rs:92-108 | after the direction loop of block i, the written prefix holds the vertices of all faces of blocks 0..i |
| ChunkRenderer.BuildVertices | client/src/render/chunk_renderer.rs:83-109 | `vertex_i` ends at 4 × the number of visible faces, within the array, and the prefix holds their vertices in emission order |
| ChunkRenderer.NewChunkMesh | client/src/render/chunk_renderer.rs:82-123 | the result is the mesh of the chunk's visible faces, or `None` when there are none (upload slice corrected, see Findings) |
| ChunkRenderer.UploadAsWritten | client/src/render/chunk_renderer.rs:111-122 | as written: the uploaded slice is `vertex_i + 1` long, and it is out of range iff `vertex_i > 0` and `vertex_i + 1` passes the array |
| ChunkRenderer.ChessboardFaces | client/src/render/chunk_renderer.rs:16-17 | the 3D chessboard shows six faces per solid block |
| ChunkRenderer.ChessboardOverrunsUpload | client/src/render/chunk_renderer.rs:111-117 | the chessboard with no loaded neighbours reaches `MAX_QUADS` exactly, and the as-written upload slice is then out of range |
| ChunkRenderer.InBoundsIsLoadedBox | client/src/render/chunk_renderer.rs:216-220 | a mesh is kept exactly when its chunk lies in the box `chunk_update` loads |
| ChunkRenderer.OutOfBounds | client/src/render/chunk_renderer.rs:215-223 | an entity is despawned iff its mesh's chunk is not in bounds of the center |
| ChunkRenderer.Spawned | client/src/render/chunk_renderer.rs:201-210 | at most one mesh per popped coordinate, each the mesh of a popped chunk |
| ChunkRenderer.SpawnedCount | client/src/render/chunk_renderer.rs:197-212 | exactly one mesh is spawned per popped chunk that shows a face |
| ChunkRenderer.SpawnedAt | client/src/render/chunk_renderer.rs:197-212 | the mesh of a popped chunk that shows a face is spawned at the position given by the number of earlier popped chunks showing a face, so meshes are spawned once each, in pop order |
| ChunkRenderer.Drained | client/src/render/chunk_renderer.rs:197-198 | at most four are taken per tick, and fewer only when the queue runs out |
| ChunkRenderer.MeshQueued | client/src/render/chunk_renderer.rs:197-212 | pops up to four coordinates from the front; it panics iff one of them is not loaded; otherwise it returns the meshes of the popped chunks that show faces, built by the corrected `NewChunkMesh` of the Findings row |
| ChunkRenderer.Despawn | client/src/render/chunk_renderer.rs:214-223 | with a center, the out-of-bounds entities in query order; with none, it panics as soon as a mesh exists |
| ChunkRenderer.ChunkMeshGen | client/src/render/chunk_renderer.rs:187-224 | a skipped tick changes nothing while chunks are loading; otherwise it panics exactly on an unloaded popped chunk or a missing center, or spawns and despawns as above; meshes are built by the corrected `NewChunkMesh` of the Findings row |
| QuadIndex.QuadIndices | client/src/render/buffer.rs:21-28 | `quad_count * 6` entries, each a `u16` |
| QuadIndex.CycleTakeAt | client/src/render/buffer.rs:22-25 | entry i of the cycled pattern is `P[i % 6]` |
| QuadIndex.QuadIndexAt | client/src/render/buffer.rs:22-27 | entry i is `(i / 6 * 4 + P[i % 6]) mod 65536` |
| QuadIndex.QuadTriangles | client/src/render/buffer.rs:22-27 | before truncation, quad q is the triangles (4q, 4q+1, 4q+2) and (4q+2, 4q+3, 4q) |
| QuadIndex.NoTruncationUpTo16384 | client/src/render/buffer.rs:27 | up to 16384 quads nothing is truncated, and the largest index is `4 * quad_count - 1` |
| QuadIndex.WrapsPast16384 | client/src/render/buffer.rs:27 | past 16384 quads the cast wraps: quad 16384 repeats the indices of quad 0 |
| Inputs.Apply | client/src/input.rs:25-33 | press puts the code in held and just-pressed; release removes it from held and puts it in just-released; every other code is unchanged in all three sets |
| Inputs.InputState.constructor | client/src/input.rs:14-22 | all three sets are empty |
| Inputs.InputState.Press | client/src/input.rs:25-28 | held and just-pressed gain the code; just-released is unchanged |
| Inputs.InputState.Release | client/src/input.rs:30-33 | held loses the code, just-released gains it, and just-pressed is unchanged |
| Inputs.InputState.Clear | client/src/input.rs:35-38 | both just-sets become empty; held is unchanged |
| Inputs.InputState.ApplyEvents | client/src/input.rs:84-96 | the state after a loop of events is the fold of `Apply` over them |
| Inputs.LastState | client/src/input.rs:84-89 | `None` iff no event names the code; otherwise the state of an event naming it |
| Inputs.LastStateIsLast | client/src/input.rs:84-89 | the state `LastState` finds belongs to the last event naming the code: no later event names it |
| Inputs.HeldFollowsLastEvent | client/src/input.rs:84-96 | a code is held iff its last event was a press, or as before when it had none |
| Inputs.JustSetsCollectEvents | client/src/input.rs:84-96 | a code is in a just-set iff it was before or some event pressed (released) it |
| Inputs.Input.constructor | client/src/input.rs:41-46 | both states are empty and the offset is zero |
| Inputs.Input.ProcessEvents | client/src/input.rs:74-101 | both states are cleared, then each applies its own event stream, key and mouse independently; the offset is the last motion's delta, or zero |
| Inputs.Input.KeyQueriesAfterFrame | client/src/input.rs:49-55 | after a frame, `is_key_pressed` follows the key's last event, and `is_key_just_pressed` holds iff some event pressed the key |
| FrameTime.Elapsed | client/src/time.rs:27-30 | `Instant` subtraction: the difference, or zero if negative |
| FrameTime.Time.constructor | client/src/time.rs:12-22 | delta, frame rate and counter are zero, and the two instants are the readings taken |
| FrameTime.Time.Update | client/src/time.rs:25-38 | delta is `now - last_update` and `last_update` becomes `now`; a report fires iff more than 1 s passed since the last report, setting the rate to the incremented count, resetting the counter and moving the report instant; otherwise the count rises by one and the rest stays; the counter is always the number of updates since the last report |
| FrameTime.NoReportAfterLast | client/src/time.rs:29-33 | no update after the last report reported |
| FrameTime.ReportsMoreThanASecondApart | client/src/time.rs:30-34 | on a clock that never runs backwards, any two reports are more than a second apart |

## Left out

- GPU and ECS effects are left out. This covers the wgpu vertex and index buffers, `Buffer::new`,
  and `ChunkMesh::new`'s `device` argument.
  - `chunk_mesh_gen` returns the meshes it would spawn and the entities it would despawn, as
    lists.
  - The query in `chunk_mesh_gen` is given as the entities that existed before the tick, because
    spawned commands are deferred.
  - The `WorldTransform` of a spawned mesh (the chunk position times 32, as `f32`) is not
    modelled.
- `ChunkManagement.ChunkManager.ChunkUpdate`: the reused mesh entities' position update and mesh
  `regenerate`, and the new entities' `ChunkMesh::new(&device)`, are outside this model. Only
  which entity serves which chunk is modelled.
- The height field: `sin`/`cos` on `f32` is a parameter `h(x, z)`. The `f32` floor of the viewer's
  and the world position's chunk is integer floor division. That is exact for coordinates below
  2^24. The viewer's chunk is an input to `chunk_update`.
- `glam::IVec3` is `i32` per axis, but the model's coordinates are unbounded integers. The `i32`
  arithmetic on chunk and block coordinates is modelled without overflow. This covers
  `chunk_pos * 32` and `start_pos + 32` in `gen_blocks`, `chunk.pos * 32` and
  `neighbour_pos + chunk_block_pos` in `ChunkMesh::new`, and the ring offsets in `chunk_update`.
  The source panics (debug) or wraps (release) once a chunk coordinate nears ±2^26, so the
  model describes it only while every chunk coordinate stays within ±(2^26 - 2).
- ChunkRenderer.MeshQueued, ChunkRenderer.ChunkMeshGen: both build meshes with the corrected
  `NewChunkMesh` of the Findings row. The panic of the as-written upload slice, on a popped chunk
  showing `MAX_QUADS` faces, is not among their panic cases.
- `HashMap` iteration order is not modelled. The mesh loop in `AssignMeshes` visits the keys in an
  arbitrary order, and its contract holds for every order.
- The definitions of `iter_3d`, `in_bounds`, `Chunk::try_get_block` and the `RENDER_DISTANCE` the
  renderer imports are not in the source shown. Each is modelled by the behaviour its uses imply:
  - `iter_3d(0, 32)` visits blocks in flat storage order.
  - `in_bounds` is the strict per-axis box.
  - `try_get_block` returns `Some` iff every axis is in [0, 32).
  - `RENDER_DISTANCE` is 3, as in `chunk_update`.
- The renderer reads `chunk_update_queue` and `chunks_left_loading`, which the shown
  `ChunkManager` does not declare. They are fields of the single `ChunkManager` here, and no
  modelled operation fills them.
- `Instant` is an integer count of nanoseconds. `Time::default` reads the clock twice, so the
  constructor takes both readings. `Instant` subtraction saturates at zero.
- FrameTime.Time.Update: `frame_rate_counter` is a `nat`. The `u32` overflow after 2^32 frames
  without a report is not modelled.
- `VirtualKeyCode` and `MouseButton` are abstract codes. `Vec2` is only copied, never computed
  with. Reading from the event readers is replaced by sequences of events.
- The `log::info!` calls are left out: the frame-rate report, and the chunk count after
  recentering.
- `ChunkRenderer::from_world` and `chunk_render` are left out, since they are GPU setup and draw
  calls. The index buffer they use is `QuadIndex.QuadIndices(MAX_QUADS)`. `MAX_QUADS` is 98304,
  above the 16384 quads a `u16` index can address, so `QuadIndex.WrapsPast16384` applies to the
  shared index buffer.
- Networking, window handling, physics and the player are not part of this model.

## Findings

| source | as written | input that shows it | evidently intended | confidence | as-written member | corrected member |
|---|---|---|---|---|---|---|
| client/src/render/chunk_renderer.rs:116 | the vertex buffer is filled from `verticies[0..vertex_i + 1]`, one entry past the last written vertex | a 3D chessboard chunk (block 1 where x + y + z is even) whose neighbouring chunks are not loaded shows `MAX_QUADS` faces, so `vertex_i == MAX_QUADS * 4` and the slice ends one past the array (a panic) | `verticies[0..vertex_i]`, the written vertices only | not executed | ChunkRenderer.ChessboardOverrunsUpload | ChunkRenderer.NewChunkMesh |
