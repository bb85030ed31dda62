# Verified models of the EQP server core

EQP is an EverQuest server emulator written in C. This project models the parts of it that carry the hardest
invariants and proves that they keep them. `dafny verify dfyconfig.toml` checks everything.

| files | part of the server |
|---|---|
| `IpcRing`, `IpcLap` | the lock-free packet ring between processes, one step per atomic operation, any number of threads |
| `Bits`, `ChainTable`, `StringHashTable` | the string hash table with chains through a shared free index, refining a map over whole histories |
| `ItemIndex` | the item index that one program writes and another searches |
| `Geometry`, `Aabb`, `RayBox`, `BspTree`, `LineOfSight`, `ZSlices`, `MapFile` | line of sight and ground height: building, writing, loading and querying, against a scan over all triangles |
| `PacketTrilogy`, `TrilogyWire`, `TrilogyPath`, `Reassembly`, `OutputQueue` | the Trilogy transport: fragmentation in place, frames, reassembly, acknowledgement |
| `Crc` | the table-driven checksum, against the bit-by-bit one |
| `ZoneClusters`, `Arrays`, `LoginServers`, `ZoneMobs` | placement of zones on processes, and arrays whose entries are named by position from elsewhere |
| `Wrappers` | optional values |

Objects that the server updates in place are classes, its loops are loops with invariants, and its protocols between
threads or machines are step systems over whose runs the theorems quantify.

Six places where the code does less than its comments or its callers might expect, each with the condition under
which it does what it should:

- A writer of the packet ring that sleeps for a whole lap between loading an index and testing its flag can clear the
  flag of a later packet, on a ring of any size from three blocks (`IpcLap.LapLosesAPacket`). Every theorem of
  `IpcRing` holds for the runs in which no claim comes round to an index that a stalled writer has checked or a stalled
  reader loaded a lap ago, or takes the block whose flag a stalled thread is about to test (`NoLap`);
  `IpcLap.WaitingIsAllowed` shows that the failing run keeps within this up to that one claim.
- A wall behind the target blocks the view whenever its box is entered before the target, because the hit distance is
  never compared with the target's (`LineOfSight.WallBehindStops`, `MapFile.WallBehindHides`). For a segment
  longer than epsilon the query agrees with a scan if and only if a triangle crosses the segment or none further away is
  kept behind boxes that the segment enters (`LineOfSight.SightIsScanIff`), so always if the line hits nothing beyond
  (`LineOfSight.NothingBehind`).
- Fragmentation loses or garbles data for payload lengths congruent to 0 or 511 modulo 512, length 0 excepted, because
  the fragment count leaves out the two opcode bytes (`TrilogyPath.Transmit`).
- A packet of more than 1024 fragments is never received, because fragments 1024 or more ahead of the expected number
  count as past (`Reassembly.TooLongNeverDelivered`, `TrilogyPath.SendAndReceive`). A packet with opcode 0 is never
  received as sent either, except with less than two bytes of payload and an ack request.
- The direct path of the receiver is right if and only if nothing is buffered when it is taken
  (`Reassembly.DirectPathIff`); otherwise a packet can be delivered twice (`Reassembly.OvertakenIsRepeated`).
- A repeated piece leaves the receiver in order if and only if it is at most 1024 behind the expected number; one
  further behind is stored as a future one (`Reassembly.WindowIff`, `Reassembly.StrayStays`).

In the other direction, two suspicious places turn out harmless: growth of the hash table copies unused slots, but in
every history of sets, gets and removes such a slot holds a hash that sends it to an unused slot
(`StringHashTable.EmptyMeetsNoHead`, `StringHashTable.Replay`); and the box clamp raises both corners instead of
narrowing the box, but still keeps every point that matters (`Aabb.ClampKeeps`).

## Model

| member | source | states |
|---|---|---|
| `IpcRing.InitInv` | src/common/sync/ipc_buffer.c:6-33 | the ring as initialised satisfies the invariant: read and write frontiers ordered within one lap, flags and contents agreeing with the threads that own blocks |
| `IpcRing.StepKeepsInv` | src/common/sync/ipc_buffer.c:42-141 | every single atomic step of any writer or reader, other than a claim that laps a held index, keeps the invariant |
| `IpcRing.RunKeepsInv` | src/common/sync/ipc_buffer.c:42-141 | every run without such a claim from a state with the invariant ends in one |
| `IpcRing.ClaimW` | src/common/sync/ipc_buffer.c:82-96 | claiming a block gives the writer a position nobody owns and leaves every other thread's rights intact |
| `IpcRing.BlockW` | src/common/sync/ipc_buffer.c:46-66 | writing into an owned block, setting its flag or clearing it keeps the invariant |
| `IpcRing.MoveW` | src/common/sync/ipc_buffer.c:69-70 | advancing writeStart, by whichever thread cleared the flag, keeps the invariant |
| `IpcRing.ClaimR` | src/common/sync/ipc_buffer.c:129-137 | a reader that wins readEnd owns a block whose write is complete |
| `IpcRing.CopyR` | src/common/sync/ipc_buffer.c:101-107 | the copied packet is the one sent at that position, and that position was not handed out before |
| `IpcRing.MoveR` | src/common/sync/ipc_buffer.c:109-122 | advancing readStart over read blocks frees only blocks whose read is complete |
| `IpcRing.EveryRunIsSafe` | src/common/sync/ipc_buffer.c:42-141 | in every such interleaving of any number of writers and readers no block is filled twice at once or read while written, every copy is of a complete packet, and each claimed position is handed out exactly once, with the opcode, the source and the first 4096 bytes of the data of one write call |
| `IpcRing.HelpingLosesNothing` | src/common/sync/ipc_buffer.c:56-71 | once all writers have returned writeStart equals writeEnd, and once all readers wait readStart equals readEnd |
| `IpcRing.NoLostWakeup` | src/common/sync/ipc_buffer.c:56-73 | while a block is readable and every reader waits, the semaphore is positive or some writer has yet to post |
| `IpcRing.AtRestAllDelivered` | src/master/master_ipc.c:84-104 | when nothing runs any more, every packet that a writer claimed a block for has been handed out, so that of every write call that has not timed out |
| `IpcRing.OneReaderIsFifo` | src/common/sync/ipc_buffer.c:125-141 | with one reader, what it returned is a prefix of what was sent, in claim order, each packet as its write call gave it |
| `IpcRing.DistinctBlocks` | src/common/sync/ipc_buffer.c:12-23 | positions less than a lap apart use different blocks |
| `IpcRing.SentByCalls` | src/common/sync/ipc_buffer.c:42-98 | every packet on its way has the opcode, the source and the first 4096 bytes of the data that a write call of its own was given, no call is used twice, and once no writer is calling every call has been sent or has timed out |
| `IpcRing.WriterGetsOn` | src/common/sync/ipc_buffer.c:76-98 | unless the ring is full, four undisturbed steps of an idle writer claim a block for the packet it was given |
| `IpcRing.ReaderGetsOn` | src/common/sync/ipc_buffer.c:125-141 | while a written block is unread, four undisturbed steps of an awake reader hand out the next packet in claim order |
| `IpcRing.TimeoutMeansFull` | src/common/sync/ipc_buffer.c:85-91 | a write that holds the current end gives up only while all blocks but one are taken |
| `IpcLap.LapLosesAPacket` | src/common/sync/ipc_buffer.c:58-71 | without the guard: from a ring of any size from three blocks just initialised, a run exists after which every writer has returned and packet n is written, but writeStart is short of it and no flag is left to move over it |
| `IpcLap.Waiting` | src/common/sync/ipc_buffer.c:80-98 | that run is guarded up to the state in which the next claim takes the very block whose index a sleeping writer holds, which the guard forbids and the code allows |
| `IpcLap.WaitingIsAllowed` | src/common/sync/ipc_buffer.c:80-98 | up to that state it is a run that the theorems of the ring speak of |
| `ChainTable.FoundOnChain` | src/common/container/eqp_hash_table.c:315-345 | a key is bound exactly if it lies on the chain of its main position |
| `ChainTable.Predecessor` | src/common/container/eqp_hash_table.c:265-271 | a squatter has a predecessor on the chain that holds it, so the search for it ends |
| `ChainTable.Evict` | src/common/container/eqp_hash_table.c:258-276 | moving a squatter to the free slot and relinking keeps every chain whole and acyclic |
| `ChainTable.RemoveLater` | src/common/container/eqp_hash_table.c:374-382 | unlinking from the middle or end of a chain keeps all other chains and the rest of this one |
| `ChainTable.RemoveHead` | src/common/container/eqp_hash_table.c:385-401 | copying the second element over a removed head keeps the chain headed by its main position |
| `ChainTable.MainIsRemainder` | src/common/container/eqp_hash_table.c:239-243 | in a table whose capacity is a power of two the masked hash is its remainder |
| `StringHashTable.HashTable.constructor` | src/common/container/eqp_hash_table.c:31-59 | a new table is empty and valid |
| `StringHashTable.HashTable.AdvanceFreeIndex` | src/common/container/eqp_hash_table.c:113-131 | the free index moves to the next unused slot above, or to none if all above are used |
| `StringHashTable.HashTable.Get` | src/common/container/eqp_hash_table.c:315-345 | the value bound to the key, or nothing if it is unbound |
| `StringHashTable.HashTable.Set` | src/common/container/eqp_hash_table.c:236-313 | false exactly on a bound key; otherwise the binding is added and every other one kept; the table doubles only when no slot is free |
| `StringHashTable.HashTable.Remove` | src/common/container/eqp_hash_table.c:347-419 | exactly that key is unbound; chains stay whole and a valid free index still names an unused slot |
| `StringHashTable.HashTable.Grow` | src/common/container/eqp_hash_table.c:147-234 | doubling the capacity keeps every binding, although it copies unused slots too, and the new free index stays in bounds |
| `StringHashTable.EmptyMeetsNoHead` | src/common/container/eqp_hash_table.c:173-182 | an unused slot that is copied never lands on a chain: when growth is reached its stale hash has a main position no key has |
| `StringHashTable.RemoveHeadSound` | src/common/container/eqp_hash_table.c:385-401 | removing a chain's head keeps the table and the free index sound |
| `StringHashTable.RemoveLaterSound` | src/common/container/eqp_hash_table.c:374-382 | removing a later element keeps the table and the free index sound |
| `StringHashTable.Replay` | src/common/container/eqp_hash_table.c:236-419 | for every history of sets, gets and removes, across any number of doublings, all replies are those of a first-write-wins map |
| `StringHashTable.FirstWriteWins` | src/common/container/eqp_hash_table.c:284-287 | the first value set for a key is the one bound at the end, unless the key is removed |
| `StringHashTable.StaysAbsent` | src/common/container/eqp_hash_table.c:343-344 | a key never set is never bound |
| `StringHashTable.HashTable.Walk` | src/common/container/eqp_hash_table.c:332-341 | the walk along a chain ends at the key if it is bound and at the chain's end otherwise, and knows the element before |
| `StringHashTable.HashTable.FillMain` | src/common/container/eqp_hash_table.c:245-252 | filling an unused main position adds the binding and keeps a usable free index |
| `StringHashTable.HashTable.EvictAndFill` | src/common/container/eqp_hash_table.c:258-278 | a squatter keeps its binding from the free slot, and the new key heads its own chain |
| `StringHashTable.HashTable.SearchAndAppend` | src/common/container/eqp_hash_table.c:284-298 | a bound key is refused; a new one is bound at the end of its chain |
| `StringHashTable.CopySlot` | src/common/container/eqp_hash_table.c:175-228 | copying one old slot, used or not, adds exactly its binding to the larger table |
| `StringHashTable.AdvanceCopy` | src/common/container/eqp_hash_table.c:221-228 | the unbounded search for the next unused slot ends within the larger table |
| `StringHashTable.Relocate` | src/common/container/eqp_hash_table.c:191-202 | the search for a squatter's predecessor ends, and only the free slot and that predecessor change |
| `StringHashTable.CopyInto` | src/common/container/eqp_hash_table.c:173-230 | the copying loop carries every binding of the old table, and no other, into the larger one and leaves an unused slot there |
| `ItemIndex.NextPow2` | src/common/bit.c:9-22 | the least power of two not below n, for n from 1 to 2^31; 0 for n = 0 and for larger n |
| `ItemIndex.Capacity` | src/item_gen/item_gen.c:183 | the capacity is a power of two, at least the number of items and less than twice it |
| `ItemIndex.AdvanceFreeIndex` | src/item_gen/item_gen.c:156-168 | the first unused entry; the index given if there is none |
| `ItemIndex.InsertItem` | src/item_gen/item_gen.c:205-262 | a new id is added to the index at its offset, an id already there is reported, and an unused entry remains as long as there is one |
| `ItemIndex.Build` | src/item_gen/item_gen.c:178-264 | the duplicate exception is reached exactly if some id repeats, for the first that does; otherwise the index maps each id to its own offset behind 16 bytes and 16 for each entry, and nothing else; an empty list gives an empty table |
| `ItemIndex.GetOffset` | src/common/item/item_share_mem.c:52-78 | the offset of an indexed id, 0 for every other id |
| `ItemIndex.GetPrototype` | src/common/item/item_share_mem.c:80-91 | the prototype written for the id, or null for an id not written |
| `ItemIndex.GenerateThenFind` | src/item_gen/item_gen.c:178-281 | for every nonempty list with distinct ids the reader finds item i at its own place in the image and nothing for any other id |
| `ItemIndex.Walk` | src/item_gen/item_gen.c:245-254 | the walk finds an indexed id or the end of its chain |
| `ItemIndex.Relocate` | src/item_gen/item_gen.c:228-238 | the search for a squatter's predecessor ends, and only the free entry and that predecessor change |
| `ItemIndex.AppendItem` | src/item_gen/item_gen.c:245-260 | an id on the chain is reported; a new one is indexed behind the chain's end |
| `ItemIndex.WriteThenFind` | src/common/item/item_share_mem.c:80-91 | for any capacity not below the number of items, searching after building finds exactly what was written |
| `Geometry.HitIff` | src/zone_cluster/line_of_sight_map.c:158-193 | the line/triangle test reports t exactly if the line meets the closed triangle at t > 0 and is not nearly parallel to it |
| `Geometry.CramerUnique` | src/zone_cluster/line_of_sight_map.c:163-183 | the products that the test forms are the only solution of the intersection equation |
| `Aabb.ClipCodes` | src/zone_map/aabb.c:102-158 | the clip-code test agrees with the direct exclusion test, and no code at all means that the box holds the triangle |
| `Aabb.SplitCovers` | src/zone_map/aabb.c:270-301 | the two halves of a box cover it |
| `Aabb.ClampKeeps` | src/zone_map/aabb.c:260-268 | the clamp, which raises both corners, keeps every point that lies in both boxes |
| `Aabb.PointKeepsTriangle` | src/zone_map/aabb.c:149-158 | a box that holds a point of a triangle does not exclude the triangle |
| `Aabb.ExcludesIff` | src/zone_map/aabb.c:149-158 | a box excludes a triangle exactly if it has no point in common with the bounds of its corners |
| `RayBox.NearPlanes` | src/zone_map/aabb.c:171-191 | per axis, the near plane and the time at which the ray reaches it |
| `RayBox.RayHitsBox` | src/zone_map/aabb.c:164-222 | the ray is reported exactly if it enters near the box, with the time at which it does; a ray that enters the box is reported, and a reported point lies within epsilon of the box |
| `RayBox.SegmentHitsBox` | src/zone_map/aabb.c:227-258 | a segment is accepted exactly if it is longer than epsilon and enters near the box before its end |
| `RayBox.PointAt` | src/zone_map/aabb.c:209-221 | the entry point is accepted exactly if its other two coordinates are within epsilon of the box |
| `RayBox.EntersNoLater` | src/zone_map/aabb.c:164-222 | a ray that is in the box at some time is reported to enter it, and no later than that |
| `RayBox.SegmentMeetsBox` | src/zone_map/aabb.c:227-258 | a segment longer than epsilon that meets the box before its end is never rejected |
| `BspTree.Partition` | src/map_gen/bsp_tree.c:130-158 | the loop sends each triangle to the halves it may touch and grows the bounds of each half over exactly its triangles |
| `BspTree.SplitPassesOn` | src/map_gen/bsp_tree.c:81-188 | every point that a triangle has in a node's box is passed on, with the triangle, to the box of a child |
| `BspTree.SplitStep` | src/map_gen/bsp_tree.c:128-189 | splitting the front of the queue keeps the tree's invariant: done nodes pass on or keep their triangles, each of a node's triangles goes to at least one child, boxes exclude none of theirs, links lead to later nodes, every later node has a parent and none has two |
| `BspTree.LeafStep` | src/map_gen/bsp_tree.c:115-126 | making the front of the queue a leaf keeps the tree's invariant |
| `BspTree.SplitWeighsLess` | src/map_gen/bsp_tree.c:81-190 | a split entry outweighs the two entries it is replaced by, so building ends |
| `BspTree.Builder.AddNode` | src/map_gen/bsp_tree.c:58-79 | the node is appended without links and queued with its triangles one level deeper than its parent |
| `BspTree.Builder.Recurse` | src/map_gen/bsp_tree.c:81-190 | the queue is worked off, and the invariant, the triangle count and the rule for splitting hold at the end |
| `BspTree.Builder.Generate` | src/map_gen/bsp_tree.c:192-218 | the result is a tree for the input; a node keeps its triangles exactly if they are at most 4, no side of its box is longer than 0.01, or it has 16 ancestors, and is else cut at the middle of its longest side; the bounds are those of the input, and the triangle count is that of the leaves |
| `BspTree.EveryPointReachesALeaf` | src/map_gen/bsp_tree.c:81-190 | every point of every input triangle lies in all boxes of some path from the root to a leaf that keeps the triangle |
| `BspTree.Builder.MakeLeaf` | src/map_gen/bsp_tree.c:115-126 | the front entry leaves the queue as a leaf that keeps its triangles, and the triangle count follows |
| `BspTree.Builder.SplitNode` | src/map_gen/bsp_tree.c:128-189 | the front entry leaves the queue for up to two entries at its end, one level deeper, and the invariant holds |
| `BspTree.GoesSomewhere` | src/map_gen/bsp_tree.c:130-158 | a triangle that a node's box does not exclude goes to at least one of the two halves |
| `BspTree.TreeShape` | src/map_gen/bsp_tree.c:81-190 | in a finished tree each node is a leaf that keeps its triangles or gives each of them to at least one child, and every node but the root has exactly one parent, which comes before it |
| `BspTree.NothingLost` | src/map_gen/bsp_tree.c:81-218 | the leaves under the root keep exactly the triangles of the input: none is dropped on any path and none is made up |
| `BspTree.KeptIsHeld` | src/map_gen/bsp_tree.c:81-190 | the leaves under any node keep exactly the triangles that the node was given |
| `BspTree.DividedIsWell` | src/map_gen/bsp_tree.c:91-188 | in plain terms: which nodes keep their triangles, where the others are cut, which triangles each half takes, how often, and what box it gets |
| `BspTree.BoundsTight` | src/map_gen/bsp_tree.c:200-212 | on every axis the bounds of a list run from the least to the greatest coordinate of a corner, or of the 999999 and -999999 that they start from |
| `LineOfSight.ChildIsNew` | src/zone_cluster/line_of_sight_map.c:277-287 | the children of a node being visited are neither visited nor waiting |
| `LineOfSight.PointsAreInLineOfSight` | src/zone_cluster/line_of_sight_map.c:219-301 | blocked if and only if a path of boxes that the segment enters leads from the root to a kept triangle that the line hits, at whatever distance; clear without a map; and no node is visited twice |
| `LineOfSight.AnyHit` | src/zone_cluster/line_of_sight_map.c:264-275 | whether any triangle of the list is hit |
| `LineOfSight.StoppedIff` | src/zone_cluster/line_of_sight_map.c:219-301 | the query is stopped if and only if a triangle is hit within the distance, or one at the distance or beyond is kept behind boxes that the segment enters |
| `LineOfSight.SightIsScanIff` | src/zone_cluster/line_of_sight_map.c:264-275 | exactly when the query agrees with a scan for triangles hit within the distance: when one is hit, or none beyond is kept behind boxes that the segment enters |
| `LineOfSight.NothingBehind` | src/zone_cluster/line_of_sight_map.c:264-275 | if the line hits no triangle at the distance or beyond, the query is stopped if and only if one is hit within it |
| `LineOfSight.WallBehindStops` | src/zone_cluster/line_of_sight_map.c:264-275 | a triangle hit at 3 stops the query for a target at distance 2, because its box is entered at 1 |
| `LineOfSight.FarWallIsPassed` | src/zone_cluster/line_of_sight_map.c:219-301 | for four small triangles before and one wall far behind, every tree divided by the rule lets the query pass for a target in between, because the halves have boxes of their own |
| `ZSlices.FillCell` | src/map_gen/z_slices.c:40-57 | the cell's slice names exactly the triangles that the column does not exclude, in order |
| `ZSlices.Init` | src/map_gen/z_slices.c:5-66 | all 65536 cells, laid over the map's bounds in columns of equal width, hold exactly the triangles they do not exclude |
| `ZSlices.NearestHit` | src/zone_cluster/line_of_sight_map.c:195-217 | whether any triangle is hit and the least hit distance, cut at 999999 |
| `ZSlices.CellFound` | src/zone_cluster/line_of_sight_map.c:317-324 | for every point within the bounds the computed index names the cell that holds it |
| `ZSlices.CellAgrees` | src/zone_cluster/line_of_sight_map.c:195-217 | the vertical scan of one cell answers like the scan of all triangles that reach into the height band |
| `ZSlices.GetBestZ` | src/zone_cluster/line_of_sight_map.c:303-353 | for every point within the bounds the one cell gives the answer of a scan over all triangles not wholly beyond 999999: the ground below, else the ceiling above, else the height itself; the height itself without a map or outside the grid |
| `ZSlices.BestZUnique` | src/zone_cluster/line_of_sight_map.c:334-349 | the answer of a scan is determined by the set of triangles |
| `MapFile.RecordsInverse` | src/zone_map/map_file.h:36-49 | the word layouts of triangles, nodes and slices can be read back, and only by what was written |
| `MapFile.WriteMap` | src/map_gen/output.c:60-130 | the image is the triangles, the nodes with a running triangle index, the slices and their triangles, word by word at their places, and fills the computed length exactly |
| `MapFile.ReadRecords` | src/common/aligned.c:153-164 | the list of records that stands at the cursor, or a failure if none stands there |
| `MapFile.ReadMap` | src/zone_cluster/line_of_sight_map.c:32-85 | exactly the map and grid that the image holds, or a failure if it holds none of the header's sizes |
| `MapFile.WriteThenRead` | src/map_gen/output.c:60-112 | after writing and reading, every node has its links, its box and exactly its own triangles, and the grid is unchanged |
| `MapFile.SightOver` | src/zone_cluster/line_of_sight_map.c:219-301 | after building, writing and loading, the view is blocked if and only if the query in the built tree, which is divided by the rule, is stopped; so it is blocked if a triangle crosses a segment longer than epsilon, only if the line hits some triangle, and agrees with a scan over all triangles if the line hits none at the distance or beyond |
| `MapFile.GroundOver` | src/zone_cluster/line_of_sight_map.c:303-353 | building, writing, loading and asking for the ground height together agree with a scan over all triangles of the zone |
| `MapFile.WriteNodes` | src/map_gen/output.c:60-95 | all triangles node by node, then the nodes, each naming its own slice of them |
| `MapFile.LoadedFrom` | src/map_gen/map_gen.c:163-164 | what the zone loads mirrors a tree for its triangles, divided by the rule, and a grid over their bounds |
| `MapFile.WallBehindHides` | src/zone_cluster/line_of_sight_map.c:264-275 | from a map of one triangle, built, written and loaded, a target in front of that triangle is reported hidden, although no triangle crosses the segment |
| `MapFile.FarWallIsNoBar` | src/zone_cluster/line_of_sight_map.c:219-301 | that map, built, written and loaded, shows the target |
| `MapFile.ImageIsOf` | src/zone_map/map_file.h:36-49 | triangle i lies at word 9 i with its coordinates in order, node i behind all triangles at 10 i with its count, links, box and first triangle, slice i behind the nodes at 2 i with its count and index, and the triangles of the slices behind 131072 words |
| `PacketTrilogy.CountIsQuotient` | src/non_master/net/packet_trilogy.c:7-27 | up to 512 bytes need no further fragment; a longer payload has n, with 512 n < length <= 512 (n + 1) |
| `PacketTrilogy.StayIff` | src/non_master/net/packet_trilogy.c:81-85 | the moves leave one first fragment of 510 bytes in place exactly for lengths not congruent to 0 or 511 modulo 512, and 1022 bytes otherwise |
| `PacketTrilogy.MoveBlock` | src/non_master/net/packet_trilogy.c:89-92 | the overlapping copy from the end moves the block unharmed and touches nothing else |
| `PacketTrilogy.Fragmentize` | src/non_master/net/packet_trilogy.c:58-97 | for every length, each block of the payload is moved whole by 22 bytes per fragment before it, and the bytes before the first block stay |
| `TrilogyWire.WriteHead` | src/non_master/net/network_client_trilogy.c:134-172 | the backward writes leave those bytes right before the payload, within 18 bytes, and nothing else changed |
| `TrilogyWire.SendFragment` | src/non_master/net/network_client_trilogy.c:131-182 | the frame, byte by byte: the head with network numbers high byte first, the payload as it stood in the buffer, and the checksum of both, low byte first |
| `TrilogyWire.FrameParses` | src/non_master/net/protocol_handler_trilogy.c:41-156 | every frame of a scheduled packet parses to the ack response, the ack request and the piece that it was made of, except that a packet without an opcode gives its first two bytes of payload for one, and is dropped if it has neither an opcode read nor an ack request |
| `TrilogyWire.ReverseU16` | src/common/aligned.c:267-274 | the two bytes are put right before the cursor, low byte first, and nothing else changes |
| `TrilogyWire.ReverseU8` | src/common/aligned.c:261-265 | the byte is put right before the cursor, and nothing else changes |
| `TrilogyWire.WriteU32` | src/common/aligned.c:194-203 | the four bytes are put at the cursor, low byte first, and nothing else changes |
| `TrilogyWire.HeadBytes` | src/non_master/net/network_client_trilogy.c:134-172 | the head byte by byte: flags low byte first, then sequence, ack request, fragment group, index and count high byte first, the two counters, and the opcode low byte first |
| `TrilogyWire.ParseByPosition` | src/non_master/net/protocol_handler_trilogy.c:41-156 | of every frame: dropped if it is damaged; else the ack response, ack request, fragment index and count are 256 times the first byte plus the second at their positions, bit 0x20 marks the first packet, and opcode and payload follow the counters |
| `TrilogyPath.SendPacket` | src/non_master/net/network_client_trilogy.c:233-246 | frame k carries the k-th part of the buffer, sequence numbers run on, and only the first frame carries the ack response |
| `TrilogyPath.Transmit` | src/non_master/net/packet_trilogy.c:58-97 | the frames together carry exactly the payload if and only if its length is 0 or not congruent to 0 or 511 modulo 512; the first carries up to 510 bytes, every later one up to 512 |
| `TrilogyPath.InOrderDelivers` | src/non_master/net/ack_common.c:4-13 | one packet whose fragments arrive in order is handed over if and only if it has at most 1024 of them: later ones count as past |
| `TrilogyPath.SendAndReceive` | src/non_master/net/protocol_handler_trilogy.c:41-156 | a packet fragmented, framed, parsed and reassembled from an empty buffer is delivered with its opcode and payload if and only if its length is exact, it has at most 1024 fragments, and it has an opcode or, asking for an ack, less than two bytes of payload |
| `TrilogyPath.Received` | src/non_master/net/protocol_handler_trilogy.c:41-156 | what is delivered of any packet whose frames arrive in order: the packet as its opcode is read, unless it has more than 1024 fragments or neither an opcode read nor an ack request |
| `TrilogyPath.ReadIsSent` | src/non_master/net/protocol_handler_trilogy.c:138-141 | what the receiver reads is what was sent if and only if the parts carry the payload and there is an opcode, or less than two bytes to be taken for one |
| `Reassembly.Receiver.RecvPacket` | src/non_master/net/ack_mgr_trilogy.c:80-187 | the loops over the buffer compute the specified next state for every arrival that does not interleave packets |
| `Reassembly.Receiver.CompleteFragments` | src/non_master/net/ack_mgr_trilogy.c:54-78 | the fragments are joined in order in a buffer of exactly their length |
| `Reassembly.ScanCompletes` | src/non_master/net/ack_mgr_trilogy.c:141-180 | the scan hands over exactly the packets whose fragments are all in the buffer, up to the first that is not |
| `Reassembly.ReceiveTracks` | src/non_master/net/ack_mgr_trilogy.c:80-187 | every arrival keeps: delivered packets are a prefix, slot k is unused or holds number expected + k, the next packet is incomplete |
| `Reassembly.RunDeliversPrefix` | src/non_master/net/ack_mgr_trilogy.c:80-187 | for every order of arrivals with repeats, no more than 1024 behind, the packets delivered so far are a prefix of the stream, in order, once each, with their content, and all their pieces have arrived |
| `Reassembly.AllAcceptedAllDelivered` | src/non_master/net/ack_mgr_trilogy.c:141-186 | once every piece has been accepted the whole stream has been delivered and nothing stays buffered |
| `Reassembly.TooLongNeverDelivered` | src/non_master/net/ack_mgr_trilogy.c:101-102 | in no fair order of arrivals is a packet of more than 1024 fragments delivered, nor any packet behind it |
| `Reassembly.FragmentedIsFair` | src/non_master/net/ack_mgr_trilogy.c:94-102 | for streams of fragmented packets the window is the only condition |
| `Reassembly.PastIff` | src/non_master/net/ack_common.c:4-13 | a number counts as past exactly if it is up to 1024 behind the expected one, or 1024 or more ahead |
| `Reassembly.StrayStays` | src/non_master/net/ack_mgr_trilogy.c:110-139 | a piece further behind is taken for a future one, stored billions of slots away, and stays there |
| `Reassembly.WindowIff` | src/non_master/net/ack_mgr_trilogy.c:101-117 | a repeat of a delivered piece leaves the receiver in order if and only if it is at most 1024 behind the expected number |
| `Reassembly.DirectPathIff` | src/non_master/net/ack_mgr_trilogy.c:94-99 | the direct path, which does not shift the buffer, keeps the invariant if and only if nothing is buffered |
| `Reassembly.OvertakenIsRepeated` | src/non_master/net/ack_mgr_trilogy.c:94-99 | a run of four arrivals in which the direct path is taken with a piece buffered, and that piece's packet is delivered twice |
| `Reassembly.Receiver.Complete` | src/non_master/net/ack_mgr_trilogy.c:141-180 | the loop with its running counters hands over what the scan of the buffer specifies |
| `Reassembly.WriteBuffer` | src/common/aligned.c:226-237 | the bytes are appended at the cursor |
| `Reassembly.StoreOk` | src/non_master/net/ack_mgr_trilogy.c:109-139 | the slot is found filled exactly if the piece was accepted before, and storing it keeps slot k for number expected + k |
| `OutputQueue.Client.Schedule` | src/non_master/net/ack_mgr_trilogy.c:189-226 | the packet is queued last with the next free ack numbers, one per fragment; only a single unfragmented packet may go without |
| `OutputQueue.Client.SendQueued` | src/non_master/net/network_client_trilogy.c:184-254 | a packet behind the sending index is sent once, whole; one sent less than 250 milliseconds ago is left alone with its time; after that a single fragment is sent again, and a fragmented packet from the first fragment that the last ack does not cover, or not at all if it covers all; in queue order, each with its new time |
| `OutputQueue.Client.RecvAckResponse` | src/non_master/net/network_client_trilogy.c:41-70 | sent packets leave exactly up to the first that the ack does not cover; the queue stays a suffix of the schedule, and every packet gone was sent and later acked past its last fragment |
| `OutputQueue.NumbersFollow` | src/non_master/net/ack_mgr_trilogy.c:203-215 | ack numbers grow along the schedule, and the next packet that asks takes up where the last one ends |
| `OutputQueue.AckNext` | src/non_master/net/network_client_trilogy.c:50-69 | retiring sent and covered packets keeps the queue a suffix of the schedule |
| `OutputQueue.Client.constructor` | src/non_master/net/network_client_trilogy.c:5-16 | nothing scheduled, queued, sent or acked |
| `OutputQueue.SendLoop` | src/non_master/net/network_client_trilogy.c:198-247 | the loop over the queue does this for every packet and keeps: sent packets were sent, retired ones were acked after that |
| `OutputQueue.StartOf` | src/non_master/net/network_client_trilogy.c:209-230 | the fragment a packet is sent from: 0 the first time, none within 250 milliseconds, else the first that the last ack does not cover |
| `OutputQueue.ResumesBehindAck` | src/non_master/net/network_client_trilogy.c:217-229 | with acks no further apart than the window, re-sending starts right behind the last fragment that the last ack covers |
| `OutputQueue.TurnsMean` | src/non_master/net/network_client_trilogy.c:198-247 | what the loop specification says of each packet, in plain terms |
| `OutputQueue.ResumesAtFirst` | src/non_master/net/network_client_trilogy.c:217-229 | re-sending resumes at the first fragment whose number the last ack is below by at most 1024 or above by at least that |
| `Crc.TableIsShifted` | src/non_master/crc.c:4-37 | each of the 256 table entries is its index with eight bits shifted out under the polynomial of section 8 of RFC 1952 |
| `Crc.LookupIsFeed` | src/non_master/crc.c:45 | one table step equals eight bit steps |
| `Crc.Update` | src/non_master/crc.c:39-49 | for data of any length the table-driven sum equals the bit-by-bit one |
| `Crc.UpdateAppends` | src/non_master/crc.c:60-61 | updating over the parts in turn is updating over the whole |
| `Crc.Calc32` | src/non_master/crc.c:72-75 | the complement of the bit-by-bit sum from all ones |
| `Crc.Calc16` | src/non_master/crc.c:51-65 | the low half of the sum over the key bytes followed by the data; 0 for key 0 |
| `ZoneClusters.Manager.GetOrStart` | src/master/zone_cluster_manager.c:61-128 | a running zone stays; a reserved one starts on its cluster; any other on the first cluster whose zones and reservations are below its maximum, and only if there is none on exactly one new cluster; every placement made before stands, and each cluster's zone count is at most the larger of its maximum and its reservations |
| `ZoneClusters.Manager.Get` | src/master/zone_cluster_manager.c:130-143 | the one cluster of a running zone, or nothing |
| `ZoneClusters.Manager.StartZoneCluster` | src/master/zone_cluster_manager.c:164-183 | a new cluster enters both lists under its own source id |
| `ZoneClusters.Manager.StartZoneOnCluster` | src/master/zone_cluster_manager.c:145-156 | the cluster's count and the list of zones grow; if the zone did not run and reserved this cluster or finds space on it, every counter stays equal to what it counts |
| `ZoneClusters.Manager.AddZoneReservation` | src/master/zone_cluster_manager.c:185-214 | a valid reservation is entered and, if always up, started; an invalid one changes nothing; while the configuration script runs a first reservation keeps every counter equal to what it counts |
| `ZoneClusters.WithinBounds` | src/master/zone_cluster.c:57-65 | the counters of one cluster bound its zones by the larger of its maximum and its reservations |
| `ZoneClusters.UsedNext` | src/master/zone_cluster_manager.c:61-81 | starting a zone uses up its own reservation and no other |
| `ZoneClusters.Manager.constructor` | src/master/zone_cluster_manager.c:7-15 | no clusters, zones or reservations, and room for 8 zones per cluster |
| `ZoneClusters.Manager.SetMaxZonesPerCluster` | src/master/zone_cluster_manager.c:158-162 | the maximum for clusters started from now on; with at least 1 the manager stays sound |
| `ZoneClusters.Manager.SetMaxZones` | src/master/zone_cluster.c:67-70 | one cluster's maximum changes; every counter still counts during configuration, and later if the maximum does not shrink |
| `Arrays.SwapAndPopMembers` | src/common/container/eqp_array.c:118-133 | swap-and-pop removes exactly one element of a list without repeats |
| `LoginServers.Login.Register` | src/login/tcp_client.c:94-139 | the first registration of a connection adds a listing that the connection names; a second is ignored |
| `LoginServers.Login.Close` | src/login/tcp_server.c:146-186 | exactly the closed connection loses its registration, every other one keeps its listing, and the positions remain a bijection |
| `LoginServers.Repoint` | src/login/tcp_server.c:167-180 | the repair loop renames exactly the connections that named the moved listing |
| `LoginServers.IndicesDiffer` | src/login/tcp_server.c:154-181 | two connections never name the same listing |
| `LoginServers.Login.Accept` | src/login/tcp_server.c:136-142 | the connection is added without a listing, and every other one keeps its own |
| `ZoneMobs.Zone.SpawnMob` | src/zone_cluster/zone.c:73-119 | the mob takes the first free entity id and a new place, and knows both |
| `ZoneMobs.Zone.SpawnClient` | src/zone_cluster/zone.c:135-147 | the client is also listed as a client, and every other mob keeps its id |
| `ZoneMobs.Zone.RemoveClient` | src/zone_cluster/zone.c:149-174 | the client leaves all three arrays and frees its entity id; every other mob's back-pointers name its own entries |
| `ZoneMobs.Zone.EntityIdsUnique` | src/zone_cluster/zone.c:80-92 | two mobs of a zone never share an entity id |
| `ZoneMobs.Zone.FirstFree` | src/zone_cluster/zone.c:80-92 | the first gap among the entity ids, or the place behind them |
| `ZoneMobs.Zone.Unlist` | src/zone_cluster/zone.c:155-159 | out of the client list, whose other entries are still named by their clients |
| `ZoneMobs.Zone.Displace` | src/zone_cluster/zone.c:161-171 | out of the position array and the entity table, whose other entries are still named by their mobs |

## Left out

- Widths: ring positions, hash capacities, file offsets, triangle counts and ack numbers are unbounded or required not to wrap; where a C conversion or a 16- or 32-bit difference decides a branch it is written out.
- Floating point: coordinates are reals, so rounding, NaN and negative zero are not modelled; a direction of length 1 and a distance are inputs, so that no square root is needed.
- Hash functions and the checksum inside the transport are parameters: the theorems hold for every such function.
- IpcRing.StepKeepsInv: a claim must not come round to an index that a stalled writer has checked or a stalled reader loaded, nor take the block whose flag a stalled thread is about to test (`NoLap`); the code has no such guard, and without it the property fails (`IpcLap.LapLosesAPacket`).
- IpcRing.BlockW: a write of nonzero length with a null data pointer, which leaves the block's old bytes in place, is not modelled; memory orderings are taken as sequentially consistent, which is what the default C11 atomics give.
- ItemIndex.Build: an empty list gives an empty table; that the reader then masks with 2^32 - 1 and looks outside it is not modelled, so the theorems about reading are for tables with at least one entry.
- ItemIndex.InsertItem: ids and hashes are unbounded naturals; the hash's 32-bit mixing is not modelled.
- MapFile.ReadMap: an image is a list of four-byte words tagged as integer or float; reading a word as the other kind fails in the model instead of reinterpreting its bits. Compression and the file header's signature are left out.
- RayBox.RayHitsBox: the sign test on the bits of a float is a comparison with 0.
- LineOfSight.PointsAreInLineOfSight: states what the code answers, not what is asked of it: triangles beyond the target can block the view (`LineOfSight.SightIsScanIff`).
- Reassembly.Receiver.RecvPacket: arrivals that put a whole packet between the fragments of another are excluded, as the code's own comment assumes; the code would then join freed memory.
- TrilogyWire.FrameParses: frames are those of packets as the ack manager schedules them; other headers are parsed by `TrilogyWire.Parse`, about which nothing more is stated.
- OutputQueue.Client.SendQueued: which fragments are sent again, and when, is modelled; the bytes of a packet resumed in its middle, and the pure ack sent when nothing else carries the response, are not. The clock is a parameter, read at the start and after each packet.
- OutputQueue.Client.Schedule: soundness is stated until the 16-bit ack numbers wrap; what is stored after that is stated too, but not what later acks make of it: they compare by size.
- ZoneClusters.Manager.AddZoneReservation: soundness is stated for reservations that are distinct and made while the configuration script runs; for others only what changes. Looking a zone up by its short name is an input. The 16-bit cluster ids and ports do not wrap.
- ZoneMobs.Zone.RemoveClient: positions, aggro radii, broadcasts and the removal of non-player mobs, which the code does not have, are left out.
- ZoneClusters.Manager.GetOrStart: the maximum of zones per cluster is at least 1; with 0 every new zone would start a cluster and overfill it.
- LoginServers.Login.Accept: sockets, buffers and packet contents are left out; a connection is named by its descriptor.
- Sockets, files, zlib, shared-memory mapping, process spawning, logging, clocks, Lua bindings and SQL: calls into code that is not modelled.
- Timer pool, database threads, the standard protocol handler, the disabled octree, name tables and packet field filling: easy, unfinished or resting on foreign behaviour.
