# Imposm3 in Dafny

Imposm3 reads OpenStreetMap data into caches, assembles geometries, imports them into a database and keeps
the database up to date from diffs. This project models the parts of it where an error would silently lose
or duplicate data, and proves that they do not, or exactly when they do not.

- Codecs (`Varint`, `DeltaCodec`, `DeltaNodes`, `IdRefsCodec`, `TagCodec`, `Protobuf`, `PbMethods`, `Records`):
  the byte formats of the caches. Each has a format function and a reader for it, a proof that reading undoes
  writing, and the imperative encoder and decoder with their buffers, proved against those. Varints follow the
  Protocol Buffers encoding.
- Coordinate cache (`NodeList`, `Batches`, `CoordsCache`, `CoordsRuns`): bunches of nodes behind a
  least-recently-used list, dirty flags and a store, compared with one plain map from ids to coordinates.
- Reverse index (`SortedLists`, `RefBunch`, `RefIndex`, `RefMerge`, `RefPipeline`): refs by id, one at a time,
  and the channel pipeline of linear import as a state machine over the steps of its goroutines.
- Geometry (`Rings`, `RingEnds`, `Segments`, `RingMerge`, `Nesting`): ways joined into rings, rings sorted into
  shells and holes.
- Updates (`UpdateRows`, `UpdateReasons`, `UpdateVersions`, `Update`): the two phases of a diff update over caches,
  indexes and rows, and which version of an element the caches and rows come from.
- Mapping (`Orders`, `Matching`, `FilterImpact`, `MappingConf`): tags to tables, and the filters that drop tags while
  reading.
- `Generalize` and `Bresenham`: the dependency graph of generalised tables, and the tiles along a line.

Objects that the program changes in place are classes or arrays here, loops are loops, and every method is
proved against a function or predicate that says what it is for. Pointers to rings are indexes into one array.
Iteration over a Go map picks any element, so what is proved holds for every order. `real` stands for
float64: claims about coordinates and tiles are claims about exact arithmetic. The key/value store is a map,
the database a set of rows, containment of rings and the matchers of the update any functions.

Some things that the proofs brought to light about the program as it is:

- `FillWay` panics on a way whose first ref falls into bunch -1, the value it uses for "no bunch yet"
  (`CoordsCache.DeltaCoordsCache.FillWay` gives the exact condition, `CoordsCache.BunchBelowZero` the ids).
- `mergeRings` can lose a ring when more than two rings end at one reference (`RingMerge.LostRing`). It does if
  and only if a step overwrites the only entry of a ring in the map of ends (`RingMerge.MergeRings`); with at most
  two rings per end it never does.
- Filling in the sources of generalised tables never ends when the sources form a cycle, and only then
  (`Generalize.FillFor`, `Generalize.Endless`).
- `sortedGeneralizedTables` does not sort: every table has a source by the time it is called
  (`Generalize.SortedTables`, `Generalize.NotSourceFirst`). The order is right for certain if and only if no
  generalised table is made from another one (`Generalize.SourceFirstIff`).
- The varint readers inlined in the generated protobuf code drop excess bits of a tenth byte, where
  `encoding/binary` reports an overflow (`Varint.ReadersDiffer`); on all other bytes the two agree
  (`Varint.ReadersAgree`).
- A table with a mapping and a type mapping can have two matches with the same place in the order
  (`MappingConf.Tie`). Which one is taken depends on the iteration order of the tags if and only if two tags compete
  of which one passes the filters (`Matching.OneResult`); an entry for any key never competes with a tag
  (`Matching.TagBeatsAny`, `MappingConf.NoTie`).
- The tag filters drop the keys of require and reject filters unless something else needs them, and an element can
  lose its match by that (`MappingConf.RequiredDropped`). When exactly is in `MappingConf.NodesAlikeIff`,
  `MappingConf.WaysAlikeIff` and `MappingConf.RelationsAlikeIff`.
- A change that is not accepted, outside of the limits or without its first ref or member, leaves the old version
  in the cache, and a `create` without tags the old tags of the node (`UpdateVersions.NodesHeld`,
  `UpdateVersions.WaysHeld`).

## Model

| member | source | states |
|---|---|---|
| Varint.ReadsBack | cache/binary/messages.pb.go:433-441 | any 64-bit number comes back from its varint, from both readers, which stop right after it |
| Varint.ReadsBackSigned | cache/binary/deltacoords.go:29-84 | any int64 comes back from its zigzag varint |
| Varint.PutIs | cache/binary/messages.pb.go:433-441 | the varint of a number is the shortest run of seven-bit groups for it, the least significant first, with the top bit on all bytes but the last |
| Varint.SmallIsShort | cache/binary/deltacoords.go:29-84 | a signed number takes one byte if and only if it is from -64 to 63; the lowest bit is its sign |
| Varint.ReadersAgree | cache/binary/messages.pb.go:675-688 | on the same bytes both readers find the same number or both fail, if and only if the tenth byte does not end the varint with excess bits; if it does, `encoding/binary` reports an overflow and the generated code a number |
| Varint.ReadersDiffer | cache/binary/messages.pb.go:675-688 | ten bytes, nine of them 128 and the last 2: an overflow for one reader, zero for the other |
| Varint.PutInto | cache/binary/messages.pb.go:433-441 | `encodeVarintMessages` writes exactly the bytes of the varint at the offset, leaves all bytes before and after them alone, and returns the end |
| Varint.LengthOf | cache/binary/messages.pb.go:530-539 | `sovMessages` is the number of bytes the varint takes |
| Varint.ReadPbFrom | cache/binary/messages.pb.go:675-688 | the inlined reading loop with its shift returns what the recursive reader of the format returns, all error cases included |
| GoInts.DeltaCancels | cache/binary/serialize.go:35-52 | a wrapped difference added back with wrap-around gives the number itself |
| DeltaCodec.DeltasReadBack | cache/binary/deltacoords.go:20-85 | any list of int64 comes back from its run of deltas, wrap-around included, with the bytes behind it untouched |
| DeltaCodec.AppendVarint | cache/binary/deltacoords.go:24-29 | the buffer grows when fewer than ten bytes are free, so that ten are free at the write; what was written before stays |
| DeltaCodec.AppendDeltas | cache/binary/deltacoords.go:20-55 | one encoding loop appends exactly the run of deltas |
| DeltaCodec.ReadDeltasFrom | cache/binary/deltacoords.go:75-109 | one decoding loop reads what the format says, or fails where it says so |
| DeltaCodec.ReadDeltasInto | cache/binary/diff.go:178-186 | the same loop storing into the cells of a scratch slice |
| DeltaNodes.CoordRecovered | cache/binary/serialize.go:5-13 | a coordinate from -180 to 180 comes back less than 10^-7 degrees smaller, never larger |
| DeltaNodes.CoordEnds | cache/binary/serialize.go:5-13 | -180 is stored as 0 and 180 as 4294967294, and everything between them as a number between those |
| DeltaNodes.StoredAlike | cache/binary/serialize.go:5-13 | coordinates that are stored as the same number are less than 10^-7 degrees apart |
| DeltaNodes.RequantisesExactly | cache/binary/serialize.go:5-13 | storing what was read stores the same number again, for every coordinate |
| DeltaNodes.DecodeEncode | cache/binary/deltacoords.go:10-112 | decoding an encoded node list gives the same ids and the quantised coordinates, for every list |
| DeltaNodes.EncodedReadsAs | cache/binary/deltacoords.go:10-112 | an encoded list of nodes reads as the same ids in the same order, each longitude and latitude less than 10^-7 degrees off |
| DeltaNodes.NodeBytes | cache/binary/deltacoords.go:20-55 | the eleven bytes of two nodes: the count, then ids, longitudes and latitudes, each run of deltas starting from zero |
| DeltaNodes.MarshalDeltaNodes | cache/binary/deltacoords.go:10-58 | the encoder with its growing buffer writes the bytes of the format whatever scratch buffer it is given; nodes on earth read from them with their ids and less than 10^-7 degrees off |
| DeltaNodes.UnmarshalDeltaNodes | cache/binary/deltacoords.go:62-112 | the decoder, offset by offset, agrees with the format on every input, malformed ones included; from the bytes of any nodes on earth it reads their ids and coordinates less than 10^-7 degrees off |
| IdRefsCodec.DecodeEncode | cache/binary/diff.go:9-189 | every bunch comes back, for all int64 ids and refs in any order |
| IdRefsCodec.BunchBytes | cache/binary/diff.go:49-93 | the eight bytes of two ids with one ref each: the count, the ids as deltas, the numbers of refs, and one run of deltas over all refs |
| IdRefsCodec.MarshalIDRefsBunch | cache/binary/diff.go:9-47 | the first encoder writes the bytes of the format |
| IdRefsCodec.MarshalIDRefsBunch2 | cache/binary/diff.go:49-93 | the second one writes the same bytes for any scratch buffer |
| IdRefsCodec.UnmarshalIDRefsBunch | cache/binary/diff.go:95-137 | the allocating decoder agrees with the format on every input: nil, a panic, or the bunch |
| IdRefsCodec.UnmarshalIDRefsBunch2 | cache/binary/diff.go:139-189 | the reusing decoder gives the same value for any scratch slice whose entries do not share cells |
| IdRefsCodec.ReadCountsInto | cache/binary/diff.go:163-175 | counts are read and every entry gets a slice of its own, reusing arrays with enough capacity |
| IdRefsCodec.ReadRefsInto | cache/binary/diff.go:176-187 | the refs go to their entries, the running value being carried from one entry to the next |
| SortedLists.Search | element/element.go:13-15 | binary search finds the first position whose key is at least the wanted one |
| SortedLists.Add | element/element.go:12-25 | `IDRefs.Add` keeps the list strictly sorted and adds exactly the ref to its set |
| SortedLists.Delete | element/element.go:27-34 | `IDRefs.Delete` keeps the list strictly sorted and removes exactly the ref from its set |
| Utf8.DecodeEncoded | cache/binary/tags.go:44-60 | every three-byte code point above the surrogates is read back from its UTF-8 bytes (section 3 of RFC 3629) |
| Utf8.DecodesEncoded | cache/binary/tags.go:44-60 | every code point that is no surrogate is read back from its one to four bytes, whatever comes behind them |
| Utf8.DecodedIsEncoded | cache/binary/tags.go:71-106 | whatever is read as a valid sequence is exactly the bytes of that code point: no overlong forms and no surrogates |
| TagCodec.Registry.AddTagCodePoint | cache/binary/tags.go:44-60 | a new tag gets the next free code point and the two tables stay inverse to each other, in both directions; a full table and a tag that is there already are reported |
| TagCodec.Registry.AddCommonKey | cache/binary/tags.go:62-69 | every common key stays readable from its code; the tables stay inverse to each other if and only if the key is new, otherwise its old code still leads to it |
| TagCodec.OneTag | cache/binary/tags.go:71-138 | the reader takes back exactly the strings of one tag, whatever bytes its key and its value are |
| TagCodec.StringsAre | cache/binary/tags.go:119-138 | a registered tag is stored in three bytes, a common key in one byte in front of the value; any other key as it is, with EF BF BD in front if and only if it begins with a control byte or the bytes of U+E000 to U+F8FF or U+FFFD |
| TagCodec.AmbiguousIsReserved | cache/binary/tags.go:128-136 | the test that decodes the first rune of a key holds for exactly the keys with such first bytes |
| TagCodec.TagsAsArray | cache/binary/tags.go:108-138 | whatever the iteration order, the array holds the strings of every tag once, and reading it back gives the same tags without a panic |
| TagCodec.TagsFromArray | cache/binary/tags.go:71-106 | the reading loop agrees with the recursive reader on every array, panics included |
| Protobuf.WayReadsBack | cache/binary/messages.pb.go:258-297 | every storable way record is parsed back from its bytes |
| Protobuf.RelationReadsBack | cache/binary/messages.pb.go:309-359 | every storable relation record is parsed back from its bytes |
| Protobuf.WayBytes | cache/binary/messages.pb.go:258-297 | the bytes of a way record: field numbers, wire types and their order |
| Protobuf.RelationBytes | cache/binary/messages.pb.go:309-359 | the same for a relation record |
| Protobuf.SkipsField | cache/binary/messages.pb.go:1284-1380 | `skipMessages` skips exactly one field of any wire type, groups with everything inside of them included |
| Protobuf.UnknownInWay | cache/binary/messages.pb.go:669-808 | a field with an unknown number, of any wire type, changes nothing: the way is that of the fields behind it |
| Protobuf.UnknownInRelation | cache/binary/messages.pb.go:810-1041 | the same for relations |
| PbMethods.WaySize | cache/binary/messages.pb.go:456-473 | `Size` is the number of bytes of the encoded way |
| PbMethods.RelationSize | cache/binary/messages.pb.go:475-501 | `Size` is the number of bytes of the encoded relation |
| PbMethods.WayMarshalTo | cache/binary/messages.pb.go:258-297 | writes exactly the encoded way to the beginning of the array and leaves the rest alone |
| PbMethods.RelationMarshalTo | cache/binary/messages.pb.go:309-359 | the same for relations |
| PbMethods.WayMarshal | cache/binary/messages.pb.go:248-256 | an array of that size is just filled |
| PbMethods.RelationMarshal | cache/binary/messages.pb.go:299-307 | the same for relations |
| PbMethods.WayUnmarshal | cache/binary/messages.pb.go:669-808 | the field loop agrees with the recursive parser on every input, unknown fields and errors included |
| PbMethods.RelationUnmarshal | cache/binary/messages.pb.go:810-1040 | the same for relations |
| PbMethods.ReadPackedFrom | cache/binary/messages.pb.go:768-785 | the packed loop, which may run past its end, reads what the format function reads |
| Records.SumsOfDeltas | cache/binary/serialize.go:35-52 | summing up the deltas of a list gives the list, for all int64 values |
| Records.DeltaPack | cache/binary/serialize.go:35-43 | packs in place into the list of deltas |
| Records.DeltaUnpack | cache/binary/serialize.go:45-52 | unpacks in place into the running sums |
| Records.MarshalWay | cache/binary/serialize.go:54-61 | the whole path: what is written decodes to the refs and tags the way had |
| Records.UnmarshalWay | cache/binary/serialize.go:63-75 | the decoding path equals the decoding function on every input |
| Records.MarshalRelation | cache/binary/serialize.go:77-89 | what is written decodes to the members and tags the relation had |
| Records.UnmarshalRelation | cache/binary/serialize.go:91-108 | the decoding path equals the decoding function on every input |
| NodeList.WithFind | cache/delta.go:48-66 | after a node is put into a sorted bunch, it is found under its id and all others as before |
| NodeList.WithoutFind | cache/delta.go:37-44 | after a delete nothing is found under the id and all others as before |
| NodeList.FixTells | cache/delta.go:26-66 | two nodes are stored alike if and only if both their coordinates are; then they are less than 10^-7 degrees apart |
| NodeList.StoredWellFormed | cache/delta.go:274-309 | a bunch that goes through the store keeps its ids, its order and every stored coordinate |
| CoordsCache.PackedCorrect | cache/delta.go:274-309 | writing a bunch keeps the store valid, changes that bunch only, and deletes an empty one |
| CoordsCache.CoordsBunch.GetCoord | cache/delta.go:26-35 | the binary search finds the node with the id, or nothing |
| CoordsCache.CoordsBunch.DeleteCoord | cache/delta.go:37-44 | the node with the id is cut out |
| CoordsCache.CoordsBunch.PutCoord | cache/delta.go:48-66 | overwrites, inserts or appends as the position says |
| CoordsCache.CoordsBunch.PutCoords | cache/delta.go:70-73 | for new ids, appending and sorting gives the strictly sorted union, the same list as single puts, and there is no other strictly sorted list of these nodes |
| CoordsCache.KeepsAllButSkipped | cache/delta.go:200-211 | what is left of a list is a run of its nodes in their order, and a node is left if and only if its id is not -1 |
| CoordsCache.PutsLast | cache/delta.go:215-272 | after puts of a list an id has the coordinates of its last node in the list, and those it had before if it is not in the list |
| CoordsCache.RemoveSkippedNodes | cache/delta.go:200-211 | the nodes whose id is not -1 move to the front in their order, and no others |
| CoordsCache.DeltaCoordsCache.constructor | cache/delta.go:86-99 | an empty cache is valid |
| CoordsCache.DeltaCoordsCache.GetBunch | cache/delta.go:315-345 | the list of recently used bunches stays a permutation of the table, the wanted bunch is in front, the table is within its capacity, and no coordinate changes |
| CoordsCache.DeltaCoordsCache.CheckCapacity | cache/delta.go:347-361 | evicts until the table fits, without changing what any id maps to; the bunch just fetched stays |
| CoordsCache.DeltaCoordsCache.Evict | cache/delta.go:348-359 | one eviction writes a dirty bunch and forgets it |
| CoordsCache.DeltaCoordsCache.Flush | cache/delta.go:105-122 | writes the dirty bunches in any order and empties the table; every coordinate stays |
| CoordsCache.DeltaCoordsCache.GetCoord | cache/delta.go:136-148 | answers with the stored coordinate of the id and changes none |
| CoordsCache.DeltaCoordsCache.DeleteCoord | cache/delta.go:150-160 | forgets this id and no other |
| CoordsCache.DeltaCoordsCache.FillWay | cache/delta.go:162-198 | fills all nodes of a way, or reports a missing one; panics if and only if the first ref is in bunch -1, which is its marker for no bunch |
| CoordsCache.BunchBelowZero | cache/delta.go:162-198 | the ids for which `FillWay` panics when one of them is first: those of bunch -1, for every bunch size |
| CoordsCache.DeltaCoordsCache.PutGroup | cache/delta.go:236-249 | the nodes of one bunch, singly or in bulk, are put as into a plain map |
| CoordsCache.DeltaCoordsCache.PutDirect | cache/delta.go:228-234 | the write past the table is like puts into a plain map when nothing of the bunch is known |
| CoordsCache.DeltaCoordsCache.PutRun | cache/delta.go:227-253 | the choice between the two, for a whole run of nodes of one bunch |
| CoordsCache.DeltaCoordsCache.PutCoords | cache/delta.go:215-272 | afterwards every id but -1 that is in the list maps to the coordinates of its last node there, and every other id to what it did, in both modes |
| Batches.DirectBunchInside | cache/delta.go:228-231 | a run that passes the test for a direct write is a whole bunch inside of the id range of its batch |
| Batches.DirectBunchIsPrivate | cache/delta.go:228-231 | so no batch with a disjoint range has a node of that bunch |
| CoordsRuns.Run | cache/delta.go:105-361 | over every run of puts, deletes, gets, flushes and filled ways, with any capacity of at least 1 and any coordinates, the answers are those of one plain map; that is, of an id the coordinates of its last put, unless it was deleted since or never put |
| CoordsRuns.PlainIsKnown | cache/delta.go:105-361 | the plain map after a run has of every id what the last operation on it left: its last node in that list of puts, or nothing |
| CoordsRuns.Answer1 | cache/delta.go:105-272 | one operation keeps the agreement with the plain map and answers like it |
| CoordsRuns.ImportLinear | cache/delta.go:200-272 | linear import of batches over disjoint ranges, in any order: the store holds every node of every batch whose id is not -1, less than 10^-7 degrees off, and nothing else |
| RefBunch.GetCreate | cache/diff.go:155-176 | finds the entry of an id or makes an empty one in its sorted place |
| RefBunch.Get | cache/diff.go:143-153 | finds the entry of an id, or none |
| RefIndex.StoreRefs | cache/diff.go:303-311 | storing a bunch with other refs for one id changes the refs of that id only, through encoding and decoding |
| RefIndex.RefCache.constructor | cache/diff.go:196-218 | an empty index is valid |
| RefIndex.RefCache.Get | cache/diff.go:265-286 | returns the refs of an id in order |
| RefIndex.RefCache.Add | cache/diff.go:288-312 | adds exactly one ref to exactly one id |
| RefIndex.RefCache.DeleteRef | cache/diff.go:314-341 | removes exactly one ref of one id |
| RefIndex.RefCache.Delete | cache/diff.go:343-370 | removes all refs of one id |
| RefIndex.RefCache.Run | cache/diff.go:265-370 | any run of single calls leaves the refs of a plain map, and every answer on the way holds, in order, exactly the refs that were added or there before and not deleted since |
| RefIndex.AfterIs | cache/diff.go:265-370 | a ref is in the plain map after a run if and only if it was added, or there before, and nothing has deleted it or its id since |
| RefMerge.InsertAllIsUnion | cache/diff.go:539-541 | adding refs one by one gives the sorted union |
| RefMerge.MergeCorrect | cache/diff.go:525-564 | the merged bunch is strictly sorted and for every id has the union of its refs, nothing where the new entry is empty, and else what it had |
| RefMerge.Scan | cache/diff.go:532-556 | the scan from the last index finds the place that a search from the start finds |
| RefMerge.MergeEntry | cache/diff.go:532-561 | one entry is merged where the scan stops, and the next scan may go on from there |
| RefMerge.MergeBunch | cache/diff.go:525-564 | the resumed scan computes the merge |
| RefPipeline.AddToBuffer | cache/diff.go:127-141 | a pair is added to the buffered bunches as to a plain map |
| RefPipeline.CommitCorrect | cache/diff.go:478-523 | committing a batch adds to every id exactly the refs of the buffer |
| RefPipeline.StepKeepsInv | cache/diff.go:417-523 | every step of the goroutines, in any order, keeps the invariant |
| RefPipeline.StepKeepsRefs | cache/diff.go:440-523 | no step loses or invents a ref: stored, queued, buffered and pending refs together change by what is sent only |
| RefPipeline.NothingIsLost | cache/diff.go:417-523 | over whole runs these together are the initial refs and those sent |
| RefPipeline.AddsUnion | cache/diff.go:288-312 | single calls of `Add` give that union too |
| RefPipeline.FinishedSession | cache/diff.go:417-591 | a finished session leaves the index that single calls of `Add` would have left, whatever the interleaving: the refs of an id are those from before and those that were sent for it |
| RefPipeline.CanGoOn | cache/diff.go:417-466 | after the channel is closed some goroutine can always go on until the writer is done |
| RefPipeline.StepLowersWork | cache/diff.go:417-523 | after the channel is closed every step lowers a measure of the work that is left |
| RefPipeline.RunsEnd | cache/diff.go:417-523 | so whatever the interleaving, the end of a session takes a bounded number of steps |
| RefPipeline.EndsOnlyWhenDone | cache/diff.go:417-591 | and the writer is done exactly when no goroutine can go on |
| Rings.Reverse | geom/ring.go:54-64 | swapping from both ends reverses the slice |
| Rings.EdgesReversed | geom/ring.go:54-58 | a reversed ring has the same edges |
| Rings.AppendParts | geom/ring.go:79-101 | two rings joined where they meet have the edges and ways of both, once each |
| Segments.SegmentsFollow | geom/ring.go:79-101 | where references tell nodes apart, rings with no more edges between references have no more segments between nodes with their coordinates, and rings with the same edges the same segments |
| RingMerge.JoinLeftCorrect | geom/ring.go:79-90 | ends, alignment and parts after joining at the left end |
| RingMerge.JoinBothCorrect | geom/ring.go:94-104 | the same when a second ring is joined |
| RingMerge.JoinRightCorrect | geom/ring.go:112-123 | the same for the right end |
| RingMerge.StepBothSane | geom/ring.go:91-105 | the ring that was absorbed is gone from the map, and a third ring is gone if and only if its only entry is overwritten; every entry leads to a ring that ends there |
| RingMerge.StepKeepsInv | geom/ring.go:69-130 | for any input, adding a ring keeps the map sane and no part occurs more often than before |
| RingMerge.StepLoses | geom/ring.go:69-130 | for any input, the parts in the rings change by those of the added ring and by those of a ring whose only entry is overwritten, and by nothing else |
| RingMerge.StepMadeOf | geom/ring.go:69-130 | every node of a ring, with its coordinates, is a node of an input after any step |
| RingEnds.Extended | geom/ring.go:76-129 | the bookkeeping of ends when a ring is extended: open ends are met once, closed ones twice, others never or twice |
| RingEnds.Joined | geom/ring.go:91-105 | the same when two rings become one |
| RingMerge.StepKeepsStrict | geom/ring.go:69-130 | with at most two rings per end, no part is lost either |
| RingMerge.AddRing | geom/ring.go:69-130 | the loop body computes the step |
| RingMerge.Unique | geom/ring.go:131-139 | each ring that the map leads to, once |
| RingMerge.MergeRings | geom/ring.go:66-140 | outputs are aligned; neighbours in them were neighbours in an input; no part is duplicated; nothing is lost if and only if no step overwrites the only entry of a ring; with at most two rings per end nothing is lost and no two outputs share an end; with exactly two all outputs are closed; the state is the one that the steps lead to; every node of an output is one of an input with its coordinates, and where references tell nodes apart no pair of neighbouring nodes is duplicated, nor lost under the same condition |
| RingMerge.LostRing | geom/ring.go:91-105 | five rings with more than two at one end, of which one is overwritten in the map and lost, in a step that meets the condition of `MergeRings` |
| Nesting.RingIsHole | geom/multipolygon.go:226-238 | terminates and tells whether the depth is odd |
| Nesting.Contained | geom/multipolygon.go:137-154 | a new parent moves one ring between the lists and leaves every other where its depth puts it |
| Nesting.CompareAll | geom/multipolygon.go:136-155 | one ring is compared with all smaller ones |
| Nesting.Classify | geom/multipolygon.go:128-162 | for any test: even depth is a shell, odd depth a hole of its parent and of no other ring |
| Nesting.Partition | geom/multipolygon.go:128-162 | for any test every ring is a shell or a hole of exactly one shell, never both |
| Nesting.ParentIsSmallest | geom/multipolygon.go:137-145 | when rings nest, the parent is the innermost container |
| Nesting.DepthCounts | geom/multipolygon.go:226-238 | and the depth is the number of containers |
| Nesting.ClassifyNested | geom/multipolygon.go:128-162 | so a ring is a shell if and only if an even number of rings contain it, and a hole belongs to the smallest of them |
| UpdateRows.OwnerOfDbId | update/deleter.go:68-84 | the mangled ids tell nodes, ways and relations apart |
| UpdateRows.DeletedAll | update/deleter.go:102-120 | deleting from the tables that the cached element matches deletes all rows of the element and no others |
| Update.Updater.DeleteRelation | update/deleter.go:86-134 | exactly the rows of the relation go and, on demand, exactly the references from its members |
| Update.Updater.DeleteWay | update/deleter.go:159-195 | exactly the rows of the way go and, on demand and if it matches any table, exactly the references from its nodes |
| Update.Updater.DeleteNode | update/deleter.go:209-235 | exactly the rows of the node go |
| Update.Updater.DeleteRelations | update/deleter.go:291-308 | the dependent relations are deleted, each with the reason for it |
| Update.Updater.DeleteDependentWay | update/deleter.go:279-298 | a dependent way, and the relations that depend on it |
| Update.Updater.DeleteDependentWays | update/deleter.go:278-299 | all ways that depend on a node |
| Update.Updater.DeleteRel | update/deleter.go:247-250 | the relation of a diff |
| Update.Updater.DeleteWayAnd | update/deleter.go:251-269 | the way of a diff and, unless it is deleted, its relations |
| Update.Updater.DeleteNodeAnd | update/deleter.go:270-315 | the node of a diff and, unless it is deleted, its ways and relations |
| Update.FirstMemberCached | cache/osm.go:126-149 | the loop over the members stops at the first node or way |
| UpdateReasons.StillExplained | update/deleter.go:122-134 | a reason for a deletion stays one: references are only lost when one of the two elements is in the diff |
| UpdateReasons.LessRelationIs | update/deleter.go:122-134 | of the references of the indexes exactly those of the relation from its way and node members are gone |
| UpdateVersions.CoordsHeld | update/process.go:254-335 | the cached coordinates of a node are those of its last accepted version in the diff unless it is deleted after that; without a version or deletion they are the old ones |
| UpdateVersions.NodesHeld | update/process.go:254-335 | the same for its tags; a modified node without tags has none, a created one keeps the old ones |
| UpdateVersions.WaysHeld | update/process.go:254-315 | the cached way is its last version in the diff whose first ref had coordinates at that point, unless it is deleted after that |
| UpdateVersions.RelsHeld | update/process.go:254-301 | the cached relation is its last version whose first node or way member was cached at that point, unless it is deleted after that |
| UpdateVersions.FirstMemberIs | cache/osm.go:124-149 | a relation passes if its first member that is a node or a way is cached, or if it has none |
| UpdateVersions.AcceptedIff | update/process.go:287-335 | when a change of the diff is accepted, in terms of the diff before it alone |
| UpdateVersions.DirectIff | update/process.go:287-335 | an element is put in again for its own sake if and only if one of its changes is accepted |
| UpdateVersions.CacheUpToDate | update/process.go:239-336 | all four caches after a whole diff |
| Update.Updater.ProcessRelation | update/process.go:254-301 | the loop body for a relation: invariant, cache and queue |
| Update.Updater.ProcessWay | update/process.go:254-315 | the loop body for a way: invariant, cache and queue |
| Update.Updater.ProcessNode | update/process.go:254-335 | the loop body for a node: invariant, cache and queue |
| Update.Updater.PhaseOne | update/process.go:239-336 | over every diff sequence: exactly the rows of deleted elements are gone, every deletion has a reason, and whatever the queues lead to has been deleted |
| Update.MarkFrom | update/process.go:355-376 | a marking loop, in any order, collects all dependents |
| Update.Updater.Mark | update/process.go:338-376 | exactly the dependents of changed elements and the members of deleted relations are queued besides, all of them deleted before |
| Update.Updater.Insert | writer/relations.go:138-203 | a writer inserts an element of which there is no row, and nothing else |
| Update.Updater.PhaseTwo | update/process.go:378-418 | exactly the cached elements of the queues are inserted, none of which has a row; afterwards every row belongs to a cached element again |
| Update.InsertedFrom | update/process.go:378-418 | an inserted row is made from the last accepted version of its element |
| Update.Inserted | update/process.go:378-418 | every queued element that is cached and matches a table gets its row there |
| Update.AllFound | update/process.go:355-376 | no dependent is missed: with the references from before the update, all ways and relations of what is queued are taken out and queued, unless they are in the diff or what they depend on is deleted |
| Update.Reasons | update/deleter.go:246-317 | whatever is deleted is in the diff or depends on a changed element |
| Update.WayPutBack | update/process.go:355-361 | a deleted dependent way is found again from a changed node |
| Update.RelationPutBack | update/process.go:363-376 | a deleted dependent relation is found again from a changed node or way |
| Update.RunUpdate | update/process.go:239-418 | the caches hold the last accepted version of every element; every accepted change is put in again with all that depends on it; no second copy: nothing that is sent to a writer has a row; no dropped dependent: what was deleted as a dependent and is still cached is sent; only what has a reason is taken out; exactly what is sent is inserted, from the last accepted version; and the premise about rows holds again |
| Matching.AddTables | mapping/matcher.go:169-187 | for each table, what was there stays if it is before all new entries, else the first of these takes its place, on a tie too |
| Matching.Collect | mapping/matcher.go:189-203 | the entries for any key and then those of the tags in some order, and so for each table a first candidate, which is that of a tag if a tag has that place |
| Matching.MatchTags | mapping/matcher.go:166-233 | the result of walking the tags in some order: exactly those matches taken for a table that pass its filters, each table once; if no tie matters, exactly the selected matches |
| Matching.DistinctIsSettled | mapping/matcher.go:166-233 | no tie matters if entries of a table have the same place in the order only under the same key |
| Matching.LastWins | mapping/matcher.go:181-186 | of tags that compete for a place the one that is walked last is taken |
| Matching.TagBeatsAny | mapping/matcher.go:189-203 | an entry for any key is never taken when a tag has the same place |
| Matching.SelectedIff | mapping/matcher.go:166-233 | a match is selected if and only if some order of the tags gives it |
| Matching.OneResult | mapping/matcher.go:166-233 | the result is the same for all orders of the tags if and only if no two tags compete for the first place of a table of which one passes the filters |
| Matching.MatchWay | mapping/matcher.go:137-155 | closed ways and the area tag decide whether a way is matched at all; then as above |
| Matching.FilterTags | mapping/filter.go:71-89 | keeps exactly the tags that are mapped or extra |
| Matching.UnaffectedIff | mapping/filter.go:71-89 | a filter changes the outcome of a test on no tags if and only if it drops no value of the key that makes a difference to the test |
| Matching.FilterKeepsMatches | mapping/filter.go:71-89 | a filter that covers a matcher changes none of its matches |
| Matching.FilterKeepsChoice | mapping/filter.go:71-89 | what can be taken of the filtered tags can be taken of all tags, and passes alike |
| Matching.FilterKeepsResult | mapping/filter.go:71-89 | the filtered tags have exactly the results of all tags, over all orders of either |
| Matching.FilterKeepsWay | mapping/filter.go:71-89 | the same with the area tag |
| MappingConf.AddFromMapping | mapping/mapping.go:22-35 | adds exactly the entries of a mapping |
| MappingConf.AddMappings | mapping/mapping.go:169-189 | exactly the entries of all tables of a kind |
| MappingConf.MapsByField | mapping/mapping.go:169-189 | which fields of a table are read for which kind of element: `mapping` and `mappings` for all, and for points, lines and polygons their own field of `type_mappings` only |
| MappingConf.ReadKeyValues | mapping/config/config.go:79-108 | the values of a mapping are numbered through in the order of the file; an error if and only if something is not a text |
| MappingConf.OrdersIff | mapping/mapping.go:169-189 | the entries of a kind are without ties if and only if no two keys have the same place in the mappings that lead to one destination |
| MappingConf.OneMappingIsEnough | mapping/config/config.go:79-108 | mappings read from a file have no ties inside, so one mapping for each destination is enough |
| MappingConf.GeometryHasOneMapping | mapping/mapping.go:120-136 | that is so for every geometry table that `prepare` takes |
| MappingConf.Tie | mapping/mapping.go:169-189 | a point table with a mapping and a type mapping: two tags compete for one place |
| MappingConf.NoTie | mapping/mapping.go:169-189 | an entry for any key and one for a tag at the same place: the result is the same in every order |
| MappingConf.AsTagMap | mapping/mapping.go:37-46 | the values of each key |
| MappingConf.ExtraTags | mapping/mapping.go:240-273 | exactly the keys of columns and excluded tags, the type of relations, included tags, and area |
| MappingConf.AddFilters | mapping/mapping.go:279-410 | appends the filters of every table |
| MappingConf.SimpleMatcher | mapping/matcher.go:8-36 | the matchers for points and lines |
| MappingConf.AreaMatcher | mapping/matcher.go:38-91 | the matchers for polygons, relations and relation members |
| MappingConf.FieldReaches | mapping/matcher.go:166-218 | a tag that one of the fields for the kind maps to a table makes that table a candidate |
| MappingConf.NodeSelectedIff | mapping/mapping.go:364-410 | a node is matched to a table if and only if the tag wins there, it has none of the excluded tags and passes all tests |
| MappingConf.NeverExcluded | mapping/mapping.go:364-410 | in no matcher an element with an excluded tag, or that fails a test, is matched to the table |
| MappingConf.OfItsTypes | mapping/mapping.go:332-362 | a relation is matched only to tables of its type; a polygon table without types takes multipolygons, boundaries and land areas |
| MappingConf.NodeTagFilter | mapping/filter.go:15-25 | the node filter keeps exactly what points map and what points and relation members need |
| MappingConf.WayTagFilter | mapping/filter.go:27-39 | the same for ways: what lines and polygons map |
| MappingConf.RelationTagFilter | mapping/filter.go:41-62 | the same for relations, and the common types |
| MappingConf.ColumnsKept | mapping/mapping.go:240-273 | what a column is made from, or is included, comes through the filter unchanged |
| MappingConf.NodesKeepMatches | mapping/filter.go:15-25 | filtered nodes match like unfiltered ones if the filter does not affect the require and reject tests of the tables |
| MappingConf.RequiredDropped | mapping/mapping.go:240-273 | a require filter on a key that no column has: the filter drops the key, nothing matches any more, and the condition of `NodesAlikeIff` is met |
| MappingConf.WaysKeepMatches | mapping/filter.go:27-39 | the same for ways, as lines and as polygons |
| MappingConf.RelationsKeepMatches | mapping/filter.go:41-62 | the same for relations, in all three matchers |
| FilterImpact.OutcomeIff | mapping/filter.go:71-89 | for demands on the values of any keys: they come out the same on all filtered tags that reach a table, if and only if no dropped value makes a difference to the demand on its key while those on all other keys can be met and another tag leads to the table |
| FilterImpact.HopelessUnnoticed | mapping/filter.go:71-89 | where a demand can never be met dropping tags makes no difference |
| FilterImpact.PickedAlikeIff | mapping/filter.go:71-89 | the same for the matches of a table with any number of tests on any keys |
| FilterImpact.PickedAtAlikeIff | mapping/filter.go:71-89 | the same with the filters for closed ways, which look at the matching key: asked for each candidate that can win and pass |
| MappingConf.NodesAlikeIff | mapping/filter.go:15-25 | nodes, in terms of the configuration: the matches for a table are the same on filtered tags, for all tags, if and only if no dropped value makes a difference to the tests of its key while all other tests can be met and another tag leads to the table |
| MappingConf.WaysAlikeIff | mapping/filter.go:27-39 | ways, as lines and as polygons: the same, for candidates that can win and pass the area and linear tags |
| MappingConf.RelationsAlikeIff | mapping/filter.go:41-62 | relations, in all three matchers: the same, with the test of the type |
| MappingConf.MatchNode | mapping/filter.go:15-25 | from the configuration to the matches: every match comes from a field for points; what is read with the filter made from it is matched by the matcher made from it like the whole node, ties included; without ties exactly the selected matches |
| MappingConf.MatchWayAs | mapping/filter.go:27-39 | the same for ways, as lines and as polygons, each with its own fields |
| MappingConf.MatchRelationAs | mapping/filter.go:41-62 | the same for relations, in all three matchers |
| Generalize.RootedIffAcyclic | database/postgis/postgis.go:666-677 | with no source missing, every chain ends at a table if and only if there is no cycle |
| Generalize.FillPass | database/postgis/postgis.go:669-676 | one pass in any order fills in only true roots, and fills every table whose source was filled |
| Generalize.DirectSources | database/postgis/postgis.go:654-665 | the first loop: an error if and only if a source is missing; else every table made from a table has its root |
| Generalize.FillFor | database/postgis/postgis.go:667-677 | the filling loop, run for some passes: with a cycle it has not stopped after any number of them; without one it has stopped after one more than there are tables |
| Generalize.Endless | database/postgis/postgis.go:667-677 | two tables made from each other: it does not stop after any number of passes |
| Generalize.PrepareSources | database/postgis/postgis.go:654-679 | an error if and only if a source is missing, cycles or not; else the loop terminates with the one root of the chain for every table |
| Generalize.PrepareGeneralizations | database/postgis/postgis.go:681-688 | each table lists every transitive generalisation exactly once |
| Generalize.Round | database/postgis/postgis.go:257-299 | one round of workers, scheduled in any way |
| Generalize.CreateTables | database/postgis/postgis.go:248-301 | every table is created exactly once, after its source |
| Generalize.SortedTables | database/postgis/postgis.go:549-564 | the order of later updates is the iteration order of the map |
| Generalize.SourceFirstIff | database/postgis/postgis.go:549-564 | sources come first in every iteration order if and only if all generalised tables are made from tables |
| Generalize.NotSourceFirst | database/postgis/postgis.go:549-564 | an order in which a table comes before the generalised table it is made from |
| Bresenham.WalkTiles | expire/tilelist.go:238-251 | the incremental loops terminate, with at most one inner step, and give the closed form: the line, rounded |
| Bresenham.TileHolds | expire/tilelist.go:238-252 | the tile of a position that is not negative is the unit interval which holds it |
| Bresenham.Tiles | expire/tilelist.go:217-254 | all tiles in closed form; between ends on the grid every tile number fits a uint32 |
| Bresenham.OneStep | expire/tilelist.go:245-248 | at most one minor step for each major step |
| Bresenham.LineEnds | expire/tilelist.go:217-254 | the ceiling of the larger distance and one more tiles, both end tiles among them |
| Bresenham.NearSegment | expire/tilelist.go:238-252 | every tile of the loop is that of a point within half a tile of the segment on the minor axis, and no tile number is negative |
| Bresenham.TilesFit | expire/tilelist.go:238-252 | between ends from 0 to 2^32 - 1 the conversions to uint32 never wrap, although the walk may be half a tile off |

## Left out

- CoordsCache.DeltaCoordsCache.PutCoords: with linear import, asks that no id in the range of the batch is known yet and that no bunch in memory is empty, which is what the bulk put and the direct write rely on; without linear import it asks nothing of the ids, their order included.
- CoordsCache.CoordsBunch.PutCoords: new and different ids only, as the comment of the program says; `sort.Sort` is the insertion of one node after the other here.
- RefIndex.RefCache.Add: one 64-bit number, any one, is never used as a ref, so that the number of refs of an id always fits a uint64.
- RefIndex.RefCache.Run: the same; it excludes only runs that use all 2^64 numbers as refs.
- RefPipeline.AddToBuffer: the same for the pairs of linear import.
- Calling `Add` of the reverse index directly during linear import, which the program does not guard against.
- DeltaNodes.DecodeEncode: lists shorter than 2^64 nodes only, since the count is a uint64; the other codecs have the like limits on lengths.
- Update.RunUpdate: ids are between 0 and 10^17 as the comment on `RelIDOffset` assumes, and without a single id space node tables are not way or relation tables; ids are unbounded integers there, and an element read from a cache always has tags, as decoding makes an empty map of none (cache/binary/tags.go:71-74).
- MappingConf.AddFilters: stands for three loops of the program, one for each kind of filter; the values of require and reject filters and regular expressions are any tests of the value of one key.
- Bresenham.Tiles: tile numbers are unbounded, which makes a difference only for ends below 0 or above 2^32 - 1, where Go leaves the conversion to the implementation.
- Update.Updater.Insert: rows are a set of ids and tables, so several rows of one element in one table, for members of a relation or parts of a clipped geometry, count as one.
- RingMerge.MergeRings: pairs of nodes are counted only where references tell nodes apart, since a joint of two rings keeps one of the two nodes with the reference.
- MappingConf.ReadKeyValues: the YAML parser in front of it, whose output is any list of items.
- Lock interleavings in the coordinate cache and its read-only mode: every operation is one atomic step, because a bunch can be evicted while another goroutine holds it.
- Restarting linear import of the reverse index: the channels are closed by then.
- The slice pools of the reverse index, whose effect is that of fresh memory.
- References that the writers add to the indexes in phase two; with a single id space way ids go there negated (writer/ways.go:92-128). The indexes at the beginning of an update are arbitrary instead.
- Tag filtering and expiry inside of the update loop, deletes from generalised tables, and errors of any store.
- The list of tags and keys that `init` registers; the tables are any that registration can lead to.
- The node record of the protobuf messages and the unused `DeltaCoords` message, which would only add easy members.
- Index arithmetic that overflows an int in the decoders: positions are unbounded.
- The exclude filter for `load_all`, column values and row builders.
- `newRing`, `isClosed` and closing rings with a small gap; member roles, areas and `MakeValid` after the nesting loops.
- The Mercator projection, padding of single points, boxes, and writing of tile files.
- LevelDB, GEOS, PostgreSQL, parsers, configuration files, schema rotation, statistics and logging.
