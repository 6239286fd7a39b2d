# Front-tree bookkeeping and dense kernels of Elemental, in Dafny

This project models four pieces of the Elemental distributed linear-algebra
library and proves properties of them.

1. **The index bookkeeping of the distributed multifrontal LDL front tree**
   (`DistFront`). The model keeps the integer and sequence logic and drops the
   MPI calls and the dense storage:
   - **`Pull`** gathers the entries of a distributed sparse matrix into the
     fronts. It de-duplicates the column indices of the process's entries and
     requests the rows each front needs from their owners. Distributed fronts
     request only every `gridWidth`-th separator index. Each owner counts and
     packs the connections on or below the reordered diagonal, and the
     receiver places them in the diagonal block or the original lower
     structure.
   - **`Unpack`** ships the factored fronts back. It counts and packs one
     `(i, j, value)` triple per lower-triangle entry, routed to the owner of
     row `i`.
   - **`ComputeCommMeta`** counts, per parent-team process, the
     lower-triangle cells of the child update this process sends.
     **`ComputeRecvInds`** lists, per process, the local positions at which
     its updates arrive.

   All of these phases share one pattern: count per rank, prefix-sum into
   offsets, then pack with a per-rank cursor. `Buckets` proves that pattern
   once, for any visiting order. Each phase is then shown to visit the same
   items in the same order in its count and pack walks.
2. **`ScaleTrapezoid`** on a local column-major matrix: scale the upper or
   lower trapezoid bounded by a diagonal offset.
3. **`Scale`**: scale a local matrix, with shortcuts for `alpha == 1` and
   `alpha == 0`. It also covers the split form that scales a complex matrix
   held as separate real and imaginary parts.
4. **`Trefethen`**: build the `n x n` Toeplitz matrix of a fixed symbol with
   five non-zero diagonals, rejecting `n < 4`.

Modelling choices:
- **Trees.** A local separator, its node information and its front are
  fused into one `Node`. A distributed node is either a duplicate of a local
  subtree or a front with one distributed child.
- **Ownership.** `RowOwner` is a given total function into `[0, P)`.
- **Exchanges.** An all-to-all exchange is the per-rank bucket of a visiting
  stream (`Buckets.Bucket`).
- **Send buffers** are maps whose key set is proved to be exactly
  `[0, total)`.
- **Element-cyclic layout.** Distributed matrices are assumed to use one:
  global column `shift + tLoc * stride` at local column `tLoc`.
- **Matrices** are held column by column (`DenseMatrix.Matrix`). Slot `i` of
  column `j` stands for `buffer[i + j*ldim]`; the slots from `height` to
  `ldim` are padding.
- **Numbers.** Values are unbounded integers, and complex values are
  integer pairs (`ComplexArith`).

Modules, one per file:
- `SeqMath`: sums and zero vectors.
- `Buckets`: count, scan and pack.
- `Strided`: stride walks and the element-cyclic layout.
- `FrontTree`: the tree and its layouts.
- `ColumnDedup`: column de-duplication.
- `RowRequests`: row requests.
- `Payload`: the filtered payload.
- `Placement`: the receiver's placement rule.
- `PullUnpack`: the unpack walk of `Pull` and entry conservation.
- `FrontUnpack`: `Unpack`.
- `CommMeta` and `RecvInds`: the communication metadata.
- `ComplexArith`, `DenseMatrix`, `Scaling`, `TrapezoidScaling` and
  `TrefethenMatrix`: the dense kernels.

## Model

| member | source | states |
|---|---|---|
| Buckets.Tally | src/lapack_like/factor/LDL/sparse/numeric/DistFront.cpp:121-147 | The count pass adds to each rank's size exactly the number of visited items routed to that rank. |
| Buckets.TallyFromZero | src/lapack_like/factor/LDL/sparse/numeric/DistFront.cpp:121-149 | Counting from a zero vector gives each rank's bucket size. |
| Buckets.Scan | src/lapack_like/factor/LDL/sparse/numeric/DistFront.cpp:148-149 | `Scan` returns one offset per rank and a total equal to the sum of the sizes. |
| Buckets.ScanChained | src/lapack_like/factor/LDL/sparse/numeric/DistFront.cpp:148-149 | Scan offsets start at 0, each offset is the previous one plus the previous size, and the total is the end of the last segment. |
| Buckets.ChainedScan | src/lapack_like/factor/LDL/sparse/numeric/DistFront.cpp:148-149 | Conversely, any offsets that chain this way are the scan, so the offsets are determined by the sizes. |
| Buckets.Place | src/lapack_like/factor/LDL/sparse/numeric/DistFront.cpp:156-185 | The packing pass leaves rank `q`'s cursor exactly `|bucket q|` past its start. |
| Buckets.CountScanPack | src/lapack_like/factor/LDL/sparse/numeric/DistFront.cpp:121-185 | Count, scan and pack agree. Sizes are bucket sizes, and every cursor ends at `offs[q] + sizes[q]`. Slot `offs[q] + k` holds the `k`-th item routed to `q`, the total is the number of items, and the buffer is written on exactly `[0, total)`. |
| Buckets.BucketMembers | src/lapack_like/factor/LDL/sparse/numeric/DistFront.cpp:192-199 | A rank's bucket holds exactly the items routed to it. Nothing is lost or invented by the exchange. |
| Buckets.BucketConcat | src/lapack_like/factor/LDL/sparse/numeric/DistFront.cpp:121-128 | The bucket of a concatenated walk is the concatenation of the buckets, so children-first recursion composes. |
| Buckets.TallyAppend | src/lapack_like/factor/LDL/sparse/numeric/DistFront.cpp:121-128 | Counting a walk in two pieces equals counting it at once. |
| Buckets.PlaceAppend | src/lapack_like/factor/LDL/sparse/numeric/DistFront.cpp:157-164 | Packing a walk in two pieces, the second from the cursors the first leaves, equals packing it at once. |
| Buckets.ScanDisjoint | src/lapack_like/factor/LDL/sparse/numeric/DistFront.cpp:148-149 | Segments computed by the scan from the counts do not overlap. |
| Buckets.ScanCovers | src/lapack_like/factor/LDL/sparse/numeric/DistFront.cpp:148-149 | With non-negative sizes, every position below the total lies in some rank's segment. |
| Buckets.SumTally | src/lapack_like/factor/LDL/sparse/numeric/DistFront.cpp:121-149 | Counting raises the sum of the sizes by the number of visited items. |
| SeqMath.SumAppend | src/lapack_like/factor/LDL/sparse/numeric/DistFront.cpp:148-149 | The sum of a concatenation is the sum of the sums. |
| SeqMath.SumNonNegative | src/lapack_like/factor/LDL/sparse/numeric/DistFront.cpp:276-285 | A sum of non-negative counts is non-negative. |
| Strided.StrideWalk | src/lapack_like/factor/LDL/sparse/numeric/DistFront.cpp:140-145 | The `k`-th index visited by `for( t=shift; t<n; t+=stride )` is `shift + k*stride`, and every visited index is below `n`. |
| Strided.StrideWalkMembers | src/lapack_like/factor/LDL/sparse/numeric/DistFront.cpp:144 | The loop visits `t` exactly when `shift <= t < n` and `t - shift` is a multiple of the stride. |
| Strided.StrideClass | src/lapack_like/factor/LDL/sparse/numeric/DistFront.cpp:144 | For `shift < stride`, the loop visits exactly the `t` in `[0, n)` with `t % stride == shift`. |
| Strided.StrideClassesPartition | src/lapack_like/factor/LDL/sparse/numeric/DistFront.cpp:140-145 | The grid columns' walks partition `[0, n)`. Each index is visited by the walk of shift `t % stride` and by no other. |
| Strided.WidthsSum | src/lapack_like/factor/LDL/sparse/numeric/DistFront.cpp:140-145 | The walks of all shifts together visit exactly `n` indices. |
| Strided.StrideWalkLength | src/lapack_like/factor/LDL/sparse/numeric/DistFront.cpp:144 | The walk is as long as the local width of the element-cyclic layout. |
| Strided.StrideWalkIsLocalColumns | src/lapack_like/factor/LDL/sparse/numeric/DistFront.cpp:382-385 | The strided request walk is the sequence of local columns `GlobalCol(tLoc)` that the unpack loop visits. |
| Strided.StrideWalkExtend | src/lapack_like/factor/LDL/sparse/numeric/DistFront.cpp:144 | Growing `n` by one appends `n` to the walk of its stride class and leaves the other walks alone. |
| ColumnDedup.Tagged | src/lapack_like/factor/LDL/sparse/numeric/DistFront.cpp:74-75 | Local entry `e` becomes the record `(colBuffer[e], e)`. |
| ColumnDedup.SortByValue | src/lapack_like/factor/LDL/sparse/numeric/DistFront.cpp:76 | The sort is a permutation of the tagged records. |
| ColumnDedup.SortByValueSorted | src/lapack_like/factor/LDL/sparse/numeric/DistFront.cpp:76 | The sort orders the records by value. |
| ColumnDedup.SortByValueIsSort | src/lapack_like/factor/LDL/sparse/numeric/DistFront.cpp:76 | The modelled sort is one of the results `std::sort` with a value-only comparison may give. |
| ColumnDedup.InsertSorted | src/lapack_like/factor/LDL/sparse/numeric/DistFront.cpp:76 | Insertion keeps a value-sorted sequence sorted. |
| ColumnDedup.CompactLoop | src/lapack_like/factor/LDL/sparse/numeric/DistFront.cpp:77-88 | The in-place loop keeps a strictly increasing prefix ending in the last value seen. It points every visited entry at the kept record of its column. |
| ColumnDedup.Compact | src/lapack_like/factor/LDL/sparse/numeric/DistFront.cpp:77-90 | After the resize, the unique columns are strictly increasing and hold exactly the entries' columns. Each entry `e` has `uniqueCols[colOffs[e]].value == colBuffer[e]`. |
| ColumnDedup.Dedup | src/lapack_like/factor/LDL/sparse/numeric/DistFront.cpp:70-90 | Tagging, sorting and compacting together: the unique columns are strictly increasing, hold exactly the distinct columns, and are indexed back by `colOffs`. |
| ColumnDedup.IncreasingCount | src/lapack_like/factor/LDL/sparse/numeric/DistFront.cpp:89-90 | A strictly increasing sequence holds each of its values once, so there is one unique column per distinct index. |
| ColumnDedup.KeptColumns | src/lapack_like/factor/LDL/sparse/numeric/DistFront.cpp:77-90 | If every entry points at a record of its column and every record carries an entry's column, the records hold exactly the columns. |
| ColumnDedup.MappedTargets | src/lapack_like/factor/LDL/sparse/numeric/DistFront.cpp:108-113 | Unique column `u` is mapped to `reorder(uniqueCols[u].value)`. |
| ColumnDedup.DedupTargets | src/lapack_like/factor/LDL/sparse/numeric/DistFront.cpp:108-113 | `mappedTargets[colOffs[e]]` is the reordered column of entry `e`. Translating each unique column once is as good as translating every entry. |
| RowRequests.Requests | src/lapack_like/factor/LDL/sparse/numeric/DistFront.cpp:126-127 | Each requested index is routed to `RowOwner` of itself. |
| RowRequests.Pick | src/lapack_like/factor/LDL/sparse/numeric/DistFront.cpp:144-145 | The strided walk picks `sep.inds[t]` for each visited `t`. |
| RowRequests.StridedInds | src/lapack_like/factor/LDL/sparse/numeric/DistFront.cpp:140-145 | A distributed node requests as many indices as the process's local width. |
| RowRequests.CountInds | src/lapack_like/factor/LDL/sparse/numeric/DistFront.cpp:126-127 | The local count loop tallies the requests of the separator indices. |
| RowRequests.CountStrided | src/lapack_like/factor/LDL/sparse/numeric/DistFront.cpp:140-145 | The strided count loop tallies the requests of the strided walk. |
| RowRequests.StridedRequestsSplit | src/lapack_like/factor/LDL/sparse/numeric/DistFront.cpp:144-145 | A strided walk requests its first index, then the rest of the walk. |
| RowRequests.CountLocal | src/lapack_like/factor/LDL/sparse/numeric/DistFront.cpp:121-128 | `rRowLocalAccumulate` tallies the request stream of a local subtree, children first. |
| RowRequests.CountChildren | src/lapack_like/factor/LDL/sparse/numeric/DistFront.cpp:124-125 | The children loop tallies the concatenated streams of the children. |
| RowRequests.CountDist | src/lapack_like/factor/LDL/sparse/numeric/DistFront.cpp:129-147 | `rRowAccumulate` tallies the request stream of the distributed tree. |
| RowRequests.PackInds | src/lapack_like/factor/LDL/sparse/numeric/DistFront.cpp:162-163 | The local pack loop places the requests of the separator indices. |
| RowRequests.PackStrided | src/lapack_like/factor/LDL/sparse/numeric/DistFront.cpp:175-183 | The strided pack loop places the same stream the strided count loop tallies. |
| RowRequests.PackLocal | src/lapack_like/factor/LDL/sparse/numeric/DistFront.cpp:157-164 | `rRowsLocalPack` places the same stream `rRowLocalAccumulate` counts, in the same order. |
| RowRequests.PackChildren | src/lapack_like/factor/LDL/sparse/numeric/DistFront.cpp:160-161 | The children loop of the packing pass places the children's streams in order. |
| RowRequests.PackDist | src/lapack_like/factor/LDL/sparse/numeric/DistFront.cpp:165-185 | `rRowsPack` places the same stream `rRowAccumulate` counts. |
| RowRequests.RowRequestsLand | src/lapack_like/factor/LDL/sparse/numeric/DistFront.cpp:121-185 | After packing, `offs[q] == rRowOffs[q] + rRowSizes[q]` for every rank. |
| RowRequests.RowRequestsFill | src/lapack_like/factor/LDL/sparse/numeric/DistFront.cpp:148-185 | `numRecvRows` is the number of requested rows, and `rRows` is written on exactly `[0, numRecvRows)`. |
| RowRequests.RequestedRowOwned | src/lapack_like/factor/LDL/sparse/numeric/DistFront.cpp:156-185 | Slot `rRowOffs[q] + k` holds the `k`-th row requested from `q`, and `q` owns that row. |
| RowRequests.BucketOwned | src/lapack_like/factor/LDL/sparse/numeric/DistFront.cpp:192-199 | Every row in rank `q`'s bucket is owned by `q`. |
| Payload.KeptMembers | src/lapack_like/factor/LDL/sparse/numeric/DistFront.cpp:222-229 | A connection is shipped exactly when its reordered target is not below its row's reordered source. |
| Payload.KeptIncreasing | src/lapack_like/factor/LDL/sparse/numeric/DistFront.cpp:247-259 | Each connection is shipped at most once, in connection order. |
| Payload.PayloadSplit | src/lapack_like/factor/LDL/sparse/numeric/DistFront.cpp:210-232 | The payload of adjacent row ranges is the concatenation of their payloads. |
| Payload.CountRow | src/lapack_like/factor/LDL/sparse/numeric/DistFront.cpp:222-229 | The inner count loop counts exactly the kept connections of the row. |
| Payload.CountSegment | src/lapack_like/factor/LDL/sparse/numeric/DistFront.cpp:214-230 | For one rank's segment, each `sRowLengths` slot is the kept count of its row, and the total is the size of the segment's payload. |
| Payload.CountPayload | src/lapack_like/factor/LDL/sparse/numeric/DistFront.cpp:205-232 | `sRowLengths` holds each requested row's kept count. `sEntriesSizes[q]` counts the entries shipped to `q`. |
| Payload.SegmentSize | src/lapack_like/factor/LDL/sparse/numeric/DistFront.cpp:205-232 | `sEntriesSizes[q]` is the size of rank `q`'s payload. |
| Payload.PackRow | src/lapack_like/factor/LDL/sparse/numeric/DistFront.cpp:247-259 | The inner pack loop emits the value (conjugated on request) and the reordered target of exactly the kept connections, in order. |
| Payload.PackSegment | src/lapack_like/factor/LDL/sparse/numeric/DistFront.cpp:242-260 | One rank's segment emits the values and targets of its rows' payload. |
| Payload.PackPayload | src/lapack_like/factor/LDL/sparse/numeric/DistFront.cpp:233-265 | The packing emits exactly the values and targets the count pass counted. The debug check `index == sEntriesOffs[q] + sEntriesSizes[q]` never fails. |
| Payload.PackExtend | src/lapack_like/factor/LDL/sparse/numeric/DistFront.cpp:237-265 | Packing rows `lo..hi` after rows `0..lo` packs rows `0..hi`. |
| Payload.ValuesAppend | src/lapack_like/factor/LDL/sparse/numeric/DistFront.cpp:256-258 | The values and targets of concatenated entry lists concatenate. |
| Placement.LowerBound | src/lapack_like/factor/LDL/sparse/numeric/DistFront.cpp:346 | `std::lower_bound` returns the first position whose value is not below `x`. |
| Placement.Find | src/lapack_like/factor/LDL/sparse/numeric/DistFront.cpp:346 | A successful `Find` returns a position holding the index. |
| Placement.FindComplete | src/lapack_like/factor/LDL/sparse/numeric/DistFront.cpp:346 | On a sorted vector, `Find` fails exactly when the index is absent. |
| Placement.Classify | src/lapack_like/factor/LDL/sparse/numeric/DistFront.cpp:337-349 | A target below `off + t` is discarded. A target in `[off + t, off + size)` goes to row `target - off`, on or below the diagonal. A larger target goes to `origLowerRelInds` of its position in `origLowerStruct`. |
| Placement.ClassifyMissing | src/lapack_like/factor/LDL/sparse/numeric/DistFront.cpp:344-348 | With a sorted original structure, an entry is lost only when its target lies below the separator and outside the structure. |
| PullUnpack.EntriesAdvance | src/lapack_like/factor/LDL/sparse/numeric/DistFront.cpp:331-335 | When the row's entries fit in the buffers, the entry loop never overruns. It advances only rank `q`'s entry cursor, by exactly the row length. |
| PullUnpack.UnpackRowsAppend | src/lapack_like/factor/LDL/sparse/numeric/DistFront.cpp:300-412 | Unpacking a row sequence in two pieces is unpacking it at once. |
| PullUnpack.UnpackOwn | src/lapack_like/factor/LDL/sparse/numeric/DistFront.cpp:323-350 | The local front's column loop unpacks the front's own rows in order. |
| PullUnpack.UnpackLocal | src/lapack_like/factor/LDL/sparse/numeric/DistFront.cpp:300-352 | `unpackEntriesLocal` unpacks the children's rows first, then the front's own. |
| PullUnpack.UnpackChildren | src/lapack_like/factor/LDL/sparse/numeric/DistFront.cpp:311-320 | The children loop unpacks the children's rows one subtree after another. |
| PullUnpack.UnpackCols | src/lapack_like/factor/LDL/sparse/numeric/DistFront.cpp:382-412 | The distributed front's local-column loop unpacks the rows `sep.inds[GlobalCol(tLoc)]` in local order. |
| PullUnpack.UnpackDist | src/lapack_like/factor/LDL/sparse/numeric/DistFront.cpp:353-413 | `unpackEntries` unpacks the child's rows first, then the front's local columns. |
| PullUnpack.ColRows | src/lapack_like/factor/LDL/sparse/numeric/DistFront.cpp:383-385 | The rows the distributed loop visits are the strided request walk. |
| PullUnpack.DistRowsRoute | src/lapack_like/factor/LDL/sparse/numeric/DistFront.cpp:300-413 | The unpack walk meets, in order, the same row stream as the request walks. |
| PullUnpack.OwnRowsRoute | src/lapack_like/factor/LDL/sparse/numeric/DistFront.cpp:323-326 | A local front's own columns are unpacked in the order they were requested. |
| PullUnpack.LocalRowsRoute | src/lapack_like/factor/LDL/sparse/numeric/DistFront.cpp:300-352 | A local subtree is unpacked in the order it was requested. |
| PullUnpack.ColRowsRoute | src/lapack_like/factor/LDL/sparse/numeric/DistFront.cpp:382-387 | A distributed front's local columns are unpacked in the order they were requested. |
| PullUnpack.RowsLength | src/lapack_like/factor/LDL/sparse/numeric/DistFront.cpp:281-282 | Each rank's accumulated row length is the sum of the lengths of its received rows. |
| PullUnpack.EntrySizes | src/lapack_like/factor/LDL/sparse/numeric/DistFront.cpp:276-284 | `rEntriesSizes[q]` is the sum of the lengths of the rows received from `q`. |
| PullUnpack.OneRow | src/lapack_like/factor/LDL/sparse/numeric/DistFront.cpp:326-335 | Unpacking one row of rank `q` keeps the cursor bookkeeping. |
| PullUnpack.RowsConsumed | src/lapack_like/factor/LDL/sparse/numeric/DistFront.cpp:300-413 | The walk over the remaining rows keeps the cursor bookkeeping to the end and never overruns. |
| PullUnpack.UnpackRowsStopped | src/lapack_like/factor/LDL/sparse/numeric/DistFront.cpp:346 | Once `Find` has failed, nothing further changes. |
| PullUnpack.UnpackConserves | src/lapack_like/factor/LDL/sparse/numeric/DistFront.cpp:414-421 | The walk never reads past a received buffer. Unless `Find` fails, it ends with `entryOffs[q] == rEntriesOffs[q] + rEntriesSizes[q]` and `offs[q] == rRowOffs[q] + rRowSizes[q]` for every rank. |
| PullUnpack.ConsumedLands | src/lapack_like/factor/LDL/sparse/numeric/DistFront.cpp:417-421 | When every requested row is unpacked, each rank's cursors stand at the ends of its segments. |
| PullUnpack.EntriesReceived | src/lapack_like/factor/LDL/sparse/numeric/DistFront.cpp:276-292 | The scanned entry offsets place every rank's entries inside the received buffers. |
| FrontUnpack.CountDiag | src/lapack_like/factor/LDL/sparse/numeric/DistFront.cpp:770-776 | The top-block count loop tallies one entry per `t <= s` for row `off + s`. |
| FrontUnpack.CountLower | src/lapack_like/factor/LDL/sparse/numeric/DistFront.cpp:778-783 | The bottom-block count loop tallies `size` entries per row of the lower structure. |
| FrontUnpack.CountLocal | src/lapack_like/factor/LDL/sparse/numeric/DistFront.cpp:759-784 | `localCount` tallies the stream that `localPack` packs: children first, then the diagonal rows, then the bottom rows. |
| FrontUnpack.CountChildren | src/lapack_like/factor/LDL/sparse/numeric/DistFront.cpp:766-767 | The children loop tallies the children's streams in order. |
| FrontUnpack.CountTop | src/lapack_like/factor/LDL/sparse/numeric/DistFront.cpp:830-845 | The distributed top-block count keeps exactly the local cells with `GlobalCol(tLoc) <= s`. |
| FrontUnpack.CountBottom | src/lapack_like/factor/LDL/sparse/numeric/DistFront.cpp:846-855 | The distributed bottom-block count tallies every local cell of the bottom block. |
| FrontUnpack.CountDist | src/lapack_like/factor/LDL/sparse/numeric/DistFront.cpp:785-856 | `count` tallies the stream `pack` packs, for the whole tree. |
| FrontUnpack.Tri | src/lapack_like/factor/LDL/sparse/numeric/DistFront.cpp:770-776 | Rows `0..m` of a lower triangle hold `m(m+1)/2` entries. |
| FrontUnpack.DiagRowsLength | src/lapack_like/factor/LDL/sparse/numeric/DistFront.cpp:875-885 | The top block of a local front ships `Tri(size)` entries, one per `t <= s`. |
| FrontUnpack.LowerRowsLength | src/lapack_like/factor/LDL/sparse/numeric/DistFront.cpp:887-896 | The bottom block ships `|lowerStruct| * size` entries. |
| FrontUnpack.LocalContribution | src/lapack_like/factor/LDL/sparse/numeric/DistFront.cpp:770-783 | A local node adds `size*(size+1)/2 + |lowerStruct|*size` to the counts, on top of its children. |
| FrontUnpack.DiagRowsAt | src/lapack_like/factor/LDL/sparse/numeric/DistFront.cpp:875-885 | The top-block entries of a local front come as `(off+s, off+t)` with `t <= s`, row by row. |
| FrontUnpack.LowerRowsAt | src/lapack_like/factor/LDL/sparse/numeric/DistFront.cpp:887-896 | The bottom-block entries come as `(lowerStruct[s], off+t)`, row by row. |
| FrontUnpack.BucketRowsOwned | src/lapack_like/factor/LDL/sparse/numeric/DistFront.cpp:994-998 | Every entry shipped to rank `q` lies in a row `q` owns. |
| FrontUnpack.UnpackLands | src/lapack_like/factor/LDL/sparse/numeric/DistFront.cpp:758-990 | After `count`, `Scan` and `pack`, the cursors land on `sendOffs[q] + sendSizes[q]`. `totalSend` is the number of shipped entries, and `sendBuf` is written on exactly `[0, totalSend)`. |
| FrontUnpack.UnpackSegment | src/lapack_like/factor/LDL/sparse/numeric/DistFront.cpp:863-990 | Slot `sendOffs[q] + k` holds the `k`-th entry shipped to `q`, in a row `q` owns. |
| CommMeta.ComputeCommMeta | src/lapack_like/factor/LDL/sparse/numeric/DistFront.cpp:1276-1316 | Without a child the metadata is empty. Otherwise there is one count per parent-team process, and `numChildSendInds[q]` counts the visited lower-triangle cells routed to `q`. |
| CommMeta.CommMetaTotal | src/lapack_like/factor/LDL/sparse/numeric/DistFront.cpp:1285-1311 | The counts add up to the number of local cells with `iChild >= jChild`. |
| CommMeta.CellsCount | src/lapack_like/factor/LDL/sparse/numeric/DistFront.cpp:1297-1310 | The walk visits as many cells as there are local lower-triangle cells. |
| CommMeta.CountedForOwner | src/lapack_like/factor/LDL/sparse/numeric/DistFront.cpp:1297-1310 | Every counted cell is a lower-triangle cell, counted for the owner of its parent-front entry. |
| CommMeta.CellsRanked | src/lapack_like/factor/LDL/sparse/numeric/DistFront.cpp:1305-1308 | Every cell is counted for a process of the parent team. |
| CommMeta.EnumeratesCount | src/lapack_like/factor/LDL/sparse/numeric/DistFront.cpp:1297-1310 | A strictly increasing walk that visits exactly the cells of a set has the set's size. |
| RecvInds.TeamSizes | src/lapack_like/factor/LDL/sparse/numeric/DistFront.cpp:1211-1214 | The two child teams' sizes add up to the parent team, and the process's own team has the child-team size. |
| RecvInds.TeamOffs | src/lapack_like/factor/LDL/sparse/numeric/DistFront.cpp:1215-1217 | The team that comes first starts at 0 and the other right after it. |
| RecvInds.TeamsTile | src/lapack_like/factor/LDL/sparse/numeric/DistFront.cpp:1211-1217 | The two teams' rank ranges tile the parent team. |
| RecvInds.LocalInds | src/lapack_like/factor/LDL/sparse/numeric/DistFront.cpp:1231-1239 | `rowInds` and `colInds` list, in increasing order, exactly the update indices whose parent index is local. |
| RecvInds.FirstAtLeast | src/lapack_like/factor/LDL/sparse/numeric/DistFront.cpp:1252-1254 | `lower_bound` splits a sorted list into the part below `jChild` and the rest. |
| RecvInds.LowerBound | src/lapack_like/factor/LDL/sparse/numeric/DistFront.cpp:1252-1254 | The bisection returns that split point. |
| RecvInds.Target | src/lapack_like/factor/LDL/sparse/numeric/DistFront.cpp:1262-1268 | The holder `teamOffs[c] + childRow + childCol*gridHeights[c]` lies inside child `c`'s team. |
| RecvInds.AllPairsMember | src/lapack_like/factor/LDL/sparse/numeric/DistFront.cpp:1244-1271 | Every pushed pair is a local lower-triangle cell of the child update, with its local positions. |
| RecvInds.AllPairsComplete | src/lapack_like/factor/LDL/sparse/numeric/DistFront.cpp:1244-1271 | Every local lower-triangle cell of a child's update is pushed; `lower_bound` skips only rows above the diagonal. |
| RecvInds.Distribute | src/lapack_like/factor/LDL/sparse/numeric/DistFront.cpp:1269-1270 | Each process's list gains `iLoc, jLoc` of exactly the pairs sent to it, in visiting order. |
| RecvInds.ComputeRecvInds | src/lapack_like/factor/LDL/sparse/numeric/DistFront.cpp:1198-1274 | There is one list per parent-team process, two entries per pair sent to that process. |
| RecvInds.RecvIndsSound | src/lapack_like/factor/LDL/sparse/numeric/DistFront.cpp:1228-1271 | Every pair in process `q`'s list is a local lower-triangle cell of the left or right child, sent to `q` by its holder. |
| RecvInds.RecvIndsCompleteLeft | src/lapack_like/factor/LDL/sparse/numeric/DistFront.cpp:1228-1271 | Every local lower-triangle cell of the left child reaches its holder's list. |
| RecvInds.RecvIndsCompleteRight | src/lapack_like/factor/LDL/sparse/numeric/DistFront.cpp:1228-1271 | Every local lower-triangle cell of the right child reaches its holder's list. |
| DenseMatrix.MapSlots | include/El/blas-like/level1/ScaleTrapezoid.hpp:31-32 | A per-slot loop replaces exactly the slots of its range and leaves the others alone. |
| DenseMatrix.MapEntries | include/El/blas-like/level1/Scale.hpp:23-28 | A column-by-column pass changes every entry and no padding slot, and keeps the shape. |
| DenseMatrix.SlotsEqual | include/El/blas-like/level1/ScaleTrapezoid.hpp:20-22 | Two matrices of one shape that agree in every slot are equal. |
| Scaling.Scale | include/El/blas-like/level1/Scale.hpp:15-30 | The shape is kept. Every entry is multiplied by `alpha` and the padding is untouched. `alpha == 1` leaves the matrix unchanged, and `alpha == 0` sets every entry to zero. |
| Scaling.ScaleReal | include/El/blas-like/level1/Scale.hpp:15-30 | The same template at a real type: every entry becomes `alpha * x`, and `alpha == 1` changes nothing. |
| Scaling.ScaleBase | include/El/blas-like/level1/Scale.hpp:65-68 | Scaling by a real `alpha` is scaling by `T(alpha)`: both parts of every entry are multiplied by `alpha`. |
| Scaling.SplitProduct | include/El/blas-like/level1/Scale.hpp:54-59 | The intended split result: each entry `re + i*im` becomes `alpha * (re + i*im)`, written as its two real parts. |
| Scaling.AxpySlots | include/El/blas-like/level1/Scale.hpp:57-59 | `Axpy` adds `beta * x[i]` to the first `m` slots of the column. |
| Scaling.SplitColumn | include/El/blas-like/level1/Scale.hpp:54-59 | From copies taken before the update, the real part becomes `a*re - b*im` and the imaginary part `a*im + b*re`. |
| Scaling.ScaleSplit | include/El/blas-like/level1/Scale.hpp:32-63 | With the column views taken of the arguments, the split scaling computes the complex product in every case, including `alpha == 1` and `alpha == 0`. |
| Scaling.ScaleSplitAsWritten | include/El/blas-like/level1/Scale.hpp:32-63 | As written, a nonzero `alpha` leaves both arguments unchanged, and only `alpha == 0` gives the product. This assumes the views outside the empty locals return normally and write nothing. |
| Scaling.AsWrittenMissesProduct | include/El/blas-like/level1/Scale.hpp:52-59 | For the `1 x 1` entry `1 + 0i` and `alpha = i`, the product's real part is `0`, but the code as written keeps `1`. |
| TrapezoidScaling.ScaleTrapezoid | include/El/blas-like/level1/ScaleTrapezoid.hpp:17-45 | For any shape and offset, the shape is kept and every slot outside the trapezoid is unchanged, padding included. Upper scales exactly the entries with `i <= j - offset`. Lower scales exactly `max(j - offset, 0) <= i < height`. The Upper row count is clamped to the height. |
| TrapezoidScaling.ScaleUpperAsWritten | include/El/blas-like/level1/ScaleTrapezoid.hpp:25-34 | As written, Upper scales every slot with `i <= j - offset`, padding below the height included. When every row count is at most the height, this is exactly the Upper trapezoid. |
| TrapezoidScaling.AsWrittenScalesPadding | include/El/blas-like/level1/ScaleTrapezoid.hpp:30-32 | On a `1 x 2` matrix with leading dimension 2 at offset 0, any `alpha` that changes the padding slot of column 1 (2, on a slot holding 1) makes the as-written branch change that slot. The result is then not the Upper trapezoid scaling. |
| TrapezoidScaling.UpperSkipsLeft | include/El/blas-like/level1/ScaleTrapezoid.hpp:28 | Columns left of the offset are untouched, so starting at `max(0, offset-1)` skips nothing. |
| TrapezoidScaling.DefaultOffset | include/El/blas-like/level1/ScaleTrapezoid.hpp:17 | With offset 0, Upper is the upper triangle and Lower the lower triangle, both including the diagonal. |
| TrapezoidScaling.UpperThenLower | include/El/blas-like/level1/ScaleTrapezoid.hpp:25-44 | For any offset, Upper at `offset` followed by Lower at `offset - 1` scales every entry exactly once, as `Scale` does. |
| TrefethenMatrix.Zeros | include/El/matrices/Trefethen.hpp:32 | `Zeros(A, m, n)` gives an `m x n` matrix of zeros. |
| TrefethenMatrix.SetDiagonal | include/El/matrices/Trefethen.hpp:33-37 | Exactly the entries with `j - i == offset` become `alpha`, and everything else is kept. |
| TrefethenMatrix.Trefethen | include/El/matrices/Trefethen.hpp:18-38 | `n < 4` gives the logic error. Otherwise the result is `n x n` with entry `(i, j)` equal to the symbol's coefficient of `z^(i-j)`, and it is Toeplitz: two entries on one diagonal are equal. |
| TrefethenMatrix.Diagonals | include/El/matrices/Trefethen.hpp:33-37 | Offsets 3, 2, 1, -2 and -3 hold 2, -1, 2i, -4 and -2i. The main diagonal, offset -1 and everything further out hold zero. |

## Left out

- **Exchanges and I/O.** MPI all-to-all exchanges, communicators, `Timer`/`Output` and `DEBUG_ONLY` call-stack entries are left out. Each exchange is the per-rank bucket of the visiting stream (`Buckets.Bucket`), which is what a correct all-to-all delivers.
- **Flop counters.** `LocalFactorGFlops`/`LocalSolveGFlops` are floating-point estimates.
- **Local sizes.** `NumLocalEntries`, `NumTopLeftLocalEntries` and `NumBottomLeftLocalEntries` depend on the local sizes of distributed matrix views, which this model does not have. The 1D branch of `NumBottomLeftLocalEntries` reads `L2D`; this is also left out.
- **Ownership and storage.** `operator=` (pointer ownership and storage attaching) is left out. `Push` only raises a logic error.
- **`PullUpdate`.** This second, older gather routine (DistFront.cpp lines 423-731) uses `Find(targets, col)` per entry instead of the de-duplication. It is not modelled; its phases have the same shape as `Pull`.
- **Translation and assembly.** `reordering.Translate` is a given function (`reorder`). The source rows' translation `mappedSources` is an input of the payload. The dense `front.L` assembly and `Zeros(front.L, ...)` are modelled as a list of `Set` operations.
- **`Find`.** Its source is not part of this model. It is modelled as a search of a sorted vector that reports absence where the source raises a logic error.
- **Layouts.** Distributed matrices are assumed element-cyclic, with local column `tLoc` at global column `shift + tLoc*stride`, and `FTL`, `FBL` and `L2D` the same. The `[MC,MR]` and `[VC,STAR]` layouts are given by their shift and stride.
- **`Unpack` after packing.** The closing `AllToAll` and `QueueUpdate` of `Unpack` are collective calls into the sparse matrix's update queue.
- **CommMeta.ComputeCommMeta:** the `computeRecvInds` flag is not followed, and `childRecvInds` stays empty. The receive lists are modelled separately by `RecvInds.ComputeRecvInds`.
- **RecvInds.ComputeRecvInds:** the `iChild < jChild` debug check (DistFront.cpp line 1260) is not modelled as an error path; `RecvInds.AllPairsMember` proves it never fires.
- **RecvInds.ComputeRecvInds:** the debug checks that each child team's size equals its grid's height times width (DistFront.cpp lines 1218-1223) are not modelled as an error path. The model requires the sizes to agree (`TeamsOk`). The grid sizes come from `GetChildGridDims`, whose source is not part of this model. Without this agreement, the rank `q` computed at line 1267 can fall outside `[0, teamSize)`.
- **ColumnDedup.Dedup:** column indices are required to be non-negative. The compaction's "last value seen" starts at -1, so a column -1 would be merged into it. Sparse matrix columns are never negative.
- **ColumnDedup.SortByValueIsSort:** `std::sort` may order equal values in any way. The model proves its insertion sort is one legitimate outcome, and `ColumnDedup.Compact` is proved for every legitimate outcome.
- **Numbers.** Floating-point and complex arithmetic are modelled as unbounded integers and integer pairs. No rounding, overflow or NaN is modelled.
- **Loops.** `EL_PARALLEL_FOR` loops are sequential; their iterations write disjoint columns. `blas::Scal` and `blas::Axpy` are per-slot loops.
- **Distributed `Scale` overloads.** The `AbstractDistMatrix` and `AbstractBlockDistMatrix` overloads (Scale.hpp lines 70-102) apply the local overload to `A.Matrix()`. They are not modelled separately.
- **Distributed `ScaleTrapezoid` overload.** This overload (ScaleTrapezoid.hpp lines 47-88) depends on unseen local-offset and global-column helpers.
- **Distributed `Trefethen` overloads.** The overloads (Trefethen.hpp lines 40-70) repeat the dense call sequence through the distributed `Zeros` and `SetDiagonal`, whose source is not part of this model. That they describe the same global matrix is therefore not proved.
- **TrefethenMatrix.SetDiagonal:** the offset convention is an assumption: offset `d` is the diagonal `j - i == d`. It is the convention under which the five calls build the Toeplitz matrix of the stated symbol. `Zeros` is assumed to give leading dimension `max(m, 1)`.
- **Scaling.SplitOk:** the real and imaginary parts are required to have the same height and width. The source reads the height and width from `AReal` only.
- **TrapezoidScaling.ScaleUpperAsWritten:** the unclamped row counts are required to stay within `ldim`. A count above `ldim` addresses the next column's slots, scaling its leading entries a second time, or runs past the end of the buffer. A flat buffer is not part of this model.
- **Scaling.ScaleSplitAsWritten:** for `n >= 1` and `alpha` outside {0, 1}, lines 52-53 take views of columns outside the empty `0 x 0` locals. The source of `View` is not part of this model. The model assumes such a view returns normally and that the following `Scale`/`Axpy` calls write nothing to the arguments. A checked build might instead raise a range error.

## Findings

| source | as written | input that shows it | evidently intended | confidence | as-written member | corrected member |
|---|---|---|---|---|---|---|
| include/El/blas-like/level1/Scale.hpp:52-53 | The column views are taken of the empty `0 x 0` locals `aReal` and `aImag`, not of the arguments `AReal` and `AImag`. For `alpha` other than 0 and 1, the loop views columns outside an empty matrix, and the arguments are never viewed or updated. | `alpha = i` on the `1 x 1` matrix `1 + 0i`: the result should be `0 + 1i`, but the real part stays `1`. | Each column of `AReal`/`AImag` is viewed and updated to the per-entry complex product of lines 54-59. | not executed | Scaling.ScaleSplitAsWritten, Scaling.AsWrittenMissesProduct | Scaling.ScaleSplit, Scaling.SplitProduct |
| include/El/blas-like/level1/ScaleTrapezoid.hpp:30-32 | The local Upper branch scales rows `[0, j - offset + 1)` of column `j` without clamping that count to the height. A column with `j - offset + 1 > height` also has its padding slots scaled. For a view, those slots are the parent's entries. A count above `ldim` scales the head of the next column a second time, or writes past the buffer. | A `1 x 2` matrix with leading dimension 2, at offset 0: column 1 gets count 2, and its padding slot is scaled. | The count is `min(j - offset + 1, height)`, as the distributed overload clamps it at ScaleTrapezoid.hpp lines 65-66. | not executed | TrapezoidScaling.ScaleUpperAsWritten, TrapezoidScaling.AsWrittenScalesPadding | TrapezoidScaling.ScaleTrapezoid, TrapezoidScaling.UpperThenLower |
