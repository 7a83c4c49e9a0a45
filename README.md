# Cyclus output back end and simulation clock, in Dafny

This project models two parts of the Cyclus fuel-cycle simulator.

**The HDF5 output back end** (`src/hdf5_back.cc`, class `Hdf5Back`) turns batches of
datums into rows of per-title tables and reads them back with queries.
- `Notify` groups a batch by title. It creates the table of each new title from the first datum
  of that title, then writes the groups in the order of a `std::map` over titles.
- `CreateTable` derives a column tag and a fixed width for each field, and caches the offsets,
  widths, row size and tags under the title.
- `WriteGroup` and `FillBuf` pack the datums into a byte buffer, row after row and field after
  field, and append it to the table.
- Variable-length strings and blobs go to a content-addressed store (`VLWrite`, `VLDataset`,
  `AppendVLKey`). Only their digest is written into the row.
- `Query` splits the conditions by field and reads the table chunk by chunk. It decodes each row
  field by field, stops at the first field whose conditions reject it, and keeps the accepted
  rows in on-disk order.

**The simulation clock** (`src/Core/Utility/Timer.cpp`, class `Timer`):
- converts between a month/year pair and a timestep (`convertDate`);
- range-checks the start date in `initialize`;
- keeps ordered lists of listeners and delivers ticks, tocks, resolves, daily tasks and the
  pre-history signal to them. A listener that throws a `CycException` is logged and skipped,
  and any other exception leaves the loop.

## Layout of the model

| file | module | contents |
|---|---|---|
| `bytes.dfy` | `Bytes` | bytes, `Option`/`Result`, the native 32-bit `int` layout |
| `schema.dfy` | `Schema` | `DbTypes` tags, values, datums, the column a field gets, the row layout |
| `vlstore.dfy` | `VLStore` | the variable-length value store as a value, with its invariant |
| `codec.dfy` | `Codec` | one field's bytes (encode and decode), fixed strings, the packed group buffer |
| `scan.dfy` | `Scan` | conditions by field, the left-to-right row decode, the scan of a table, chunks |
| `lexorder.dfy` | `LexOrder` | `std::string` order and the ascending visit of a map's keys |
| `tables.dfy` | `Tables` | the back end's state as a value, and what `CreateTable`, `WriteGroup` and `Notify` do to it |
| `hdf5.dfy` | `Hdf5` | class `Hdf5Back`: the imperative methods, each proved against the functions above |
| `timer.dfy` | `Timing` | class `Timer`: dates, `initialize`'s checks, listener registration and dispatch |

The HDF5 library is not modelled. A table is a `Table` value (columns and chunk size) plus the
sequence of its packed records. A value dataset is an append-only list that sits parallel to its
key list. The SHA-1 hasher is an abstract function `hasher: Str -> Digest` fixed when the back
end is built.

## Model

| member | source | states |
|---|---|---|
| Bytes.EncodeInt32 | src/hdf5_back.cc:398-403 | an `int` field is written as exactly 4 bytes |
| Bytes.DecodeInt32 | src/hdf5_back.cc:135-136 | four bytes read back as an `int` always lie in the 32-bit range |
| Bytes.Int32RoundTrip | src/hdf5_back.cc:135-136 | reading back the bytes written for an `int` gives the same integer |
| Bytes.Int32BytesRoundTrip | src/hdf5_back.cc:398-403 | every 4-byte pattern is the encoding of the integer it decodes to, so the `int` encoding is a bijection |
| Schema.ColumnOf | src/hdf5_back.cc:279-327 | a field's column keeps its name, has the width its tag requires and admits its value. It is `VL_STRING` exactly for a string with an absent or `< 1` shape, and `STRING` of width `shape[0]` exactly for a string with a usable shape |
| Schema.Columns | src/hdf5_back.cc:276-328 | one well-formed column per field, in field order |
| Schema.LayoutTiles | src/hdf5_back.cc:276-328 | the first field starts at 0, each field starts where the previous one ends, and the last ends at the row size: field `i`'s offset is the sum of the widths before it |
| Schema.LayoutSnoc | src/hdf5_back.cc:277-284 | adding a field appends its width and tag, puts its offset at the old row size and grows the row size by its width |
| Schema.SumPrefixStep | src/hdf5_back.cc:284 | the running `dst_size` grows by each field's width and never exceeds the row size |
| Schema.FieldInsideRow | src/hdf5_back.cc:276-328 | every field lies inside the row |
| Schema.AllFieldsInsideRow | src/hdf5_back.cc:276-328 | every field lies inside the row, for all fields at once |
| Schema.SumAppend | src/hdf5_back.cc:284 | the row size of two runs of fields is the sum of their sizes |
| Schema.DatumConformsToOwnSchema | src/hdf5_back.cc:264-328 | the datum a schema was derived from conforms to that schema |
| VLStore.DatasetNamesDistinct | src/hdf5_back.cc:480-492 | the four dataset names ("StringKeys", "StringVals", "BlobKeys", "BlobVals") are pairwise distinct, so `vldatasets_` can be keyed by dataset |
| VLStore.LoadedKeys | src/hdf5_back.cc:512-516 | the set loaded from a key dataset holds exactly its digests |
| VLStore.Open | src/hdf5_back.cc:480-550 | `VLDataset` on the store: leave an open dataset alone, open one in the file (loading a key dataset's digests), or create it empty. OpenValid and OpenKindValid give its effect |
| VLStore.Put | src/hdf5_back.cc:466-478 | `VLWrite` on the store: open both datasets of the category, then append the digest and content only if the digest is unknown. PutEffect, PutIdempotent and PutExtends give its effect |
| VLStore.KindValidTransfer | src/hdf5_back.cc:494-549 | a category's invariant carries over to a state with the same lists and a consistent in-memory set |
| VLStore.OpenKeysKindValid | src/hdf5_back.cc:502-519 | opening a key dataset that is in the file loads its digests into that category's set only, keeping every category's invariant and lists |
| VLStore.OpenKindValid | src/hdf5_back.cc:494-549 | opening any dataset (open already, in the file, or created empty) keeps each category's invariant and leaves the file's lists alone |
| VLStore.OpenValid | src/hdf5_back.cc:480-550 | `VLDataset` keeps the store invariant and leaves the key and value lists alone |
| VLStore.OpenedForPut | src/hdf5_back.cc:471-472 | after `VLWrite` opens both datasets of a category, both are open and that category's `vlkeys_` set is exactly its key list; other categories' sets are unchanged |
| VLStore.AppendKindValid | src/hdf5_back.cc:552-571 | appending an unknown digest and its content, and adding the digest to the set, keeps the invariant |
| VLStore.PutEffect | src/hdf5_back.cc:466-478 | `VLWrite` keeps the invariant. A known digest leaves both lists unchanged; a new one is appended at position `origlen` with its content. The set equals the key list afterwards, and the other category is untouched |
| VLStore.PutIdempotent | src/hdf5_back.cc:473-474 | storing the same content twice is the same as storing it once |
| VLStore.IndexOf | src/hdf5_back.cc:443 | the digest's position in the key list, or none exactly when the digest is absent |
| VLStore.Lookup | src/hdf5_back.cc:438-464 | `VLRead` on the store: the content at the digest's position. LookupSound, LookupStable and PutAllRetrievable give its properties |
| VLStore.LookupSound | src/hdf5_back.cc:438-464 | a lookup succeeds exactly for stored digests and yields content with that digest |
| VLStore.IndexOfStable | src/hdf5_back.cc:552-571 | appending keys does not move a stored digest |
| VLStore.PutExtends | src/hdf5_back.cc:466-478 | `VLWrite` only appends, and its digest is stored afterwards |
| VLStore.PutAllEffect | src/hdf5_back.cc:413-425 | storing a sequence of values keeps the invariant, only appends, and leaves each value's digest stored |
| VLStore.PutAllAppend | src/hdf5_back.cc:389-435 | storing two sequences one after the other is storing their concatenation |
| VLStore.PutVals | src/hdf5_back.cc:466-478 | one store adds at most its own content to the value lists |
| VLStore.PutAllContents | src/hdf5_back.cc:413-425 | a sequence of stores adds no content but its own |
| VLStore.ContentsSnoc | src/hdf5_back.cc:413-425 | the contents of all but the last item, plus the last item's, are among the contents of the whole |
| VLStore.PutAllRetrievable | src/hdf5_back.cc:438-478 | after storing a sequence, looking up the digest of any item yields that item's content, provided the hasher separates the contents involved |
| VLStore.LookupStable | src/hdf5_back.cc:552-589 | as the store grows by appending, every stored digest keeps resolving to the same content |
| VLStore.OpenForRead | src/hdf5_back.cc:444 | `VLRead` opening the value dataset changes nothing a lookup sees |
| VLStore.ReadOnlyValid | src/hdf5_back.cc:438-464 | such a read-side change keeps the store invariant |
| VLStore.ReadOnlyLookup | src/hdf5_back.cc:438-464 | such a change leaves every lookup as it was |
| VLStore.ReloadAsWrittenDuplicatesKey | src/hdf5_back.cc:512-516 | with the reversed `memcpy`, writing content a previous run stored appends its digest a second time; the corrected store keeps one |
| Codec.Truncate | src/hdf5_back.cc:407-409 | the first `min(len, width)` bytes: a prefix of the string, as long as the width or the whole string |
| Codec.PadFixed | src/hdf5_back.cc:405-411 | a STRING field is exactly its width |
| Codec.FindNul | src/hdf5_back.cc:158 | the position of the first NUL (everything before it NUL-free), or none when the bytes are NUL-free |
| Codec.DecodeFixed | src/hdf5_back.cc:156-160 | the decoded string is a NUL-free prefix of the field, followed in the field by a NUL unless it is the whole field |
| Codec.DecodeFixedAsWritten | src/hdf5_back.cc:156-160 | when the as-written decode succeeds, it agrees with the intended one |
| Codec.DecodeFixedUnique | src/hdf5_back.cc:156-160 | the longest NUL-free prefix is unique |
| Codec.PadThenDecode | src/hdf5_back.cc:405-411 | decoding ignores the NUL padding after the truncated string |
| Codec.FixedStringRoundTrip | src/hdf5_back.cc:405-411 | a NUL-free string comes back truncated to the width, hence unchanged exactly when it fits |
| Codec.FullWidthStringAsWrittenFails | src/hdf5_back.cc:158-160 | the as-written decode throws `length_error` on every NUL-free string at least as wide as its field, where the intended decode returns it truncated |
| Codec.EncodeCell | src/hdf5_back.cc:398-431 | a packed field is exactly its column's width |
| Codec.DecodeField | src/hdf5_back.cc:130-187 | a decoded value has the column's kind and is well formed. Decoding fails exactly for BOOL, with the "booleans not yet implemented" `IOError`, and for a digest the store lacks, which the model turns into an `IOError` (see "Left out") |
| Codec.CellRoundTrip | src/hdf5_back.cc:130-187 | decoding an encoded field gives back the cell's value as it reads back, given that the store holds its content |
| Codec.ReadbackExact | src/hdf5_back.cc:405-411 | every value except an over-long or NUL-holding fixed string reads back unchanged |
| Codec.GroupCellsLength | src/hdf5_back.cc:389-390 | a group of `n` datums of `m` columns has `n * m` cells |
| Codec.FirstBool | src/hdf5_back.cc:394-395 | the first BOOL cell, where FillBuf throws: no BOOL before it, and a BOOL there unless it is the end |
| Codec.ConcatAppend | src/hdf5_back.cc:386-434 | laying out two runs of parts is laying out each in turn |
| Codec.ConcatLength | src/hdf5_back.cc:386-434 | the laid-out bytes are as long as the parts add up to |
| Codec.ConcatPlacement | src/hdf5_back.cc:386-434 | part `i` sits at its offset |
| Codec.AllEncodableConcat | src/hdf5_back.cc:386-434 | two runs of writable cells make one |
| Codec.EncodeCellsAppend | src/hdf5_back.cc:386-434 | packing two runs of cells is packing each in turn |
| Codec.EncodeCellsLength | src/hdf5_back.cc:433 | the packed bytes are as long as the cell widths add up to |
| Codec.EncodeCellsPlacement | src/hdf5_back.cc:386-434 | cell `i` is packed at the sum of the widths before it |
| Codec.Split | src/hdf5_back.cc:367 | a buffer of `n * rowsize` bytes is `n` rows of `rowsize` bytes |
| Codec.SplitSnoc | src/hdf5_back.cc:367 | one more row in the buffer is one more row in the split |
| Codec.EncodeRowLength | src/hdf5_back.cc:386-434 | a packed row is exactly the row size |
| Codec.EncodeRow | src/hdf5_back.cc:389-434 | the packed bytes of one datum's row: its cells' fields one after the other. EncodeRowLength gives its length, and RowPlacement puts each column at its offset |
| Codec.GroupCellsEncodable | src/hdf5_back.cc:389-434 | a group whose rows are writable has only writable cells |
| Codec.GroupEncodablePrefix | src/hdf5_back.cc:389-434 | the first datums of a writable group are writable |
| Codec.EncodedRows | src/hdf5_back.cc:389-434 | one packed row per datum, in group order |
| Codec.GroupSnoc | src/hdf5_back.cc:389-434 | the group buffer is that of all datums but the last, followed by the last datum's row |
| Codec.GroupRows | src/hdf5_back.cc:367-368 | the group buffer has length `group.size() * rowsize`, and split at the row size it gives each datum's packed row, in group order |
| Codec.RowStartMul | src/hdf5_back.cc:367 | row `k` starts at `k * rowsize` |
| Codec.RowStartWithin | src/hdf5_back.cc:367 | a row before the last ends inside the buffer |
| Codec.MulStep | src/hdf5_back.cc:367 | row `k` of `n` rows ends no later than the buffer |
| Codec.SplitRow | src/hdf5_back.cc:367 | row `k` of a split buffer is the `k`-th run of `rowsize` bytes |
| Codec.RowInGroup | src/hdf5_back.cc:386-434 | the bytes at `k * rowsize` are the packed row of datum `k` |
| Codec.RowPlacement | src/hdf5_back.cc:386-434 | column `c`'s value sits at `offset[c]` within its row, so row `k`, column `c` lands at `k * rowsize + offset[c]` |
| Codec.ConformsRowOk | src/hdf5_back.cc:389-393 | a datum of the table's schema gives a well-formed cell for every column |
| Codec.GroupCellsPrefix | src/hdf5_back.cc:389-390 | the cells of the first datums come first |
| Codec.CellSizesAppend | src/hdf5_back.cc:433 | the widths of two runs of cells are those of each in turn |
| Codec.RowStartStep | src/hdf5_back.cc:433 | row `k + 1` starts one row after row `k` |
| Codec.GroupCellsStep | src/hdf5_back.cc:389-390 | the cells of datums `0..k` are those of `0..k-1` followed by datum `k`'s |
| Codec.VLItemsAppend | src/hdf5_back.cc:413-425 | two runs of cells send their values to the store in turn |
| Codec.FirstBoolAppend | src/hdf5_back.cc:394-395 | after a run without BOOL, the first BOOL is found in what follows |
| Codec.FirstBoolPrefix | src/hdf5_back.cc:394-395 | a BOOL in a prefix is the first BOOL of the whole |
| Codec.PackRowFacts | src/hdf5_back.cc:389-434 | a row without BOOL extends the packed bytes and the stored values by its own; a row with one ends the group's walk at that cell |
| Codec.GroupFailsAt | src/hdf5_back.cc:394-395 | FillBuf stops in datum `k` at that row's first BOOL, and the values stored before it are those of the earlier datums and of the row up to it |
| Codec.StopsInRow | src/hdf5_back.cc:394-395 | the first BOOL of the group lies in the row that holds it, and the values stored before it follow |
| Codec.CellStep | src/hdf5_back.cc:390-433 | packing one more cell appends its bytes, its width and its stored value |
| Codec.EncodeOne | src/hdf5_back.cc:398-431 | packing one cell is that cell's field |
| Scan.CondsFor | src/hdf5_back.cc:98-108 | `field_conds[field]` holds exactly the conditions on that field |
| Scan.CondFields | src/hdf5_back.cc:98-108 | the keys of `field_conds` after the first loop are exactly the fields some condition names |
| Scan.CondFieldsSnoc | src/hdf5_back.cc:104-106 | one more condition adds its field to the keys |
| Scan.CondsForNone | src/hdf5_back.cc:113-115 | a field no condition names has no conditions |
| Scan.CondsForSnoc | src/hdf5_back.cc:106 | pushing a condition extends its own field's list only, at the end |
| Scan.PushCond | src/hdf5_back.cc:104-106 | one push keeps the map the conditions by field of the conditions seen |
| Scan.CondsByField | src/hdf5_back.cc:98-108 | the first loop yields, for each field some condition names, that field's conditions in the caller's order, and no other keys |
| Scan.WithFields | src/hdf5_back.cc:111-115 | after the fields loop, every field of the table has an entry, and each entry is exactly the conditions on its field |
| Scan.CmpConds | src/hdf5_back.cc:137 | a value passes exactly when every condition on its field holds |
| Scan.FieldSlices | src/hdf5_back.cc:127-191 | the row is cut into one slice per field, each as wide as its column |
| Scan.DecodeRow | src/hdf5_back.cc:129-192 | an accepted row holds one value per column |
| Scan.DecodeRecord | src/hdf5_back.cc:126-192 | the verdict on one stored record: its row cut into fields at the cached widths, then decoded left to right. AcceptedIff, StopsAtRejection and FailsAt characterise it, and RowReadBack inverts it for a written row |
| Scan.ScanRows | src/hdf5_back.cc:116-203 | the rows a query keeps: the accepted records in on-disk order, or the first error met. ScanAppend splits it, ScanBounded bounds it, and GroupReadBack inverts it for a written group |
| Scan.SlicesFit | src/hdf5_back.cc:127-191 | every slice has the width its tag requires |
| Scan.SliceBounds | src/hdf5_back.cc:191 | the running `offset` grows by each field's width and stays inside the row |
| Scan.SliceAt | src/hdf5_back.cc:127-191 | the bytes at the running offset are field `j` |
| Scan.DecodeFrom | src/hdf5_back.cc:129-192 | decoding from field `j` on: field `j` first, then the rest |
| Scan.ContinueAppend | src/hdf5_back.cc:129-192 | continuing twice is continuing with both prefixes |
| Scan.RowStep | src/hdf5_back.cc:129-192 | with the earlier fields decoded, field `j` fails the row, rejects it, or extends the row's values |
| Scan.AcceptedIff | src/hdf5_back.cc:126-199 | a row is kept exactly when every field decodes and passes its conditions, and then it holds the decoded values in column order |
| Scan.StopsAtRejection | src/hdf5_back.cc:189-190 | once a field rejects, the later fields' bytes do not matter, even ones that would fail to decode |
| Scan.FailsAt | src/hdf5_back.cc:131-132 | a field that fails to decode (BOOL, or a missing digest) aborts the query with its error once the earlier fields passed |
| Scan.NoConditionsAccept | src/hdf5_back.cc:113-115 | a field with no conditions accepts every value it decodes to |
| Scan.QueryOf | src/hdf5_back.cc:82-211 | a successful query's fields and types are the table's names and tags |
| Scan.RecordsFitAppend | src/hdf5_back.cc:116-203 | two runs of whole rows make one |
| Scan.RecordsFitPrefix | src/hdf5_back.cc:116-203 | the first records of a table hold whole rows |
| Scan.RecordsFitSuffix | src/hdf5_back.cc:116-203 | the last records of a table hold whole rows |
| Scan.ScanAppend | src/hdf5_back.cc:116-203 | scanning two runs of records gives the first run's rows then the second's, or the first error met |
| Scan.ScanBounded | src/hdf5_back.cc:193-194 | there are no more kept rows than records, and each kept row is an accepted record of the table |
| Scan.ChunkCount | src/hdf5_back.cc:94 | `nchunks` is `ceil(len / chunk)` |
| Scan.ChunksPartition | src/hdf5_back.cc:116-118 | chunk `n` starts where chunk `n - 1` ended, every chunk but the last is full, and the last ends at the table's end |
| Scan.MonoMul | src/hdf5_back.cc:117 | chunk starts grow with the chunk number |
| Scan.ReadbackRow | src/hdf5_back.cc:126-199 | a datum's row reads back as one value per column |
| Scan.RowReadBack | src/hdf5_back.cc:126-199 | a written row, queried with no conditions, is accepted and holds its datum's values as they read back |
| Scan.FieldReadBack | src/hdf5_back.cc:129-191 | each field of a written row decodes to its datum's value |
| Scan.ReadbackRows | src/hdf5_back.cc:126-199 | one read-back row per datum, in order |
| Scan.EncodedRowsFit | src/hdf5_back.cc:367-371 | written rows hold whole rows |
| Scan.GroupReadBack | src/hdf5_back.cc:116-203 | querying with no conditions the rows written for a group returns one row per datum, in write order, each holding its datum's values |
| LexOrder.LexLeRefl | src/hdf5_back.cc:76-79 | string order is reflexive |
| LexOrder.LexLeTotal | src/hdf5_back.cc:76-79 | string order is total |
| LexOrder.LexLeAntisymmetric | src/hdf5_back.cc:76-79 | string order is antisymmetric |
| LexOrder.LexLeTransitive | src/hdf5_back.cc:76-79 | string order is transitive |
| LexOrder.LeastExists | src/hdf5_back.cc:76-79 | every non-empty set of titles has a least title |
| LexOrder.LeastUnique | src/hdf5_back.cc:76-79 | the least title is unique |
| LexOrder.EnumerationExists | src/hdf5_back.cc:76-79 | every set of titles has an ascending enumeration |
| LexOrder.Ascending | src/hdf5_back.cc:76-79 | a map visits its keys once each, in strictly ascending order |
| LexOrder.EnumerationHead | src/hdf5_back.cc:76-79 | the first key visited is the least |
| LexOrder.EnumerationTail | src/hdf5_back.cc:76-79 | after the first key, the rest are visited in ascending order |
| LexOrder.EnumerationUnique | src/hdf5_back.cc:76-79 | a set has one ascending enumeration, so the visit order is determined |
| LexOrder.AscendingStep | src/hdf5_back.cc:76-79 | the visit is the least key, then the rest in order |
| LexOrder.AscendingEmpty | src/hdf5_back.cc:76-79 | an empty map visits nothing |
| LexOrder.AscendingPosition | src/hdf5_back.cc:76-79 | every key is visited |
| LexOrder.AscendingAvoids | src/hdf5_back.cc:76-79 | a title without a group is never visited |
| Tables.FirstIndex | src/hdf5_back.cc:67-72 | the first datum of a title: it has the title and no earlier datum does |
| Tables.TitleIndices | src/hdf5_back.cc:73 | the positions of a title's datums, increasing, all of them |
| Tables.GroupOf | src/hdf5_back.cc:73 | `groups[t]` is the datums of title `t` in input order |
| Tables.Groups | src/hdf5_back.cc:66-74 | the map Notify builds from title to that title's datums in input order. GroupsSnoc shows it is what the `push_back` loop builds |
| Tables.GroupsSnoc | src/hdf5_back.cc:73 | `groups[name].push_back(d)` appends to that title's group (empty if new) and leaves the other groups alone |
| Tables.GroupOfSnoc | src/hdf5_back.cc:73 | one push extends its own title's group only |
| Tables.GroupOfAbsent | src/hdf5_back.cc:73 | a title with no datum has no group |
| Tables.AllWellFormedPrefix | src/hdf5_back.cc:67 | the first datums of a well-formed batch are well formed |
| Tables.WriteOutcome | src/hdf5_back.cc:372-374 | a failed append throws, and only `IOError` is thrown |
| Tables.WriteGroup | src/hdf5_back.cc:360-376 | a group write changes no table and no cache, and its outcome is the BOOL `IOError`, the append `IOError` or success |
| Tables.WriteGroupOk | src/hdf5_back.cc:360-376 | a group write keeps the state invariant, throws only `IOError`, appends nothing when it throws, and only grows the value store |
| Tables.RecordsOkSet | src/hdf5_back.cc:370-371 | replacing a table's records by whole rows keeps every record one row wide |
| Tables.WriteGroupRecords | src/hdf5_back.cc:360-376 | a group write appends to its own table only, only when it does not throw, and then exactly the group's packed rows |
| Tables.PutAllValid | src/hdf5_back.cc:413-425 | the values FillBuf stores keep the store valid and only append |
| Tables.EncodedRowsFit | src/hdf5_back.cc:370-371 | appending a group's rows keeps every record one row wide |
| Tables.NoBoolEncodable | src/hdf5_back.cc:389-434 | a group with no BOOL cell is writable |
| Tables.WriteAll | src/hdf5_back.cc:76-79 | the write loop changes no table and no cache, and its outcome is that of the first group that throws |
| Tables.WriteAllOk | src/hdf5_back.cc:76-79 | the write loop keeps the state invariant, throws only `IOError`, and only grows the value store |
| Tables.ExtendsTransitive | src/hdf5_back.cc:466-478 | the store only ever grows, over several writes too |
| Tables.CreateAllSnoc | src/hdf5_back.cc:67-72 | one pass of the first loop creates a table only when the title has no cached row size |
| Tables.Create | src/hdf5_back.cc:264-358 | `CreateTable` on the state: the table is made only if absent, and the derived layout is cached whatever happens. CreateExplicit spells it out field by field, and LayoutTiles and ColumnOf give the layout |
| Tables.CreateAll | src/hdf5_back.cc:66-72 | the first loop of Notify. CreateAllTitles, CreateAllKeeps, CreateAllNew and CreateAllReady give its effect |
| Tables.TitlesSnoc | src/hdf5_back.cc:67-73 | one more datum adds its title |
| Tables.CreateAllTitles | src/hdf5_back.cc:67-72 | after the first loop, the titles with a cached row size are the old ones plus the batch's |
| Tables.CreateAllKeeps | src/hdf5_back.cc:69-72 | the first loop leaves alone every title that is cached already or not in the batch |
| Tables.CreateAllRecords | src/hdf5_back.cc:67-72 | the first loop keeps a record list beside every table and drops no table |
| Tables.CreateAllNew | src/hdf5_back.cc:69-72 | a new title's schema is created from the first datum of that title |
| Tables.FirstIndexLast | src/hdf5_back.cc:67-72 | a title first met at the last datum has its first datum there |
| Tables.FirstIndexSnoc | src/hdf5_back.cc:67-72 | a later datum does not change a title's first datum |
| Tables.GroupHead | src/hdf5_back.cc:73 | the first datum of a title leads its group |
| Tables.CreateAllConsistentAt | src/hdf5_back.cc:67-72 | after the first loop, the caches of each title agree with its table's schema |
| Tables.CreateAllReady | src/hdf5_back.cc:65-80 | after the first loop the state invariant holds and every group can be written |
| Tables.CreateAllGroupsReady | src/hdf5_back.cc:65-80 | after the first loop every group fits its table and has its layout cached |
| Tables.CreateAllCacheKeys | src/hdf5_back.cc:354-357 | the first loop caches each title's layout as a whole |
| Tables.WriteAllStops | src/hdf5_back.cc:76-79 | once a group throws, the later groups change nothing |
| Tables.WriteAllSnoc | src/hdf5_back.cc:76-79 | the write loop, taken from the back: the writes so far, then the next group unless one already threw |
| Tables.WriteAllKeeps | src/hdf5_back.cc:76-79 | a title the loop does not visit keeps its records |
| Tables.WriteAllAppends | src/hdf5_back.cc:76-79 | when the loop succeeds, each visited title's records gain exactly its group's rows, once |
| Tables.NoDupInit | src/hdf5_back.cc:76-79 | dropping the last visited title keeps the titles distinct, and the last is not among the others |
| Tables.OutcomesFailing | src/hdf5_back.cc:372-374 | when the loop succeeds, no visited title's append failed |
| Tables.AscendingNoDup | src/hdf5_back.cc:76-79 | the titles of a map are visited once each |
| Tables.NotifyKeeps | src/hdf5_back.cc:65-80 | `Notify` leaves the records of every table outside the batch as they were |
| Tables.Notify | src/hdf5_back.cc:65-80 | the state and outcome of `Notify`: the first loop, then the groups written in ascending title order. NotifyAppends, NotifyKeeps, NotifyFailing and NotifyValid give its effect |
| Tables.WriteAllKeepsOutside | src/hdf5_back.cc:76-79 | the map-ordered loop leaves every table without a group alone |
| Tables.OutcomesAvoid | src/hdf5_back.cc:76-79 | writing every group succeeds only if no append fails |
| Tables.NotifyFailing | src/hdf5_back.cc:65-80 | `Notify` succeeds only if no title of the batch has a failing append |
| Tables.NotifyAppends | src/hdf5_back.cc:65-80 | after a successful `Notify`, each title of the batch has gained exactly its datums' packed rows, in input order, appended once |
| Tables.NotifyValid | src/hdf5_back.cc:65-80 | `Notify` keeps the state invariant and the store valid, and only grows the store |
| Tables.CreateAllVL | src/hdf5_back.cc:67-72 | creating tables does not touch the value store |
| Hdf5.Hdf5Back.constructor | src/hdf5_back.cc:11-38 | a back end opened on a file holds its tables, records and value datasets, with nothing cached and nothing open |
| Hdf5.Hdf5Back.Notify | src/hdf5_back.cc:65-80 | the new state and the outcome are those of `Tables.Notify`, and the invariant is kept |
| Hdf5.Hdf5Back.CreateAndGroup | src/hdf5_back.cc:66-74 | the first loop leaves the state of `CreateAll` and returns `Groups(data)` |
| Hdf5.Hdf5Back.WriteGroups | src/hdf5_back.cc:76-79 | the second loop's state and outcome are `WriteAll` over the titles in ascending order |
| Hdf5.Hdf5Back.WriteNext | src/hdf5_back.cc:77-78 | one pass of the second loop extends `WriteAll` by one title |
| Hdf5.Hdf5Back.CreateTable | src/hdf5_back.cc:264-358 | the new state is `Create` of the old one |
| Hdf5.Hdf5Back.Layout | src/hdf5_back.cc:270-328 | the loop computes the derived columns with their offsets, row size, widths and tags |
| Hdf5.Hdf5Back.FieldType | src/hdf5_back.cc:279-327 | the tag and width given to a field are those of `ColumnOf` |
| Hdf5.Hdf5Back.MakeTable | src/hdf5_back.cc:338-351 | `H5TBmake_table` adds an empty table with chunk size 1000 and changes nothing else |
| Hdf5.Hdf5Back.CacheLayout | src/hdf5_back.cc:354-357 | the four caches get the title's entries and nothing else changes |
| Hdf5.Hdf5Back.LoadTableTypes | src/hdf5_back.cc:233-258 | the tags are cached from the table's schema unless already cached; nothing else changes and the caches stay consistent |
| Hdf5.ReadTypes | src/hdf5_back.cc:246-256 | the tags copied out of the attribute are the attribute's |
| Hdf5.Hdf5Back.GetTableInfo | src/hdf5_back.cc:213-231 | the field names and tags are the table's, and the only change is `LoadTableTypes`' |
| Hdf5.Hdf5Back.Query | src/hdf5_back.cc:82-211 | the result is `QueryOf` the table's columns and records; tables and records are unchanged, the store changes only by opening for reading, and the invariant is kept |
| Hdf5.Hdf5Back.ReadTable | src/hdf5_back.cc:111-210 | the rows read are `QueryOf` the table |
| Hdf5.Hdf5Back.ScanChunks | src/hdf5_back.cc:116-203 | the chunk loop returns `ScanRows` of all the records |
| Hdf5.Hdf5Back.NextChunk | src/hdf5_back.cc:117-201 | chunk `n` ends at `min((n+1)*chunk, len)`, and its rows extend the rows so far, or its error is the scan's |
| Hdf5.Hdf5Back.ReadChunk | src/hdf5_back.cc:126-200 | the row loop returns `ScanRows` of the chunk |
| Hdf5.Hdf5Back.ReadRow | src/hdf5_back.cc:127-199 | the field loop returns `DecodeRecord` of the row |
| Hdf5.Hdf5Back.FieldStep | src/hdf5_back.cc:129-191 | one field: the running offset advances by its width, the value is `DecodeField` of the slice, and `is_valid_row` is the conditions' verdict |
| Hdf5.Hdf5Back.ReadField | src/hdf5_back.cc:130-187 | the field's value or error is `DecodeField` |
| Hdf5.Hdf5Back.VLDataset | src/hdf5_back.cc:480-550 | the store becomes `Open` of the old one |
| Hdf5.Hdf5Back.AppendVLKey | src/hdf5_back.cc:552-572 | the key list grows by the digest at position `origlen`, the set gains it, and nothing else changes |
| Hdf5.Hdf5Back.InsertVLVal | src/hdf5_back.cc:574-589 | the value list grows by the content, and nothing else changes |
| Hdf5.Hdf5Back.VLWrite | src/hdf5_back.cc:466-478 | the key returned is the content's digest, the store becomes `Put` of the old one, stays valid and only grows |
| Hdf5.Hdf5Back.VLRead | src/hdf5_back.cc:438-464 | the content stored under the digest; a digest the store lacks gives the model's `IOError` (see "Left out") |
| Hdf5.Hdf5Back.FieldBytes | src/hdf5_back.cc:398-431 | the bytes written for a cell are `EncodeCell`, and its value, if variable-length, is stored |
| Hdf5.Hdf5Back.FillBuf | src/hdf5_back.cc:378-436 | the values up to the first BOOL are stored in order. The outcome is the BOOL `IOError` if there is a BOOL cell, and otherwise the buffer is the group's packed cells |
| Hdf5.Hdf5Back.FillRows | src/hdf5_back.cc:389-435 | the row loop leaves the group's packed cells in the buffer, or stops at the first BOOL with the values before it stored |
| Hdf5.Hdf5Back.PackRow | src/hdf5_back.cc:389-434 | row `k` is packed at `k * rowsize`, extending the buffer and the store, or the group stops at its first BOOL |
| Hdf5.Hdf5Back.FillRow | src/hdf5_back.cc:390-434 | one datum's cells are packed after the bytes before it, or it stops at its first BOOL |
| Hdf5.Hdf5Back.PackCell | src/hdf5_back.cc:393-433 | a BOOL cell throws the BOOL `IOError`; any other cell is packed at the running offset |
| Hdf5.Hdf5Back.PutCell | src/hdf5_back.cc:398-433 | a non-BOOL cell's field is written at the running offset, which then advances by its width |
| Hdf5.Hdf5Back.WriteGroup | src/hdf5_back.cc:360-376 | the new state and outcome are `Tables.WriteGroup`'s, and the invariant is kept |
| Hdf5.Hdf5Back.PackAndAppend | src/hdf5_back.cc:367-375 | FillBuf, then the append or its `IOError`, give `Tables.WriteGroup`'s state and outcome |
| Hdf5.Hdf5Back.AppendRecords | src/hdf5_back.cc:370-371 | the table gains the rows at its end, and nothing else changes |
| Hdf5.Hdf5Back.CopyInto | src/hdf5_back.cc:402 | `memcpy` replaces exactly the bytes at the offset |
| Hdf5.QueryLayout | src/hdf5_back.cc:157-191 | the cached widths a query uses are the table's, and every record holds a whole row |
| Hdf5.RowScanned | src/hdf5_back.cc:193-199 | one more record extends the kept rows by its own, or ends the scan with its error |
| Hdf5.ChunkScanned | src/hdf5_back.cc:116-122 | scanning up to a chunk's end is scanning the records before it, then the chunk |
| Hdf5.GroupLayout | src/hdf5_back.cc:363-384 | the cached tags and widths of a group's table are those of its schema, and each datum is a well-formed row under them |
| Hdf5.CreateStep | src/hdf5_back.cc:67-72 | one pass of the first loop in value form |
| Hdf5.CreatedReady | src/hdf5_back.cc:65-80 | after the first loop the groups can be written, and `Notify` is the write loop over them in map order |
| Hdf5.VisitStep | src/hdf5_back.cc:76-79 | the least remaining title is the next one visited |
| Hdf5.WriteStep | src/hdf5_back.cc:76-79 | after the groups written so far, the next group can be written, and writing it extends the loop |
| Hdf5.CreateExplicit | src/hdf5_back.cc:338-357 | `Create` field by field: the new table and the four cache entries |
| Hdf5.RowPacked | src/hdf5_back.cc:389-434 | one pass of the row loop in value form |
| Hdf5.PackedGroupWrite | src/hdf5_back.cc:367-375 | a thrown exception or a failed append leaves the records alone; otherwise the buffer, split into rows, is what gets appended |
| Hdf5.CellPacked | src/hdf5_back.cc:393-433 | one pass of the column loop in value form |
| Hdf5.FirstBoolAt | src/hdf5_back.cc:394-395 | FillBuf throws at the first BOOL cell it meets |
| Hdf5.GroupCellsWhole | src/hdf5_back.cc:389-435 | once every row is packed, the cells visited are the group's, and none is BOOL |
| Timing.CDiv | src/Core/Utility/Timer.cpp:251 | C++ division truncates toward zero: for `a >= 0` the quotient is the largest `q >= 0` with `b * q <= a`, and for `a < 0` the smallest `q <= 0` with `a <= b * q` |
| Timing.CMod | src/Core/Utility/Timer.cpp:250 | the C++ remainder satisfies `a == 12 * (a / 12) + a % 12` and takes the sign of `a` |
| Timing.Caught | src/Core/Utility/Timer.cpp:85-155 | a dispatch logs at most one message per listener |
| Timing.CaughtSnoc | src/Core/Utility/Timer.cpp:85-155 | the messages logged, taken from the back |
| Timing.CaughtContinues | src/Core/Utility/Timer.cpp:85-155 | when no handler throws anything but a `CycException`, every listener is called in registration order, and the messages logged are those of the `CycException`s, in order |
| Timing.EscapeStops | src/Core/Utility/Timer.cpp:85-155 | another exception ends the dispatch at the first listener that throws one: the listeners up to it are called, and that exception escapes |
| Timing.VisitsPrefix | src/Core/Utility/Timer.cpp:85-155 | the listeners called are always the first ones registered, in order. No exception escapes exactly when all are called and none throws anything but a `CycException` |
| Timing.EscapedLast | src/Core/Utility/Timer.cpp:85-155 | an escaping exception comes from the last listener called |
| Timing.Send | src/Core/Utility/Timer.cpp:85-155 | the dispatch loop's result is `Deliver` of the listeners |
| Timing.EscapedKeeps | src/Core/Utility/Timer.cpp:85-155 | after an exception escapes, the later listeners change nothing |
| Timing.Timer.constructor | src/Core/Utility/Timer.cpp:239-241 | the time is 0 and no agent listens |
| Timing.Timer.Initialize | src/Core/Utility/Timer.cpp:189-211 | fields are set in source order. The month is checked first (with `year0_` not yet set), then the year against 1942 and 2063, each with its own message. It succeeds exactly when the start date is in range |
| Timing.Timer.RegisterTickListener | src/Core/Utility/Timer.cpp:158-162 | the agent goes to the end of the tick listeners, and nothing else changes |
| Timing.Timer.RegisterResolveListener | src/Core/Utility/Timer.cpp:165-169 | the agent goes to the end of the resolve listeners, and nothing else changes |
| Timing.Timer.HandlePreHistory | src/Core/Utility/Timer.cpp:85-95 | every tick listener gets `handlePreHistory`, with `CycException`s isolated |
| Timing.Timer.SendTick | src/Core/Utility/Timer.cpp:113-126 | every tick listener gets `handleTick(time_)`, with `CycException`s isolated |
| Timing.Timer.SendTock | src/Core/Utility/Timer.cpp:129-142 | every tick listener gets `handleTock(time_)`, with `CycException`s isolated |
| Timing.Timer.SendResolve | src/Core/Utility/Timer.cpp:97-110 | every resolve listener gets `resolve()`, with `CycException`s isolated |
| Timing.Timer.SendDailyTasks | src/Core/Utility/Timer.cpp:145-155 | every tick listener gets `handleDailyTasks(time_, day)`, with `CycException`s isolated |
| Timing.Timer.StartTime | src/Core/Utility/Timer.cpp:244-246 | `convertDate(month0, year0) == time0` |
| Timing.Timer.ConvertToTime | src/Core/Utility/Timer.cpp:244-246 | `convertDate(month, year)`: the months since the start, plus `time0`. StartTime, CalendarRoundTrip and CalendarOfTime relate it to the dates |
| Timing.Timer.ConvertToDate | src/Core/Utility/Timer.cpp:249-253 | `convertDate(time)` as written. DateFromStart and DateRoundTrip prove it right from the start on for a January start, and MonthZeroAsWritten and StartMonthIgnoredAsWritten exhibit where it goes wrong |
| Timing.Timer.DateFromStart | src/Core/Utility/Timer.cpp:249-253 | from the start on, the month is in 1..12 and `(year - year0) * 12 + (month - 1) == time - time0`; `convertDate(time0) == (1, year0)` |
| Timing.Timer.DateRoundTrip | src/Core/Utility/Timer.cpp:244-253 | with `month0 == 1`, `convertDate(convertDate(time)) == time` from the start on |
| Timing.Timer.CalendarDate | src/Core/Utility/Timer.cpp:249-253 | the corrected conversion always yields a month in 1..12 |
| Timing.Timer.CalendarRoundTrip | src/Core/Utility/Timer.cpp:244-253 | the corrected conversion is undone by `convertDate(month, year)` for every timestep, before the start too |
| Timing.Timer.CalendarOfTime | src/Core/Utility/Timer.cpp:244-253 | and it undoes `convertDate(month, year)` for every month 1..12 |
| Timing.Timer.CalendarAsWritten | src/Core/Utility/Timer.cpp:249-253 | the corrected and as-written conversions agree when the simulation starts in January, from the start on |
| Timing.Timer.MonthZeroAsWritten | src/Core/Utility/Timer.cpp:250-251 | as written, the timestep before the start is month 0 of the start year |
| Timing.Timer.StartMonthIgnoredAsWritten | src/Core/Utility/Timer.cpp:244-253 | as written, with `month0 == 3`, `convertDate(time0)` is January, and converting it back lands two months early; the corrected date is March |

## Left out

- HDF5 itself: files, datasets, hyperslabs, attributes, chunked I/O, compression and the destructor's handle cleanup. Tables are values (`Table`, plus a record list), and a chunk read is a slice of the record list.
- `Hdf5Back::Name`, `Flush` and the destructor: they hold no logic beyond HDF5 calls.
- The SHA-1 hasher: an abstract function of content, fixed at construction. Whether it separates two contents is an explicit hypothesis (`CollisionFree`) where retrieval depends on it.
- The HDF5 status checks in `VLDataset`, `AppendVLKey`, `InsertVLVal` and `VLRead`: storage failures are not modelled. The one storage failure modelled is a failing `H5TBappend_records`, given as a parameter (`failing`, `fails`).
- Hdf5.Hdf5Back.VLRead: the value dataset is looked up by the digest's position in the key list, not at the digest read as a five-dimensional coordinate.
- Codec.DecodeField, Hdf5.Hdf5Back.VLRead: a digest the store lacks is turned into an `IOError` with the hyperslab message. As written, the value dataset spans `UINT_MAX` in each of its five dimensions (line 538), so the selection at lines 448-451 succeeds for practically every digest. `H5Dread` then yields the fill value, and `T(buf[0])` builds the value from a null `char*` (lines 453-456): undefined behaviour, which the model does not follow.
- BLOB fields are modelled as intended, through the value store like `VL_STRING`. As written, FillBuf stores the raw heap address of the blob and Query reads those address bytes back.
- Hdf5.Hdf5Back.Query: each kept row is a fresh row. As written, the row at lines 195-198 is shadowed and then cleared, so a later `row[j]` writes out of bounds.
- Hdf5.Hdf5Back.Query: requires the table's layout cached in this process (`title in tblSizes`). This excludes every query on a table this process did not create. As written, `tbl_sizes_[table]` for such a table is a null `size_t*`: line 191 reads it after every field that passes, whatever its type, and line 157 reads it for a STRING field. Only an empty table, or one whose every row is rejected at its first field, gets through without dereferencing null; the model does not cover those queries either.
- Hdf5.Hdf5Back.Query: a null `conds` argument is modelled as an empty condition list.
- Hdf5.Hdf5Back.Notify: requires every datum to conform to its table's schema. As written, a mismatched value fails `cast` or is copied as raw memory.
- Hdf5.Hdf5Back.Notify: also requires, for a title whose table is already in the file but whose layout is not cached in this process, that the first new datum of that title derives exactly the stored columns. As written, `CreateTable` runs anyway: the failing `H5TBmake_table` is not checked, the caches are overwritten with the derived layout (lines 338-357), and rows are appended in that layout. The model does not follow a reopened table whose first new datum derives a different layout.
- `CmpConds` is not part of this model: a value passes when a caller-given per-condition test `holds` accepts every condition on its field.
- Float and double values are opaque byte tokens of their width. No floating-point comparison is modelled.
- Widths, offsets and row sizes are unbounded naturals, not `size_t`. `int` fields are 32-bit two's complement.
- Timing.Timer.ConvertToTime: C++ `int` overflow is not modelled (unbounded integers).
- Timing.Timer.constructor: `time0_`, `month0_`, `year0_` and `simDur_` start at 0, where C++ leaves them uninitialized.
- Timing.Timer.Initialize: the XML parsing and `strtol` are not modelled; the values read are parameters. The decay check (it uses an undefined `dur`), `Material::setDecay` and the boost calendar dates after line 211 are left out.
- Listener handlers are a caller-given function `respond` from agent and signal to outcome. What a handler does to the simulation, and a handler registering listeners during a dispatch, are not modelled. Logging (`LOG`, `CLOG`) is left out.
- `Timer::runSim`, `getEndDate`, `lastDayOfMonth`, `date_` and the day of the month: boost calendar arithmetic. `SendDailyTasks` takes the day as a parameter.

## Findings

| source | as written | input that shows it | evidently intended | confidence | as-written member | corrected member |
|---|---|---|---|---|---|---|
| src/hdf5_back.cc:158-160 | `nullpos >= 0` always holds, so a field with no NUL is resized to `npos` | a STRING field of width `w` holding `w` non-NUL bytes | keep the whole field when it holds no NUL | high; not executed | Codec.FullWidthStringAsWrittenFails | Codec.FixedStringRoundTrip |
| src/hdf5_back.cc:512-516 | the `memcpy` copies the empty digest into the read buffer, so reopened keys are all the default digest | reopen a file whose `StringKeys` holds the digest of `x`, then write `x` again | load the persisted digests into `vlkeys_` | high; not executed | VLStore.ReloadAsWrittenDuplicatesKey | VLStore.PutIdempotent |
| src/Core/Utility/Timer.cpp:249-253 | `convertDate(time)` ignores `month0_` and uses the truncating `%` | `month0 = 3`: `convertDate(time0)` is `(1, year0)`; `convertDate(time0 - 1)` is month 0 | the inverse of `convertDate(month, year)` | medium; not executed | Timing.Timer.StartMonthIgnoredAsWritten | Timing.Timer.CalendarRoundTrip |
