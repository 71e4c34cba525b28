# Aegis-DB engines: a verified model

Aegis-DB keeps a family of in-memory engines, and each of them keeps a fast structure that must
agree with a simple one. This project models those engines in Dafny and proves the agreement:
for every run of operations, for every interleaving where the engine is concurrent, and for every
input where it is a transformation.

| module | engine | fast structure | what it must agree with |
|---|---|---|---|
| `Grid`, `GeoCollection` | geospatial points | wrapped latitude/longitude cells, widening radius, geometric over-fetch | the whole collection ranked by (distance, node id) |
| `SqlIndex`, `TableIndexes` | SQL secondary indexes | composite-key buckets, several per table | the rows of the table |
| `DocTypes`, `DocIndexes`, `DocStore` | document store | hash buckets, updated outside the document lock | a full scan with the filters |
| `GroupKeys`, `Columnar`, `ColumnarTable`, `ColumnarMeaning` | columnar tables | column vectors, one-pass hash aggregation on a string key | a list of rows, one fold per group |
| `InvertedIndex`, `FullText` | full-text search | postings, lengths, totals, internal document numbers | scoring every live document |
| `Pool` | client connection pool | permits, a channel and counters changed by atomic steps | one owner per connection, conserved counts |
| `Fnv`, `Ledger` | fingerprints and hash chains | a 64-bit state; one hash per entry | the bytes; the whole history |
| `SqlText`, `QueryBuilder` | client query builder | numbered placeholders and a parameter list | the statement with its values in place |
| `Base64`, `ObjectListing` | client encoder, object listing | 3-byte chunks; a range of an ordered map | section 4 of RFC 4648; a filter over all keys |

`Common`, `Ranking`, `Metadata`, `Ieee`, `Decimal`, `Strings`, `Bytes` and `Sums` hold what several of
them share: the unique ranking of a finite set under a strict order, JSON metadata filters, IEEE 754
comparisons by bit pattern, decimal numerals, string order, byte layouts, and sums over maps.

Objects that the engines update in place are classes whose methods are proved against functions of
their old contents; loops stay loops; concurrent protocols (`Pool`, the second half of `DocStore`) are
state machines over their atomic steps. Coordinates and distances are `real`; float arithmetic in
scoring and aggregation is a parameter; SHA-256, JSON serialization, tokenization and great-circle
distance are parameters with no assumed property beyond what a lemma states as a hypothesis.

Where the code does less than it, or its documentation, says, the model follows the code, a lemma
gives an input that shows it, and another says exactly when the property holds:

- `nearest` is documented as exact (crates/aegis-geo/src/grid.rs:171-172), but the band it scans is
  narrower than the disk, since 111,320 metres per degree exceeds the scale of the sphere it measures
  on: `Grid.NearestCanMissTheNearest`, `Grid.NearestExactly`, and with a filter `GeoCollection.FilteredExactly`.
- The antimeridian split of `within_bbox` does not end when the west edge lies beyond 180 degrees or
  the east edge before -180: `Grid.SplitStuck`, `Grid.SplitTerminatesExactly`.
- A cell size above 720 degrees leaves no column, and points are lost: `Grid.NoColumnLosesPoints`.
- An ETag is documented to change if and only if the bytes change (crates/aegis-object/src/types.rs:13-14);
  it always does for one-byte edits and does not in general: `Fnv.EtagOneByteChanges`, `Fnv.EtagCollides`.
- `*` is documented as allowed for count only (crates/aegis-columnar/src/table.rs:149), but any aggregate
  accepts it and then sees no value: `Columnar.StarIsEmpty`.
- The joined group key can confuse tuples of texts that contain U+0001: `GroupKeys.TradeCollides`,
  `GroupKeys.SafeAlphabets`.
- An index on a float field hides -0.0 from an equality with +0.0, which a scan would find:
  `DocIndexes.SignedZeroMissed`, `DocIndexes.ExactFind`.
- Updating a document with a document of another id leaves wrong indexes, except where an index has nothing
  to say of the new document: `DocStore.UpdateExactly`.
- The inverted index accepts a document number twice, and any token list for a removal, and is then wrong:
  `InvertedIndex.AddedExactly`, `InvertedIndex.RemovedExactly`.
- Float keys with a NaN, or with both zeros, are not ordered: `SqlIndex.FloatKeysOrderedExactly`.
- The connection pool's size is not bounded by its maximum (`Pool.SizeUnbounded`): it has a bound over all
  runs exactly when the pool has no permits (`Pool.SizeBoundedExactly`), and along one run the larger of
  maximum and minimum bounds it as long as no `get` finds the channel empty while a return is under way
  (`Pool.SizeBounded`). A cancelled `close` leaves the size too high: `Pool.SizeExact`.
- A late return refills a closed pool (`Pool.ClosedPoolRefilled`); a closed, empty pool stays empty exactly
  when no checkout from before is outstanding (`Pool.StaysEmptyExactly`).
- Placeholders collide when raw SQL or an identifier writes its own: `QueryBuilder.RawMarkCollides`,
  `QueryBuilder.BuiltReads`.

## Model

| member | source | states |
|---|---|---|
| Grid.WrapInjective | crates/aegis-geo/src/grid.rs:39-51 | fewer than a globe of consecutive raw columns wrap to different canonical columns, so no cell is visited twice |
| Grid.TurnedColumn | crates/aegis-geo/src/grid.rs:39-51 | with a cell size dividing the globe, a whole turn of longitude shifts the raw column by a whole number of globes |
| Grid.BandScanned | crates/aegis-geo/src/grid.rs:84-119 | with a cell size dividing the globe, every point with latitude in range and longitude in range up to whole turns lies in a scanned cell, also past the antimeridian and for spans clamped to the globe |
| Grid.InsideScanned | crates/aegis-geo/src/grid.rs:84-119 | without wrapping, any cell size that leaves a column scans every point of the box |
| Grid.NoColumnLosesPoints | crates/aegis-geo/src/grid.rs:39-51 | a cell size that leaves no column misses a point inside the box |
| Grid.SoundInsert | crates/aegis-geo/src/grid.rs:58-67 | appending a point keeps every live node once in the bucket of its own cell, no empty bucket, and an exact live count |
| Grid.SoundRemove | crates/aegis-geo/src/grid.rs:70-82 | removing a live node keeps the same, and its bucket exists |
| Grid.GridIndex.constructor | crates/aegis-geo/src/grid.rs:22-29 | an empty grid; cell sizes below 0.001 degrees are raised to it |
| Grid.GridIndex.Insert | crates/aegis-geo/src/grid.rs:58-67 | the live points gain the new point under the next node id |
| Grid.GridIndex.Remove | crates/aegis-geo/src/grid.rs:70-82 | the live points lose the node; ids are not reused; an unknown or dead id changes nothing |
| Grid.GridIndex.ScanCells | crates/aegis-geo/src/grid.rs:84-119 | visits every live node of a scanned cell exactly once |
| Grid.GridIndex.WithinRadius | crates/aegis-geo/src/grid.rs:122-152 | returns once each scanned node at most the radius away, with its distance |
| Grid.RadiusExact | crates/aegis-geo/src/grid.rs:122-152 | a radius query returns all points within the radius if and only if the scan covers the disk, and never anything else |
| Grid.RadiusCompleteOnSphere | crates/aegis-geo/src/grid.rs:122-152 | on a sphere, poles included, with a cell size dividing the globe, every live point within the radius measured at the code's metres per degree is returned |
| Grid.BandCoversSuffices | crates/aegis-geo/src/grid.rs:122-152 | with a cell size dividing the globe, a band that contains the disk makes the scan cover it |
| Grid.GridIndex.WithinBBox | crates/aegis-geo/src/grid.rs:156-169 | returns without duplicates exactly the points of the box, or of its two halves when it crosses the antimeridian |
| Grid.SplitTerminatesExactly | crates/aegis-geo/src/grid.rs:156-161 | the antimeridian split ends if and only if the box does not start east of 180 or end west of -180 when reversed, and then one level of recursion is enough |
| Grid.SplitStuck | crates/aegis-geo/src/grid.rs:156-161 | on the other boxes no number of nested calls finishes the split |
| Grid.GridIndex.Nearest | crates/aegis-geo/src/grid.rs:173-190 | terminates by the doubling radius and returns the ranking of the first disk that holds k points, truncated to k |
| Grid.NearestExact | crates/aegis-geo/src/grid.rs:173-190 | when no disk the widening search tries has an unscanned point, and the last holds every point, nearest-k is the first min(k, live) points in (distance, node id) order |
| Grid.NearestExactByBands | crates/aegis-geo/src/grid.rs:122-190 | the same from the geometry: with a cell size dividing the globe it is enough that each band contains its disk |
| Grid.NearestExactOnSphere | crates/aegis-geo/src/grid.rs:122-190 | on a sphere of the Earth's size and at least the code's metres per degree, nearest-k is right for every k |
| Grid.RankingByDistance | crates/aegis-geo/src/grid.rs:183-186 | the ranking has every live point once with its distance, by distance and on equal distances by node id |
| Grid.NearestExactly | crates/aegis-geo/src/grid.rs:173-190 | for any collection and query, nearest-k is right for every k if and only if the doubling disks find points in order: none that finds more than the smaller ones misses a closer point, and the last misses none |
| Grid.NearestSelects | crates/aegis-geo/src/grid.rs:173-190 | whatever it misses, nearest-k returns at most k live points with their distances, nearest first, each once |
| Grid.NearestCanMissTheNearest | crates/aegis-geo/src/types.rs:6-8 | with the code's 111,320 metres per degree there are two points of which nearest-1 returns the farther |
| GeoCollection.Collection.Upsert | crates/aegis-geo/src/engine.rs:37-58 | rejects exactly latitudes outside [-90, 90] and longitudes outside [-180, 180] without any change, otherwise the collection maps the id to the new feature and nothing else changes |
| GeoCollection.Collection.Delete | crates/aegis-geo/src/engine.rs:76-86 | removes exactly the feature of that id and says whether there was one |
| GeoCollection.Collection.Nearest | crates/aegis-geo/src/engine.rs:270-303 | over-fetching ends; the answer is always at most k different features that pass the filter, at their distances, nearest first; when the grid finds points in order it is the first k matches of the full ranking, however sparse |
| GeoCollection.FilteredExactly | crates/aegis-geo/src/engine.rs:270-303 | filtered nearest is the first k matches of the full ranking for every k and filter if and only if the grid finds points in order |
| GeoCollection.NearestSensible | crates/aegis-geo/src/engine.rs:270-303 | what holds of every answer, also where the grid misses points |
| GeoCollection.FetchSuffices | crates/aegis-geo/src/engine.rs:286-302 | a prefix of the ranking that holds k matches, or is everything, decides the first k matches |
| Metadata.OneField | crates/aegis-geo/src/engine.rs:105-115 | a filter on one field passes exactly the objects with that value in that field |
| Metadata.MoreFields | crates/aegis-geo/src/engine.rs:105-115 | each further field narrows a filter, and no field filters nothing |
| SqlIndex.KeysOrdered | crates/aegis-query/src/index.rs:111-121 | composite keys are strictly and totally ordered, as the B-tree needs |
| SqlIndex.FloatKeysConfused | crates/aegis-query/src/index.rs:72-80 | two floats are equal to the B-tree and different to the hash map exactly for NaN and for the two zeros |
| SqlIndex.FloatKeysOrderedExactly | crates/aegis-query/src/index.rs:72-80 | a set of float keys is strictly ordered if and only if no two of them are so confused |
| SqlIndex.SameKeyExactly | crates/aegis-query/src/index.rs:92-104 | two rows have one key exactly when, column by column and null when missing, their values are equal, or a timestamp and its seconds, or a text and an equal rendering |
| SqlIndex.KeyLessIs | crates/aegis-query/src/index.rs:117-121 | the order of composite keys is told by the first column that differs; a proper prefix comes first |
| SqlIndex.PartOrder | crates/aegis-query/src/index.rs:92-104 | key parts order SQL values by kind (null, boolean, number or timestamp, text, float) and within a kind as numbers, by first differing character, or as floats |
| SqlIndex.InsertAgrees | crates/aegis-query/src/index.rs:167-189 | inserting a new row's key turns an index of the rows into an index of the rows with it, unique ones still with one row per key |
| SqlIndex.RemoveAgrees | crates/aegis-query/src/index.rs:192-207 | removing a row by its own key turns an index of the rows into an index of the rest |
| SqlIndex.InsertWellFormed | crates/aegis-query/src/index.rs:167-189 | inserting keeps the entry count equal to the total of the bucket sizes and no bucket empty |
| SqlIndex.RemoveWellFormed | crates/aegis-query/src/index.rs:192-207 | removing keeps the same |
| SqlIndex.InsertUndone | crates/aegis-query/src/index.rs:167-207 | removing a fresh row restores the index exactly, buckets and count |
| SqlIndex.RemoveUndone | crates/aegis-query/src/index.rs:167-207 | inserting a removed row again cannot fail and restores the index exactly |
| SqlIndex.AgreesCount | crates/aegis-query/src/index.rs:256-261 | an agreeing index has one entry per row |
| TableIndexes.TableIndex.Insert | crates/aegis-query/src/index.rs:167-189 | fails exactly on a duplicate in a unique index, changing nothing; otherwise the contents gain the pair and the count follows |
| TableIndexes.TableIndex.Remove | crates/aegis-query/src/index.rs:192-207 | the contents lose the pair, an emptied bucket disappears, and the result says whether it was there |
| TableIndexes.TableIndexManager.CreateIndex | crates/aegis-query/src/index.rs:548-590 | adds an empty index under a name not taken among its kind, else changes nothing |
| TableIndexes.NewIndexAgrees | crates/aegis-query/src/index.rs:548-590 | a new index agrees with the table if and only if the table is empty |
| TableIndexes.TableIndexManager.InsertRow | crates/aegis-query/src/index.rs:614-640 | fails exactly when some unique index holds the key; whatever the order of indexes, each one has taken the row or is untouched, and all have on success |
| TableIndexes.TableIndexManager.RemoveRow | crates/aegis-query/src/index.rs:643-664 | every index drops the row under its key |
| TableIndexes.TableIndexManager.UpdateRow | crates/aegis-query/src/index.rs:666-674 | the old row leaves every index, then the new one enters all of them or, on a duplicate, some of them |
| TableIndexes.TableIndexManager.LookupEq | crates/aegis-query/src/index.rs:677-697 | on agreeing indexes, exactly the rows whose value in each indexed column, null when missing, is what that part of the key stands for; none if no index has the name |
| TableIndexes.TableIndexManager.LookupRange | crates/aegis-query/src/index.rs:700-715 | on agreeing indexes, each row whose key is in bounds once, in key order and so in the order of the first column; only for B-tree indexes |
| TableIndexes.ColumnRange | crates/aegis-query/src/index.rs:218-246 | over one column, a range lists exactly the rows whose SQL value lies between its ends, each inclusive, exclusive or open |
| TableIndexes.RangeScan | crates/aegis-query/src/index.rs:218-246 | walking the buckets in key order lists exactly the rows whose key is in bounds, in key order |
| TableIndexes.InsertRowUndone | crates/aegis-query/src/index.rs:614-664 | for a fresh row id, removing the row restores every index exactly, wherever its insertion stopped |
| TableIndexes.FailedUpdateRestored | crates/aegis-query/src/index.rs:666-674 | after an update that failed part-way, removing the new row and inserting the old one cannot fail and restores every index |
| TableIndexes.StepAgrees | crates/aegis-query/src/index.rs:614-674 | a successful row operation keeps every index in agreement with the rows |
| TableIndexes.RunAgrees | crates/aegis-query/src/index.rs:614-674 | along every run of successful row operations every index agrees with the rows at every point |
| DocTypes.GetIsPath | crates/aegis-document/src/types.rs:155-177 | reading a field of a document is reading the dotted path from the whole object |
| DocTypes.PathCompose | crates/aegis-document/src/types.rs:155-177 | a path with a dot is read in two steps |
| DocTypes.PathField | crates/aegis-document/src/types.rs:160-177 | a path without a dot names a field of an object, and nothing of a plain value |
| DocTypes.PathElement | crates/aegis-document/src/types.rs:160-177 | a decimal number names an element of an array |
| DocTypes.ValueEqReflexive | crates/aegis-document/src/query.rs:110-111 | a value equals itself if and only if it holds no NaN |
| DocTypes.ValueEqIdentical | crates/aegis-document/src/query.rs:110-111 | values without negative zeros are equal only when identical |
| DocTypes.AndIs | crates/aegis-document/src/query.rs:37-39 | And matches when each part does, as a query's filters do together |
| DocTypes.OrIs | crates/aegis-document/src/query.rs:175-177 | Or matches when some part does; it is the negation of the And of the negations |
| DocTypes.NotIs | crates/aegis-document/src/query.rs:108-178 | Not, Ne, Nin and Exists(false) are the negations of their positives, also on a missing field |
| DocTypes.InIs | crates/aegis-document/src/query.rs:138-143 | In is the Or of equalities with its values |
| DocTypes.FieldIs | crates/aegis-document/src/query.rs:108-178 | equality, presence and tests are about the value at the path of the whole object |
| DocTypes.OwnValueMatches | crates/aegis-document/src/query.rs:110-111 | a document matches equality with its own value if and only if that holds no NaN |
| DocTypes.EqualValuesShareKey | crates/aegis-document/src/index.rs:156-187 | values that compare equal share an index key if and only if they are not two zeros of opposite sign |
| DocIndexes.AddBuckets | crates/aegis-document/src/index.rs:68-89 | indexing adds the document's id to the bucket of its key and to no other |
| DocIndexes.DropBuckets | crates/aegis-document/src/index.rs:92-115 | unindexing takes the id out of the bucket of the document's key and out of no other |
| DocIndexes.FindIndexedCandidates | crates/aegis-document/src/collection.rs:266-293 | the intersection of what the first hash-style index on each equality filter's field answers, or nothing when no filter is indexed |
| DocIndexes.ScannedLaws | crates/aegis-document/src/query.rs:37-39 | on a collection, several filters intersect, Or joins and Not complements what each filter alone returns |
| DocIndexes.HeldMatchFound | crates/aegis-document/src/collection.rs:183-206 | whatever stale entries the indexes carry, a match that sits in its buckets is found unless its zero has the wrong sign |
| DocIndexes.ExactFind | crates/aegis-document/src/collection.rs:183-206 | on exact indexes the narrowed search misses precisely the matches whose indexed zero has the wrong sign |
| DocIndexes.SignedZeroMissed | crates/aegis-document/src/index.rs:179-183 | an index on the field hides a document holding -0.0 from an equality with +0.0 |
| DocStore.DocumentIndex.IndexDocument | crates/aegis-document/src/index.rs:68-89 | the buckets after indexing in place are those of the specification |
| DocStore.DocumentIndex.UnindexDocument | crates/aegis-document/src/index.rs:92-115 | the buckets after unindexing in place are those of the specification; an emptied bucket disappears |
| DocStore.InsertExact | crates/aegis-document/src/collection.rs:58-79 | storing and indexing a new document keeps every index exact |
| DocStore.UpdateExact | crates/aegis-document/src/collection.rs:100-121 | replacing a document by one with the id it is stored under keeps every index exact |
| DocStore.DeleteExact | crates/aegis-document/src/collection.rs:127-137 | removing and unindexing a document keeps every index exact |
| DocStore.UpdateExactly | crates/aegis-document/src/collection.rs:100-121 | after an update an index is exact if and only if the document carries the id it is stored under, or lacks the indexed field, or the index is a full-text one |
| DocStore.Collection.IndexDocument | crates/aegis-document/src/collection.rs:324-329 | every index takes the document, each as specified |
| DocStore.Collection.UnindexDocument | crates/aegis-document/src/collection.rs:331-336 | every index drops the document, each as specified |
| DocStore.Collection.Insert | crates/aegis-document/src/collection.rs:58-79 | rejects exactly the duplicate ids without any change; otherwise stores and indexes, and exact indexes stay exact |
| DocStore.Collection.Update | crates/aegis-document/src/collection.rs:100-121 | rejects exactly the unknown ids without any change; otherwise replaces and reindexes, and exact indexes stay exact if the ids match |
| DocStore.Collection.Delete | crates/aegis-document/src/collection.rs:127-137 | returns and removes the document, or rejects an unknown id without any change; exact indexes stay exact |
| DocStore.Collection.Clear | crates/aegis-document/src/collection.rs:164-172 | no document and no index entry is left, whatever was there |
| DocStore.Collection.CreateIndex | crates/aegis-document/src/collection.rs:299-310 | appends an index built over every stored document; exact indexes stay exact |
| DocStore.Collection.Find | crates/aegis-document/src/collection.rs:183-206 | returns stored matches only; on exact indexes, all that a scan returns but for the wrongly signed zeros |
| DocStore.NextInv | crates/aegis-document/src/collection.rs:58-137 | every atomic step of insert, update, delete, clear, create and drop index, in any interleaving, keeps the index invariant, but for the ids an update with a foreign document confuses |
| DocStore.StoredIsIndexed | crates/aegis-document/src/collection.rs:58-137 | in every interleaving each stored document with no indexing pending, no replacement under way and no confused id sits in its bucket of every index |
| DocStore.FindBetween | crates/aegis-document/src/collection.rs:183-206 | in every interleaving and for every filter, find returns only matches, and every match that is indexed, not confused and not a zero of the wrong sign |
| DocStore.FindAtRest | crates/aegis-document/src/collection.rs:183-206 | with no indexing pending and updates that carried their own ids, find returns what a full scan returns when no match is a zero of the wrong sign |
| GroupKeys.GroupKeyInjective | crates/aegis-columnar/src/types.rs:42-50 | the key of one column determines its value, if float formatting does |
| GroupKeys.TupleKeyInjective | crates/aegis-columnar/src/table.rs:173-188 | the joined key determines the tuple when no text or float rendering contains U+0001 |
| GroupKeys.TradeCollides | crates/aegis-columnar/src/table.rs:173-188 | for any number of columns from two up, two different tuples of texts with U+0001 share a key |
| GroupKeys.SafeAlphabets | crates/aegis-columnar/src/table.rs:173-188 | over a text alphabet with the two prefix characters, keys are injective if and only if the alphabet lacks U+0001 |
| Columnar.FoldIsAggregate | crates/aegis-columnar/src/table.rs:239-273 | one pass of accumulator updates and the final step compute count, sum, min, max and average of the cells as left folds over the numeric ones |
| ColumnarMeaning.IntAggregates | crates/aegis-columnar/src/table.rs:239-273 | rounding aside, sum and average of cells without floats are those of their integers, booleans as one and zero, nulls and texts left out |
| ColumnarMeaning.IntExtremes | crates/aegis-columnar/src/table.rs:239-273 | min and max are the least and the greatest of them, null when there is none |
| Columnar.TabulateRow | crates/aegis-columnar/src/table.rs:173-199 | one more row through the hash table gives the table of the rows with it: its own group updated, the others untouched, first-appearance order kept |
| Columnar.GroupsPartition | crates/aegis-columnar/src/table.rs:173-199 | the group sizes add up to the number of matching rows |
| Columnar.OrderLists | crates/aegis-columnar/src/table.rs:166-188 | a key is listed exactly when it has members, and the global key always |
| Columnar.CountStarIsSize | crates/aegis-columnar/src/table.rs:239-273 | count(*) of a group is its size |
| Columnar.CountsAddUp | crates/aegis-columnar/src/table.rs:139-210 | the count(*) column of the whole answer adds up to the number of matching rows |
| Columnar.StarIsEmpty | crates/aegis-columnar/src/table.rs:149-155 | an aggregate other than count over `*` gives what it gives over no cells, whatever the group |
| Columnar.GroupsByValue | crates/aegis-columnar/src/table.rs:173-188 | without U+0001, two rows share a group if and only if their key cells are equal |
| ColumnarTable.CreateTable | crates/aegis-columnar/src/table.rs:22-39 | succeeds exactly for nonempty schemas without a repeated name, as an empty table; otherwise names the fault |
| ColumnarTable.Table.InsertRow | crates/aegis-columnar/src/table.rs:58-81 | succeeds exactly when every key is a column and every cell coerces, and then appends one row to the list of rows; otherwise changes nothing |
| ColumnarTable.Table.MatchingRows | crates/aegis-columnar/src/table.rs:84-102 | the positions it returns spell out exactly the rows that satisfy every condition, in insertion order; errors exactly when a condition does not resolve |
| ColumnarMeaning.IntCondition | crates/aegis-columnar/src/table.rs:276-297 | rounding aside, the six operators on integer cells are the integer comparisons |
| ColumnarMeaning.TextCondition | crates/aegis-columnar/src/table.rs:276-297 | on texts they are equality and the order told by the first differing character |
| ColumnarMeaning.NullCondition | crates/aegis-columnar/src/table.rs:276-297 | null satisfies =, <= and >= with null and != with a value, and nothing else |
| ColumnarMeaning.Operators | crates/aegis-columnar/src/table.rs:276-297 | != negates =, <= and >= add = to < and >, and these exclude each other, whatever the cells |
| ColumnarMeaning.IntFilter | crates/aegis-columnar/src/table.rs:84-102 | a condition on an integer column keeps exactly the rows whose integer satisfies it, in order |
| ColumnarMeaning.CoerceReads | crates/aegis-columnar/src/types.rs:53-81 | a value is taken exactly when it fits the column, as a cell of the column's type that reads back as the value, unless a fraction is cut |
| ColumnarMeaning.InsertedReads | crates/aegis-columnar/src/table.rs:58-81 | an inserted row shows each column's given value, null where none was given |
| ColumnarTable.Table.Scan | crates/aegis-columnar/src/table.rs:106-135 | the first limit matching rows, each projected to the named columns |
| ColumnarTable.Table.Tabulate | crates/aegis-columnar/src/table.rs:156-199 | one pass over the matching positions builds the hash table specified for their rows |
| ColumnarTable.Table.Aggregate | crates/aegis-columnar/src/table.rs:139-210 | equals the per-group specification: groups in first-appearance order, each value the aggregate of that group's cells in row order, the global group even over no rows |
| InvertedIndex.InvertedIndex.Add | crates/aegis-fulltext/src/index.rs:50-61 | each term counts once more per occurrence, length and total follow; for a new document postings, lengths and total stay exact and no list is empty |
| InvertedIndex.AddedExactly | crates/aegis-fulltext/src/index.rs:50-61 | adding keeps the index exact if and only if the document number is new or stood for no tokens |
| InvertedIndex.InvertedIndex.Remove | crates/aegis-fulltext/src/index.rs:64-80 | the listed terms stop counting for the document, length and total follow; with all its terms listed the index stays exact; an unknown document changes nothing |
| InvertedIndex.RemovedExactly | crates/aegis-fulltext/src/index.rs:64-80 | removing keeps the index exact if and only if the list has all the document's terms |
| InvertedIndex.InvertedIndex.Score | crates/aegis-fulltext/src/index.rs:84-111 | equals scoring every document directly, term by term in query order, repeated terms once |
| InvertedIndex.ScoredStep | crates/aegis-fulltext/src/index.rs:84-111 | one more term over its posting list extends the direct scores of all documents |
| InvertedIndex.PostingKeys | crates/aegis-fulltext/src/index.rs:50-80 | a posting list names exactly the documents that contain the term |
| FullText.FtsIndex.Upsert | crates/aegis-fulltext/src/engine.rs:33-51 | the live documents gain or replace that id and nothing else changes |
| FullText.FtsIndex.Delete | crates/aegis-fulltext/src/engine.rs:62-74 | the live documents lose exactly that id, and the result says whether it was there |
| FullText.FtsIndex.Search | crates/aegis-fulltext/src/engine.rs:76-98 | at most k live documents that the query scores and the filter passes, scores not increasing and ids ascending on equal scores; whatever qualifies and is left out finds the list full of hits at least as good; a function of the live documents alone |
| FullText.BetterOrders | crates/aegis-fulltext/src/engine.rs:90-96 | the ranking order is strict and total on hits with distinct ids |
| FullText.RenamedScores | crates/aegis-fulltext/src/index.rs:84-111 | renumbering the documents one-to-one changes no score |
| FullText.FtsIndex.Documents | crates/aegis-fulltext/src/engine.rs:100-110 | lists each live document once |
| FullText.LoadDocuments | crates/aegis-fulltext/src/engine.rs:234-244 | an index loaded from any list of documents holds exactly those, the last of several with one id |
| FullText.Reload | crates/aegis-fulltext/src/engine.rs:221-244 | saving and loading gives the same live documents, hence the same answer to every search |
| Pool.NextInv | crates/aegis-client/src/pool.rs:75-211 | every atomic step keeps permits, lock and size accounted for and each connection in at most one place |
| Pool.Accounting | crates/aegis-client/src/pool.rs:112-166 | in every reachable state permits plus holders equal the maximum, checkouts do not exceed it, the size equals idle plus owned plus leaked connections, and never underflows |
| Pool.Exclusive | crates/aegis-client/src/pool.rs:95-166 | in every reachable state no connection is with two callers |
| Pool.NotIdle | crates/aegis-client/src/pool.rs:95-166 | in every reachable state no connection is both with a caller and in the channel |
| Pool.SizeExact | crates/aegis-client/src/pool.rs:202-211 | the size counts exactly the idle and owned connections if and only if no close was cancelled between taking and uncounting one |
| Pool.SizeBounded | crates/aegis-client/src/pool.rs:95-166 | along every run in which no get finds the channel empty while a return is under way, the size stays within the larger of maximum and minimum, plus what cancelled closes leaked |
| Pool.SizeUnbounded | crates/aegis-client/src/pool.rs:144-166 | for every positive maximum and every minimum, every size is reachable, since the permit is released before the send |
| Pool.SizeBoundedExactly | crates/aegis-client/src/pool.rs:112-166 | the size has a bound over all runs if and only if the maximum is zero |
| Pool.ClosedPoolRefilled | crates/aegis-client/src/pool.rs:142-166 | for every positive maximum, a closed, idle pool with a connection in its channel is reachable |
| Pool.ClosedRefuses | crates/aegis-client/src/pool.rs:112-115 | once closed, a pool stays closed and takes up no further get |
| Pool.StaysEmptyExactly | crates/aegis-client/src/pool.rs:142-211 | a closed pool with an empty channel stays empty in every continuation if and only if no connection checked out before the close is still out or on its way back |
| Fnv.MultiplyInjective | crates/aegis-object/src/types.rs:34-41 | multiplication by the prime is injective modulo 2^64 |
| Fnv.FeedKeepsApart | crates/aegis-object/src/types.rs:34-41 | a common suffix keeps different states apart |
| Fnv.OneByteChanges | crates/aegis-object/src/types.rs:34-41 | strings of equal length that differ in exactly one byte always reach different states |
| Fnv.EtagOf | crates/aegis-object/src/types.rs:34-41 | the loop computes the fingerprint in 16 hexadecimal digits |
| Bytes.HexReads | crates/aegis-object/src/types.rs:40-40 | the hexadecimal digits, most significant first, read back as the number |
| Fnv.EtagOneByteChanges | crates/aegis-object/src/types.rs:34-41 | a one-byte edit always changes the ETag |
| Fnv.EtagCollides | crates/aegis-object/src/types.rs:13-14 | two objects with different bytes and the same ETag |
| Ledger.ChainHashFnv | crates/aegis-ledger/src/types.rs:44-68 | both lanes, fed field by field, are the fingerprint of the concatenated layout |
| Ledger.LayoutInjective | crates/aegis-ledger/src/types.rs:107-128 | the hashed layout determines previous hash, sequence number, timestamp and payload bytes |
| Ledger.PreimageLayout | crates/aegis-ledger/src/types.rs:107-122 | the previous hash, then eight bytes of sequence number and eight of timestamp, least significant first, then the payload |
| Ledger.GenesisIs | crates/aegis-ledger/src/types.rs:6-24 | the first link is 32 zero digits in a legacy ledger and 64 otherwise |
| Ledger.Verify | crates/aegis-ledger/src/engine.rs:172-196 | valid exactly when every entry's sequence number, link and hash are right; otherwise reports the least entry that is not |
| Ledger.AppendKeepsEntries | crates/aegis-ledger/src/engine.rs:117-138 | an append adds a right entry and leaves each earlier one as right or wrong as it was |
| Ledger.LedgerEngine.AppendEntry | crates/aegis-ledger/src/engine.rs:117-138 | exactly one ledger gains exactly the returned entry, chained to its tip; without a timestamp the 64-bit clock ticks, wrapping |
| Ledger.RunVerifies | crates/aegis-ledger/src/engine.rs:80-138 | after any run of appends, creations, drops and loads, a ledger verifies if and only if the chain it started from did, and has the same first broken entry |
| Ledger.AllVerify | crates/aegis-ledger/src/engine.rs:200-211 | when every loaded chain verifies under its own hash version, every ledger verifies at every point of the run |
| Ledger.LastEntry | crates/aegis-ledger/src/engine.rs:172-196 | in a verified SHA-256 ledger the last entry continues the tip of the rest, and the rest verifies |
| Ledger.TipDeterminesLedger | crates/aegis-ledger/src/engine.rs:172-196 | two verified SHA-256 ledgers with one tip agree entry by entry, or two distinct byte strings with one digest are produced, or, only for unequal lengths, a string whose digest is the genesis value |
| Ledger.EditReported | crates/aegis-ledger/src/engine.rs:172-196 | replacing a payload in a verified ledger is reported at that entry if and only if the new payload's hash differs |
| Ledger.LegacyByteEditReported | crates/aegis-ledger/src/engine.rs:172-196 | in a legacy ledger a one-byte edit of a serialized payload is always reported |
| Ledger.LanesDiffer | crates/aegis-ledger/src/types.rs:51-67 | each lane of the legacy hash tells one-byte edits apart |
| SqlText.TokensAppend | crates/aegis-client/src/query.rs:483-527 | reading concatenated SQL is reading its parts when no placeholder can straddle the boundary |
| SqlText.RefsExact | crates/aegis-client/src/query.rs:483-527 | the placeholders of numbered SQL read $1 to $n in order, n the parameter count, if and only if no supplied text writes a `$` before a digit |
| SqlText.SubstituteIsDirect | crates/aegis-client/src/query.rs:483-527 | substituting the parameters in one pass gives the text with the values in place |
| QueryBuilder.ToSql | crates/aegis-client/src/query.rs:483-527 | each condition, IN lists included, is numbered on from the parameters before it and appends its own values in order |
| QueryBuilder.AppendConditions | crates/aegis-client/src/query.rs:408-435 | the WHERE and HAVING clauses continue text and parameters together, or add nothing |
| QueryBuilder.BuildSelect | crates/aegis-client/src/query.rs:299-330 | text and parameters are the numbered form of the SELECT statement with its values in place |
| QueryBuilder.BuildInsert | crates/aegis-client/src/query.rs:332-366 | the same for INSERT, row by row |
| QueryBuilder.BuildUpdate | crates/aegis-client/src/query.rs:368-393 | the same for UPDATE, SET before WHERE, pairing columns with the first row of values as far as both go |
| QueryBuilder.BuildDelete | crates/aegis-client/src/query.rs:395-406 | the same for DELETE |
| QueryBuilder.StatementSound | crates/aegis-client/src/query.rs:286-455 | in every statement no placeholder touches a supplied text, and the supplied texts are clean exactly when the builder's are |
| QueryBuilder.BuiltReads | crates/aegis-client/src/query.rs:286-455 | the built placeholders read $1 to $n exactly for clean builders, and substituting then gives the statement with its values in place |
| QueryBuilder.Build | crates/aegis-client/src/query.rs:288-297 | all of the above for every builder state and operation |
| QueryBuilder.RawMarkCollides | crates/aegis-client/src/query.rs:260-263 | a raw HAVING condition with its own $1 shares it with the first bound WHERE value |
| Base64.EncodeReads | crates/aegis-client/src/connection.rs:1954-1980 | the decoder of section 4 of RFC 4648 inverts the encoding of every byte string |
| Base64.Base64Encode | crates/aegis-client/src/connection.rs:1954-1980 | the chunk loop produces that encoding |
| ObjectListing.List | crates/aegis-object/src/engine.rs:164-184 | exactly the objects whose key has the prefix, in key order, cut at the limit; an unknown bucket is an error |
| ObjectListing.PrefixConvex | crates/aegis-object/src/engine.rs:175-181 | keys with a prefix are contiguous in key order, so stopping at the first that lacks it loses none |
| Strings.StringLessIs | crates/aegis-object/src/engine.rs:162-184 | lexical order is told by the first character that differs; a proper prefix comes first |

## Left out

- Grid.GridIndex.Nearest: distance and cosine are parameters; the saturating and wrapping i32, u32 and usize arithmetic of cells, ids and the over-fetch is not modelled, nor is the rounding of floats.
- Grid.GridIndex.WithinBBox: defined only where the antimeridian split ends; with no column at all it is stated as a subset.
- TableIndexes.TableIndexManager.LookupRange: excludes reversed bounds, on which the ordered map panics.
- SqlIndex.KeysOrdered: float keys exclude NaN and negative zero, with which composite keys are not ordered (`SqlIndex.FloatKeysOrderedExactly`).
- SqlIndex.InsertAgrees: float keys exclude NaN and negative zero, on which the B-tree and the hash map disagree (`SqlIndex.FloatKeysConfused`); byte strings, arrays and objects are keyed by a given rendering.
- TableIndexes.TableIndex.Insert: one class stands for the B-tree and the hash index, which differ in the kind of map and in range scans; the lock around each is not modelled.
- DocStore.NextInv: says nothing of the ids that an update with a document of another id confuses; the lone call is `DocStore.UpdateExactly`.
- DocStore.Collection.Find: stops before sorting, skipping, limiting and projection (the sort compares values of different types as equal, so it is no total order); the text side of full-text indexes and schema validation are not modelled; ordering comparisons, string tests and regular expressions in filters are opaque tests of a value.
- FullText.FtsIndex.Search: tokenization, score arithmetic and the float comparison are parameters; the comparison is required to be a strict total order.
- ColumnarMeaning.IntAggregates: states integer results under exact float operations; the rounding of large integers is not modelled.
- ColumnarTable.Table.Aggregate: float arithmetic and formatting are parameters and 64-bit overflow of counts is not modelled.
- Pool.NextInv: connections are numbers and connecting may fail at any time; `return_connection`, which accepts connections the pool never counted, and the total counters are outside the protocol.
- Pool.SizeBounded: goes one way along a run; overtaking a return does not always raise the size above the bound.
- Ledger.TipDeterminesLedger: needs no assumption on the digest; ledgers are at most 2^64 entries long.
- QueryBuilder.Build: starts from a finished builder; the chaining methods that append to or overwrite its fields are not modelled.
- Columnar distinct values, the geo engine's radius and box queries and snapshots, object put, get and delete.
- Engine-level maps of named collections, indexes and buckets.
- HTTP calls, the SQL parser and analyzer, replication, metrics and configuration.
