# ElasticTestClient: batch partition and action dispatch

ElasticTestClient is a console program. It creates Elasticsearch indices and
bulk-loads product rows from a SQL Server query into one of them. Most of it
calls foreign libraries: NEST for the search client, Dapper for SQL and
PowerArgs for the command line. This project models the two parts of
`Program.cs` that have logic of their own:

- **The bulk ingestion partition of `IndexLarge`.** The program fetches at
  most `top` rows (200000) and sets `batchSize = top / batchCount` (20 batches,
  so 10000 rows each). Batch `x`, for `x` in `0 .. batchCount-1`, is then
  `rows.Skip(x * batchSize).Take(batchSize)`. `Skip` and `Take` clamp the way
  LINQ does (module `Linq`). The partition is a pure function of the fetched
  rows, `top` and `batchCount` (module `Partition`). The proofs cover:
  - the batch size;
  - the number, order, offsets and lengths of the batches;
  - that the batches are disjoint;
  - exactly which rows they cover.

  The batches are the first `min(n, batchCount * batchSize)` rows, in order. So
  every fetched row is sent exactly when `n <= batchCount * batchSize`. When
  `batchCount` does not divide `top` and the query returns more rows than that,
  the remainder is never sent. Seven rows in three batches send only six. With
  the shipped constants nothing is lost, because 20 divides 200000.
- **The dispatch of `Main`.** A parse outcome is mapped to the ordered trace of
  steps the program takes (module `Dispatch`, with the command-line types in
  `Arguments`). A step is printing the usage text, or calling one of the helper
  operations against the given server and index. A small abstraction of the
  target index (missing, or present with the item, product or an inferred
  mapping) shows why the large-index action deletes before it creates. When
  the delete and create requests reach the backend, every bulk ingestion runs
  against a freshly created product index, whatever existed before. The
  program never looks at those responses, though. If the delete is lost, an
  existing item index keeps its mapping and receives the products. If the
  create is lost and the query returns rows, the ingestion creates the index
  with an inferred mapping. If the query returns no rows, every batch is empty
  and the index stays missing.
  Without the delete, an existing index would keep its old mapping.

The batch size comes from the query limit `top`, not from the number of rows
the query returned (Program.cs:118). The model follows the code. Skipped and
taken counts are unbounded integers. The proofs build the offset
`x * batchSize` by repeated addition (`Offset`), and `OffsetIsProduct` proves
the two equal. `OffsetsWithinTop` shows that every offset stays within `top`,
so the source's 32-bit products cannot overflow.

The `Action` enumeration is not among the source files. The model declares the
five values that `Main` switches on, plus `Unlisted` for any other value, which
reaches the `default` branch. The argument parser is external, so its result is
an input to the model: either the parsed options or an argument error.

## Model

| member | source | states |
|---|---|---|
| `Linq.Skip` | Program.cs:131 | `Skip` drops `max(0, count)` rows, clamped at the end: the result has length `max(0, n - max(0, count))` and element `i` is source row `max(0, count) + i` |
| `Linq.Take` | Program.cs:131 | `Take` keeps the first `min(n, max(0, count))` rows, unchanged and in order |
| `Linq.TakeSkipSplit` | Program.cs:131 | for every count, `Take(s, c) + Skip(s, c) == s`, so nothing is lost or repeated between the two |
| `Partition.BatchSizeIsQuotient` | Program.cs:116-118 | `batchSize` is the integer quotient `top / batchCount`: `batchSize * batchCount <= top < (batchSize + 1) * batchCount` |
| `Partition.OffsetIsProduct` | Program.cs:131 | the offset of batch `x`, built up by repeated addition in the proofs, equals the source's `x * batchSize` |
| `Partition.Batch` | Program.cs:131 | `Take(Skip(rows, x * batchSize), batchSize)` is the contiguous slice of rows from `min(n, x * batchSize)` to `min(n, (x + 1) * batchSize)` |
| `Partition.Batches` | Program.cs:128-132 | `Range(0, batchCount).Select(...)` yields exactly `batchCount` bulk requests |
| `Partition.FirstBatchesAt` | Program.cs:128-132 | request number `x` among the first `k` is batch `x` itself, by induction on `k` |
| `Partition.FirstBatchesAreSlices` | Program.cs:128-132 | request number `x` among the first `k` is the slice of batch `x`, so the requests come in batch-number order |
| `Partition.BatchesAreSlices` | Program.cs:128-132 | batch `x` of `0 .. batchCount-1` starts at offset `min(n, x * batchSize)`, ends at `min(n, (x + 1) * batchSize)` and holds `min(batchSize, max(0, n - x * batchSize))` rows |
| `Partition.OffsetsWithinTop` | Program.cs:118-131 | for every batch number `x < batchCount`, `(x + 1) * batchSize <= top`, so no offset the source computes goes past `top` |
| `Partition.BatchesOrderedDisjoint` | Program.cs:128-132 | for `x < y`, batch `x` ends no later than batch `y` starts: offsets increase and batches do not overlap |
| `Partition.NoRowInTwoBatches` | Program.cs:128-132 | a row position that lies in batch `x` and in batch `y` forces `x == y` |
| `Partition.PrefixCoverage` | Program.cs:128-132 | the first `k` batches, concatenated, are exactly the first `min(n, Offset(k, batchSize))` rows in order, `Offset(k, batchSize)` being `k * batchSize` |
| `Partition.Coverage` | Program.cs:128-132 | all batches concatenated are exactly the first `min(n, batchCount * batchSize)` rows in order |
| `Partition.CoversAllIff` | Program.cs:118-131 | the batches together are all the fetched rows if and only if `n <= batchCount * batchSize` |
| `Partition.SubmittedIff` | Program.cs:118-131 | a fetched row position lies in some batch if and only if it is below `batchCount * batchSize` |
| `Partition.RemainderNeverSubmitted` | Program.cs:118-131 | a row at a position `>= batchCount * batchSize` is in no batch, and fewer rows are sent than were fetched |
| `Partition.SevenRowsThreeBatches` | Program.cs:118-131 | seven rows with `top` 7 and three batches: the batch size is 2, six rows are sent, and row 6 is in no batch |
| `Partition.DivisibleCoversAll` | Program.cs:116-131 | when `batchCount` divides `top` and at most `top` rows are fetched, the batches are an exact partition of the fetched rows |
| `Partition.ShippedConfiguration` | Program.cs:116-131 | with `top` 200000 and 20 batches, the batch size is 10000; with at most 200000 rows fetched there are 20 batches of at most 10000 rows that together carry every row |
| `Partition.ShortFetchTrailingBatches` | Program.cs:127-131 | a later batch is never longer than an earlier one, and a batch starting at or past the last row is empty; a short fetch needs no error path |
| `Partition.EmptyFetchEmptyBatches` | Program.cs:127-131 | when the query returns no rows, every one of the `batchCount` bulk requests, the first included, is empty |
| `Partition.FullFetchEvenBatches` | Program.cs:127-131 | when at least `batchCount * batchSize` rows are fetched, every batch has exactly `batchSize` rows |
| `Dispatch.Run` | Program.cs:24-64 | a run prints usage if and only if parsing failed, help was asked for or the action is unlisted, and then prints usage alone; every operation it calls gets the parsed server and index |
| `Dispatch.LargeIndexOrder` | Program.cs:41-45 | the large-index action without help calls exactly delete-index, create-large-index and index-large, in that order; with help it prints usage only |
| `Dispatch.SingleOperationActions` | Program.cs:34-50 | create-index, index, query and delete-index each call their one operation and nothing else |
| `Dispatch.Effect` | Program.cs:93-186 | a request that does not reach the backend changes nothing; an answered delete leaves the index missing whatever it was; an existing index keeps its mapping under every request but delete; an answered create, or an indexing request that sends at least one document, on a missing index leaves it present; an empty fetch counts as unanswered and leaves a missing index missing |
| `Dispatch.LargeIndexIngestionTarget` | Program.cs:41-45 | before the ingestion step of the large-index action the index has the product mapping if and only if the create was answered and either the delete was answered or the index was missing, or the delete was lost and the index already had the product mapping |
| `Dispatch.RunIngestsIntoProductIndex` | Program.cs:41-45 | from any prior index state and for every parse outcome, when the run's delete and create requests are answered, each bulk ingestion finds the index present with the product mapping |
| `Dispatch.AbortedRunIngestsIntoProductIndex` | Program.cs:22-64 | a run cut short by an exception after any prefix of its trace still ingests only into the product index, when the prefix's delete and create requests are answered |
| `Dispatch.LostDeleteIngestsIntoItemMapping` | Program.cs:140-145 | the delete's response is not checked: when it is lost and the index has the item mapping, the refused create leaves the item mapping in place, so the ingestion finds the item mapping and not the product one |
| `Dispatch.LostCreateIngestsIntoInferredMapping` | Program.cs:160-185 | the create's response is not checked: when it is lost after the delete, an ingestion that sends documents leaves the index with an inferred mapping, and one that sends none (an empty fetch) leaves it missing |
| `Dispatch.CreateWithoutDeleteKeepsOldMapping` | Program.cs:42-44 | with the delete step left out, a create on an index that already has the item mapping leaves it on that mapping, so the ingestion does not find the product mapping |

## Left out

- SQL fetch (Program.cs:103-113, 124-127): database I/O through Dapper. The fetched rows are an arbitrary sequence. Lemmas that rely on the query limit assume at most `top` rows.
- Concurrency (Program.cs:78, 131-133): `IndexManyAsync`, the un-awaited `Task.WhenAll` and `async void Query`. A batch submission is a single opaque step, so completion order, partial failures and the fact that the program does not wait for its batches are not modelled.
- Timing and throughput (Program.cs:122-123, 135-137): wall-clock and floating-point values. The throughput figure is computed from `top`, not from the number of rows fetched.
- NEST client calls (Program.cs:69-101, 140-186): `CreateClient`, `Query`, `Index` and the request builders of `CreateIndex`, `CreateLargeIndex` and `DeleteIndex`. These are fluent builders over a foreign library, including shard counts, field options and the analysis chain. `Dispatch.Effect` keeps only their effect on the existence and mapping of the target index.
- Console output, the "Loop x" line, `response.PrintDump()` on the null `response` and `Console.ReadKey` (Program.cs:36, 57, 62, 66, 130): output only. The trace ends with the last operation or usage step.
- Argument parsing (MyArgs.cs): attribute declarations for an external parser with no logic. Its outcome is an input. The argument error's message is carried in the model but not traced.
- Sample data (`CreateItems`, Program.cs:188-236) and the `ViewItemPage` record (Program.cs:239-293): data with no logic.
- The `FSProduct` row type (not among the source files): the partition is generic in the row type, since it never looks inside a row.
- Dispatch.Effect: models how an Elasticsearch backend with default settings answers, which is not code in this repository. A delete of a missing index is NotFound, a create of an existing index is AlreadyExists, and indexing documents into a missing index creates it. An ingestion step counts as answered only when it sends at least one document. An empty fetch sends none and creates no index. What the client does with an empty batch is not in the code shown. A request either reaches the backend or is lost with no effect; a request the backend accepts but applies only partly is not modelled.
- Dispatch.Run: the trace is the full sequence of steps `Main` attempts. `Main` catches only argument errors (Program.cs:60). Any other exception, such as a malformed server address rejected at Program.cs:71, ends the real run after a prefix of that trace, with no usage text and no `Console.ReadKey`. `Dispatch.AbortedRunIngestsIntoProductIndex` covers such prefixes, but the model does not say where a run stops.
