/** The batch partition of IndexLarge: the rows fetched by one query are cut
    into batchCount bulk requests of batchSize = top / batchCount rows each,
    batch x being rows.Skip(x * batchSize).Take(batchSize). The rows are any
    sequence; the relational query guarantees at most top of them, and only the
    lemmas that need that bound assume it. */
module Partition {
  import opened Linq

  /** The constants IndexLarge is built with. */
  const Top: nat := 200000
  const BatchCount: nat := 20

  /** Integer division top / batchCount (both operands are non-negative, so
      truncating and Euclidean division agree). */
  function BatchSize(top: nat, batchCount: nat): nat
    requires batchCount > 0
  {
    top / batchCount
  }

  /** batchSize is the largest size of which batchCount batches still fit
      into top. */
  lemma BatchSizeIsQuotient(top: nat, batchCount: nat)
    requires batchCount > 0
    ensures BatchSize(top, batchCount) * batchCount <= top
    ensures top < (BatchSize(top, batchCount) + 1) * batchCount
  {
  }

  /** The offset x * batchSize of batch x, written as repeated addition so
      that the proofs below stay within linear arithmetic. */
  function Offset(x: nat, batchSize: nat): nat
  {
    if x == 0 then 0 else Offset(x - 1, batchSize) + batchSize
  }

  lemma {:induction false} OffsetIsProduct(x: nat, batchSize: nat)
    ensures Offset(x, batchSize) == x * batchSize
  {
    if x > 0 {
      OffsetIsProduct(x - 1, batchSize);
      assert (x - 1) * batchSize + batchSize == x * batchSize;
    }
  }

  lemma {:induction false} OffsetMonotone(x: nat, y: nat, batchSize: nat)
    requires x <= y
    ensures Offset(x, batchSize) <= Offset(y, batchSize)
  {
    if x < y {
      OffsetMonotone(x, y - 1, batchSize);
    }
  }

  /** First row position of batch x among n rows (the Skip count, clamped). */
  function Lo(n: nat, batchSize: nat, x: nat): nat { Min(n, Offset(x, batchSize)) }

  /** One past the last row position of batch x among n rows. */
  function Hi(n: nat, batchSize: nat, x: nat): nat { Min(n, Offset(x + 1, batchSize)) }

  /** Batch x: rows.Skip(x * batchSize).Take(batchSize), with the product
      written as Offset (see OffsetIsProduct). It is the contiguous
      slice of the rows from offset x * batchSize, cut short (or empty) where
      the rows run out. */
  function Batch<T>(rows: seq<T>, batchSize: nat, x: nat): (b: seq<T>)
    ensures Lo(|rows|, batchSize, x) <= Hi(|rows|, batchSize, x) <= |rows|
    ensures b == rows[Lo(|rows|, batchSize, x)..Hi(|rows|, batchSize, x)]
  {
    Take(Skip(rows, Offset(x, batchSize)), batchSize)
  }

  /** The first k bulk requests of Enumerable.Range(0, batchCount).Select(x
      => batch x), in the order they are issued. */
  function FirstBatches<T>(rows: seq<T>, batchSize: nat, k: nat): (r: seq<seq<T>>)
    ensures |r| == k
  {
    if k == 0 then [] else FirstBatches(rows, batchSize, k - 1) + [Batch(rows, batchSize, k - 1)]
  }

  /** Enumerable.Range(0, batchCount).Select(x => batch x): all bulk requests
      of one IndexLarge run, in the order they are issued. */
  function Batches<T>(rows: seq<T>, top: nat, batchCount: nat): (r: seq<seq<T>>)
    requires batchCount > 0
    ensures |r| == batchCount
  {
    FirstBatches(rows, BatchSize(top, batchCount), batchCount)
  }

  /** Request x among the first k is batch x. */
  lemma {:induction false} FirstBatchesAt<T>(rows: seq<T>, batchSize: nat, k: nat, x: nat)
    requires x < k
    ensures FirstBatches(rows, batchSize, k)[x] == Batch(rows, batchSize, x)
  {
    var prev := FirstBatches(rows, batchSize, k - 1);
    assert FirstBatches(rows, batchSize, k) == prev + [Batch(rows, batchSize, k - 1)];
    if x < k - 1 {
      FirstBatchesAt(rows, batchSize, k - 1, x);
    }
  }

  lemma FirstBatchesAreSlices<T>(rows: seq<T>, batchSize: nat, k: nat, x: nat)
    requires x < k
    ensures FirstBatches(rows, batchSize, k)[x]
         == rows[Lo(|rows|, batchSize, x)..Hi(|rows|, batchSize, x)]
  {
    FirstBatchesAt(rows, batchSize, k, x);
  }

  /** Exactly batchCount batches, numbered 0 .. batchCount - 1 in order;
      number x is the contiguous slice of the rows from offset
      min(n, x * batchSize) to min(n, (x + 1) * batchSize) and has
      min(batchSize, max(0, n - x * batchSize)) rows. */
  lemma BatchesAreSlices<T>(rows: seq<T>, top: nat, batchCount: nat, x: nat)
    requires batchCount > 0 && x < batchCount
    ensures |Batches(rows, top, batchCount)| == batchCount
    ensures var n, size := |rows|, BatchSize(top, batchCount);
      Lo(n, size, x) == Min(n, x * size) && Hi(n, size, x) == Min(n, x * size + size) &&
      Batches(rows, top, batchCount)[x] == rows[Lo(n, size, x)..Hi(n, size, x)] &&
      |Batches(rows, top, batchCount)[x]| == Min(size, Max(0, n - x * size))
  {
    var size := BatchSize(top, batchCount);
    FirstBatchesAreSlices(rows, size, batchCount, x);
    OffsetIsProduct(x, size);
  }

  /** Row position p goes out in some bulk request. */
  ghost predicate Submitted<T>(rows: seq<T>, top: nat, batchCount: nat, p: nat)
    requires batchCount > 0
  {
    exists x: nat :: x < batchCount &&
      Lo(|rows|, BatchSize(top, batchCount), x) <= p < Hi(|rows|, BatchSize(top, batchCount), x)
  }

  /** The offset arithmetic never goes past top, so with top within the range
      of a 32-bit int the products x * batchSize cannot overflow. */
  lemma OffsetsWithinTop(top: nat, batchCount: nat, x: nat)
    requires batchCount > 0 && x < batchCount
    ensures x * BatchSize(top, batchCount) + BatchSize(top, batchCount) <= top
  {
    var size := BatchSize(top, batchCount);
    BatchSizeIsQuotient(top, batchCount);
    OffsetMonotone(x + 1, batchCount, size);
    OffsetIsProduct(x + 1, size);
    OffsetIsProduct(batchCount, size);
    assert (x + 1) * size == x * size + size;
  }

  /** Batches are pairwise disjoint and come in increasing offset order: every
      batch ends where or before any later batch starts. */
  lemma BatchesOrderedDisjoint(n: nat, size: nat, x: nat, y: nat)
    requires x < y
    ensures Lo(n, size, x) <= Hi(n, size, x) <= Lo(n, size, y) <= Hi(n, size, y)
  {
    OffsetMonotone(x + 1, y, size);
  }

  /** Hence no row position is sent in two different batches. */
  lemma NoRowInTwoBatches(n: nat, size: nat, x: nat, y: nat, p: nat)
    requires Lo(n, size, x) <= p < Hi(n, size, x)
    requires Lo(n, size, y) <= p < Hi(n, size, y)
    ensures x == y
  {
    if x < y {
      BatchesOrderedDisjoint(n, size, x, y);
    } else if y < x {
      BatchesOrderedDisjoint(n, size, y, x);
    }
  }

  /** The first k batches, concatenated, are exactly the first
      min(n, k * batchSize) rows. */
  lemma {:induction false} PrefixCoverage<T>(rows: seq<T>, batchSize: nat, k: nat)
    ensures Concat(FirstBatches(rows, batchSize, k)) == rows[..Min(|rows|, Offset(k, batchSize))]
  {
    if k > 0 {
      var r := FirstBatches(rows, batchSize, k);
      ConcatLast(r);
      assert r[..k - 1] == FirstBatches(rows, batchSize, k - 1);
      PrefixCoverage(rows, batchSize, k - 1);
      SliceJoin(rows, Lo(|rows|, batchSize, k - 1), Hi(|rows|, batchSize, k - 1));
    }
  }

  lemma ConcatLast<T>(parts: seq<seq<T>>)
    requires |parts| > 0
    ensures Concat(parts) == Concat(parts[..|parts| - 1]) + parts[|parts| - 1]
  {
  }

  lemma SliceJoin<T>(s: seq<T>, a: nat, b: nat)
    requires a <= b <= |s|
    ensures s[..a] + s[a..b] == s[..b]
  {
  }

  /** All batches together are exactly the first min(n, batchCount * batchSize)
      rows, in their original order. */
  lemma Coverage<T>(rows: seq<T>, top: nat, batchCount: nat)
    requires batchCount > 0
    ensures Concat(Batches(rows, top, batchCount))
         == rows[..Min(|rows|, batchCount * BatchSize(top, batchCount))]
  {
    PrefixCoverage(rows, BatchSize(top, batchCount), batchCount);
    OffsetIsProduct(batchCount, BatchSize(top, batchCount));
  }

  lemma PrefixIsWhole<T>(rows: seq<T>, sent: seq<T>, capacity: nat)
    requires sent == rows[..Min(|rows|, capacity)]
    ensures sent == rows <==> |rows| <= capacity
    ensures |sent| < |rows| <==> capacity < |rows|
  {
  }

  /** Every fetched row is submitted exactly when there are no more rows than
      batchCount * batchSize. */
  lemma CoversAllIff<T>(rows: seq<T>, top: nat, batchCount: nat)
    requires batchCount > 0
    ensures Concat(Batches(rows, top, batchCount)) == rows
        <==> |rows| <= batchCount * BatchSize(top, batchCount)
  {
    var sent, capacity := Concat(Batches(rows, top, batchCount)), batchCount * BatchSize(top, batchCount);
    Coverage(rows, top, batchCount);
    assert sent == rows[..Min(|rows|, capacity)];
    PrefixIsWhole(rows, sent, capacity);
  }

  /** Row position p is below Offset(k, size) exactly when some batch number
      x < k has p in [Offset(x, size), Offset(x + 1, size)). */
  lemma {:induction false} PositionInSomeBatch(n: nat, size: nat, k: nat, p: nat)
    requires p < n
    ensures (exists x: nat :: x < k && Lo(n, size, x) <= p < Hi(n, size, x)) <==> p < Offset(k, size)
  {
    if k > 0 {
      PositionInSomeBatch(n, size, k - 1, p);
      if p < Offset(k, size) && Offset(k - 1, size) <= p {
        assert Lo(n, size, k - 1) <= p < Hi(n, size, k - 1);
      }
      if Offset(k, size) <= p {
        forall x: nat | x < k ensures !(Lo(n, size, x) <= p < Hi(n, size, x)) {
          OffsetMonotone(x + 1, k, size);
        }
      }
    }
  }

  /** A row position is submitted if and only if it lies below
      batchCount * batchSize: the positions from there on are in no batch. */
  lemma SubmittedIff<T>(rows: seq<T>, top: nat, batchCount: nat, p: nat)
    requires batchCount > 0 && p < |rows|
    ensures Submitted(rows, top, batchCount, p) <==> p < batchCount * BatchSize(top, batchCount)
  {
    PositionInSomeBatch(|rows|, BatchSize(top, batchCount), batchCount, p);
    OffsetIsProduct(batchCount, BatchSize(top, batchCount));
  }

  /** The remainder: when top is not a multiple of batchCount and the query
      returns more than batchCount * batchSize rows, the rows from position
      batchCount * batchSize on are never sent. */
  lemma RemainderNeverSubmitted<T>(rows: seq<T>, top: nat, batchCount: nat, p: nat)
    requires batchCount > 0
    requires batchCount * BatchSize(top, batchCount) <= p < |rows|
    ensures !Submitted(rows, top, batchCount, p)
    ensures |Concat(Batches(rows, top, batchCount))| < |rows|
  {
    SubmittedIff(rows, top, batchCount, p);
    Coverage(rows, top, batchCount);
    PrefixIsWhole(rows, Concat(Batches(rows, top, batchCount)), batchCount * BatchSize(top, batchCount));
  }

  /** Seven rows with top 7 and three batches: batches of two, so only six
      rows are sent and the seventh (position 6) is dropped. */
  lemma SevenRowsThreeBatches<T>(rows: seq<T>)
    requires |rows| == 7
    ensures BatchSize(7, 3) == 2
    ensures |Concat(Batches(rows, 7, 3))| == 6
    ensures !Submitted(rows, 7, 3, 6)
  {
    Coverage(rows, 7, 3);
    RemainderNeverSubmitted(rows, 7, 3, 6);
  }

  /** When batchCount divides top and the query keeps to its limit, nothing is
      lost: the batches are a partition of the fetched rows. */
  lemma DivisibleCoversAll<T>(rows: seq<T>, top: nat, batchCount: nat)
    requires batchCount > 0 && top % batchCount == 0 && |rows| <= top
    ensures Concat(Batches(rows, top, batchCount)) == rows
  {
    BatchSizeIsQuotient(top, batchCount);
    assert batchCount * BatchSize(top, batchCount) == top;
    CoversAllIff(rows, top, batchCount);
  }

  /** The shipped configuration: 20 bulk requests of at most 10000 rows that
      together carry every row the query returned. */
  lemma ShippedConfiguration<T>(rows: seq<T>)
    requires |rows| <= Top
    ensures BatchSize(Top, BatchCount) == 10000
    ensures |Batches(rows, Top, BatchCount)| == 20
    ensures forall x :: 0 <= x < 20 ==> |Batches(rows, Top, BatchCount)[x]| <= 10000
    ensures Concat(Batches(rows, Top, BatchCount)) == rows
  {
    DivisibleCoversAll(rows, Top, BatchCount);
    forall x | 0 <= x < 20 ensures |Batches(rows, Top, BatchCount)[x]| <= 10000 {
      BatchesAreSlices(rows, Top, BatchCount, x);
    }
  }

  /** When the query returns fewer rows than the batches could hold, later
      batches are never longer than earlier ones, and those starting past the
      last row are empty; nothing fails. */
  lemma ShortFetchTrailingBatches<T>(rows: seq<T>, top: nat, batchCount: nat, x: nat, y: nat)
    requires batchCount > 0 && x < y < batchCount
    ensures |Batches(rows, top, batchCount)[y]| <= |Batches(rows, top, batchCount)[x]|
    ensures |rows| <= y * BatchSize(top, batchCount) ==> Batches(rows, top, batchCount)[y] == []
  {
    BatchesAreSlices(rows, top, batchCount, x);
    BatchesAreSlices(rows, top, batchCount, y);
    BatchesOrderedDisjoint(|rows|, BatchSize(top, batchCount), x, y);
  }

  /** A fetch that returns no rows gives batchCount bulk requests that are all
      empty, the first one included. */
  lemma EmptyFetchEmptyBatches<T>(rows: seq<T>, top: nat, batchCount: nat, x: nat)
    requires batchCount > 0 && x < batchCount && |rows| == 0
    ensures Batches(rows, top, batchCount)[x] == []
  {
    BatchesAreSlices(rows, top, batchCount, x);
  }

  /** When at least batchCount * batchSize rows are fetched (a full fetch of
      top rows, for instance), every batch carries exactly batchSize rows. */
  lemma FullFetchEvenBatches<T>(rows: seq<T>, top: nat, batchCount: nat, x: nat)
    requires batchCount > 0 && x < batchCount
    requires batchCount * BatchSize(top, batchCount) <= |rows|
    ensures |Batches(rows, top, batchCount)[x]| == BatchSize(top, batchCount)
  {
    var size := BatchSize(top, batchCount);
    BatchesAreSlices(rows, top, batchCount, x);
    OffsetMonotone(x + 1, batchCount, size);
    OffsetIsProduct(batchCount, size);
  }
}
