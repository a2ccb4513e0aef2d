# csortlib core, modelled in Dafny

This project models the record-sorting core of the raysort sort library
(`raysort/sortlib/src/csortlib.h`) and proves what its header promises.

- **Records** (`records.dfy`). A record is 100 bytes: a 10-byte header and a
  90-byte body. `KeyOf` is `Record::key()`, the first 8 header bytes read as
  a big-endian unsigned 64-bit integer. Its contract states that it equals the
  byte-swapped little-endian load that the source performs. `HeaderLess` is
  `HeaderComparator`, a `memcmp` of the two headers that is `< 0`. Its
  contract states that it is lexicographic byte order of the headers. It is
  proved to be a strict total order on headers, equal to numeric order of the
  80-bit header value (`Rank`). It is also
  proved consistent with key order.
- **Boundaries** (`boundaries.dfy`). `GetBoundaries(P)` splits the 2^64 key
  space uniformly: boundary i is floor(i * 2^64 / P). The boundaries are
  proved to start at 0, to never decrease, and to cut ranges of
  floor(2^64 / P) or one more keys each. Every key lies in exactly one
  half-open range.
- **Partitioner** (`partitioner.dfy`). `Partition` is an `{offset, size}`
  pair, and `SamePartition` is its `operator==`. `SortAndPartition` sorts an
  `array<Record>` in place, by insertion sort, with no record storage
  allocated. It then cuts the array with one forward scan into one partition
  per boundary. The result is proved to be a sorted permutation of the input
  records. The partitions tile the array from offset 0, and partition i holds
  exactly the records whose key lies in `[boundaries[i], boundaries[i + 1])`.
  The last partition is open upwards.
- **Merging** (`merger.dfy`). `Merger` is a class over M sorted input views,
  with one cursor per view.
  - `GetBatch` writes at most `maxNum` records, in merged order, into
    `ret[at..]`. It returns the count and either the depleted input or -1.
    When refills are asked for, it stops right after the record that uses up
    an input's view and reports that input, and any view used up during the
    call is the one reported.
  - `Refill` installs the next chunk of a reported input.
  - The class invariant, `MergeInvariant`, states the following:
    - every view is a sorted tail of everything supplied for its input (its
      stream);
    - the output emitted so far is sorted and never above a pending head;
    - emitted plus pending records are, as a multiset, exactly the records
      supplied;
    - a reported input is used up, and its last record was the last one
      emitted;
    - with a single input, the output is that input's stream in order.
  - A batch is specified by the function `Batch`, which repeatedly pops the
    heap top `Top`.
  - The loop `MergeLoop` is proved to compute exactly `Batch`. Separate
    lemmas prove that `Batch` and `Refill` keep the invariant.
  - `MergePartitions`, whose refill flag defaults to false and whose boundary
    list defaults to empty, allocates one buffer of the total input size and calls
    `GetBatch` until the buffer is full. The result is proved sorted and a
    permutation of all inputs, and a single input comes back unchanged.

The header fixes none of the following details, so they are choices of
this model:
- `GetBoundaries` splits the key space uniformly: boundary i is
  floor(i * 2^64 / P), and P = 0 gives no boundaries.
- `SortAndPartition` returns exactly one partition per boundary.
- `Merger`'s heap is keyed by the header comparator, so the heap top is an
  input with the least pending head. Among equal heads the lowest-numbered
  input is taken first.
- Without refills, `GetBatch` always returns -1: a depletion is reported only
  when refills were asked for.

The comment at `csortlib.h:63` claims `ret[i] < num_records`. That cannot
hold for an empty trailing partition, whose offset equals the record count,
or for an empty buffer. The model proves the bound that does hold:
`offset + size <= num_records` for every partition. The model also proves
the property the comment at lines 57-58 states: an empty partition shares
its offset with the next one. The TODO at line 59 doubts that property when
some range has no records. For the scan modelled here, the model proves it
for every valid boundary set, empty ranges included.

## Model

| member | source | states |
|---|---|---|
| Records.KeyOf | raysort/sortlib/src/csortlib.h:18-28 | the key equals the little-endian (native) load of the first 8 header bytes after a byte swap |
| Records.BigEndianIsSwappedLittleEndian | raysort/sortlib/src/csortlib.h:27-28 | reading bytes big-endian equals loading them little-endian after reversing them (bswap of a native load) |
| Records.KeyDeterminedByKeyBytes | raysort/sortlib/src/csortlib.h:18-20 | two records have the same key if and only if their first 8 header bytes agree |
| Records.KeyEncodingRoundTrip | raysort/sortlib/src/csortlib.h:18-20 | a header whose first 8 bytes are the big-endian encoding of k has key k, whatever the other bytes |
| Records.Memcmp | raysort/sortlib/src/csortlib.h:33 | memcmp over equal-length headers returns a byte difference in [-255, 255] |
| Records.MemcmpZeroIffEqual | raysort/sortlib/src/csortlib.h:33 | memcmp is 0 if and only if the two byte strings are equal |
| Records.MemcmpIsLexicographic | raysort/sortlib/src/csortlib.h:33 | memcmp is negative if and only if the first string is lexicographically smaller (independent definition) |
| Records.MemcmpIsNumeric | raysort/sortlib/src/csortlib.h:33 | memcmp is negative if and only if the first string's big-endian value is smaller |
| Records.HeaderLessIsRankLess | raysort/sortlib/src/csortlib.h:31-35 | the comparator holds if and only if the 80-bit header value of a is below that of b |
| Records.HeaderLess | raysort/sortlib/src/csortlib.h:31-35 | the comparator holds if and only if a's 10 header bytes are lexicographically smaller than b's |
| Records.HeaderLessIrreflexive | raysort/sortlib/src/csortlib.h:31-35 | no record is less than itself |
| Records.HeaderLessTransitive | raysort/sortlib/src/csortlib.h:31-35 | the comparator is transitive |
| Records.HeaderLessTotal | raysort/sortlib/src/csortlib.h:31-35 | two records are ordered one way or the other if and only if their headers differ |
| Records.RankSplitsAtKey | raysort/sortlib/src/csortlib.h:18-25 | the header value is the key times 2^16 plus the two tie-breaking header bytes |
| Records.KeyLessImpliesHeaderLess | raysort/sortlib/src/csortlib.h:18-35 | a smaller key means a header-smaller record, whatever the tie bytes |
| Records.HeaderLessImpliesKeyLeq | raysort/sortlib/src/csortlib.h:18-35 | the header order never puts a larger key first |
| Records.SortedKeysNonDecreasing | raysort/sortlib/src/csortlib.h:56-58 | in a header-sorted sequence the keys never decrease, which the partition scan relies on |
| Boundaries.GetBoundaries | raysort/sortlib/src/csortlib.h:71-76 | one boundary per partition, and the first is key 0 |
| Boundaries.GetBoundariesValid | raysort/sortlib/src/csortlib.h:71-76 | for at least one partition the boundaries start at 0 and never decrease, so they form a valid boundary set |
| Boundaries.GetBoundariesSpacing | raysort/sortlib/src/csortlib.h:71-76 | every range of the uniform split is floor(2^64 / P) or floor(2^64 / P) + 1 keys wide |
| Boundaries.Owner | raysort/sortlib/src/csortlib.h:73-74 | every key lies in the half-open range [b[i], b[i + 1]) of some partition i (the last one open upwards) |
| Boundaries.OwnerUnique | raysort/sortlib/src/csortlib.h:73-74 | the ranges are disjoint: a key lies in range i if and only if i is its owner |
| Partitioner.SamePartition | raysort/sortlib/src/csortlib.h:52-54 | partitions compare equal if and only if they are the same {offset, size} pair |
| Partitioner.TilesLayout | raysort/sortlib/src/csortlib.h:56-63 | tiling partitions have sizes summing to the record count, lie inside the buffer, and an empty partition shares its offset with the next one |
| Partitioner.SortRecords | raysort/sortlib/src/csortlib.h:56-66 | the buffer ends sorted under the header comparator and is a permutation of what it held |
| Partitioner.SinkOnce | raysort/sortlib/src/csortlib.h:56 | the buffer becomes its old contents with positions j - 1 and j swapped, which moves the inserted record one place down below its greater predecessor; the prefix keeps its sinking order, the buffer is permuted and the records after position i are as they were |
| Partitioner.Sink | raysort/sortlib/src/csortlib.h:56 | sinking the record at position i extends the sorted prefix to i + 1 records, permutes the buffer and leaves the records after position i as they were |
| Partitioner.InsertAt | raysort/sortlib/src/csortlib.h:56 | one insertion step extends the sorted prefix by one record; the records after position i are unchanged and the first i + 1 records are a permutation of what they were |
| Partitioner.SinkDone | raysort/sortlib/src/csortlib.h:56 | once the inserted record rests on a predecessor no greater than it, the prefix is sorted |
| Partitioner.SkipBelow | raysort/sortlib/src/csortlib.h:73-74 | over non-decreasing keys, the scan stops at the first record whose key reaches the bound |
| Partitioner.ScanStep | raysort/sortlib/src/csortlib.h:56-63 | cutting the next partition keeps the scan's invariant: back-to-back partitions each holding only keys of their range |
| Partitioner.ScanPartitions | raysort/sortlib/src/csortlib.h:56-74 | on a key-sorted buffer: one partition per boundary, tiling the buffer from offset 0, partition i holding only keys of range i |
| Partitioner.SortAndPartition | raysort/sortlib/src/csortlib.h:56-69 | in-place sorted permutation; one partition per boundary; the partitions tile the buffer from offset 0 and each lies inside it; partition i holds exactly the records whose key is in range i |
| Merging.BagSize | raysort/sortlib/src/csortlib.h:83-84 | the multiset of all inputs has Pr = sum of the input lengths records |
| Merging.StartKeepsInvariant | raysort/sortlib/src/csortlib.h:87-88 | a fresh merger over sorted partitions, with zero cursors, satisfies the merge invariant with everything pending |
| Merging.PopKeepsInvariant | raysort/sortlib/src/csortlib.h:80-84 | emitting the heap top keeps the merge invariant and moves exactly that record from pending to output |
| Merging.DepletionKeepsInvariant | raysort/sortlib/src/csortlib.h:90-92 | reporting an input whose last record was just emitted keeps the invariant |
| Merging.RefillKeepsInvariant | raysort/sortlib/src/csortlib.h:95 | refilling a reported input with a sorted chunk that continues its stream keeps the invariant and makes the chunk its pending records |
| Merging.PendingCount | raysort/sortlib/src/csortlib.h:80-84 | pending plus emitted counts equal the records supplied; nothing is pending once every view is used up |
| Merging.Top | raysort/sortlib/src/csortlib.h:80-84 | the heap top among the first n inputs is -1 or an input with a pending head |
| Merging.TopIsLeast | raysort/sortlib/src/csortlib.h:80-84 | no pending head among the inputs scanned is below the one Top picks |
| Merging.TopDrained | raysort/sortlib/src/csortlib.h:80-84 | Top is -1 if and only if every view is used up |
| Merging.TopIsHeapTop | raysort/sortlib/src/csortlib.h:80-84 | Top is the heap top: -1 exactly when drained, otherwise an input with a least pending head |
| Merging.MinHead | raysort/sortlib/src/csortlib.h:80-84 | the scan over the heads returns exactly Top over all inputs |
| Merging.BatchShape | raysort/sortlib/src/csortlib.h:90-93 | a batch has at most maxNum records, only advances cursors, reports only a used-up input whose last record ends the batch, is short without a report only when every view is used up, is non-empty when records are pending, with refills asked for reports every view it uses up, and reports only an input that still had records when it began |
| Merging.BatchReportsFresh | raysort/sortlib/src/csortlib.h:90-92 | a reported input still had a pending record when the batch began, so an input used up earlier is never reported again |
| Merging.BatchReportsDepletion | raysort/sortlib/src/csortlib.h:90-92 | with refills asked for, any input whose view had records before the batch and is used up after it is the input the batch reports |
| Merging.BatchKeepsInvariant | raysort/sortlib/src/csortlib.h:80-93 | appending a batch to the output keeps the merge invariant, and the batch is exactly what left the pending records |
| Merging.MergeLoop | raysort/sortlib/src/csortlib.h:90-93 | the loop writes exactly the batch that Batch specifies into ret[at..at + count], returns its cursors and report, and touches nothing else in ret |
| Merging.MergeInto | raysort/sortlib/src/csortlib.h:90-93 | as MergeLoop, with the written records stated as the slice ret[at..at + count] and the rest of ret unchanged |
| Merging.Merger.constructor | raysort/sortlib/src/csortlib.h:87-88 | a new merger over sorted partitions is valid, has emitted nothing and has every partition pending |
| Merging.Merger.GetBatch | raysort/sortlib/src/csortlib.h:90-93 | count <= maxNum records are written to ret[at..at + count] and nowhere else; they extend the sorted output and are removed from what is pending; depleted is -1 or a used-up input (refill mode only), in refill mode every view the call uses up is the one reported, and a reported input still had records when the call began; a short unreported batch means the merger is exhausted; an exhausted merger returns (0, -1) |
| Merging.Merger.Refill | raysort/sortlib/src/csortlib.h:95 | only the reported input changes: its view becomes the chunk, its cursor 0, its stream grows by the chunk; the output is unchanged and the invariant kept |
| Merging.TotalLength | raysort/sortlib/src/csortlib.h:102-105 | the loop returns the total number of input records |
| Merging.AllEmitted | raysort/sortlib/src/csortlib.h:80-84 | once as many records were emitted as supplied, every input is used up and the output is exactly the inputs as a multiset |
| Merging.FillFrom | raysort/sortlib/src/csortlib.h:90-105 | one GetBatch call into the buffer strictly advances the fill level while the output stays the filled prefix |
| Merging.Drain | raysort/sortlib/src/csortlib.h:102-105 | calling GetBatch until the buffer is full leaves the merger's whole output in the buffer |
| Merging.MergePartitions | raysort/sortlib/src/csortlib.h:102-105 | the returned buffer is fresh, as long as all inputs together, sorted, a permutation of the inputs, and equal to the input when there is one partition |

## Left out

- FileMerger (`csortlib.h:107-122`): file reading and writing in batches is I/O and is not modelled.
- The cast `*(Key *)header` and `__builtin_bswap64` / `__builtin_memcmp` are modelled by their values: a byte-reversed little-endian load and a byte-wise comparison of equal-length strings.
- `Array` / `ConstArray` (`csortlib.h:37-45`) are modelled as Dafny arrays and sequences. Raw addresses and sizes, the pimpl (`Impl`, `unique_ptr`), ownership of the partition views and memory release are not modelled.
- The compile-time switches at `csortlib.h:4-5` (timing and an alternative memory layout) are not modelled.
- The `boundaries` argument of `Merger` and `MergePartitions` is stored but plays no part in the merge, because the header gives it no behaviour.
- Merging.Merger.GetBatch: a call with zero capacity (`maxNum == 0`) is a precondition violation. Such a call is rejected as an invalid argument, so no error value for it is modelled.
- Merging.Merger.GetBatch: the heap is modelled as a linear scan for the least pending head (`MinHead`/`Top`), so the O(Pr log M) cost at `csortlib.h:83-84` is not modelled. Among equal headers the lowest-numbered input is taken first.
- Partitioner.SortRecords: insertion sort stands in for the library's sort, so the O(Pm log Pm) cost at `csortlib.h:65` is not modelled. Only the result (sorted permutation) and the in-place, no-allocation behaviour are kept.
- Partitioner.SortAndPartition: requires a valid boundary set (non-empty, starting at 0, non-decreasing), the shape that GetBoundaries produces. The header does not say what happens otherwise.
- Merging.Merger.Refill: requires that GetBatch has just reported the same input, that the chunk is sorted, and that the chunk continues its stream. The header does not say what happens on any other call.
- Merging.MergePartitions: with askForRefills it keeps calling GetBatch after each report without refilling. The one-shot merge has no further chunks to supply.
- Integer widths: counts, offsets and sizes are unbounded naturals. `size_t` overflow cannot occur for buffers that fit in memory. `Key` is bounded to [0, 2^64).
- `csortlib.cc` is not part of this model. The operation bodies are the natural implementations of the header's declarations and comments.
