# depthmate: per-position tumor/normal read depth, in Dafny

depthmate reports read-support counts for each variant of a VCF in two indexed BAM
files, one tumor and one normal. For each variant and each sample type it fetches the
pileup column at the variant's 1-based position. It then classifies every alignment of
that column:

- a read failing the filter on SAM flags and mapping quality;
- a deletion or reference skip;
- a base matching the reference allele, the alternate allele, or neither;
- a base followed by an insertion, which is also counted in `indel_n_lowq`.

From these it builds one `PilePosition` record: `all_depth`, `ref_depth`, `alt_depth`,
`other_depth`, `indel_n_lowq`, the `T`/`N` label, `vaf`, and a barcode list of the alt
reads' `CB` tags. Each (variant, sample type) task runs on a thread pool. The results
are collected into one result that fails as a whole if any task fails, and the records
are then written out.

The model is split into these modules:

- `Filter` (`filter.dfy`): `DefaultReadFilter::filter_read` as a predicate over `bv16`
  flags, with a bit-by-bit characterisation.
- `Depth` (`depth.dfy`): `PilePosition` as a class whose `Update` and `FromPileup`
  change its fields step by step. Each is proved against a pure function on the
  record's value: `Updated` for one alignment, `Accumulated`/`PositionOf` for a pass.
- `DepthLaws` (`depth_laws.dfy`): what a pass adds up to. It covers counters per
  outcome, conservation of `all_depth`, when the decrement would wrap, `vaf` as a
  snapshot, and barcode entries against `alt_depth`.
- `Processor` (`processor.dfy`): `DepthProcessor::process_region` (selecting the column
  at the position) and `process` (sample-type dispatch), each a method proved against
  a function.
- `Dispatch` (`dispatch.dfy`): `main` and `get_pile_res`. This covers the task product,
  the short-circuiting collect taken sequentially, the written rows, and lemmas that
  the rows as a multiset do not depend on task order.
- `Scenarios` (`scenarios.dfy`): worked columns for an A>T variant at position 100.
- `Ints`, `Pileup` and `Wrappers` hold the fixed-width integers, the abstract htslib
  column, and `Option`/`Result`.

Modelling choices:

- **Integers.** Arithmetic follows a release build, where overflow checks are off:
  - `all_depth -= 1` wraps at 0 to `usize::MAX` (64-bit target);
  - `pos - 1` and `pileup.pos() + 1` wrap on `u32`;
  - `variant.pos as u32` truncates.

  `DepthLaws.NoUnderflow` shows that the decrement never wraps when the reported depth
  is at least the number of alignments. A smaller depth alone does not cause a wrap:
  a passing base read never decrements. `DepthLaws.DroppedBeyondDepthWraps` shows the
  wrap when the failing and gap reads outnumber the depth: one of them then finds
  `all_depth` at 0 and leaves `usize::MAX`. `DepthLaws.ShallowDepthWraps` is the
  smallest such column, depth 0 with one failing read.
- **vaf.** `vaf` is kept as the pair it is computed from: `Ratio(alt_depth, all_depth)`.
  The record's default 0.0 is `Unset`.
- **Alignment files.** A BAM file is a function from a fetch region to either an error
  (opening or fetching failed) or the pileup columns of the region. A column carries
  the reference name its tid resolves to, its 0-based position, htslib's depth, and
  its alignments.
- **Reads.** A read carries its flags, its mapping quality, what it shows at the
  position (`Del`, `RefSkip`, or `Base(b, insertionFollows)`), and its `CB` tag when
  that tag is a string.
- **Record vector.** The vector of `process_region` holds the records' values. Rust
  moves each `PilePosition` into the vector, so no record is shared.

Three behaviours of the code that a reader might expect to be otherwise; the model
follows the code:

- **Task failures are not isolated.** A failing task does not merely lose its own
  rows while the others are written. In the code, `collect::<Result<Vec<_>>>()?` fails the whole run, and nothing
  is written (src/main.rs:39-44). See `Dispatch.CollectedMeaning` and
  `Dispatch.OutputIsUnionOfTasks`.
- **`indel_n_lowq` is not part of `all_depth`.** The identity
  `all_depth == ref + alt + other + indel_n_lowq` does not hold. In the code, failing reads and gap reads are taken off `all_depth` and counted in
  `indel_n_lowq`. So with depth equal to the alignment count,
  `all_depth == ref + alt + other`, and `all_depth + indel_n_lowq` is the depth plus
  the insertion reads (`DepthLaws.ConservationAtFullDepth`).
- **`vaf` is not always the current ratio.** It is not NaN for a record with
  `all_depth` 0, nor always `alt_depth / all_depth` of the final counts. In the code it is
  recomputed only after a read that passes the filter. It stays 0.0 when no read
  passes (the empty column included), and it is left stale when the last read fails
  (`DepthLaws.VafOfColumn`).

## Model

| member | source | states |
|---|---|---|
| `Filter.FilterRead` | src/depth.rs:177-182 | `filter_read`: the flag and quality test itself, `(!flags) & include == 0 && flags & exclude == 0 && mapq >= min_mapq` on 16-bit words; its meaning is stated by `Filter.FilterReadBitwise` |
| `Filter.FilterReadBitwise` | src/depth.rs:177-182 | a read passes iff every include bit is set in its flags, no exclude bit is set, and mapq >= min_mapq |
| `Filter.IncludeBitwise` | src/depth.rs:179 | `(!flags) & include == 0` holds iff every bit of include is set in flags |
| `Filter.ExcludeBitwise` | src/depth.rs:180 | `flags & exclude == 0` holds iff no bit is set in both words |
| `Filter.PermissiveFilterPassesAll` | src/depth.rs:177-182 | with include 0, exclude 0 and min_mapq 0 every read passes |
| `Filter.DefaultFilterIsQualityFloor` | src/cli.rs:28-35 | with the command-line defaults (0, 0, 20) a read passes iff its mapq is at least 20 |
| `Depth.BarcodeOf` | src/depth.rs:57-60 | the `CB` tag's string, or "NA" when the read has no string `CB` tag; `Depth.Updated` appends it for alt reads |
| `Depth.TypeLabel` | src/depth.rs:123-127 | the label of the sample-type byte: "T" for 84, "N" for 78, "U" for any other |
| `Depth.Updated` | src/depth.rs:45-108 | one alignment lands in exactly one outcome, with ref tested before alt. A failing or gap read takes one off `all_depth` (wrapping) and adds one to `indel_n_lowq`. A base adds one to exactly its allele's counter; an alt base also appends its tag (or "NA") and ",". A following insertion adds to `indel_n_lowq` only. `vaf` is unchanged after a failing read, else `Ratio(alt, all)`. Name, position and label are kept |
| `Depth.Seeded` | src/depth.rs:119-127 | the record before the loop: the column's reference name, 1-based position `pos0 + 1` (u32, wrapping), `all_depth` = the reported depth, the label of the type byte, all else default |
| `Depth.Accumulated` | src/depth.rs:129-139 | the record after `update` has run on each alignment in order; its totals are stated by `DepthLaws.AccumulatedCounts` |
| `Depth.PositionOf` | src/depth.rs:119-140 | what `from_pileup` returns: the seed of the column folded through every alignment; `Depth.FromPileup` is proved equal to it |
| `Depth.PilePosition.constructor` | src/depth.rs:32-40 | `PilePosition::new` holds the name and position with all counters zero, empty label and barcode, and the default `vaf` |
| `Depth.PilePosition.Update` | src/depth.rs:45-108 | the in-place update leaves the record equal to `Updated` of its previous value |
| `Depth.FromPileup` | src/depth.rs:111-141 | the record is the seed (name, `pos0 + 1` in u32, `all_depth = depth`, label T/N/U for 84/78/other) updated by every alignment in order |
| `DepthLaws.CountsPartition` | src/depth.rs:73-103 | failing, gap, ref, alt and other reads add up to the column; the alt tags number the alt reads; insertion reads are among the counted bases |
| `DepthLaws.AccumulatedCounts` | src/depth.rs:129-139 | after a pass, each allele counter has grown by its reads, `indel_n_lowq` by failing + gap + insertion reads, and the barcode by the alt tags each with ",". `all_depth` is the seed less the failing and gap reads when the seed covers them; name, position and label are kept |
| `DepthLaws.ConservationAtFullDepth` | src/depth.rs:121-139 | with depth equal to the alignment count, `all_depth == ref + alt + other` and `all_depth + indel_n_lowq == depth + insertion reads` |
| `DepthLaws.NoUnderflow` | src/depth.rs:74-82 | with depth at least the alignment count, `all_depth` is at least 1 before every decrement |
| `DepthLaws.DroppedBeyondDepthWraps` | src/depth.rs:74-82 | when the failing and gap reads outnumber the reported depth, some such read finds `all_depth` at 0 and its decrement leaves usize::MAX |
| `DepthLaws.ShallowDepthWraps` | src/depth.rs:74-76 | a depth-0 column with one failing read wraps `all_depth` to usize::MAX |
| `DepthLaws.VafUntouchedWithoutPassingRead` | src/depth.rs:73-77 | a pass in which every read fails the filter leaves `vaf` unchanged |
| `DepthLaws.VafOfColumn` | src/depth.rs:73-107 | `vaf` stays at the 0.0 default when no read passes (an empty column included), and is `alt/all` of the final counts when the last read passes |
| `DepthLaws.BarcodeMatchesAltDepth` | src/depth.rs:57-95 | the barcode is the alt reads' tags, each followed by ",". Their number is `alt_depth`, and when no tag holds a comma the barcode's commas number `alt_depth` |
| `Processor.Selected` | src/depth.rs:223-236 | the records pushed for a fetch: one `from_pileup` record per column with `pos0 + 1 == pos`, in pileup order; stated by `Processor.SelectedRecords` |
| `Processor.RegionPositions` | src/depth.rs:216-236 | the open/fetch error, or the `Selected` records of the fetched region `[pos - 1, pos)` |
| `Processor.RegionFor` | src/depth.rs:219 | the fetched region is `[pos - 1, pos)` for pos >= 1; for pos 0 the start wraps to u32::MAX |
| `Processor.ProcessRegion` | src/depth.rs:205-238 | an open/fetch error is returned with the vector unchanged; otherwise the vector gains the `from_pileup` records of the fetched columns with `pos0 + 1 == pos`, in order |
| `Processor.SelectedRecords` | src/depth.rs:223-236 | the records are exactly those of the columns at the position; each has `pos` equal to the requested position and the sample label; there are none iff no column is there |
| `Processor.SelectedAtMostOne` | src/depth.rs:223-236 | with distinct column positions, the columns contribute at most one record |
| `Processor.RegionAtMostOne` | src/depth.rs:216-237 | a fetch without repeated positions makes `process_region` add at most one record |
| `Processor.RegionRecords` | src/depth.rs:219-236 | every record added by `process_region` is at the requested position with the sample label |
| `Processor.Processed` | src/depth.rs:250-271 | the tumor file's region records for 84, the normal file's for 78, the error "Invalid tntype" otherwise; stated by `Processor.ProcessedDispatch` |
| `Processor.Process` | src/depth.rs:241-285 | `process` returns what the dispatch on the type byte gives |
| `Processor.ProcessedDispatch` | src/depth.rs:250-271 | 84 queries the tumor file and 78 the normal file; any other byte is the error "Invalid tntype"; records are labelled "T" for 84 and "N" for 78 and sit at the requested position |
| `Dispatch.Tasks` | src/main.rs:27-37 | every task pairs a given variant with 78 or 84 |
| `Dispatch.TasksLayout` | src/main.rs:27-37 | the product has 2N tasks: variant i is task 2i with 78 and task 2i+1 with 84 |
| `Dispatch.TasksMultiplicity` | src/main.rs:35-37 | each variant occurs as often with 78 and with 84 as it occurs in the list, and no other pair occurs |
| `Dispatch.PileResult` | src/main.rs:62-67 | a task's result: `process` on the chrom, `pos as u32` and the first byte of each allele |
| `Dispatch.Collected` | src/main.rs:38-40 | the short-circuiting `collect::<Result<Vec<_>>>`: the first failing task's error, or every task's vector; stated by `Dispatch.CollectedMeaning` |
| `Dispatch.Rows` | src/main.rs:45-49 | the writer's nested loop: every vector's records in turn |
| `Dispatch.Output` | src/main.rs:39-49 | what the run ends with: the collect's error, or the `Rows` of its vectors; `Dispatch.Run` is proved equal to it |
| `Dispatch.GetPileRes` | src/main.rs:54-69 | `process` is called with the chrom, `pos as u32` and the first byte of each allele |
| `Dispatch.CollectedMeaning` | src/main.rs:39-40 | the collect fails iff some task fails, with a failing task's message; otherwise it holds each task's vector in task order |
| `Dispatch.CollectedPrefixFailure` | src/main.rs:39-40 | once a task fails, the collect as a whole is that failure |
| `Dispatch.Run` | src/main.rs:13-51 | the filter and processor are built from the options unchanged; the result is the collect's error, or the rows of every task's vector in turn |
| `Dispatch.CollectedRows` | src/main.rs:45-49 | the written rows are exactly the tasks' records, each once, in task order |
| `Dispatch.TaskRowsOrderFree` | src/main.rs:38-40 | any reordering of the tasks yields the same multiset of records |
| `Dispatch.OutputIsUnionOfTasks` | src/main.rs:35-49 | for any order of the tasks, the run fails iff some task fails, and otherwise writes exactly the multiset union of the tasks' records |
| `Dispatch.OutputRowsAtVariants` | src/main.rs:62-67 | every written row is at the (u32) position of some variant and labelled "T" or "N" |
| `Dispatch.TaskRowsAtMostOnePerTask` | src/main.rs:39 | with one column per position in every fetch, each task contributes at most one record |
| `Dispatch.OutputBound` | src/main.rs:35-49 | with one column per position in every fetch, N variants give at most 2N rows |
| `Scenarios.ScenarioAlleleCounts` | src/depth.rs:88-98 | for any reference name, six A, three T tagged CB1 and one G at depth 10 give all 10, ref 6, alt 3, other 1, indel 0, vaf 3/10, barcode "CB1,CB1,CB1," |
| `Scenarios.ScenarioLowQuality` | src/depth.rs:73-77 | the same column with one A read at mapq 10 gives all 9, ref 5, indel 1, vaf 3/9 |
| `Scenarios.ScenarioInsertion` | src/depth.rs:101-103 | a ref read followed by an insertion counts as ref and in `indel_n_lowq`, and `all_depth` stays 1 |
| `Scenarios.ScenarioCoordinates` | src/depth.rs:219-225 | position 100 fetches `[99, 100)`, and of columns at 98, 99 and 100 only the one at 99 gives a record, with pos 100 |

## Left out

- htslib I/O (`IndexedReader::from_path`, `fetch`, `pileup`, `record.aux`, `seq()`,
  `qpos()`) is replaced by the abstract `Bam` function and `Column`/`Read` values, since
  it is a foreign library. Any failure to open or fetch is one error message.
- The `qpos().unwrap()` in `update` cannot fail in the model: a `Base` read always
  carries its base.
- The `expect("msg")` on pileup items is not modelled: a panic on a corrupt record ends
  the process, and the model's columns are the successfully read ones.
- A `CB` tag of a type other than a string reads as "NA".
- `compact_refseq` (UTF-8 decoding of the header name) is left out as header lookup
  in a foreign library. A column carries its reference name as a given string.
- VCF parsing (src/vcf.rs) is left out as file I/O. A `Variant` is a given value whose
  alleles are the bytes of the allele strings.
- Argument parsing (src/cli.rs) is left out. The filter options are an `Args` value;
  the filter defaults are `Filter.DEFAULT_FILTER`.
- The thread pool, `threads` and `par_bridge` are left out as concurrency. Tasks run
  one after another.
- When several tasks fail, the model reports the first in task order. The parallel
  source may report any of them. The lemmas claim only that the run fails.
- The `println!` of the variant count (src/main.rs:18) is left out as logging.
- The CSV writer and serde serialization are left out as output plumbing. The model
  keeps the sequence of records handed to the writer.
- The f64 division for `vaf` is left out as floating point. The model keeps the two
  counts it is computed from.
- The `ReadFilter` trait's generic dispatch is not modelled, since
  `DefaultReadFilter` is its only implementation.
- Counter increments (`+= 1`) are unbounded naturals. They happen at most once per
  alignment, so they cannot reach `usize::MAX`.
- `variant.ref_base.as_bytes()[0]` panics on an empty allele. `Dispatch.GetPileRes` and
  `Dispatch.Run` therefore require non-empty alleles (`Dispatch.Runnable`); the panic is
  not modelled.
- A debug build panics where the model wraps. `DepthLaws.NoUnderflow` gives the
  condition under which no such panic occurs in `update`.
