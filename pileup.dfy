/**
 * The pileup columns that htslib delivers, as plain values. Reading the
 * alignment file, decoding records and building columns happen outside the
 * model; a file is represented by what fetching a region from it yields.
 */
module Pileup {
  import opened Ints
  import opened Wrappers

  /** What an alignment shows at the column's position. */
  datatype Kind =
    | Del                                          // is_del() without is_refskip()
    | RefSkip                                      // is_refskip() (spliced gap)
    | Base(base: Byte, insertionFollows: bool)     // seq()[qpos()], and indel() == Ins(_)

  /**
   * One alignment of a column: the record's SAM flags and mapping quality,
   * its kind at this position, and its `CB` tag when that is a string.
   */
  datatype Read = Read(flags: bv16, mapq: Byte, kind: Kind, cb: Option<string>)

  /**
   * A pileup column: the reference name its tid resolves to, its 0-based
   * position, the depth htslib reports, and its alignments in iteration order.
   */
  datatype Column = Column(refName: string, pos0: U32, depth: U32, alignments: seq<Read>)

  /** The region handed to `IndexedReader::fetch`: chrom, 0-based start, end. */
  datatype Region = Region(chrom: string, start: U32, end: U32)

  /**
   * An indexed alignment file: opening it and fetching a region either fails
   * with a message or yields the pileup columns of that region.
   */
  type Bam = Region -> Result<seq<Column>, string>
}
