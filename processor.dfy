/**
 * `DepthProcessor`: fetching the column at a variant position from the tumor
 * or the normal file and turning it into records.
 */
module Processor {
  import opened Ints
  import opened Wrappers
  import opened Pileup
  import opened Filter
  import opened Depth
  import opened DepthLaws

  /** The two indexed alignment files and the read filter shared by every task. */
  datatype DepthProcessor = DepthProcessor(tumorReads: Bam, normalReads: Bam, readFilter: ReadFilter)

  /** The region fetched for a 1-based position: `[pos - 1, pos)` in u32 arithmetic. */
  function RegionFor(chrom: string, pos: U32): (rg: Region)
    ensures rg.chrom == chrom && rg.end == pos
    ensures pos >= 1 ==> rg.start == pos - 1
    ensures pos == 0 ==> rg.start == U32_LIMIT - 1
  {
    Region(chrom, WrappingDecU32(pos), pos)
  }

  /** Whether a column sits at the 1-based position: `pileup.pos() + 1 == pos`. */
  predicate AtPosition(c: Column, pos: U32)
  {
    WrappingIncU32(c.pos0) == pos
  }

  /** No two columns of a fetch share a position. */
  predicate DistinctColumns(columns: seq<Column>)
  {
    forall i, j | 0 <= i < j < |columns| :: columns[i].pos0 != columns[j].pos0
  }

  /** Every fetch from the file yields columns at distinct positions, as a pileup does. */
  ghost predicate OneColumnPerPosition(bam: Bam)
  {
    forall rg: Region :: bam(rg).Success? ==> DistinctColumns(bam(rg).value)
  }

  /** The records pushed for the fetched columns: one per column at the position, in order. */
  function Selected(columns: seq<Column>, pos: U32, filter: ReadFilter, refBase: Byte, altBase: Byte, tntype: Byte): seq<Position>
    decreases |columns|
  {
    if columns == [] then []
    else
      var n := |columns| - 1;
      Selected(columns[..n], pos, filter, refBase, altBase, tntype)
        + (if AtPosition(columns[n], pos) then [PositionOf(columns[n], filter, refBase, altBase, tntype)] else [])
  }

  /** What `process_region` adds to its vector, or the error of opening or fetching. */
  function RegionPositions(filter: ReadFilter, chrom: string, pos: U32, bam: Bam, refBase: Byte, altBase: Byte, tntype: Byte)
    : Result<seq<Position>, string>
  {
    match bam(RegionFor(chrom, pos))
    case Failure(e) => Failure(e)
    case Success(columns) => Success(Selected(columns, pos, filter, refBase, altBase, tntype))
  }

  /** `process_region`: appends to `res` the records of the columns at `pos`. */
  method ProcessRegion(processor: DepthProcessor, chrom: string, pos: U32, bamPath: Bam,
                       refBase: Byte, altBase: Byte, tntype: Byte, res: seq<Position>)
    returns (status: Result<(), string>, out: seq<Position>)
    ensures match RegionPositions(processor.readFilter, chrom, pos, bamPath, refBase, altBase, tntype)
      case Failure(e) => status == Failure(e) && out == res
      case Success(records) => status == Success(()) && out == res + records
  {
    var fetched := bamPath(RegionFor(chrom, pos));
    if fetched.Failure? {
      return Failure(fetched.error), res;
    }
    var columns := fetched.value;
    out := res;
    for i := 0 to |columns|
      invariant out == res + Selected(columns[..i], pos, processor.readFilter, refBase, altBase, tntype)
    {
      var column := columns[i];
      assert columns[..i + 1][..i] == columns[..i];
      if WrappingIncU32(column.pos0) == pos {
        var p := FromPileup(column, processor.readFilter, refBase, altBase, tntype);
        out := out + [p.Value()];
      }
    }
    assert columns[..|columns|] == columns;
    status := Success(());
  }

  /** What `process` returns for a sample-type byte. */
  function Processed(processor: DepthProcessor, chrom: string, pos: U32, refBase: Byte, altBase: Byte, tntype: Byte)
    : Result<seq<Position>, string>
  {
    if tntype == 84 then
      RegionPositions(processor.readFilter, chrom, pos, processor.tumorReads, refBase, altBase, tntype)
    else if tntype == 78 then
      RegionPositions(processor.readFilter, chrom, pos, processor.normalReads, refBase, altBase, tntype)
    else
      Failure("Invalid tntype")
  }

  /** `process`: the tumor file for 84, the normal file for 78, an error otherwise. */
  method Process(processor: DepthProcessor, chrom: string, pos: U32, refBase: Byte, altBase: Byte, tntype: Byte)
    returns (r: Result<seq<Position>, string>)
    ensures r == Processed(processor, chrom, pos, refBase, altBase, tntype)
  {
    var output: seq<Position> := [];
    var status: Result<(), string>;
    assert forall records: seq<Position> :: output + records == records;
    if tntype == 84 {
      status, output := ProcessRegion(processor, chrom, pos, processor.tumorReads, refBase, altBase, tntype, output);
    } else if tntype == 78 {
      status, output := ProcessRegion(processor, chrom, pos, processor.normalReads, refBase, altBase, tntype, output);
    } else {
      return Failure("Invalid tntype");
    }
    if status.Failure? {
      return Failure(status.error);
    }
    return Success(output);
  }

  /**
   * The records selected from a fetch are exactly the `from_pileup` records
   * of the columns at the position; each carries the requested 1-based
   * position and the sample label, and a fetch with no column there yields none.
   */
  lemma {:induction false} SelectedRecords(columns: seq<Column>, pos: U32, filter: ReadFilter, refBase: Byte, altBase: Byte, tntype: Byte)
    ensures forall c | c in columns && AtPosition(c, pos) ::
      PositionOf(c, filter, refBase, altBase, tntype) in Selected(columns, pos, filter, refBase, altBase, tntype)
    ensures forall p | p in Selected(columns, pos, filter, refBase, altBase, tntype) ::
      && p.pos == pos && p.tntype == TypeLabel(tntype)
      && exists c | c in columns :: AtPosition(c, pos) && p == PositionOf(c, filter, refBase, altBase, tntype)
    ensures Selected(columns, pos, filter, refBase, altBase, tntype) == [] <==>
      forall c | c in columns :: !AtPosition(c, pos)
    decreases |columns|
  {
    if columns != [] {
      var n := |columns| - 1;
      var init := columns[..n];
      SelectedRecords(init, pos, filter, refBase, altBase, tntype);
      assert columns == init + [columns[n]];
      var last := columns[n];
      if AtPosition(last, pos) {
        AccumulatedKeepsIdentity(Seeded(last, tntype), last.alignments, filter, refBase, altBase);
      }
    }
  }

  /** With distinct column positions, a fetch contributes at most one record. */
  lemma {:induction false} SelectedAtMostOne(columns: seq<Column>, pos: U32, filter: ReadFilter, refBase: Byte, altBase: Byte, tntype: Byte)
    requires DistinctColumns(columns)
    ensures |Selected(columns, pos, filter, refBase, altBase, tntype)| <= 1
    decreases |columns|
  {
    if columns != [] {
      var n := |columns| - 1;
      var init := columns[..n];
      assert DistinctColumns(init) by {
        forall i, j | 0 <= i < j < |init| ensures init[i].pos0 != init[j].pos0 {
          assert init[i] == columns[i] && init[j] == columns[j];
        }
      }
      SelectedAtMostOne(init, pos, filter, refBase, altBase, tntype);
      var before := Selected(init, pos, filter, refBase, altBase, tntype);
      if AtPosition(columns[n], pos) && |before| == 1 {
        SelectedRecords(init, pos, filter, refBase, altBase, tntype);
        assert false;
      }
    }
  }

  /** The same for a whole `process_region` call. */
  lemma RegionAtMostOne(filter: ReadFilter, chrom: string, pos: U32, bam: Bam, refBase: Byte, altBase: Byte, tntype: Byte)
    requires bam(RegionFor(chrom, pos)).Success? ==> DistinctColumns(bam(RegionFor(chrom, pos)).value)
    ensures var r := RegionPositions(filter, chrom, pos, bam, refBase, altBase, tntype);
      r.Success? ==> |r.value| <= 1
  {
    if bam(RegionFor(chrom, pos)).Success? {
      SelectedAtMostOne(bam(RegionFor(chrom, pos)).value, pos, filter, refBase, altBase, tntype);
    }
  }

  /**
   * `process` for each sample-type byte: 84 reads the tumor file and labels
   * its records "T", 78 reads the normal file and labels them "N", any other
   * byte is the error "Invalid tntype". Every record is at the requested position.
   */
  lemma ProcessedDispatch(processor: DepthProcessor, chrom: string, pos: U32, refBase: Byte, altBase: Byte, tntype: Byte)
    ensures var r := Processed(processor, chrom, pos, refBase, altBase, tntype);
      && (tntype != 84 && tntype != 78 ==> r == Failure("Invalid tntype"))
      && (tntype == 84 ==> r == RegionPositions(processor.readFilter, chrom, pos, processor.tumorReads, refBase, altBase, tntype))
      && (tntype == 78 ==> r == RegionPositions(processor.readFilter, chrom, pos, processor.normalReads, refBase, altBase, tntype))
      && (r.Success? ==> forall p | p in r.value ::
            p.pos == pos && p.tntype == (if tntype == 84 then "T" else "N"))
  {
    if tntype == 84 {
      RegionRecords(processor.readFilter, chrom, pos, processor.tumorReads, refBase, altBase, tntype);
    } else if tntype == 78 {
      RegionRecords(processor.readFilter, chrom, pos, processor.normalReads, refBase, altBase, tntype);
    }
  }

  /** Every record of a `process_region` call is at the requested position and carries the label. */
  lemma RegionRecords(filter: ReadFilter, chrom: string, pos: U32, bam: Bam, refBase: Byte, altBase: Byte, tntype: Byte)
    ensures var r := RegionPositions(filter, chrom, pos, bam, refBase, altBase, tntype);
      r.Success? ==> forall p | p in r.value :: p.pos == pos && p.tntype == TypeLabel(tntype)
  {
    match bam(RegionFor(chrom, pos))
    case Failure(_) =>
    case Success(columns) =>
      SelectedRecords(columns, pos, filter, refBase, altBase, tntype);
  }
}
