/**
 * `PilePosition`: the per-position record and its accumulation over one
 * pileup column (`update`, `from_pileup`).
 */
module Depth {
  import opened Ints
  import opened Wrappers
  import opened Pileup
  import opened Filter

  /**
   * The `vaf` field. The source stores the f64 `alt_depth / all_depth`; the
   * model keeps the two counts it was computed from. `Unset` is the default
   * 0.0 of a record no passing read has reached; `Ratio(a, 0)` is the NaN (or
   * infinity) of an empty denominator.
   */
  datatype Vaf = Unset | Ratio(alt: nat, all: nat)

  /** The value of a `PilePosition`, as pushed into the result vector and written out. */
  datatype Position = Position(
    chrom: string,
    pos: nat,
    allDepth: nat,
    altDepth: nat,
    refDepth: nat,
    otherDepth: nat,
    indelNLowq: nat,
    tntype: string,
    vaf: Vaf,
    barcode: string)

  /** `PilePosition::new`: the name and position, everything else at its default. */
  function NewPosition(refSeq: string, pos: U32): Position
  {
    Position(refSeq, pos, 0, 0, 0, 0, 0, "", Unset, "")
  }

  /** The read's `CB` tag when it is a string, `"NA"` otherwise. */
  function BarcodeOf(r: Read): string
  {
    match r.cb
    case Some(b) => b
    case None => "NA"
  }

  /** The label `from_pileup` gives the sample-type byte. */
  function TypeLabel(tntype: Byte): string
  {
    if tntype == 84 then "T" else if tntype == 78 then "N" else "U"
  }

  /** Which counter an alignment lands in, in the order `update` tests them. */
  datatype Outcome = Failed | Gap | RefAllele | AltAllele | OtherAllele

  function OutcomeOf(r: Read, filter: ReadFilter, refBase: Byte, altBase: Byte): Outcome
  {
    if !FilterRead(filter, r.flags, r.mapq) then Failed
    else match r.kind
      case Base(b, _) =>
        if b == refBase then RefAllele else if b == altBase then AltAllele else OtherAllele
      case _ => Gap
  }

  /** Whether an alignment is one of those that take one off `all_depth`. */
  predicate Drops(o: Outcome)
  {
    o == Failed || o == Gap
  }

  /** Whether an alignment adds one to `indel_n_lowq`. */
  predicate CountsAsIndelOrLowq(r: Read, filter: ReadFilter, refBase: Byte, altBase: Byte)
  {
    var o := OutcomeOf(r, filter, refBase, altBase);
    Drops(o) || r.kind.insertionFollows
  }

  /**
   * What `update` does to a record for one alignment. Each alignment lands in
   * exactly one outcome; a failing read leaves the alleles, the barcode and
   * `vaf` as they were, because of the early return.
   */
  function Updated(p: Position, r: Read, filter: ReadFilter, refBase: Byte, altBase: Byte): (q: Position)
    ensures q.chrom == p.chrom && q.pos == p.pos && q.tntype == p.tntype
    ensures var o := OutcomeOf(r, filter, refBase, altBase);
      && q.refDepth == p.refDepth + (if o == RefAllele then 1 else 0)
      && q.altDepth == p.altDepth + (if o == AltAllele then 1 else 0)
      && q.otherDepth == p.otherDepth + (if o == OtherAllele then 1 else 0)
      && q.allDepth == (if Drops(o) then WrappingDecUsize(p.allDepth) else p.allDepth)
      && q.barcode == (if o == AltAllele then p.barcode + BarcodeOf(r) + "," else p.barcode)
      && q.vaf == (if o == Failed then p.vaf else Ratio(q.altDepth, q.allDepth))
    ensures q.indelNLowq
      == p.indelNLowq + (if CountsAsIndelOrLowq(r, filter, refBase, altBase) then 1 else 0)
  {
    if !FilterRead(filter, r.flags, r.mapq) then
      p.(allDepth := WrappingDecUsize(p.allDepth), indelNLowq := p.indelNLowq + 1)
    else
      var q :=
        if r.kind.RefSkip? || r.kind.Del? then
          p.(indelNLowq := p.indelNLowq + 1, allDepth := WrappingDecUsize(p.allDepth))
        else
          var b := r.kind.base;
          var counted :=
            if b == refBase then p.(refDepth := p.refDepth + 1)
            else if b == altBase then
              p.(altDepth := p.altDepth + 1, barcode := p.barcode + BarcodeOf(r) + ",")
            else p.(otherDepth := p.otherDepth + 1);
          if r.kind.insertionFollows then counted.(indelNLowq := counted.indelNLowq + 1)
          else counted;
      q.(vaf := Ratio(q.altDepth, q.allDepth))
  }

  /** The record after `update` has seen every alignment of `alignments` in order. */
  function Accumulated(p: Position, alignments: seq<Read>, filter: ReadFilter, refBase: Byte, altBase: Byte): Position
    decreases |alignments|
  {
    if alignments == [] then p
    else
      var n := |alignments| - 1;
      Updated(Accumulated(p, alignments[..n], filter, refBase, altBase), alignments[n], filter, refBase, altBase)
  }

  /** The record `from_pileup` starts from: 1-based position, depth seed, sample label. */
  function Seeded(column: Column, tntype: Byte): Position
  {
    NewPosition(column.refName, WrappingIncU32(column.pos0))
      .(allDepth := column.depth, tntype := TypeLabel(tntype))
  }

  /** The record `from_pileup` returns for a column. */
  function PositionOf(column: Column, filter: ReadFilter, refBase: Byte, altBase: Byte, tntype: Byte): Position
  {
    Accumulated(Seeded(column, tntype), column.alignments, filter, refBase, altBase)
  }

  class PilePosition {
    var chrom: string
    var pos: nat
    var allDepth: nat
    var altDepth: nat
    var refDepth: nat
    var otherDepth: nat
    var indelNLowq: nat
    var tntype: string
    var vaf: Vaf
    var barcode: string

    function Value(): Position
      reads this
    {
      Position(chrom, pos, allDepth, altDepth, refDepth, otherDepth, indelNLowq, tntype, vaf, barcode)
    }

    /** `PilePosition::new`. */
    constructor (refSeq: string, pos: U32)
      ensures Value() == NewPosition(refSeq, pos)
    {
      chrom := refSeq;
      this.pos := pos;
      allDepth, altDepth, refDepth, otherDepth, indelNLowq := 0, 0, 0, 0, 0;
      tntype := "";
      vaf := Unset;
      barcode := "";
    }

    /** `update`: counts one alignment of the column. */
    method Update(r: Read, filter: ReadFilter, refBase: Byte, altBase: Byte)
      modifies this
      ensures Value() == Updated(old(Value()), r, filter, refBase, altBase)
    {
      var tag := BarcodeOf(r);
      if !FilterRead(filter, r.flags, r.mapq) {
        allDepth := WrappingDecUsize(allDepth);
        indelNLowq := indelNLowq + 1;
        return;
      }
      if r.kind.RefSkip? || r.kind.Del? {
        indelNLowq := indelNLowq + 1;
        allDepth := WrappingDecUsize(allDepth);
      } else {
        var currBase := r.kind.base;
        if currBase == refBase {
          refDepth := refDepth + 1;
        } else if currBase == altBase {
          altDepth := altDepth + 1;
          barcode := barcode + tag;
          barcode := barcode + ",";
        } else {
          otherDepth := otherDepth + 1;
        }
        if r.kind.insertionFollows {
          indelNLowq := indelNLowq + 1;
        }
      }
      vaf := Ratio(altDepth, allDepth);
    }
  }

  /** `from_pileup`: a fresh record for the column, updated by each alignment in turn. */
  method FromPileup(column: Column, filter: ReadFilter, refBase: Byte, altBase: Byte, tntype: Byte)
    returns (p: PilePosition)
    ensures p.Value() == PositionOf(column, filter, refBase, altBase, tntype)
  {
    p := new PilePosition(column.refName, WrappingIncU32(column.pos0));
    p.allDepth := column.depth;
    p.tntype := TypeLabel(tntype);
    var alignments := column.alignments;
    for i := 0 to |alignments|
      invariant p.Value() == Accumulated(Seeded(column, tntype), alignments[..i], filter, refBase, altBase)
    {
      p.Update(alignments[i], filter, refBase, altBase);
      assert alignments[..i + 1][..i] == alignments[..i];
    }
    assert alignments[..|alignments|] == alignments;
  }
}
