/**
 * What one pass of `from_pileup` adds up to: each counter is the number of
 * alignments of its kind, `all_depth` is the seed less the failing and gap
 * reads, and the barcode lists one entry per alt read.
 */
module DepthLaws {
  import opened Ints
  import opened Wrappers
  import opened Pileup
  import opened Filter
  import opened Depth

  /** The number of alignments with outcome `o`. */
  function CountOf(alignments: seq<Read>, filter: ReadFilter, refBase: Byte, altBase: Byte, o: Outcome): nat
    decreases |alignments|
  {
    if alignments == [] then 0
    else
      var n := |alignments| - 1;
      CountOf(alignments[..n], filter, refBase, altBase, o)
        + (if OutcomeOf(alignments[n], filter, refBase, altBase) == o then 1 else 0)
  }

  /** The number of alignments that take one off `all_depth`. */
  function CountDropped(alignments: seq<Read>, filter: ReadFilter, refBase: Byte, altBase: Byte): nat
  {
    CountOf(alignments, filter, refBase, altBase, Failed) + CountOf(alignments, filter, refBase, altBase, Gap)
  }

  /** The number of passing base reads followed by an insertion. */
  function CountInsertions(alignments: seq<Read>, filter: ReadFilter, refBase: Byte, altBase: Byte): nat
    decreases |alignments|
  {
    if alignments == [] then 0
    else
      var n := |alignments| - 1;
      var r := alignments[n];
      CountInsertions(alignments[..n], filter, refBase, altBase)
        + (if !Drops(OutcomeOf(r, filter, refBase, altBase)) && r.kind.insertionFollows then 1 else 0)
  }

  /** The barcodes of the alt reads, in column order. */
  function AltTags(alignments: seq<Read>, filter: ReadFilter, refBase: Byte, altBase: Byte): seq<string>
    decreases |alignments|
  {
    if alignments == [] then []
    else
      var n := |alignments| - 1;
      AltTags(alignments[..n], filter, refBase, altBase)
        + (if OutcomeOf(alignments[n], filter, refBase, altBase) == AltAllele then [BarcodeOf(alignments[n])] else [])
  }

  /** Each entry followed by a comma, all concatenated. */
  function Joined(tags: seq<string>): string
    decreases |tags|
  {
    if tags == [] then "" else Joined(tags[..|tags| - 1]) + tags[|tags| - 1] + ","
  }

  function CommaCount(s: string): nat
    decreases |s|
  {
    if s == [] then 0 else CommaCount(s[..|s| - 1]) + (if s[|s| - 1] == ',' then 1 else 0)
  }

  /** Every alignment has exactly one outcome, so the five counts add up to the column. */
  lemma {:induction false} CountsPartition(alignments: seq<Read>, filter: ReadFilter, refBase: Byte, altBase: Byte)
    ensures CountDropped(alignments, filter, refBase, altBase)
      + CountOf(alignments, filter, refBase, altBase, RefAllele)
      + CountOf(alignments, filter, refBase, altBase, AltAllele)
      + CountOf(alignments, filter, refBase, altBase, OtherAllele)
      == |alignments|
    ensures |AltTags(alignments, filter, refBase, altBase)| == CountOf(alignments, filter, refBase, altBase, AltAllele)
    ensures CountInsertions(alignments, filter, refBase, altBase) + CountDropped(alignments, filter, refBase, altBase)
      <= |alignments|
    decreases |alignments|
  {
    if alignments != [] {
      CountsPartition(alignments[..|alignments| - 1], filter, refBase, altBase);
    }
  }

  lemma {:induction false} AccumulatedKeepsIdentity(p: Position, alignments: seq<Read>, filter: ReadFilter, refBase: Byte, altBase: Byte)
    ensures var q := Accumulated(p, alignments, filter, refBase, altBase);
      q.chrom == p.chrom && q.pos == p.pos && q.tntype == p.tntype
    decreases |alignments|
  {
    if alignments != [] {
      AccumulatedKeepsIdentity(p, alignments[..|alignments| - 1], filter, refBase, altBase);
    }
  }

  lemma {:induction false} AccumulatedAlleles(p: Position, alignments: seq<Read>, filter: ReadFilter, refBase: Byte, altBase: Byte)
    ensures var q := Accumulated(p, alignments, filter, refBase, altBase);
      && q.refDepth == p.refDepth + CountOf(alignments, filter, refBase, altBase, RefAllele)
      && q.altDepth == p.altDepth + CountOf(alignments, filter, refBase, altBase, AltAllele)
      && q.otherDepth == p.otherDepth + CountOf(alignments, filter, refBase, altBase, OtherAllele)
    decreases |alignments|
  {
    if alignments != [] {
      AccumulatedAlleles(p, alignments[..|alignments| - 1], filter, refBase, altBase);
    }
  }

  lemma {:induction false} AccumulatedIndelNLowq(p: Position, alignments: seq<Read>, filter: ReadFilter, refBase: Byte, altBase: Byte)
    ensures Accumulated(p, alignments, filter, refBase, altBase).indelNLowq
      == p.indelNLowq + CountDropped(alignments, filter, refBase, altBase)
         + CountInsertions(alignments, filter, refBase, altBase)
    decreases |alignments|
  {
    if alignments != [] {
      AccumulatedIndelNLowq(p, alignments[..|alignments| - 1], filter, refBase, altBase);
    }
  }

  lemma {:induction false} AccumulatedBarcode(p: Position, alignments: seq<Read>, filter: ReadFilter, refBase: Byte, altBase: Byte)
    ensures Accumulated(p, alignments, filter, refBase, altBase).barcode
      == p.barcode + Joined(AltTags(alignments, filter, refBase, altBase))
    decreases |alignments|
  {
    if alignments != [] {
      var n := |alignments| - 1;
      var r := alignments[n];
      AccumulatedBarcode(p, alignments[..n], filter, refBase, altBase);
      var before := Accumulated(p, alignments[..n], filter, refBase, altBase);
      var tags := AltTags(alignments[..n], filter, refBase, altBase);
      assert Accumulated(p, alignments, filter, refBase, altBase) == Updated(before, r, filter, refBase, altBase);
      if OutcomeOf(r, filter, refBase, altBase) == AltAllele {
        assert AltTags(alignments, filter, refBase, altBase) == tags + [BarcodeOf(r)];
        JoinedSnoc(tags, BarcodeOf(r));
      } else {
        assert AltTags(alignments, filter, refBase, altBase) == tags + [];
        assert tags + [] == tags;
      }
    }
  }

  lemma JoinedSnoc(tags: seq<string>, t: string)
    ensures Joined(tags + [t]) == Joined(tags) + t + ","
  {
    assert (tags + [t])[..|tags|] == tags;
  }

  lemma {:induction false} AccumulatedAllDepth(p: Position, alignments: seq<Read>, filter: ReadFilter, refBase: Byte, altBase: Byte)
    requires CountDropped(alignments, filter, refBase, altBase) <= p.allDepth
    ensures Accumulated(p, alignments, filter, refBase, altBase).allDepth
      == p.allDepth - CountDropped(alignments, filter, refBase, altBase)
    decreases |alignments|
  {
    if alignments != [] {
      AccumulatedAllDepth(p, alignments[..|alignments| - 1], filter, refBase, altBase);
    }
  }

  /**
   * The record after a pass: the name, position and label are kept; each
   * allele counter grows by the number of its reads; `indel_n_lowq` grows by
   * the failing, gap and insertion reads; the barcode grows by the alt reads'
   * tags. When the seed covers the dropped reads, `all_depth` is the seed less
   * them, with no wrap-around on the way.
   */
  lemma AccumulatedCounts(p: Position, alignments: seq<Read>, filter: ReadFilter, refBase: Byte, altBase: Byte)
    ensures var q := Accumulated(p, alignments, filter, refBase, altBase);
      && q.chrom == p.chrom && q.pos == p.pos && q.tntype == p.tntype
      && q.refDepth == p.refDepth + CountOf(alignments, filter, refBase, altBase, RefAllele)
      && q.altDepth == p.altDepth + CountOf(alignments, filter, refBase, altBase, AltAllele)
      && q.otherDepth == p.otherDepth + CountOf(alignments, filter, refBase, altBase, OtherAllele)
      && q.indelNLowq == p.indelNLowq + CountDropped(alignments, filter, refBase, altBase)
                         + CountInsertions(alignments, filter, refBase, altBase)
      && q.barcode == p.barcode + Joined(AltTags(alignments, filter, refBase, altBase))
      && (CountDropped(alignments, filter, refBase, altBase) <= p.allDepth ==>
            q.allDepth == p.allDepth - CountDropped(alignments, filter, refBase, altBase))
  {
    AccumulatedKeepsIdentity(p, alignments, filter, refBase, altBase);
    AccumulatedAlleles(p, alignments, filter, refBase, altBase);
    AccumulatedIndelNLowq(p, alignments, filter, refBase, altBase);
    AccumulatedBarcode(p, alignments, filter, refBase, altBase);
    if CountDropped(alignments, filter, refBase, altBase) <= p.allDepth {
      AccumulatedAllDepth(p, alignments, filter, refBase, altBase);
    }
  }

  /**
   * When htslib's depth equals the number of alignments, every counted read
   * is one of `all_depth` (`all = ref + alt + other`), and `all_depth` plus
   * `indel_n_lowq` exceeds the depth by exactly the insertion reads, which
   * add to `indel_n_lowq` without taking from `all_depth`.
   */
  lemma ConservationAtFullDepth(column: Column, filter: ReadFilter, refBase: Byte, altBase: Byte, tntype: Byte)
    requires column.depth == |column.alignments|
    ensures var q := PositionOf(column, filter, refBase, altBase, tntype);
      && q.allDepth == q.refDepth + q.altDepth + q.otherDepth
      && q.allDepth + q.indelNLowq == column.depth + CountInsertions(column.alignments, filter, refBase, altBase)
  {
    CountsPartition(column.alignments, filter, refBase, altBase);
    AccumulatedCounts(Seeded(column, tntype), column.alignments, filter, refBase, altBase);
  }

  /**
   * When the depth is at least the number of alignments, `all_depth -= 1`
   * never runs on a zero: before every dropped read the running record has
   * `all_depth >= 1`.
   */
  lemma NoUnderflow(column: Column, filter: ReadFilter, refBase: Byte, altBase: Byte, tntype: Byte)
    requires column.depth >= |column.alignments|
    ensures forall k | 0 <= k < |column.alignments| ::
      Drops(OutcomeOf(column.alignments[k], filter, refBase, altBase)) ==>
        Accumulated(Seeded(column, tntype), column.alignments[..k], filter, refBase, altBase).allDepth >= 1
  {
    forall k | 0 <= k < |column.alignments|
      ensures Accumulated(Seeded(column, tntype), column.alignments[..k], filter, refBase, altBase).allDepth >= 1
    {
      var prefix := column.alignments[..k];
      CountsPartition(prefix, filter, refBase, altBase);
      AccumulatedCounts(Seeded(column, tntype), prefix, filter, refBase, altBase);
    }
  }

  /** A column whose reported depth is too small wraps `all_depth` around to usize::MAX. */
  lemma ShallowDepthWraps(name: string, pos0: U32, r: Read, filter: ReadFilter, refBase: Byte, altBase: Byte, tntype: Byte)
    requires !FilterRead(filter, r.flags, r.mapq)
    ensures PositionOf(Column(name, pos0, 0, [r]), filter, refBase, altBase, tntype).allDepth == USIZE_MAX
  {
    var seed := Seeded(Column(name, pos0, 0, [r]), tntype);
    assert [r][..0] == [];
    assert Accumulated(seed, [r], filter, refBase, altBase) == Updated(seed, r, filter, refBase, altBase);
  }

  /**
   * When the dropped reads outnumber the running `all_depth`, some dropped
   * read finds it at zero.
   */
  lemma {:induction false} DropReachesZero(p: Position, alignments: seq<Read>, filter: ReadFilter, refBase: Byte, altBase: Byte)
    requires CountDropped(alignments, filter, refBase, altBase) > p.allDepth
    ensures exists k | 0 <= k < |alignments| ::
      && Drops(OutcomeOf(alignments[k], filter, refBase, altBase))
      && Accumulated(p, alignments[..k], filter, refBase, altBase).allDepth == 0
    decreases |alignments|
  {
    var n := |alignments| - 1;
    var init := alignments[..n];
    if CountDropped(init, filter, refBase, altBase) > p.allDepth {
      DropReachesZero(p, init, filter, refBase, altBase);
      var k :| 0 <= k < |init| && Drops(OutcomeOf(init[k], filter, refBase, altBase))
        && Accumulated(p, init[..k], filter, refBase, altBase).allDepth == 0;
      assert init[..k] == alignments[..k] && init[k] == alignments[k];
    } else {
      AccumulatedAllDepth(p, init, filter, refBase, altBase);
      assert Drops(OutcomeOf(alignments[n], filter, refBase, altBase));
      assert Accumulated(p, alignments[..n], filter, refBase, altBase).allDepth == 0;
    }
  }

  /** The same, together with the wrap that decrement makes. */
  lemma DropWraps(p: Position, alignments: seq<Read>, filter: ReadFilter, refBase: Byte, altBase: Byte)
    requires CountDropped(alignments, filter, refBase, altBase) > p.allDepth
    ensures exists k | 0 <= k < |alignments| ::
      && Drops(OutcomeOf(alignments[k], filter, refBase, altBase))
      && Accumulated(p, alignments[..k], filter, refBase, altBase).allDepth == 0
      && Accumulated(p, alignments[..k + 1], filter, refBase, altBase).allDepth == USIZE_MAX
  {
    DropReachesZero(p, alignments, filter, refBase, altBase);
    var k :| 0 <= k < |alignments| && Drops(OutcomeOf(alignments[k], filter, refBase, altBase))
      && Accumulated(p, alignments[..k], filter, refBase, altBase).allDepth == 0;
    DropAtZeroWraps(p, alignments, k, filter, refBase, altBase);
  }

  /** The dropped read at index `k`, met with `all_depth` at 0, leaves usize::MAX. */
  lemma DropAtZeroWraps(p: Position, alignments: seq<Read>, k: nat, filter: ReadFilter, refBase: Byte, altBase: Byte)
    requires k < |alignments| && Drops(OutcomeOf(alignments[k], filter, refBase, altBase))
    requires Accumulated(p, alignments[..k], filter, refBase, altBase).allDepth == 0
    ensures Accumulated(p, alignments[..k + 1], filter, refBase, altBase).allDepth == USIZE_MAX
  {
    var before := Accumulated(p, alignments[..k], filter, refBase, altBase);
    assert Accumulated(p, alignments[..k + 1], filter, refBase, altBase)
        == Updated(before, alignments[k], filter, refBase, altBase) by {
      assert alignments[..k + 1][..k] == alignments[..k];
      assert alignments[..k + 1][k] == alignments[k];
    }
    DropOnZeroWraps(before, alignments[k], filter, refBase, altBase);
  }

  /**
   * The converse of `NoUnderflow`: when a column's reported depth is below
   * its count of failing and gap reads, some `all_depth -= 1` runs on zero
   * and wraps the running value around to usize::MAX.
   */
  lemma DroppedBeyondDepthWraps(column: Column, filter: ReadFilter, refBase: Byte, altBase: Byte, tntype: Byte)
    requires CountDropped(column.alignments, filter, refBase, altBase) > column.depth
    ensures exists k | 0 <= k < |column.alignments| ::
      && Drops(OutcomeOf(column.alignments[k], filter, refBase, altBase))
      && Accumulated(Seeded(column, tntype), column.alignments[..k], filter, refBase, altBase).allDepth == 0
      && Accumulated(Seeded(column, tntype), column.alignments[..k + 1], filter, refBase, altBase).allDepth == USIZE_MAX
  {
    DropWraps(Seeded(column, tntype), column.alignments, filter, refBase, altBase);
  }

  /** A dropped read on a record at `all_depth` 0 wraps it to usize::MAX. */
  lemma DropOnZeroWraps(p: Position, r: Read, filter: ReadFilter, refBase: Byte, altBase: Byte)
    requires p.allDepth == 0 && Drops(OutcomeOf(r, filter, refBase, altBase))
    ensures Updated(p, r, filter, refBase, altBase).allDepth == USIZE_MAX
  {
  }

  /** A pass in which no read passes the filter leaves `vaf` where it was. */
  lemma {:induction false} VafUntouchedWithoutPassingRead(p: Position, alignments: seq<Read>, filter: ReadFilter, refBase: Byte, altBase: Byte)
    requires CountOf(alignments, filter, refBase, altBase, Failed) == |alignments|
    ensures Accumulated(p, alignments, filter, refBase, altBase).vaf == p.vaf
    decreases |alignments|
  {
    if alignments != [] {
      var n := |alignments| - 1;
      CountsBounded(alignments[..n], filter, refBase, altBase, Failed);
      VafUntouchedWithoutPassingRead(p, alignments[..n], filter, refBase, altBase);
    }
  }

  lemma {:induction false} CountsBounded(alignments: seq<Read>, filter: ReadFilter, refBase: Byte, altBase: Byte, o: Outcome)
    ensures CountOf(alignments, filter, refBase, altBase, o) <= |alignments|
    decreases |alignments|
  {
    if alignments != [] {
      CountsBounded(alignments[..|alignments| - 1], filter, refBase, altBase, o);
    }
  }

  /**
   * `vaf` of a record from `from_pileup`: the default for a column no read of
   * which passes (the empty column included), and `alt / all` of the final
   * counts when the last read passes; after a failing last read it is stale.
   */
  lemma VafOfColumn(column: Column, filter: ReadFilter, refBase: Byte, altBase: Byte, tntype: Byte)
    ensures var q := PositionOf(column, filter, refBase, altBase, tntype);
      && (CountOf(column.alignments, filter, refBase, altBase, Failed) == |column.alignments| ==> q.vaf == Unset)
      && (|column.alignments| > 0
          && FilterRead(filter, column.alignments[|column.alignments| - 1].flags, column.alignments[|column.alignments| - 1].mapq)
          ==> q.vaf == Ratio(q.altDepth, q.allDepth))
  {
    if CountOf(column.alignments, filter, refBase, altBase, Failed) == |column.alignments| {
      VafUntouchedWithoutPassingRead(Seeded(column, tntype), column.alignments, filter, refBase, altBase);
    }
  }

  lemma {:induction false} CommaCountJoined(tags: seq<string>)
    requires forall i | 0 <= i < |tags| :: ',' !in tags[i]
    ensures CommaCount(Joined(tags)) == |tags|
    decreases |tags|
  {
    if tags != [] {
      var n := |tags| - 1;
      CommaCountJoined(tags[..n]);
      CommaCountFree(tags[n]);
      assert CommaCount(",") == 1 by {
        assert ","[..0] == "";
      }
      CommaCountAppend(Joined(tags[..n]), tags[n]);
      CommaCountAppend(Joined(tags[..n]) + tags[n], ",");
    }
  }

  lemma {:induction false} CommaCountAppend(s: string, t: string)
    ensures CommaCount(s + t) == CommaCount(s) + CommaCount(t)
    decreases |t|
  {
    if t == [] {
      assert s + t == s;
    } else {
      var n := |t| - 1;
      CommaCountAppend(s, t[..n]);
      assert (s + t)[..|s + t| - 1] == s + t[..n];
    }
  }

  lemma CommaCountFree(s: string)
    requires ',' !in s
    ensures CommaCount(s) == 0
    decreases |s|
  {
    if s != [] {
      CommaCountFree(s[..|s| - 1]);
    }
  }

  /**
   * The barcode of a `from_pileup` record is the alt reads' tags, each with a
   * trailing comma; so, when no tag holds a comma, its comma-terminated
   * entries number exactly `alt_depth`.
   */
  lemma BarcodeMatchesAltDepth(column: Column, filter: ReadFilter, refBase: Byte, altBase: Byte, tntype: Byte)
    ensures var q := PositionOf(column, filter, refBase, altBase, tntype);
      && q.barcode == Joined(AltTags(column.alignments, filter, refBase, altBase))
      && |AltTags(column.alignments, filter, refBase, altBase)| == q.altDepth
    ensures (forall i | 0 <= i < |column.alignments| :: ',' !in BarcodeOf(column.alignments[i])) ==>
      CommaCount(PositionOf(column, filter, refBase, altBase, tntype).barcode)
        == PositionOf(column, filter, refBase, altBase, tntype).altDepth
  {
    var tags := AltTags(column.alignments, filter, refBase, altBase);
    AccumulatedCounts(Seeded(column, tntype), column.alignments, filter, refBase, altBase);
    CountsPartition(column.alignments, filter, refBase, altBase);
    if forall i | 0 <= i < |column.alignments| :: ',' !in BarcodeOf(column.alignments[i]) {
      AltTagsFrom(column.alignments, filter, refBase, altBase);
      forall j | 0 <= j < |tags|
        ensures ',' !in tags[j]
      {
        assert tags[j] in tags;
        var i :| 0 <= i < |column.alignments| && tags[j] == BarcodeOf(column.alignments[i]);
      }
      CommaCountJoined(tags);
    }
  }

  /** Every alt tag is the barcode of some alignment of the column. */
  lemma {:induction false} AltTagsFrom(alignments: seq<Read>, filter: ReadFilter, refBase: Byte, altBase: Byte)
    ensures forall t | t in AltTags(alignments, filter, refBase, altBase) ::
      exists i | 0 <= i < |alignments| :: t == BarcodeOf(alignments[i])
    decreases |alignments|
  {
    if alignments != [] {
      var n := |alignments| - 1;
      AltTagsFrom(alignments[..n], filter, refBase, altBase);
      forall t | t in AltTags(alignments, filter, refBase, altBase)
        ensures exists i | 0 <= i < |alignments| :: t == BarcodeOf(alignments[i])
      {
        if t in AltTags(alignments[..n], filter, refBase, altBase) {
          var i :| 0 <= i < n && t == BarcodeOf(alignments[..n][i]);
          assert alignments[..n][i] == alignments[i];
        } else {
          assert t == BarcodeOf(alignments[n]);
        }
      }
    }
  }
}
