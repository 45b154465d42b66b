/**
 * Worked columns: a variant chr1:100 A>T seen in the tumor file.
 */
module Scenarios {
  import opened Ints
  import opened Wrappers
  import opened Pileup
  import opened Filter
  import opened Depth
  import opened Processor

  const REF_A: Byte := 65
  const ALT_T: Byte := 84
  const BASE_G: Byte := 71

  lemma AccumulatedSnoc(p: Position, rs: seq<Read>, r: Read, filter: ReadFilter, refBase: Byte, altBase: Byte)
    ensures Accumulated(p, rs + [r], filter, refBase, altBase)
      == Updated(Accumulated(p, rs, filter, refBase, altBase), r, filter, refBase, altBase)
  {
    assert (rs + [r])[..|rs|] == rs;
  }

  /** Threads a column's reads through `Updated` one at a time. */
  lemma AccumulatedSteps(p: Position, rs: seq<Read>, filter: ReadFilter, refBase: Byte, altBase: Byte, steps: seq<Position>)
    requires |steps| == |rs| + 1 && steps[0] == p
    requires forall k | 0 <= k < |rs| :: steps[k + 1] == Updated(steps[k], rs[k], filter, refBase, altBase)
    ensures Accumulated(p, rs, filter, refBase, altBase) == steps[|rs|]
    decreases |rs|
  {
    if rs != [] {
      var n := |rs| - 1;
      AccumulatedSteps(p, rs[..n], filter, refBase, altBase, steps[..n + 1]);
      assert rs == rs[..n] + [rs[n]];
      AccumulatedSnoc(p, rs[..n], rs[n], filter, refBase, altBase);
    }
  }

  const A_READ := Read(0, 60, Base(REF_A, false), None)
  const T_READ := Read(0, 60, Base(ALT_T, false), Some("CB1"))
  const G_READ := Read(0, 60, Base(BASE_G, false), None)
  const LOW_READ := Read(0, 10, Base(REF_A, false), None)

  /** A passing A read adds one to `ref_depth` and recomputes `vaf`. */
  lemma RefStep(p: Position)
    ensures Updated(p, A_READ, DEFAULT_FILTER, REF_A, ALT_T)
      == p.(refDepth := p.refDepth + 1, vaf := Ratio(p.altDepth, p.allDepth))
  {
    assert FilterRead(DEFAULT_FILTER, 0, 60);
  }

  /** A passing T read adds one to `alt_depth` and appends its tag and a comma. */
  lemma AltStep(p: Position)
    ensures Updated(p, T_READ, DEFAULT_FILTER, REF_A, ALT_T)
      == p.(altDepth := p.altDepth + 1, barcode := p.barcode + "CB1,", vaf := Ratio(p.altDepth + 1, p.allDepth))
  {
    assert FilterRead(DEFAULT_FILTER, 0, 60);
    assert "CB1" + "," == "CB1,";
  }

  /** A passing G read adds one to `other_depth`. */
  lemma OtherStep(p: Position)
    ensures Updated(p, G_READ, DEFAULT_FILTER, REF_A, ALT_T)
      == p.(otherDepth := p.otherDepth + 1, vaf := Ratio(p.altDepth, p.allDepth))
  {
    assert FilterRead(DEFAULT_FILTER, 0, 60);
  }

  /** A read below the mapping-quality floor leaves `all_depth` for `indel_n_lowq`. */
  lemma LowStep(p: Position)
    requires p.allDepth > 0
    ensures Updated(p, LOW_READ, DEFAULT_FILTER, REF_A, ALT_T)
      == p.(allDepth := p.allDepth - 1, indelNLowq := p.indelNLowq + 1)
  {
    assert !FilterRead(DEFAULT_FILTER, 0, 10);
  }

  lemma {:induction false} AccumulatedAppend(p: Position, a: seq<Read>, b: seq<Read>, filter: ReadFilter, refBase: Byte, altBase: Byte)
    ensures Accumulated(p, a + b, filter, refBase, altBase)
      == Accumulated(Accumulated(p, a, filter, refBase, altBase), b, filter, refBase, altBase)
    decreases |b|
  {
    if b == [] {
      assert a + b == a;
    } else {
      var n := |b| - 1;
      AccumulatedAppend(p, a, b[..n], filter, refBase, altBase);
      assert a + b == (a + b[..n]) + [b[n]];
      AccumulatedSnoc(p, a + b[..n], b[n], filter, refBase, altBase);
    }
  }

  /** A run of passing A reads adds its length to `ref_depth`. */
  lemma {:induction false} RefRun(p: Position, rs: seq<Read>)
    requires rs != [] && forall k | 0 <= k < |rs| :: rs[k] == A_READ
    ensures Accumulated(p, rs, DEFAULT_FILTER, REF_A, ALT_T)
      == p.(refDepth := p.refDepth + |rs|, vaf := Ratio(p.altDepth, p.allDepth))
    decreases |rs|
  {
    var n := |rs| - 1;
    if n == 0 {
      assert rs[..n] == [];
      RefStep(p);
    } else {
      var q := Accumulated(p, rs[..n], DEFAULT_FILTER, REF_A, ALT_T);
      assert Accumulated(p, rs, DEFAULT_FILTER, REF_A, ALT_T) == Updated(q, A_READ, DEFAULT_FILTER, REF_A, ALT_T);
      RefRun(p, rs[..n]);
      RefStep(q);
    }
  }

  lemma AppendAssoc(a: string, b: string, c: string)
    ensures a + b + c == a + (b + c)
  {
  }

  /** The barcode entries of `n` reads tagged CB1. */
  function Tags(n: nat): string
  {
    if n == 0 then "" else Tags(n - 1) + "CB1,"
  }

  /** A run of passing T reads adds its length to `alt_depth` and one CB1 entry per read. */
  lemma {:induction false} AltRun(p: Position, rs: seq<Read>)
    requires rs != [] && forall k | 0 <= k < |rs| :: rs[k] == T_READ
    ensures Accumulated(p, rs, DEFAULT_FILTER, REF_A, ALT_T)
      == p.(altDepth := p.altDepth + |rs|, barcode := p.barcode + Tags(|rs|), vaf := Ratio(p.altDepth + |rs|, p.allDepth))
    decreases |rs|
  {
    var n := |rs| - 1;
    if n == 0 {
      assert rs[..n] == [];
      AltStep(p);
    } else {
      var q := Accumulated(p, rs[..n], DEFAULT_FILTER, REF_A, ALT_T);
      assert Accumulated(p, rs, DEFAULT_FILTER, REF_A, ALT_T) == Updated(q, T_READ, DEFAULT_FILTER, REF_A, ALT_T);
      AltRun(p, rs[..n]);
      AltStep(q);
      AppendAssoc(p.barcode, Tags(n), "CB1,");
    }
  }

  /** Passing A reads, then passing T reads tagged CB1. */
  lemma RefsThenAlts(p: Position, refs: seq<Read>, alts: seq<Read>)
    requires refs != [] && forall k | 0 <= k < |refs| :: refs[k] == A_READ
    requires alts != [] && forall k | 0 <= k < |alts| :: alts[k] == T_READ
    ensures Accumulated(p, refs + alts, DEFAULT_FILTER, REF_A, ALT_T)
      == p.(refDepth := p.refDepth + |refs|, altDepth := p.altDepth + |alts|,
            barcode := p.barcode + Tags(|alts|), vaf := Ratio(p.altDepth + |alts|, p.allDepth))
  {
    RefRun(p, refs);
    AltRun(Accumulated(p, refs, DEFAULT_FILTER, REF_A, ALT_T), alts);
    AccumulatedAppend(p, refs, alts, DEFAULT_FILTER, REF_A, ALT_T);
  }

  /** Passing A reads, then passing T reads tagged CB1, then one G read. */
  lemma ColumnBody(p: Position, refs: seq<Read>, alts: seq<Read>)
    requires refs != [] && forall k | 0 <= k < |refs| :: refs[k] == A_READ
    requires alts != [] && forall k | 0 <= k < |alts| :: alts[k] == T_READ
    ensures Accumulated(p, refs + alts + [G_READ], DEFAULT_FILTER, REF_A, ALT_T)
      == p.(refDepth := p.refDepth + |refs|, altDepth := p.altDepth + |alts|, otherDepth := p.otherDepth + 1,
            barcode := p.barcode + Tags(|alts|), vaf := Ratio(p.altDepth + |alts|, p.allDepth))
  {
    RefsThenAlts(p, refs, alts);
    OtherStep(Accumulated(p, refs + alts, DEFAULT_FILTER, REF_A, ALT_T));
    AccumulatedSnoc(p, refs + alts, G_READ, DEFAULT_FILTER, REF_A, ALT_T);
  }

  /** A leading read below the quality floor only moves one from `all_depth` to `indel_n_lowq`. */
  lemma LowFirst(p: Position, rest: seq<Read>)
    requires p.allDepth > 0
    ensures Accumulated(p, [LOW_READ] + rest, DEFAULT_FILTER, REF_A, ALT_T)
      == Accumulated(p.(allDepth := p.allDepth - 1, indelNLowq := p.indelNLowq + 1), rest, DEFAULT_FILTER, REF_A, ALT_T)
  {
    LowStep(p);
    AccumulatedSnoc(p, [], LOW_READ, DEFAULT_FILTER, REF_A, ALT_T);
    assert [] + [LOW_READ] == [LOW_READ];
    AccumulatedAppend(p, [LOW_READ], rest, DEFAULT_FILTER, REF_A, ALT_T);
  }

  /** The seed of a depth-10 tumor column at 0-based position 99. */
  lemma SeedOf(chrom: string, rs: seq<Read>)
    ensures Seeded(Column(chrom, 99, 10, rs), 84) == Position(chrom, 100, 10, 0, 0, 0, 0, "T", Unset, "")
  {
  }

  lemma EmptyPrefix(s: string)
    ensures "" + s == s
  {
  }

  /** A depth-10 tumor column at 0-based 99 of passing A reads, passing T reads and one G read. */
  lemma ColumnOf(chrom: string, refs: seq<Read>, alts: seq<Read>)
    requires refs != [] && forall k | 0 <= k < |refs| :: refs[k] == A_READ
    requires alts != [] && forall k | 0 <= k < |alts| :: alts[k] == T_READ
    ensures PositionOf(Column(chrom, 99, 10, refs + alts + [G_READ]), DEFAULT_FILTER, REF_A, ALT_T, 84)
      == Position(chrom, 100, 10, |alts|, |refs|, 1, 0, "T", Ratio(|alts|, 10), Tags(|alts|))
  {
    SeedOf(chrom, refs + alts + [G_READ]);
    ColumnBody(Position(chrom, 100, 10, 0, 0, 0, 0, "T", Unset, ""), refs, alts);
    EmptyPrefix(Tags(|alts|));
  }

  /** The same column led by one read below the quality floor. */
  lemma LowColumnOf(chrom: string, refs: seq<Read>, alts: seq<Read>)
    requires refs != [] && forall k | 0 <= k < |refs| :: refs[k] == A_READ
    requires alts != [] && forall k | 0 <= k < |alts| :: alts[k] == T_READ
    ensures PositionOf(Column(chrom, 99, 10, [LOW_READ] + (refs + alts + [G_READ])), DEFAULT_FILTER, REF_A, ALT_T, 84)
      == Position(chrom, 100, 9, |alts|, |refs|, 1, 1, "T", Ratio(|alts|, 9), Tags(|alts|))
  {
    var body := refs + alts + [G_READ];
    SeedOf(chrom, [LOW_READ] + body);
    LowFirst(Position(chrom, 100, 10, 0, 0, 0, 0, "T", Unset, ""), body);
    ColumnBody(Position(chrom, 100, 9, 0, 0, 0, 1, "T", Unset, ""), refs, alts);
    EmptyPrefix(Tags(|alts|));
  }

  /**
   * Depth 10: six reads call A, three call T with tag CB1, one calls G, all
   * passing the default filter. The record is all 10, ref 6, alt 3, other 1,
   * indel 0, vaf 3/10 and barcode "CB1,CB1,CB1,".
   */
  lemma ScenarioAlleleCounts(chrom: string)
    ensures PositionOf(Column(chrom, 99, 10, seq(6, _ => A_READ) + seq(3, _ => T_READ) + [G_READ]),
                       DEFAULT_FILTER, REF_A, ALT_T, 84)
      == Position(chrom, 100, 10, 3, 6, 1, 0, "T", Ratio(3, 10), "CB1,CB1,CB1,")
  {
    ColumnOf(chrom, seq(6, _ => A_READ), seq(3, _ => T_READ));
    assert Tags(3) == "CB1,CB1,CB1,";
  }

  /**
   * The same column with the first A read at mapping quality 10: it is taken
   * off `all_depth` and counted in `indel_n_lowq` instead of in `ref_depth`,
   * so all 9, ref 5, and `all_depth + indel_n_lowq` is still the depth.
   */
  lemma ScenarioLowQuality(chrom: string)
    ensures PositionOf(Column(chrom, 99, 10, [LOW_READ] + (seq(5, _ => A_READ) + seq(3, _ => T_READ) + [G_READ])),
                       DEFAULT_FILTER, REF_A, ALT_T, 84)
      == Position(chrom, 100, 9, 3, 5, 1, 1, "T", Ratio(3, 9), "CB1,CB1,CB1,")
  {
    LowColumnOf(chrom, seq(5, _ => A_READ), seq(3, _ => T_READ));
    assert Tags(3) == "CB1,CB1,CB1,";
  }

  /**
   * A passing base read followed by an insertion: counted as ref and also in
   * `indel_n_lowq`, without leaving `all_depth`, so `all + indel` exceeds the depth.
   */
  lemma ScenarioInsertion(chrom: string)
    ensures var ins := Read(0, 60, Base(REF_A, true), None);
      PositionOf(Column(chrom, 99, 1, [ins]), DEFAULT_FILTER, REF_A, ALT_T, 78)
        == Position(chrom, 100, 1, 0, 1, 0, 1, "N", Ratio(0, 1), "")
  {
    var ins := Read(0, 60, Base(REF_A, true), None);
    var column := Column(chrom, 99, 1, [ins]);
    var s0 := Seeded(column, 78);
    assert s0 == Position(chrom, 100, 1, 0, 0, 0, 0, "N", Unset, "");
    assert FilterRead(DEFAULT_FILTER, 0, 60);
    AccumulatedSteps(s0, [ins], DEFAULT_FILTER, REF_A, ALT_T, [s0, s0.(refDepth := 1, indelNLowq := 1, vaf := Ratio(0, 1))]);
  }

  /**
   * Position 100 is fetched as `[99, 100)`; of the columns a pileup yields
   * around it only the one with 0-based position 99 becomes a record, whose
   * position is 100.
   */
  lemma ScenarioCoordinates(c98: Column, c99: Column, c100: Column, filter: ReadFilter, refBase: Byte, altBase: Byte)
    requires c98.pos0 == 98 && c99.pos0 == 99 && c100.pos0 == 100
    ensures RegionFor("chr1", 100) == Region("chr1", 99, 100)
    ensures Selected([c98, c99, c100], 100, filter, refBase, altBase, 84)
      == [PositionOf(c99, filter, refBase, altBase, 84)]
    ensures PositionOf(c99, filter, refBase, altBase, 84).pos == 100
  {
    var cs := [c98, c99, c100];
    assert cs[..2] == [c98, c99];
    assert [c98, c99][..1] == [c98];
    assert [c98][..0] == [];
    assert !AtPosition(c98, 100) && AtPosition(c99, 100) && !AtPosition(c100, 100);
    assert Selected([c98], 100, filter, refBase, altBase, 84) == [];
    assert Selected([c98, c99], 100, filter, refBase, altBase, 84) == [PositionOf(c99, filter, refBase, altBase, 84)];
    SelectedRecords([c99], 100, filter, refBase, altBase, 84);
    assert PositionOf(c99, filter, refBase, altBase, 84) in Selected([c99], 100, filter, refBase, altBase, 84);
  }
}
