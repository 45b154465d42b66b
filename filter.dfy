/** `DefaultReadFilter`: the read filter over SAM flags and mapping quality. */
module Filter {
  import opened Ints

  datatype ReadFilter = ReadFilter(includeFlags: bv16, excludeFlags: bv16, minMapq: Byte)

  /** The command-line defaults: include 0, exclude 0, min_mapq 20. */
  const DEFAULT_FILTER: ReadFilter := ReadFilter(0, 0, 20)

  /** Whether bit `i` of `x` is set. */
  function Bit(x: bv16, i: bv16): bool
    requires i < 16
  {
    x & (1 << i) != 0
  }

  /** `filter_read`: true is pass, false is fail. */
  predicate FilterRead(f: ReadFilter, flags: bv16, mapq: Byte)
  {
    (!flags) & f.includeFlags == 0
    && flags & f.excludeFlags == 0
    && mapq >= f.minMapq
  }

  /** A 16-bit word is zero exactly when none of its bits is set. */
  lemma ZeroIffNoBit(x: bv16)
    ensures x == 0 <==> forall i: bv16 | i < 16 :: !Bit(x, i)
  {
    if x != 0 {
      assert Bit(x, 0) || Bit(x, 1) || Bit(x, 2) || Bit(x, 3)
        || Bit(x, 4) || Bit(x, 5) || Bit(x, 6) || Bit(x, 7)
        || Bit(x, 8) || Bit(x, 9) || Bit(x, 10) || Bit(x, 11)
        || Bit(x, 12) || Bit(x, 13) || Bit(x, 14) || Bit(x, 15);
    }
  }

  lemma BitOfAnd(a: bv16, b: bv16, i: bv16)
    requires i < 16
    ensures Bit(a & b, i) == (Bit(a, i) && Bit(b, i))
  {
  }

  lemma BitOfNot(a: bv16, i: bv16)
    requires i < 16
    ensures Bit(!a, i) == !Bit(a, i)
  {
  }

  /** `(!flags) & includeFlags == 0`: every bit of `includeFlags` is set in `flags`. */
  lemma IncludeBitwise(includeFlags: bv16, flags: bv16)
    ensures (!flags) & includeFlags == 0 <==>
      forall i: bv16 | i < 16 :: Bit(includeFlags, i) ==> Bit(flags, i)
  {
    var missing := (!flags) & includeFlags;
    if missing == 0 {
      forall i: bv16 | i < 16 && Bit(includeFlags, i)
        ensures Bit(flags, i)
      {
        BitOfAnd(!flags, includeFlags, i);
        BitOfNot(flags, i);
      }
    } else {
      ZeroIffNoBit(missing);
      var i: bv16 :| i < 16 && Bit(missing, i);
      BitOfAnd(!flags, includeFlags, i);
      BitOfNot(flags, i);
      assert Bit(includeFlags, i) && !Bit(flags, i);
    }
  }

  /** `flags & excludeFlags == 0`: no bit of `excludeFlags` is set in `flags`. */
  lemma ExcludeBitwise(excludeFlags: bv16, flags: bv16)
    ensures flags & excludeFlags == 0 <==>
      forall i: bv16 | i < 16 :: !(Bit(excludeFlags, i) && Bit(flags, i))
  {
    ZeroIffNoBit(flags & excludeFlags);
    forall i: bv16 | i < 16
      ensures Bit(flags & excludeFlags, i) == (Bit(flags, i) && Bit(excludeFlags, i))
    {
      BitOfAnd(flags, excludeFlags, i);
    }
  }

  /**
   * The filter read bit by bit: every include bit is set in the flags, no
   * exclude bit is set in them, and the mapping quality reaches the floor.
   */
  lemma FilterReadBitwise(f: ReadFilter, flags: bv16, mapq: Byte)
    ensures FilterRead(f, flags, mapq) <==>
      (forall i: bv16 | i < 16 :: Bit(f.includeFlags, i) ==> Bit(flags, i))
      && (forall i: bv16 | i < 16 :: !(Bit(f.excludeFlags, i) && Bit(flags, i)))
      && mapq >= f.minMapq
  {
    IncludeBitwise(f.includeFlags, flags);
    ExcludeBitwise(f.excludeFlags, flags);
    assert FilterRead(f, flags, mapq) ==
      ((!flags) & f.includeFlags == 0 && flags & f.excludeFlags == 0 && mapq >= f.minMapq);
  }

  /** With no flag requirements and no quality floor every read passes. */
  lemma PermissiveFilterPassesAll(flags: bv16, mapq: Byte)
    ensures FilterRead(ReadFilter(0, 0, 0), flags, mapq)
  {
  }

  /** With the defaults a read passes exactly when its mapping quality is at least 20. */
  lemma DefaultFilterIsQualityFloor(flags: bv16, mapq: Byte)
    ensures FilterRead(DEFAULT_FILTER, flags, mapq) <==> mapq >= 20
  {
  }
}
