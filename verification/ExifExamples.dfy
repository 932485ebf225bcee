/** Small files: a chain that never ends, a thumbnail that is rebuilt rightly and one that is not. */
module ExifExamples {
  import opened Octets
  import opened Exif
  import opened ExifLayout
  import opened IfdChain
  import opened Thumbnail
  import opened Rebuild

  // ---------------------------------------------------------------- a directory that is its own successor

  const LOOP: seq<Octet> := [77, 77, 0, 42, 0, 0, 0, 8, 0, 0, 0, 0, 0, 8]

  /** Fourteen octets on which the walk along the chain does not end. */
  lemma SelfLoop(j: nat)
    ensures var v := View(LOOP, Motorola, 0); Visit(v, FirstIfd(v), j) == 8 && !Ends(v, FirstIfd(v))
  {
    hide FirstIfd, NextIfd, Visit;
    var v := View(LOOP, Motorola, 0);
    LoopReads();
    StaysThere(v, j);
    forall k: nat
      ensures Visit(v, 8, k) != 0
    {
      StaysThere(v, k);
    }
  }

  lemma LoopReads()
    ensures var v := View(LOOP, Motorola, 0); FirstIfd(v) == 8 && NextIfd(v, 8) == 8
  {
    hide Num;
    assert LOOP[4..8] == [0, 0, 0, 8] && LOOP[8..10] == [0, 0] && LOOP[10..14] == [0, 0, 0, 8];
    TwoOctets(0, 0);
    FourOctets(0, 0, 0, 8);
  }

  lemma {:induction false} StaysThere(v: View, j: nat)
    requires NextIfd(v, 8) == 8
    ensures Visit(v, 8, j) == 8
  {
    hide NextIfd;
    if j > 0 {
      StaysThere(v, j - 1);
    }
  }

  // ---------------------------------------------------------------- thumbnails of one entry

  /** A big-endian file with one directory, at 8, that holds only a strip table of this type and count. */
  function OneTable(typ: Octet, count: Octet): View {
    View([77, 77, 0, 42, 0, 0, 0, 8, 0, 1, 1, 17, 0, typ, 0, 0, 0, count, 0, 0, 0, 0, 0, 0, 0, 0], Motorola, 0)
  }

  lemma OneTableReads(typ: Octet, count: Octet)
    ensures var v := OneTable(typ, count);
            && EntryCount(v, 8) == 1 && EntryTag(v, 8, 0) == STRIP_OFFSETS
            && EntryType(v, 8, 0) == typ && ValueCount(v, 8, 0) == count
  {
    var f := OneTable(typ, count).file;
    assert f[8..10] == [0, 1] && f[10..12] == [1, 17] && f[12..14] == [0, typ] && f[14..18] == [0, 0, 0, count];
    TwoOctets(0, 1);
    TwoOctets(1, 17);
    TwoOctets(0, typ);
    FourOctets(0, 0, 0, count);
  }

  lemma OneTableAccepted(typ: Octet, count: Octet, offsets: seq<nat>, counts: seq<nat>)
    requires typ in {3, 4} && 0 < count * TypeLen(typ) <= 4 && |offsets| == count <= |counts|
    ensures var v := OneTable(typ, count); Accepted(v, 8, 0, offsets, counts) && |Relocated(v, 8).tiff| == 26
  {
    hide OneTable, EntryCount, EntryTag, EntryType, ValueCount, Size, Skeleton, Relocated;
    var v := OneTable(typ, count);
    OneTableReads(typ, count);
    OneTableSizes(typ, count);
    OneStep(v);
  }

  lemma OneTableSizes(typ: Octet, count: Octet)
    requires typ in {3, 4} && 0 < count * TypeLen(typ) <= 4
    ensures var v := OneTable(typ, count); |v.file| == 26 && v.base == 0 && Size(v, 8, 0) <= 4 && |Skeleton(v, 8)| == 26
  {
    OneTableReads(typ, count);
    hide EntryCount, EntryType, ValueCount;
  }

  lemma OneStep(v: View)
    requires EntryCount(v, 8) == 1 && Size(v, 8, 0) <= 4
    ensures Relocated(v, 8).tiff == Skeleton(v, 8)
  {
    hide EntryCount, Size, Skeleton, FieldOf;
    SizeOfField(v);
    var fs := Fields(v, 8);
    assert !fs[0].OutOfLine();
    assert Relocate(v.endian, Skeleton(v, 8), fs, 0).tiff == Skeleton(v, 8);
    assert Relocate(v.endian, Skeleton(v, 8), fs, 1).tiff == Skeleton(v, 8);
  }

  lemma SizeOfField(v: View)
    ensures FieldOf(v, 8, 0).size == Size(v, 8, 0)
  {
  }

  /** One strip in a table of one LONG: rebuilt rightly. */
  lemma OneLongStrip()
    ensures var v := OneTable(4, 1);
            && Accepted(v, 8, 0, [8], [2]) && StripLenIsTypeLen(v, 8, 0) && PlacesFit(v, 8, 0, [8], [2])
            && RebuildTiff(v, 8, [8], [2]).Done?
            && TableRight(v, 8, 0, [8], [2], View(RebuildTiff(v, 8, [8], [2]).value, Motorola, 0))
  {
    hide S2N, Num, Accepted, RebuildTiff, TableRight;
    var v := OneTable(4, 1);
    OneTableReads(4, 1);
    OneTableAccepted(4, 1, [8], [2]);
    Pow256Values();
    assert Placed(v, 8, [8], [2], 0) == 26;
    StripTableRightIff(v, 8, 0, [8], [2]);
  }

  /** Two strips in a table of two SHORTs: the rebuilt table is wrong. */
  lemma TwoShortStrips()
    ensures var v := OneTable(3, 2);
            && Accepted(v, 8, 0, [8, 10], [2, 2]) && RebuildTiff(v, 8, [8, 10], [2, 2]).Done?
            && !TableRight(v, 8, 0, [8, 10], [2, 2], View(RebuildTiff(v, 8, [8, 10], [2, 2]).value, Motorola, 0))
  {
    hide S2N, Num, Accepted, RebuildTiff, TableRight, PlacesFit;
    var v := OneTable(3, 2);
    OneTableReads(3, 2);
    OneTableAccepted(3, 2, [8, 10], [2, 2]);
    StripTableRightIff(v, 8, 0, [8, 10], [2, 2]);
  }
}
