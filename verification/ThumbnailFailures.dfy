/** When extracting a thumbnail raises, and with what. */
module ThumbnailFailures {
  import opened Exif
  import opened Thumbnail
  import opened Rebuild
  import opened ExifHeader

  /** The i-th value of a list, being a plain number. */
  predicate IsNumber(vals: Values, i: nat) {
    vals.Items? && i < |vals.items| && vals.items[i].Number?
  }

  /** How many values a list has; text counts its characters. */
  function Length(vals: Values): nat {
    if vals.Ascii? then |vals.text| else |vals.items|
  }

  /** Offset or count i is no number, or there is no count i, and all before are fine. */
  ghost predicate FirstBad(offsets: Values, counts: Values, i: nat) {
    && i < Length(offsets) && !(IsNumber(offsets, i) && IsNumber(counts, i))
    && forall j :: 0 <= j < i ==> IsNumber(offsets, j) && IsNumber(counts, j)
  }

  lemma NumberIs(vals: Values, i: nat)
    ensures NumberAt(vals, i).Done? <==> IsNumber(vals, i)
    ensures NumberAt(vals, i).Raised? ==>
              NumberAt(vals, i) == Raised(if i >= Length(vals) then IndexError else TypeError)
  {
  }

  lemma {:induction false} PickIs(offsets: Values, counts: Values, n: nat)
    requires n <= Length(offsets)
    ensures PickStrips(offsets, counts, n).Done? <==>
              forall i :: 0 <= i < n ==> IsNumber(offsets, i) && IsNumber(counts, i)
    ensures forall i: nat :: FirstBad(offsets, counts, i) && i < n ==>
              PickStrips(offsets, counts, n)
              == Raised(if IsNumber(offsets, i) && i >= Length(counts) then IndexError else TypeError)
  {
    hide IsNumber, NumberAt;
    if n > 0 {
      PickIs(offsets, counts, n - 1);
      NumberIs(offsets, n - 1);
      NumberIs(counts, n - 1);
      assert PickStrips(offsets, counts, n).Done? <==>
               PickStrips(offsets, counts, n - 1).Done? && IsNumber(offsets, n - 1) && IsNumber(counts, n - 1);
    }
  }

  lemma {:induction false} StripFound(v: View, t: nat, n: nat)
    requires n <= EntryCount(v, t)
    ensures Relocate(v.endian, Skeleton(v, t), Fields(v, t), n).strip.Unassigned? <==>
              forall k :: 0 <= k < n ==> EntryTag(v, t, k) != 0x0111
  {
    hide EntryCount, EntryTag, Skeleton, PointAndAppend, S2N, Size;
    if n > 0 {
      StripFound(v, t, n - 1);
      assert Fields(v, t)[n - 1] == FieldOf(v, t, n - 1);
    }
  }

  /**
   A field type above 10 ends the first loop with IndexError; then a missing table is a KeyError. With no offsets
   nothing else can fail. Else a directory without strip offsets of its own leaves a variable unset, and the first strip
   whose offset or count is missing or no number ends the second loop.
   */
  lemma ExtractRaises(v: View, t: nat, tags: Tags)
    ensures var n, r := EntryCount(v, t), Extract(v, t, tags);
            var ko, kc := "Thumbnail StripOffsets", "Thumbnail StripByteCounts";
            if exists k :: 0 <= k < n && EntryType(v, t, k) > 10 then r == Raised(IndexError)
            else if ko !in tags || kc !in tags then r == Raised(KeyError)
            else if Length(tags[ko].values) == 0 then r.Done?
            else if forall k :: 0 <= k < n ==> EntryTag(v, t, k) != 0x0111 then r == Raised(UnboundLocalError)
            else
              var os, cs := tags[ko].values, tags[kc].values;
              && (r.Done? <==> forall i :: 0 <= i < Length(os) ==> IsNumber(os, i) && IsNumber(cs, i))
              && forall i: nat :: FirstBad(os, cs, i) ==>
                   r == Raised(if IsNumber(os, i) && i >= Length(cs) then IndexError else TypeError)
  {
    hide EntryCount, EntryTag, EntryType, Relocate, PickStrips, Skeleton, Fields, FirstBad, Strips;
    assert OFFSETS_KEY == "Thumbnail StripOffsets" && COUNTS_KEY == "Thumbnail StripByteCounts";
    StripFound(v, t, EntryCount(v, t));
    if OFFSETS_KEY in tags && COUNTS_KEY in tags {
      var os, cs := tags[OFFSETS_KEY].values, tags[COUNTS_KEY].values;
      PickIs(os, cs, Length(os));
      forall i: nat | FirstBad(os, cs, i)
        ensures i < Length(os)
      {
        BadInside(os, cs, i);
      }
    }
  }

  lemma BadInside(offsets: Values, counts: Values, i: nat)
    requires FirstBad(offsets, counts, i)
    ensures i < Length(offsets)
  {
  }
}
