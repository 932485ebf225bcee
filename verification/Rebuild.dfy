/**
 What the rebuilt thumbnail means: reading the new TIFF gives what reading the thumbnail
 directory of the original file gave.
 */
module Rebuild {
  import opened Octets
  import opened Exif
  import opened Thumbnail

  ghost predicate TypesInTable(v: View, t: nat) {
    forall k :: 0 <= k < EntryCount(v, t) ==> EntryType(v, t, k) < 11
  }

  function FieldOf(v: View, t: nat, k: nat): Field {
    var size := Size(v, t, k);
    Field(EntryTag(v, t, k), size, Read(v.file, v.base + S2N(v, t + 2 + 12 * k + 8, 4), size))
  }

  ghost function Fields(v: View, t: nat): (fs: seq<Field>)
    ensures |fs| == EntryCount(v, t)
    ensures forall k :: 0 <= k < |fs| ==> fs[k] == FieldOf(v, t, k)
  {
    seq(EntryCount(v, t), k requires 0 <= k < EntryCount(v, t) => FieldOf(v, t, k))
  }

  /** The buffer before the loops: header, directory, null pointer to a next directory. */
  function Skeleton(v: View, t: nat): seq<Octet> {
    TiffHeader(v.endian) + Read(v.file, v.base + t, EntryCount(v, t) * 12 + 2) + [0, 0, 0, 0]
  }

  ghost function Relocated(v: View, t: nat): Partial {
    Relocate(v.endian, Skeleton(v, t), Fields(v, t), EntryCount(v, t))
  }

  /** The pixel strips of the original file. */
  function Strips(v: View, offsets: seq<nat>, counts: seq<nat>): (s: seq<seq<Octet>>)
    requires |offsets| <= |counts|
    ensures |s| == |offsets|
  {
    seq(|offsets|, i requires 0 <= i < |offsets| => Read(v.file, v.base + offsets[i], counts[i]))
  }

  /** Both loops, once the two strip tables have been looked up. */
  ghost function RebuildTiff(v: View, t: nat, offsets: seq<nat>, counts: seq<nat>): Outcome<seq<Octet>> {
    if !TypesInTable(v, t) then Raised(IndexError)
    else
      var p := Relocated(v, t);
      if offsets == [] then Done(p.tiff)
      else match p.strip
        case Unassigned => Raised(UnboundLocalError)
        case At(off, len) =>
          if |counts| < |offsets| then Raised(IndexError)
          else Done(AppendStrips(v.endian, p.tiff, off, len, Strips(v, offsets, counts), |offsets|))
  }

  // ---------------------------------------------------------------- which thumbnails can be rebuilt

  /** A directory whose entries and out-of-line values lie inside the file and have known types. */
  ghost predicate ReadableIfd(v: View, t: nat) {
    && v.base + t + 2 + 12 * EntryCount(v, t) <= |v.file|
    && (forall k :: 0 <= k < EntryCount(v, t) ==> 0 < EntryType(v, t, k) < 11)
    && forall k :: 0 <= k < EntryCount(v, t) && Size(v, t, k) > 4
         ==> v.base + ValueOffset(v, t, k) + Size(v, t, k) <= |v.file|
  }

  /** Entry ks is the only strip table and lists plain numbers. */
  ghost predicate StripTable(v: View, t: nat, ks: nat) {
    && ks < EntryCount(v, t)
    && EntryTag(v, t, ks) == STRIP_OFFSETS
    && (forall k :: 0 <= k < EntryCount(v, t) && k != ks ==> EntryTag(v, t, k) != STRIP_OFFSETS)
    && EntryType(v, t, ks) !in {2, 5, 10}
  }

  /** A thumbnail the loops accept: `offsets` are as many as the strip table counts, and 32-bit pointers suffice. */
  ghost predicate Accepted(v: View, t: nat, ks: nat, offsets: seq<nat>, counts: seq<nat>) {
    && ReadableIfd(v, t) && StripTable(v, t, ks)
    && |offsets| == ValueCount(v, t, ks) && |offsets| <= |counts|
    && |Relocated(v, t).tiff| <= 0x1_0000_0000
  }

  /** The guard of the branch that goes wrong: several strips in a table of octets or shorts. */
  ghost predicate StripLenIsTypeLen(v: View, t: nat, ks: nat) {
    ValueCount(v, t, ks) <= 1 || TypeLen(EntryType(v, t, ks)) == 4
  }

  /** Where strip i is appended. */
  ghost function Placed(v: View, t: nat, offsets: seq<nat>, counts: seq<nat>, i: nat): nat
    requires i <= |offsets| <= |counts|
  {
    StripOffset(|Relocated(v, t).tiff|, Strips(v, offsets, counts), i)
  }

  ghost predicate PlacesFit(v: View, t: nat, ks: nat, offsets: seq<nat>, counts: seq<nat>)
    requires |offsets| <= |counts|
  {
    forall i :: 0 <= i < |offsets| ==> Placed(v, t, offsets, counts, i) < Pow256(TypeLen(EntryType(v, t, ks)))
  }

  // ---------------------------------------------------------------- reading what a buffer holds

  lemma HoldsReads(s: seq<Octet>, e: Endian, q: nat, x: seq<Octet>, a: nat, m: nat)
    requires Holds(s, q, x) && a + m <= |x|
    ensures S2N(View(s, e, 0), q + a, m) == Num(e, x[a..a + m])
    ensures Read(s, q + a, m) == x[a..a + m]
  {
    SubSlice(s, q, q + |x|, a, a + m);
  }

  /** m octets of the file lie whole at a position of s. */
  ghost predicate Copied(v: View, p: nat, m: nat, s: seq<Octet>, q: nat) {
    |Read(v.file, v.base + p, m)| == m && Holds(s, q, Read(v.file, v.base + p, m))
  }

  /** A number read from octets that were copied is the number they held. */
  lemma CopiedNumber(v: View, s: seq<Octet>, p: nat, q: nat, n: nat, a: nat, m: nat)
    requires Copied(v, p, n, s, q) && a + m <= n
    ensures S2N(View(s, v.endian, 0), q + a, m) == S2N(v, p + a, m)
  {
    hide Num;
    HoldsReads(s, v.endian, q, Read(v.file, v.base + p, n), a, m);
    ReadSlice(v.file, v.base + p, n, a, m);
  }

  lemma PointerReads(s: seq<Octet>, e: Endian, q: nat, p: nat, k: nat)
    requires Holds(s, q, Digits(e, p, k)) && p < Pow256(k)
    ensures S2N(View(s, e, 0), q, k) == p
  {
    var d := Digits(e, p, k);
    HoldsReads(s, e, q, d, 0, k);
    assert d[0..k] == d;
    DigitsRoundTrip(e, p, k);
  }

  // ---------------------------------------------------------------- the new header

  /** The first 8 octets announce one directory at 8 and the null pointer after it ends the chain. */
  lemma HeaderReads(e: Endian, s: seq<Octet>)
    requires Holds(s, 0, TiffHeader(e))
    ensures FirstIfd(View(s, e, 0)) == 8
  {
    var h := TiffHeader(e);
    HoldsReads(s, e, 0, h, 4, 4);
    SmallDigits(e, 8);
    DigitsRoundTrip(e, 8, 4);
    assert h[4..8] == Digits(e, 8, 4);
  }

  lemma ZerosRead(e: Endian, s: seq<Octet>, q: nat)
    requires Holds(s, q, [0, 0, 0, 0])
    ensures S2N(View(s, e, 0), q, 4) == 0
  {
    SmallDigits(e, 0);
    PointerReads(s, e, q, 0, 4);
  }

  // ---------------------------------------------------------------- one rebuild at a time

  /** A rebuild: everything the two loops work on. */
  datatype Job = Job(e: Endian, skeleton: seq<Octet>, fs: seq<Field>, ks: nat, strips: seq<seq<Octet>>) {
    ghost predicate Ready() {
      && Sound(skeleton, fs) && |skeleton| == 12 * |fs| + 14 && ks < |fs| && TableFits(fs, ks, strips)
      && |Relocate(e, skeleton, fs, |fs|).tiff| <= 0x1_0000_0000
    }

    ghost function Result(): View
      requires ks < |fs|
    {
      View(Final(e, skeleton, fs, ks, strips), e, 0)
    }
  }

  /** Field f is what the first loop reads of entry k of the directory at t. */
  ghost predicate Reflects(v: View, t: nat, k: nat, f: Field) {
    && 0 < EntryType(v, t, k) < 11 && f.size == Size(v, t, k)
    && (f.OutOfLine() ==> f.data == ValueOctets(v, t, k) && |f.data| == f.size)
  }

  /** Field k of the job is entry k of the directory at t. */
  ghost predicate Describes(v: View, t: nat, j: Job, k: nat) {
    && k < |j.fs| && j.e == v.endian && Reflects(v, t, k, j.fs[k])
    && Copied(v, t + 2 + 12 * k, 8, j.skeleton, 10 + 12 * k)
    && Copied(v, t + 10 + 12 * k, 4, j.skeleton, 18 + 12 * k)
  }

  ghost predicate SameEntry(v: View, t: nat, w: View, k: nat) {
    && EntryTag(w, 8, k) == EntryTag(v, t, k)
    && EntryType(w, 8, k) == EntryType(v, t, k)
    && ValueCount(w, 8, k) == ValueCount(v, t, k)
  }

  lemma TagReads(v: View, t: nat, s: seq<Octet>, k: nat)
    requires Copied(v, t + 2 + 12 * k, 8, s, 10 + 12 * k)
    ensures EntryTag(View(s, v.endian, 0), 8, k) == EntryTag(v, t, k)
  {
    CopiedNumber(v, s, t + 2 + 12 * k, 10 + 12 * k, 8, 0, 2);
  }

  lemma TypeReads(v: View, t: nat, s: seq<Octet>, k: nat)
    requires Copied(v, t + 2 + 12 * k, 8, s, 10 + 12 * k)
    ensures EntryType(View(s, v.endian, 0), 8, k) == EntryType(v, t, k)
  {
    CopiedNumber(v, s, t + 2 + 12 * k, 10 + 12 * k, 8, 2, 2);
  }

  lemma CountReads(v: View, t: nat, s: seq<Octet>, k: nat)
    requires Copied(v, t + 2 + 12 * k, 8, s, 10 + 12 * k)
    ensures ValueCount(View(s, v.endian, 0), 8, k) == ValueCount(v, t, k)
  {
    CopiedNumber(v, s, t + 2 + 12 * k, 10 + 12 * k, 8, 4, 4);
  }

  lemma EntryReads(v: View, t: nat, s: seq<Octet>, k: nat)
    requires Copied(v, t + 2 + 12 * k, 8, s, 10 + 12 * k)
    ensures SameEntry(v, t, View(s, v.endian, 0), k)
  {
    TagReads(v, t, s, k);
    TypeReads(v, t, s, k);
    CountReads(v, t, s, k);
  }

  /** Tag, type and count of each entry are read back unchanged. */
  lemma EntryKept(v: View, t: nat, j: Job, k: nat)
    requires j.Ready() && Describes(v, t, j, k)
    ensures SameEntry(v, t, j.Result(), k)
  {
    hide Final, AppendStrips, Relocate, Digits, Num, TableFits, S2N;
    HeadKept(j.e, j.skeleton, j.fs, j.ks, j.strips, k, Read(v.file, v.base + (t + 2 + 12 * k), 8));
    EntryReads(v, t, j.Result().file, k);
  }

  /** Same entry, same value octets, all of them inside both files. */
  ghost predicate SameOctets(v: View, t: nat, w: View, k: nat) {
    && SameEntry(v, t, w, k) && 0 < EntryType(v, t, k) < 11
    && ValueOctets(w, 8, k) == ValueOctets(v, t, k) && |ValueOctets(v, t, k)| == Size(v, t, k)
  }

  lemma PointedOctets(v: View, t: nat, s: seq<Octet>, k: nat, p: nat)
    requires SameEntry(v, t, View(s, v.endian, 0), k) && 0 < EntryType(v, t, k) < 11
    requires Size(v, t, k) > 4 && p < 0x1_0000_0000
    requires Holds(s, 18 + 12 * k, Digits(v.endian, p, 4))
    requires Holds(s, p, ValueOctets(v, t, k)) && |ValueOctets(v, t, k)| == Size(v, t, k)
    ensures SameOctets(v, t, View(s, v.endian, 0), k)
  {
    Pow256Values();
    PointerReads(s, v.endian, 18 + 12 * k, p, 4);
    assert ValueOffset(View(s, v.endian, 0), 8, k) == p;
  }

  lemma InlineRead(v: View, s: seq<Octet>, p: nat, q: nat, m: nat)
    requires m <= 4 && Copied(v, p, 4, s, q)
    ensures Read(s, q, m) == Read(v.file, v.base + p, m) && |Read(s, q, m)| == m
  {
    HoldsReads(s, v.endian, q, Read(v.file, v.base + p, 4), 0, m);
    ReadSlice(v.file, v.base + p, 4, 0, m);
  }

  lemma InlineOctets(v: View, t: nat, s: seq<Octet>, k: nat)
    requires SameEntry(v, t, View(s, v.endian, 0), k) && 0 < EntryType(v, t, k) < 11
    requires Size(v, t, k) <= 4 && Copied(v, t + 10 + 12 * k, 4, s, 18 + 12 * k)
    ensures SameOctets(v, t, View(s, v.endian, 0), k)
  {
    hide Num, Holds, Copied;
    InlineRead(v, s, t + 10 + 12 * k, 18 + 12 * k, Size(v, t, k));
  }

  /** The value octets of every entry but the strip table are found again behind its new pointer. */
  lemma ValueOctetsKept(v: View, t: nat, j: Job, k: nat)
    requires j.Ready() && Describes(v, t, j, k) && k != j.ks
    ensures SameOctets(v, t, j.Result(), k)
  {
    hide Final, AppendStrips, Relocate, Digits, Num, Read, TableFits, NewOffset, S2N;
    var s := j.Result().file;
    EntryKept(v, t, j, k);
    if j.fs[k].OutOfLine() {
      OutOfLineKept(j.e, j.skeleton, j.fs, j.ks, j.strips, k);
      PointedOctets(v, t, s, k, NewOffset(|j.skeleton|, j.fs, k));
    } else {
      InlineKept(j.e, j.skeleton, j.fs, j.ks, j.strips, k, Read(v.file, v.base + (t + 10 + 12 * k), 4));
      InlineOctets(v, t, s, k);
    }
  }

  lemma SameOctetsDecode(v: View, t: nat, w: View, k: nat)
    requires v.endian == w.endian && SameOctets(v, t, w, k)
    ensures Decode(w, 8, k).Done? && Decode(v, t, k).Done?
            && Decode(w, 8, k).value.values == Decode(v, t, k).value.values
  {
    hide Num, Read, S2N, DecodeValues;
    SameOctetsSameValues(v, w, EntryType(v, t, k), ValueOffset(v, t, k), ValueOffset(w, 8, k), ValueCount(v, t, k));
  }

  // ---------------------------------------------------------------- header and chain

  lemma FrameReads(v: View, t: nat, s: seq<Octet>)
    requires Holds(s, 0, TiffHeader(v.endian)) && Copied(v, t, 2, s, 8)
    requires Holds(s, 12 * EntryCount(v, t) + 10, [0, 0, 0, 0])
    ensures var w := View(s, v.endian, 0);
            FirstIfd(w) == 8 && EntryCount(w, 8) == EntryCount(v, t) && NextIfd(w, 8) == 0
  {
    HeaderReads(v.endian, s);
    CopiedNumber(v, s, t, 8, 2, 0, 2);
    ZerosRead(v.endian, s, 12 * EntryCount(v, t) + 10);
  }

  lemma FrameReadsBack(v: View, t: nat, j: Job)
    requires j.Ready() && |j.fs| == EntryCount(v, t) && j.e == v.endian
    requires Holds(j.skeleton, 0, TiffHeader(j.e)) && Copied(v, t, 2, j.skeleton, 8)
    requires Holds(j.skeleton, 12 * |j.fs| + 10, [0, 0, 0, 0])
    ensures var w := j.Result(); FirstIfd(w) == 8 && EntryCount(w, 8) == EntryCount(v, t) && NextIfd(w, 8) == 0
  {
    FrameKept(j.e, j.skeleton, j.fs, j.ks, j.strips, TiffHeader(j.e), Read(v.file, v.base + t, 2), [0, 0, 0, 0]);
    FrameReads(v, t, j.Result().file);
  }

  // ---------------------------------------------------------------- the job of a directory

  ghost function JobOf(v: View, t: nat, ks: nat, offsets: seq<nat>, counts: seq<nat>): Job
    requires |offsets| <= |counts|
  {
    Job(v.endian, Skeleton(v, t), Fields(v, t), ks, Strips(v, offsets, counts))
  }

  lemma SkeletonCopies(v: View, t: nat, a: nat, m: nat)
    requires ReadableIfd(v, t) && a + m <= 12 * EntryCount(v, t) + 2
    ensures Copied(v, t + a, m, Skeleton(v, t), 8 + a)
  {
    var n := 12 * EntryCount(v, t) + 2;
    var s, raw := Skeleton(v, t), Read(v.file, v.base + t, n);
    hide ReadableIfd, EntryCount, Read;
    ReadSlice(v.file, v.base + t, n, a, m);
    assert s[8..8 + n] == raw;
    SubSlice(s, 8, 8 + n, a, a + m);
  }

  lemma FieldsSound(v: View, t: nat)
    requires ReadableIfd(v, t)
    ensures Sound(Skeleton(v, t), Fields(v, t)) && |Skeleton(v, t)| == 12 * EntryCount(v, t) + 14
  {
    forall k | 0 <= k < EntryCount(v, t)
      ensures FieldOf(v, t, k).Complete()
    {
    }
  }

  lemma JobReady(v: View, t: nat, ks: nat, offsets: seq<nat>, counts: seq<nat>)
    requires Accepted(v, t, ks, offsets, counts) && StripLenIsTypeLen(v, t, ks)
    ensures JobOf(v, t, ks, offsets, counts).Ready()
  {
    hide Relocate, Digits, Num, Read, S2N, Skeleton;
    FieldsSound(v, t);
    var f, m := FieldOf(v, t, ks), |offsets|;
    forall off: nat
      ensures Slot(off, StripLen(f), m) == off + f.size
    {
      SlotIs(off, StripLen(f), m);
    }
  }

  lemma FieldReflects(v: View, t: nat, k: nat)
    requires ReadableIfd(v, t) && k < EntryCount(v, t)
    ensures Reflects(v, t, k, FieldOf(v, t, k))
  {
  }

  lemma JobDescribes(v: View, t: nat, ks: nat, offsets: seq<nat>, counts: seq<nat>, k: nat)
    requires ReadableIfd(v, t) && |offsets| <= |counts| && k < EntryCount(v, t)
    ensures Describes(v, t, JobOf(v, t, ks, offsets, counts), k)
  {
    FieldReflects(v, t, k);
    SkeletonCopies(v, t, 2 + 12 * k, 8);
    SkeletonCopies(v, t, 10 + 12 * k, 4);
  }

  /** The new TIFF holds one directory, at 8, with the same tags, types and counts. */
  ghost predicate SameDirectory(v: View, t: nat, w: View) {
    && FirstIfd(w) == 8 && EntryCount(w, 8) == EntryCount(v, t) && NextIfd(w, 8) == 0
    && forall k :: 0 <= k < EntryCount(v, t) ==> SameEntry(v, t, w, k)
  }

  /** The job does what its parts say of a whole directory. */
  ghost predicate Does(v: View, t: nat, j: Job) {
    && j.Ready() && |j.fs| == EntryCount(v, t) && j.e == v.endian
    && Holds(j.skeleton, 0, TiffHeader(j.e)) && Copied(v, t, 2, j.skeleton, 8)
    && Holds(j.skeleton, 12 * |j.fs| + 10, [0, 0, 0, 0])
    && forall k :: 0 <= k < |j.fs| ==> Describes(v, t, j, k)
  }

  lemma SkeletonFrame(v: View, t: nat)
    requires ReadableIfd(v, t)
    ensures Holds(Skeleton(v, t), 0, TiffHeader(v.endian)) && Copied(v, t, 2, Skeleton(v, t), 8)
    ensures Holds(Skeleton(v, t), 12 * EntryCount(v, t) + 10, [0, 0, 0, 0])
  {
    SkeletonCopies(v, t, 0, 2);
  }

  lemma JobDoes(v: View, t: nat, ks: nat, offsets: seq<nat>, counts: seq<nat>)
    requires Accepted(v, t, ks, offsets, counts) && StripLenIsTypeLen(v, t, ks)
    ensures Does(v, t, JobOf(v, t, ks, offsets, counts))
  {
    hide Final, AppendStrips, Relocate, Digits, Num, Read, Sound, TableFits, NewOffset, Holds, Copied, S2N, Skeleton,
        Reflects, Describes;
    JobReady(v, t, ks, offsets, counts);
    SkeletonFrame(v, t);
    forall k | 0 <= k < EntryCount(v, t)
      ensures Describes(v, t, JobOf(v, t, ks, offsets, counts), k)
    {
      JobDescribes(v, t, ks, offsets, counts, k);
    }
  }

  lemma DirectoryReadsBack(v: View, t: nat, j: Job)
    requires Does(v, t, j)
    ensures SameDirectory(v, t, j.Result())
  {
    FrameReadsBack(v, t, j);
    forall k | 0 <= k < EntryCount(v, t)
      ensures SameEntry(v, t, j.Result(), k)
    {
      EntryKept(v, t, j, k);
    }
  }

  // ---------------------------------------------------------------- the new strip table

  /** Slot i of the new table reads as the place of strip i when that fits the slot, and strip i is there. */
  lemma StripReads(j: Job, i: nat, len: nat, p: nat)
    requires j.Ready() && i < |j.strips| && len == StripLen(j.fs[j.ks])
    requires p == StripOffset(|Relocate(j.e, j.skeleton, j.fs, |j.fs|).tiff|, j.strips, i)
    ensures Holds(j.Result().file, p, j.strips[i])
    ensures p < Pow256(len) ==> S2N(j.Result(), TableAt(|j.skeleton|, j.fs, j.ks) + i * len, len) == p
  {
    hide Final, AppendStrips, Relocate, Digits, Num, Read, Sound, TableFits, StripOffset, NewOffset;
    StripKept(j.e, j.skeleton, j.fs, j.ks, j.strips, i);
    if p < Pow256(len) {
      PointerReads(j.Result().file, j.e, TableAt(|j.skeleton|, j.fs, j.ks) + i * len, p, len);
    }
  }

  /** The strip entry of the new TIFF points to the new table. */
  lemma TableFound(v: View, t: nat, j: Job)
    requires Does(v, t, j)
    ensures SameEntry(v, t, j.Result(), j.ks) && 0 < EntryType(v, t, j.ks) < 11
    ensures ValueOffset(j.Result(), 8, j.ks) == TableAt(|j.skeleton|, j.fs, j.ks)
  {
    hide Final, AppendStrips, Relocate, Digits, Num, Read, Sound, TableFits, NewOffset, Holds, Copied;
    var k := j.ks;
    EntryKept(v, t, j, k);
    if j.fs[k].OutOfLine() {
      OutOfLineKept(j.e, j.skeleton, j.fs, k, j.strips, k);
      Pow256Values();
      PointerReads(j.Result().file, j.e, 18 + 12 * k, NewOffset(|j.skeleton|, j.fs, k), 4);
    }
  }

  /** A number read from `length` octets has at most that many digits. */
  lemma S2NBound(v: View, offset: nat, length: nat)
    ensures S2N(v, offset, length) < Pow256(length)
  {
    var s := Read(v.file, v.base + offset, length);
    NumDigits(v.endian, s);
    Pow256Grows(|s|, length);
  }

  /** The new strip table, read back, lists the places where the strips were appended. */
  ghost predicate TableRight(v: View, t: nat, ks: nat, offsets: seq<nat>, counts: seq<nat>, w: View)
    requires |offsets| <= |counts|
  {
    var d := Decode(w, 8, ks);
    && d.Done? && d.value.values.Items? && |d.value.values.items| == |offsets|
    && forall i :: 0 <= i < |offsets| ==> d.value.values.items[i] == Number(Placed(v, t, offsets, counts, i))
  }

  /** Without a failure the loops build the buffer described by the job. */
  lemma RebuildIsJob(v: View, t: nat, ks: nat, offsets: seq<nat>, counts: seq<nat>)
    requires ReadableIfd(v, t) && StripTable(v, t, ks) && |offsets| <= |counts|
    ensures RebuildTiff(v, t, offsets, counts) == Done(JobOf(v, t, ks, offsets, counts).Result().file)
  {
    hide Splice, Digits, Num, Read, S2N;
    FieldsSound(v, t);
    RelocatedStripField(v.endian, Skeleton(v, t), Fields(v, t), ks, EntryCount(v, t));
  }

  /** Values of the strip entry: the numbers in the slots of the table it points to. */
  lemma TableItems(v: View, t: nat, w: View, ks: nat, i: nat)
    requires SameEntry(v, t, w, ks) && 0 < EntryType(v, t, ks) < 11 && EntryType(v, t, ks) !in {2, 5, 10}
    requires i < ValueCount(v, t, ks)
    ensures var d := Decode(w, 8, ks); var len := TypeLen(EntryType(v, t, ks));
            && d.Done? && d.value.values.Items? && |d.value.values.items| == ValueCount(v, t, ks)
            && d.value.values.items[i] == Number(S2N(w, ValueOffset(w, 8, ks) + i * len, len))
  {
    hide S2N;
    ItemsFromAt(w, EntryType(v, t, ks), ValueOffset(w, 8, ks), ValueCount(v, t, ks), i);
  }

  /** Good tables: with room for every place, each slot is read back as its place. */
  lemma GoodTable(v: View, t: nat, ks: nat, offsets: seq<nat>, counts: seq<nat>, i: nat)
    requires Accepted(v, t, ks, offsets, counts) && StripLenIsTypeLen(v, t, ks)
    requires i < |offsets|
    ensures var w := JobOf(v, t, ks, offsets, counts).Result(); var d := Decode(w, 8, ks);
            var p := Placed(v, t, offsets, counts, i);
            && d.Done? && d.value.values.Items? && |d.value.values.items| == |offsets|
            && (p < Pow256(TypeLen(EntryType(v, t, ks))) ==> d.value.values.items[i] == Number(p))
            && Holds(w.file, p, Strips(v, offsets, counts)[i])
  {
    hide Decode, S2N, Relocate, AppendStrips, Final, Describes, TableFits, Sound, Skeleton, Holds;
    var j := JobOf(v, t, ks, offsets, counts);
    JobDoes(v, t, ks, offsets, counts);
    TableFound(v, t, j);
    TableItems(v, t, j.Result(), ks, i);
    StripReads(j, i, TypeLen(EntryType(v, t, ks)), Placed(v, t, offsets, counts, i));
  }

  /**
   With several strips in a table of octets or shorts the loop writes slots wider than the values:
   the strip entry is still found, but its first slot is all that its first two values read.
   */
  lemma WideSlots(v: View, t: nat, ks: nat, offsets: seq<nat>, counts: seq<nat>)
    requires Accepted(v, t, ks, offsets, counts) && !StripLenIsTypeLen(v, t, ks)
    ensures var j := JobOf(v, t, ks, offsets, counts); var w := j.Result();
            && SameEntry(v, t, w, ks)
            && ValueOffset(w, 8, ks) == TableAt(|j.skeleton|, j.fs, ks)
            && StripLen(j.fs[ks]) >= 2 * TypeLen(EntryType(v, t, ks)) > 0
            && Holds(w.file, ValueOffset(w, 8, ks), Digits(v.endian, |Relocated(v, t).tiff|, StripLen(j.fs[ks])))
  {
    hide Decode, S2N, Relocate, AppendStrips, Final, TableFits, Skeleton, Digits, Holds, Sound, Keeps, Reflects;
    var j := JobOf(v, t, ks, offsets, counts);
    FieldsSound(v, t);
    JobDescribes(v, t, ks, offsets, counts, ks);
    WideEnough(ValueCount(v, t, ks), TypeLen(EntryType(v, t, ks)));
    FinalFront(j.e, j.skeleton, j.fs, ks, j.strips);
    WideEntry(v, t, j);
    WideTable(v, t, j);
  }

  lemma WideEntry(v: View, t: nat, j: Job)
    requires Sound(j.skeleton, j.fs) && |j.skeleton| == 12 * |j.fs| + 14 && Describes(v, t, j, j.ks) && j.strips != []
    ensures SameEntry(v, t, j.Result(), j.ks)
  {
    hide S2N, Relocate, AppendStrips, Final, Digits, Holds, Sound, Keeps;
    var head, ks := Read(v.file, v.base + (t + 2 + 12 * j.ks), 8), j.ks;
    RelocatedHead(j.e, j.skeleton, j.fs, ks, head);
    FinalFront(j.e, j.skeleton, j.fs, ks, j.strips);
    TableInBuffer(j.e, j.skeleton, j.fs, ks);
    FrontHolds(Relocate(j.e, j.skeleton, j.fs, |j.fs|).tiff, j.Result().file, TableAt(|j.skeleton|, j.fs, ks),
        10 + 12 * ks, head);
    EntryReads(v, t, j.Result().file, ks);
  }

  lemma WideTable(v: View, t: nat, j: Job)
    requires Sound(j.skeleton, j.fs) && |j.skeleton| == 12 * |j.fs| + 14 && Describes(v, t, j, j.ks) && j.strips != []
    requires SameEntry(v, t, j.Result(), j.ks) && |Relocate(j.e, j.skeleton, j.fs, |j.fs|).tiff| <= 0x1_0000_0000
    ensures ValueOffset(j.Result(), 8, j.ks) == TableAt(|j.skeleton|, j.fs, j.ks)
  {
    hide S2N, Relocate, AppendStrips, Final, Digits, Holds, Sound, Keeps, Copied;
    var ks := j.ks;
    if j.fs[ks].OutOfLine() {
      var p := NewOffset(|j.skeleton|, j.fs, ks);
      RelocatedField(j.e, j.skeleton, j.fs, ks);
      FinalFront(j.e, j.skeleton, j.fs, ks, j.strips);
      FrontHolds(Relocate(j.e, j.skeleton, j.fs, |j.fs|).tiff, j.Result().file, p, 18 + 12 * ks, Digits(j.e, p, 4));
      Pow256Values();
      PointerReads(j.Result().file, j.e, 18 + 12 * ks, p, 4);
    }
  }

  lemma WideEnough(count: nat, len: nat)
    requires count >= 2 && 0 < len <= 2
    ensures (if count * len > 4 then 4 else count * len) >= 2 * len
  {
  }

  /** Then the first (big-endian) or the second (little-endian) value read is too small. */
  lemma WideSlotsMisread(v: View, t: nat, ks: nat, offsets: seq<nat>, counts: seq<nat>)
    requires Accepted(v, t, ks, offsets, counts) && !StripLenIsTypeLen(v, t, ks)
    ensures !TableRight(v, t, ks, offsets, counts, JobOf(v, t, ks, offsets, counts).Result())
  {
    hide Decode, S2N, Relocate, AppendStrips, Final, TableFits, Skeleton, Digits, Num, Holds, Size, Reflects;
    var j := JobOf(v, t, ks, offsets, counts);
    var w, i := j.Result(), if v.endian == Motorola then 0 else 1;
    WideSlots(v, t, ks, offsets, counts);
    PlacesGrow(v, t, offsets, counts, i);
    SlotTooSmall(w, ValueOffset(w, 8, ks), |Relocated(v, t).tiff|, TypeLen(EntryType(v, t, ks)), StripLen(j.fs[ks]), i);
    TableItems(v, t, w, ks, i);
  }

  lemma PlacesGrow(v: View, t: nat, offsets: seq<nat>, counts: seq<nat>, i: nat)
    requires ReadableIfd(v, t) && i <= |offsets| <= |counts| && i <= 1
    ensures 14 <= |Relocated(v, t).tiff| <= Placed(v, t, offsets, counts, i)
  {
    hide Digits, PointAndAppend, Relocate, S2N, Read, Num, FieldOf, Strips;
    FieldsSound(v, t);
    RelocateLength(v.endian, Skeleton(v, t), Fields(v, t), EntryCount(v, t));
    assert Placed(v, t, offsets, counts, 0) == |Relocated(v, t).tiff|;
  }

  lemma SlotTooSmall(w: View, off: nat, start: nat, tl: nat, len: nat, i: nat)
    requires w.base == 0 && start > 0 && 0 < 2 * tl <= len && i == (if w.endian == Motorola then 0 else 1)
    requires Holds(w.file, off, Digits(w.endian, start, len))
    ensures S2N(w, off + i * tl, tl) < start
  {
    hide Digits, Num, Read, Holds;
    HoldsReads(w.file, w.endian, off, Digits(w.endian, start, len), i * tl, tl);
    if w.endian == Motorola {
      LeadingAtMost(start, len, tl);
    } else {
      SecondAtMost(start, len, tl, tl);
    }
  }

  /**
   When the rebuilt strip table is right, exactly: the slot width must be the width of the values,
   and every place must fit it. Both can be told from the original file.
   */
  lemma StripTableRightIff(v: View, t: nat, ks: nat, offsets: seq<nat>, counts: seq<nat>)
    requires Accepted(v, t, ks, offsets, counts)
    ensures RebuildTiff(v, t, offsets, counts).Done?
    ensures TableRight(v, t, ks, offsets, counts, View(RebuildTiff(v, t, offsets, counts).value, v.endian, 0))
       <==> StripLenIsTypeLen(v, t, ks) && PlacesFit(v, t, ks, offsets, counts)
  {
    hide Decode, S2N, Relocate, AppendStrips, Final, TableFits, Skeleton, RebuildTiff, Holds;
    var w := JobOf(v, t, ks, offsets, counts).Result();
    RebuildIsJob(v, t, ks, offsets, counts);
    if !StripLenIsTypeLen(v, t, ks) {
      WideSlotsMisread(v, t, ks, offsets, counts);
    } else {
      JobDoes(v, t, ks, offsets, counts);
      TableFound(v, t, JobOf(v, t, ks, offsets, counts));
      var len := TypeLen(EntryType(v, t, ks));
      forall i | 0 <= i < |offsets|
        ensures var d := Decode(w, 8, ks); var p := Placed(v, t, offsets, counts, i);
                && d.Done? && d.value.values.Items? && |d.value.values.items| == |offsets|
                && (d.value.values.items[i] == Number(p) <==> p < Pow256(len))
      {
        GoodTable(v, t, ks, offsets, counts, i);
        TableItems(v, t, w, ks, i);
        S2NBound(w, ValueOffset(w, 8, ks) + i * len, len);
      }
      if offsets == [] {
        EmptyTable(v, t, w, ks);
      } else {
        GoodTable(v, t, ks, offsets, counts, 0);
      }
    }
  }

  lemma EmptyTable(v: View, t: nat, w: View, ks: nat)
    requires SameEntry(v, t, w, ks) && 0 < EntryType(v, t, ks) < 11 && EntryType(v, t, ks) != 2
    requires ValueCount(v, t, ks) == 0
    ensures Decode(w, 8, ks).Done? && Decode(w, 8, ks).value.values == Items([])
  {
    hide S2N;
  }

  /**
   The rebuilt TIFF means what the thumbnail meant: one directory with the same entries, every value
   but the strip offsets unchanged, and at each new strip offset the octets of that strip.
   */
  lemma ThumbnailKeepsMeaning(v: View, t: nat, ks: nat, offsets: seq<nat>, counts: seq<nat>)
    requires Accepted(v, t, ks, offsets, counts)
    requires StripLenIsTypeLen(v, t, ks) && PlacesFit(v, t, ks, offsets, counts)
    ensures RebuildTiff(v, t, offsets, counts).Done?
    ensures var w := View(RebuildTiff(v, t, offsets, counts).value, v.endian, 0);
            && SameDirectory(v, t, w)
            && (forall k :: 0 <= k < EntryCount(v, t) && k != ks ==>
                  && Decode(w, 8, k).Done? && Decode(v, t, k).Done?
                  && Decode(w, 8, k).value.values == Decode(v, t, k).value.values)
            && TableRight(v, t, ks, offsets, counts, w)
            && (forall i :: 0 <= i < |offsets| ==>
                  Holds(w.file, Decode(w, 8, ks).value.values.items[i].n, Strips(v, offsets, counts)[i]))
  {
    hide Decode, S2N, Relocate, AppendStrips, Final, TableFits, Skeleton, RebuildTiff, Holds, Placed;
    var j := JobOf(v, t, ks, offsets, counts);
    var w := j.Result();
    RebuildIsJob(v, t, ks, offsets, counts);
    StripTableRightIff(v, t, ks, offsets, counts);
    JobDoes(v, t, ks, offsets, counts);
    DirectoryReadsBack(v, t, j);
    forall k | 0 <= k < EntryCount(v, t) && k != ks
      ensures Decode(w, 8, k).Done? && Decode(v, t, k).Done?
      ensures Decode(w, 8, k).value.values == Decode(v, t, k).value.values
    {
      ValueOctetsKept(v, t, j, k);
      SameOctetsDecode(v, t, w, k);
    }
    forall i | 0 <= i < |offsets|
      ensures Holds(w.file, Placed(v, t, offsets, counts, i), Strips(v, offsets, counts)[i])
    {
      GoodTable(v, t, ks, offsets, counts, i);
    }
  }
}
