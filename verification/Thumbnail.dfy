/**
 Rebuilding the thumbnail directory of an EXIF header as a TIFF file of its own: out-of-line
 values and pixel strips are appended to a growing buffer and the pointers to them patched.
 */
module Thumbnail {
  import opened Common
  import opened Octets
  import opened Exif

  /** The two variables the first loop leaves for the second one; unassigned until a strip entry is met. */
  datatype StripField = Unassigned | At(off: nat, len: nat)
  datatype Partial = Partial(tiff: seq<Octet>, strip: StripField)

  /** `s[:at] + x + s[at+len(x):]`, slices clipped to the string as usual. */
  function Splice(s: seq<Octet>, at: nat, x: seq<Octet>): (r: seq<Octet>)
    ensures at + |x| <= |s| ==> |r| == |s|
  {
    s[..Min(at, |s|)] + x + s[Min(at + |x|, |s|)..]
  }

  /** The octets a..b of s are found unchanged in s'. */
  ghost predicate Keeps(s: seq<Octet>, s': seq<Octet>, a: nat, b: nat) {
    a <= b <= |s| && b <= |s'| && s'[a..b] == s[a..b]
  }

  /** The octets of s from position a on begin with x. */
  ghost predicate Holds(s: seq<Octet>, a: nat, x: seq<Octet>) {
    a + |x| <= |s| && s[a..a + |x|] == x
  }

  lemma KeepsHolds(s: seq<Octet>, s': seq<Octet>, a: nat, x: seq<Octet>)
    requires Holds(s, a, x) && Keeps(s, s', a, a + |x|)
    ensures Holds(s', a, x)
  {
  }

  /** The length of the buffer is written at a position, then octets are appended. */
  function PointAndAppend(e: Endian, s: seq<Octet>, at: nat, len: nat, y: seq<Octet>): seq<Octet> {
    Splice(s, at, Digits(e, |s|, len)) + y
  }

  /** The pointer and the appended octets are there. */
  lemma GrowHas(e: Endian, s: seq<Octet>, at: nat, len: nat, y: seq<Octet>)
    requires at + len <= |s|
    ensures var r := PointAndAppend(e, s, at, len, y);
            |r| == |s| + |y| && Holds(r, at, Digits(e, |s|, len)) && Holds(r, |s|, y)
  {
  }

  /** All else is kept. */
  lemma GrowKeeps(e: Endian, s: seq<Octet>, at: nat, len: nat, y: seq<Octet>, a: nat, b: nat)
    requires at + len <= |s| && a <= b <= |s|
    requires b <= at || at + len <= a
    ensures Keeps(s, PointAndAppend(e, s, at, len, y), a, b)
  {
  }

  /** What lies before the pointer is kept even when the pointer reaches past the end of the buffer. */
  lemma GrowKeepsFront(e: Endian, s: seq<Octet>, at: nat, len: nat, y: seq<Octet>, a: nat, b: nat)
    requires a <= b <= |s| && b <= at
    ensures Keeps(s, PointAndAppend(e, s, at, len, y), a, b)
  {
  }

  function TiffHeader(e: Endian): (h: seq<Octet>)
    ensures |h| == 8
  {
    if e == Motorola then [77, 77, 0, 42, 0, 0, 0, 8] else [73, 73, 42, 0, 8, 0, 0, 0]
  }

  // ---------------------------------------------------------------- first loop: out-of-line values

  /** What the loop reads of one entry: `data` is the value of an entry that holds a pointer. */
  datatype Field = Field(tag: nat, size: nat, data: seq<Octet>) {
    predicate OutOfLine() { size > 4 }

    predicate Complete() { OutOfLine() ==> |data| == size }

    function Growth(): nat { if OutOfLine() then |data| else 0 }
  }

  function RelocateField(e: Endian, p: Partial, f: Field, ptr: nat): Partial {
    var isStrip := f.tag == STRIP_OFFSETS;
    if f.OutOfLine() then
      Partial(PointAndAppend(e, p.tiff, ptr, 4, f.data), if isStrip then At(|p.tiff|, 4) else p.strip)
    else
      Partial(p.tiff, if isStrip then At(ptr, f.size) else p.strip)
  }

  /** Buffer and strip table after the first i fields. */
  function Relocate(e: Endian, skeleton: seq<Octet>, fs: seq<Field>, i: nat): Partial
    requires i <= |fs|
  {
    if i == 0 then Partial(skeleton, Unassigned)
    else RelocateField(e, Relocate(e, skeleton, fs, i - 1), fs[i - 1], (i - 1) * 12 + 18)
  }

  /** Length of the buffer after i fields: where the value of an out-of-line field i goes. */
  function NewOffset(start: nat, fs: seq<Field>, i: nat): nat
    requires i <= |fs|
  {
    if i == 0 then start else NewOffset(start, fs, i - 1) + fs[i - 1].Growth()
  }

  ghost predicate Sound(skeleton: seq<Octet>, fs: seq<Field>) {
    12 * |fs| + 14 <= |skeleton| && forall k :: 0 <= k < |fs| ==> fs[k].Complete()
  }

  lemma {:induction false} NewOffsetGrows(start: nat, fs: seq<Field>, i: nat, j: nat)
    requires i <= j <= |fs|
    ensures NewOffset(start, fs, i) <= NewOffset(start, fs, j)
    decreases j
  {
    if i < j {
      NewOffsetGrows(start, fs, i, j - 1);
    }
  }

  lemma {:induction false} RelocateLength(e: Endian, skeleton: seq<Octet>, fs: seq<Field>, i: nat)
    requires Sound(skeleton, fs) && i <= |fs|
    ensures |Relocate(e, skeleton, fs, i).tiff| == NewOffset(|skeleton|, fs, i)
    ensures |skeleton| <= NewOffset(|skeleton|, fs, i)
  {
    hide Digits;
    if i > 0 {
      RelocateLength(e, skeleton, fs, i - 1);
    }
  }

  lemma RelocateFieldKeeps(e: Endian, p: Partial, f: Field, ptr: nat, a: nat, b: nat)
    requires ptr + 4 <= |p.tiff| && a <= b <= |p.tiff|
    requires f.OutOfLine() ==> b <= ptr || ptr + 4 <= a
    ensures Keeps(p.tiff, RelocateField(e, p, f, ptr).tiff, a, b)
  {
    if f.OutOfLine() {
      GrowKeeps(e, p.tiff, ptr, 4, f.data, a, b);
    }
  }

  /** A range outside the pointer fields of entries i..j-1 is left alone by those entries. */
  lemma {:induction false} RelocateKeeps(e: Endian, skeleton: seq<Octet>, fs: seq<Field>, i: nat, j: nat, a: nat,
                                        b: nat)
    requires Sound(skeleton, fs) && i <= j <= |fs|
    requires a <= b <= NewOffset(|skeleton|, fs, i)
    requires forall m :: i <= m < j && fs[m].OutOfLine() ==> b <= 12 * m + 18 || 12 * m + 22 <= a
    ensures Keeps(Relocate(e, skeleton, fs, i).tiff, Relocate(e, skeleton, fs, j).tiff, a, b)
    decreases j
  {
    hide RelocateField;
    if i == j {
      RelocateLength(e, skeleton, fs, i);
    } else {
      RelocateKeeps(e, skeleton, fs, i, j - 1, a, b);
      RelocateLength(e, skeleton, fs, j - 1);
      RelocateFieldKeeps(e, Relocate(e, skeleton, fs, j - 1), fs[j - 1], (j - 1) * 12 + 18, a, b);
    }
  }

  lemma RelocateFieldHas(e: Endian, p: Partial, f: Field, ptr: nat)
    requires ptr + 4 <= |p.tiff| && f.OutOfLine() && f.Complete()
    ensures var s := RelocateField(e, p, f, ptr).tiff;
            |s| == |p.tiff| + f.size && Holds(s, ptr, Digits(e, |p.tiff|, 4)) && Holds(s, |p.tiff|, f.data)
  {
    GrowHas(e, p.tiff, ptr, 4, f.data);
  }

  /** Right after field k its pointer leads to a copy of its value at the end of the buffer. */
  lemma RelocatedFirst(e: Endian, skeleton: seq<Octet>, fs: seq<Field>, k: nat)
    requires Sound(skeleton, fs) && k < |fs| && fs[k].OutOfLine()
    ensures var s := Relocate(e, skeleton, fs, k + 1).tiff; var p := NewOffset(|skeleton|, fs, k);
            && |skeleton| <= p && |s| == p + fs[k].size == NewOffset(|skeleton|, fs, k + 1)
            && Holds(s, 18 + 12 * k, Digits(e, p, 4)) && Holds(s, p, fs[k].data)
  {
    RelocateLength(e, skeleton, fs, k);
    RelocateFieldHas(e, Relocate(e, skeleton, fs, k), fs[k], k * 12 + 18);
  }

  /** No later field disturbs the pointer or the copy: the pointers lead to disjoint copies. */
  lemma RelocatedField(e: Endian, skeleton: seq<Octet>, fs: seq<Field>, k: nat)
    requires Sound(skeleton, fs) && k < |fs| && fs[k].OutOfLine()
    ensures var s := Relocate(e, skeleton, fs, |fs|).tiff; var p := NewOffset(|skeleton|, fs, k);
            && |skeleton| <= p && p + fs[k].size == NewOffset(|skeleton|, fs, k + 1) <= |s|
            && Holds(s, 18 + 12 * k, Digits(e, p, 4)) && Holds(s, p, fs[k].data)
  {
    hide Relocate, Digits, PointAndAppend, Holds;
    var after, s := Relocate(e, skeleton, fs, k + 1).tiff, Relocate(e, skeleton, fs, |fs|).tiff;
    var p := NewOffset(|skeleton|, fs, k);
    RelocatedFirst(e, skeleton, fs, k);
    RelocateKeeps(e, skeleton, fs, k + 1, |fs|, 18 + 12 * k, 22 + 12 * k);
    KeepsHolds(after, s, 18 + 12 * k, Digits(e, p, 4));
    RelocateKeeps(e, skeleton, fs, k + 1, |fs|, p, p + fs[k].size);
    KeepsHolds(after, s, p, fs[k].data);
  }

  /** The strip table the loop remembers is that of the last strip entry. */
  lemma {:induction false} RelocatedStripField(e: Endian, skeleton: seq<Octet>, fs: seq<Field>, k: nat, i: nat)
    requires Sound(skeleton, fs) && k < i <= |fs|
    requires fs[k].tag == STRIP_OFFSETS && forall j :: k < j < i ==> fs[j].tag != STRIP_OFFSETS
    ensures Relocate(e, skeleton, fs, i).strip
         == if fs[k].OutOfLine() then At(NewOffset(|skeleton|, fs, k), 4) else At(12 * k + 18, fs[k].size)
  {
    if k < i - 1 {
      RelocatedStripField(e, skeleton, fs, k, i - 1);
    } else {
      RelocateLength(e, skeleton, fs, k);
    }
  }

  // ---------------------------------------------------------------- second loop: pixel strips

  /** `strip_off` after i strips. */
  function Slot(off: nat, len: nat, i: nat): nat {
    if i == 0 then off else Slot(off, len, i - 1) + len
  }

  lemma {:induction false} SlotIs(off: nat, len: nat, i: nat)
    ensures Slot(off, len, i) == off + i * len
  {
    if i > 0 {
      SlotIs(off, len, i - 1);
      assert i * len == (i - 1) * len + len;
    }
  }

  lemma {:induction false} SlotGrows(off: nat, len: nat, i: nat, j: nat)
    requires i <= j
    ensures off <= Slot(off, len, i) <= Slot(off, len, j)
    ensures i < j ==> Slot(off, len, i) + len <= Slot(off, len, j)
    decreases j
  {
    if i < j {
      SlotGrows(off, len, i, j - 1);
    } else if i > 0 {
      SlotGrows(off, len, i - 1, j - 1);
    }
  }

  /** Buffer after i strips: each offset is written into its slot, then the strip is appended. */
  function AppendStrips(e: Endian, tiff: seq<Octet>, off: nat, len: nat, strips: seq<seq<Octet>>, i: nat): seq<Octet>
    requires i <= |strips|
  {
    if i == 0 then tiff
    else
      var s := AppendStrips(e, tiff, off, len, strips, i - 1);
      PointAndAppend(e, s, Slot(off, len, i - 1), len, strips[i - 1])
  }

  /** Where strip i is appended. */
  function StripOffset(start: nat, strips: seq<seq<Octet>>, i: nat): nat
    requires i <= |strips|
  {
    if i == 0 then start else StripOffset(start, strips, i - 1) + |strips[i - 1]|
  }

  lemma {:induction false} AppendLength(e: Endian, tiff: seq<Octet>, off: nat, len: nat, strips: seq<seq<Octet>>,
      i: nat)
    requires i <= |strips| && Slot(off, len, |strips|) <= |tiff|
    ensures |AppendStrips(e, tiff, off, len, strips, i)| == StripOffset(|tiff|, strips, i)
    ensures |tiff| <= StripOffset(|tiff|, strips, i)
  {
    if i > 0 {
      AppendLength(e, tiff, off, len, strips, i - 1);
      SlotGrows(off, len, i - 1, |strips|);
    }
  }

  /** Outside the slots written by strips i..j-1 nothing that was in the buffer changes. */
  lemma {:induction false} AppendKeeps(e: Endian, tiff: seq<Octet>, off: nat, len: nat, strips: seq<seq<Octet>>,
                                      i: nat, j: nat, a: nat, b: nat)
    requires i <= j <= |strips| && Slot(off, len, |strips|) <= |tiff|
    requires a <= b <= StripOffset(|tiff|, strips, i)
    requires b <= Slot(off, len, i) || Slot(off, len, |strips|) <= a
    ensures Keeps(AppendStrips(e, tiff, off, len, strips, i), AppendStrips(e, tiff, off, len, strips, j), a, b)
    decreases j
  {
    if i == j {
      AppendLength(e, tiff, off, len, strips, i);
    } else {
      AppendKeeps(e, tiff, off, len, strips, i, j - 1, a, b);
      AppendLength(e, tiff, off, len, strips, j - 1);
      SlotGrows(off, len, i, j - 1);
      SlotGrows(off, len, j - 1, |strips|);
      var s := AppendStrips(e, tiff, off, len, strips, j - 1);
      GrowKeeps(e, s, Slot(off, len, j - 1), len, strips[j - 1], a, b);
    }
  }

  /** Right after strip i its slot leads to a copy of it at the end of the buffer. */
  lemma AppendedFirst(e: Endian, tiff: seq<Octet>, off: nat, len: nat, strips: seq<seq<Octet>>, i: nat)
    requires i < |strips| && Slot(off, len, |strips|) <= |tiff|
    ensures var s := AppendStrips(e, tiff, off, len, strips, i + 1);
            var p := StripOffset(|tiff|, strips, i); var slot := Slot(off, len, i);
            && slot + len <= |tiff| <= p && |s| == p + |strips[i]|
            && Holds(s, slot, Digits(e, p, len)) && Holds(s, p, strips[i])
  {
    var before := AppendStrips(e, tiff, off, len, strips, i);
    SlotGrows(off, len, i, |strips|);
    AppendLength(e, tiff, off, len, strips, i);
    assert AppendStrips(e, tiff, off, len, strips, i + 1)
        == PointAndAppend(e, before, Slot(off, len, i), len, strips[i]);
    GrowHas(e, before, Slot(off, len, i), len, strips[i]);
  }

  /** In the end every slot of the table still leads to a copy of its strip. */
  lemma AppendedStrip(e: Endian, tiff: seq<Octet>, off: nat, len: nat, strips: seq<seq<Octet>>, i: nat)
    requires i < |strips| && Slot(off, len, |strips|) <= |tiff|
    ensures var s := AppendStrips(e, tiff, off, len, strips, |strips|);
            var p := StripOffset(|tiff|, strips, i); var slot := Slot(off, len, i);
            && slot + len <= |tiff| <= p
            && Holds(s, slot, Digits(e, p, len)) && Holds(s, p, strips[i])
  {
    hide AppendStrips, Digits, PointAndAppend, Holds;
    var p, slot := StripOffset(|tiff|, strips, i), Slot(off, len, i);
    var after, s := AppendStrips(e, tiff, off, len, strips, i + 1), AppendStrips(e, tiff, off, len, strips, |strips|);
    AppendedFirst(e, tiff, off, len, strips, i);
    AppendKeeps(e, tiff, off, len, strips, i + 1, |strips|, slot, slot + len);
    KeepsHolds(after, s, slot, Digits(e, p, len));
    AppendKeeps(e, tiff, off, len, strips, i + 1, |strips|, p, p + |strips[i]|);
    KeepsHolds(after, s, p, strips[i]);
  }

  /** Whatever the width of the slots, the first one keeps the offset of the first strip and octets before it stay. */
  lemma {:induction false} FirstSlotKept(e: Endian, tiff: seq<Octet>, off: nat, len: nat, strips: seq<seq<Octet>>,
      i: nat, a: nat, b: nat)
    requires 1 <= i <= |strips| && off + len <= |tiff| && a <= b <= off
    ensures var s := AppendStrips(e, tiff, off, len, strips, i);
            Holds(s, off, Digits(e, |tiff|, len)) && Keeps(tiff, s, a, b)
  {
    hide Digits, PointAndAppend;
    if i == 1 {
      GrowHas(e, tiff, off, len, strips[0]);
      GrowKeepsFront(e, tiff, off, len, strips[0], a, b);
    } else {
      var s := AppendStrips(e, tiff, off, len, strips, i - 1);
      var s' := AppendStrips(e, tiff, off, len, strips, i);
      FirstSlotKept(e, tiff, off, len, strips, i - 1, a, b);
      SlotGrows(off, len, 1, i - 1);
      GrowKeepsFront(e, s, Slot(off, len, i - 1), len, strips[i - 1], off, off + len);
      GrowKeepsFront(e, s, Slot(off, len, i - 1), len, strips[i - 1], a, b);
      KeepsHolds(s, s', off, Digits(e, |tiff|, len));
    }
  }

  // ---------------------------------------------------------------- both loops

  /** Where the table of strip offsets is in the new buffer, and the octets written per strip. */
  function TableAt(start: nat, fs: seq<Field>, ks: nat): nat
    requires ks < |fs|
  {
    if fs[ks].OutOfLine() then NewOffset(start, fs, ks) else 12 * ks + 18
  }

  function StripLen(f: Field): nat { if f.OutOfLine() then 4 else f.size }

  function Final(e: Endian, skeleton: seq<Octet>, fs: seq<Field>, ks: nat, strips: seq<seq<Octet>>): seq<Octet>
    requires ks < |fs|
  {
    AppendStrips(e, Relocate(e, skeleton, fs, |fs|).tiff, TableAt(|skeleton|, fs, ks), StripLen(fs[ks]), strips,
        |strips|)
  }

  /** The slots fill exactly the strip table. */
  ghost predicate TableFits(fs: seq<Field>, ks: nat, strips: seq<seq<Octet>>)
    requires ks < |fs|
  {
    forall off: nat :: Slot(off, StripLen(fs[ks]), |strips|) == off + fs[ks].size
  }

  lemma TableInBuffer(e: Endian, skeleton: seq<Octet>, fs: seq<Field>, ks: nat)
    requires Sound(skeleton, fs) && |skeleton| == 12 * |fs| + 14 && ks < |fs|
    ensures TableAt(|skeleton|, fs, ks) + fs[ks].size <= |Relocate(e, skeleton, fs, |fs|).tiff|
    ensures fs[ks].OutOfLine() ==> |skeleton| <= TableAt(|skeleton|, fs, ks)
  {
    RelocateLength(e, skeleton, fs, |fs|);
    RelocateLength(e, skeleton, fs, ks);
    NewOffsetGrows(|skeleton|, fs, ks + 1, |fs|);
  }

  /** Octets outside the strip table survive the second loop. */
  lemma FinalHolds(e: Endian, skeleton: seq<Octet>, fs: seq<Field>, ks: nat, strips: seq<seq<Octet>>, a: nat,
      x: seq<Octet>)
    requires Sound(skeleton, fs) && |skeleton| == 12 * |fs| + 14 && ks < |fs| && TableFits(fs, ks, strips)
    requires Holds(Relocate(e, skeleton, fs, |fs|).tiff, a, x)
    requires var table := TableAt(|skeleton|, fs, ks); a + |x| <= table || table + fs[ks].size <= a
    ensures Holds(Final(e, skeleton, fs, ks, strips), a, x)
  {
    var r, table := Relocate(e, skeleton, fs, |fs|).tiff, TableAt(|skeleton|, fs, ks);
    TableInBuffer(e, skeleton, fs, ks);
    AppendKeeps(e, r, table, StripLen(fs[ks]), strips, 0, |strips|, a, a + |x|);
    KeepsHolds(r, Final(e, skeleton, fs, ks, strips), a, x);
  }

  /** Directory octets that are neither an out-of-line pointer nor the strip table are copied. */
  lemma DirectoryKept(e: Endian, skeleton: seq<Octet>, fs: seq<Field>, ks: nat, strips: seq<seq<Octet>>, a: nat,
      x: seq<Octet>)
    requires Sound(skeleton, fs) && |skeleton| == 12 * |fs| + 14 && ks < |fs| && TableFits(fs, ks, strips)
    requires Holds(skeleton, a, x)
    requires forall k :: 0 <= k < |fs| && (fs[k].OutOfLine() || k == ks) ==> a + |x| <= 12 * k + 18 || 12 * k + 22 <= a
    ensures Holds(Final(e, skeleton, fs, ks, strips), a, x)
  {
    RelocateKeeps(e, skeleton, fs, 0, |fs|, a, a + |x|);
    KeepsHolds(skeleton, Relocate(e, skeleton, fs, |fs|).tiff, a, x);
    TableInBuffer(e, skeleton, fs, ks);
    FinalHolds(e, skeleton, fs, ks, strips, a, x);
  }

  /** Header, number of entries and the null pointer after the directory. */
  lemma FrameKept(e: Endian, skeleton: seq<Octet>, fs: seq<Field>, ks: nat, strips: seq<seq<Octet>>,
                  head: seq<Octet>, count: seq<Octet>, tail: seq<Octet>)
    requires Sound(skeleton, fs) && |skeleton| == 12 * |fs| + 14 && ks < |fs| && TableFits(fs, ks, strips)
    requires |head| == 8 && Holds(skeleton, 0, head) && |count| == 2 && Holds(skeleton, 8, count)
    requires |tail| == 4 && Holds(skeleton, 12 * |fs| + 10, tail)
    ensures var s := Final(e, skeleton, fs, ks, strips);
            Holds(s, 0, head) && Holds(s, 8, count) && Holds(s, 12 * |fs| + 10, tail)
  {
    DirectoryKept(e, skeleton, fs, ks, strips, 0, head);
    DirectoryKept(e, skeleton, fs, ks, strips, 8, count);
    DirectoryKept(e, skeleton, fs, ks, strips, 12 * |fs| + 10, tail);
  }

  /** Tag, type and count of entry k. */
  lemma HeadKept(e: Endian, skeleton: seq<Octet>, fs: seq<Field>, ks: nat, strips: seq<seq<Octet>>, k: nat,
      x: seq<Octet>)
    requires Sound(skeleton, fs) && |skeleton| == 12 * |fs| + 14 && ks < |fs| && TableFits(fs, ks, strips)
    requires k < |fs| && |x| == 8 && Holds(skeleton, 10 + 12 * k, x)
    ensures Holds(Final(e, skeleton, fs, ks, strips), 10 + 12 * k, x)
  {
    DirectoryKept(e, skeleton, fs, ks, strips, 10 + 12 * k, x);
  }

  /** The value of an entry that keeps it inline. */
  lemma InlineKept(e: Endian, skeleton: seq<Octet>, fs: seq<Field>, ks: nat, strips: seq<seq<Octet>>, k: nat,
      x: seq<Octet>)
    requires Sound(skeleton, fs) && |skeleton| == 12 * |fs| + 14 && ks < |fs| && TableFits(fs, ks, strips)
    requires k < |fs| && k != ks && !fs[k].OutOfLine() && |x| == 4 && Holds(skeleton, 18 + 12 * k, x)
    ensures Holds(Final(e, skeleton, fs, ks, strips), 18 + 12 * k, x)
  {
    DirectoryKept(e, skeleton, fs, ks, strips, 18 + 12 * k, x);
  }

  /** Every out-of-line field points to a copy of its value, the strip table excepted, whose contents are new. */
  lemma OutOfLineKept(e: Endian, skeleton: seq<Octet>, fs: seq<Field>, ks: nat, strips: seq<seq<Octet>>, k: nat)
    requires Sound(skeleton, fs) && |skeleton| == 12 * |fs| + 14 && ks < |fs| && TableFits(fs, ks, strips)
    requires k < |fs| && fs[k].OutOfLine()
    ensures var s := Final(e, skeleton, fs, ks, strips); var p := NewOffset(|skeleton|, fs, k);
            && p <= |Relocate(e, skeleton, fs, |fs|).tiff| - fs[k].size
            && Holds(s, 18 + 12 * k, Digits(e, p, 4)) && (k != ks ==> Holds(s, p, fs[k].data))
  {
    hide AppendStrips, Digits, Relocate, Final;
    var p := NewOffset(|skeleton|, fs, k);
    RelocatedField(e, skeleton, fs, k);
    TableInBuffer(e, skeleton, fs, ks);
    FinalHolds(e, skeleton, fs, ks, strips, 18 + 12 * k, Digits(e, p, 4));
    if k != ks {
      RelocateLength(e, skeleton, fs, k);
      RelocateLength(e, skeleton, fs, ks);
      if k < ks {
        NewOffsetGrows(|skeleton|, fs, k + 1, ks);
      } else {
        NewOffsetGrows(|skeleton|, fs, ks + 1, k);
      }
      FinalHolds(e, skeleton, fs, ks, strips, p, fs[k].data);
    }
  }

  /** Slot i of the new strip table leads to a copy of strip i. */
  lemma StripKept(e: Endian, skeleton: seq<Octet>, fs: seq<Field>, ks: nat, strips: seq<seq<Octet>>, i: nat)
    requires Sound(skeleton, fs) && |skeleton| == 12 * |fs| + 14 && ks < |fs| && TableFits(fs, ks, strips)
    requires i < |strips|
    ensures var s := Final(e, skeleton, fs, ks, strips);
            var p := StripOffset(|Relocate(e, skeleton, fs, |fs|).tiff|, strips, i);
            && Holds(s, TableAt(|skeleton|, fs, ks) + i * StripLen(fs[ks]), Digits(e, p, StripLen(fs[ks])))
            && Holds(s, p, strips[i])
  {
    hide AppendStrips, Relocate, Digits;
    var table := TableAt(|skeleton|, fs, ks);
    TableInBuffer(e, skeleton, fs, ks);
    SlotIs(table, StripLen(fs[ks]), i);
    AppendedStrip(e, Relocate(e, skeleton, fs, |fs|).tiff, table, StripLen(fs[ks]), strips, i);
  }

  /** Even with slots wider than the table, its first slot and the octets before it are as expected. */
  lemma FinalFront(e: Endian, skeleton: seq<Octet>, fs: seq<Field>, ks: nat, strips: seq<seq<Octet>>)
    requires Sound(skeleton, fs) && |skeleton| == 12 * |fs| + 14 && ks < |fs| && strips != []
    ensures var r, s := Relocate(e, skeleton, fs, |fs|).tiff, Final(e, skeleton, fs, ks, strips);
            var table := TableAt(|skeleton|, fs, ks);
            && table <= |r| && Keeps(r, s, 0, table) && Holds(s, table, Digits(e, |r|, StripLen(fs[ks])))
  {
    hide Relocate, Digits;
    TableInBuffer(e, skeleton, fs, ks);
    FirstSlotKept(e, Relocate(e, skeleton, fs, |fs|).tiff, TableAt(|skeleton|, fs, ks), StripLen(fs[ks]), strips,
                  |strips|, 0, TableAt(|skeleton|, fs, ks));
  }

  lemma FrontHolds(s: seq<Octet>, s': seq<Octet>, b: nat, a: nat, x: seq<Octet>)
    requires Keeps(s, s', 0, b) && Holds(s, a, x) && a + |x| <= b
    ensures Holds(s', a, x)
  {
    SubSlice(s, 0, b, a, a + |x|);
    SubSlice(s', 0, b, a, a + |x|);
  }

  /** In the first loop's buffer the heads of the entries are copies. */
  lemma RelocatedHead(e: Endian, skeleton: seq<Octet>, fs: seq<Field>, k: nat, x: seq<Octet>)
    requires Sound(skeleton, fs) && k < |fs| && |x| == 8 && Holds(skeleton, 10 + 12 * k, x)
    ensures Holds(Relocate(e, skeleton, fs, |fs|).tiff, 10 + 12 * k, x)
  {
    RelocateKeeps(e, skeleton, fs, 0, |fs|, 10 + 12 * k, 18 + 12 * k);
    KeepsHolds(skeleton, Relocate(e, skeleton, fs, |fs|).tiff, 10 + 12 * k, x);
  }
}
