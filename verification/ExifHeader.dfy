/** The EXIF header object: reading loops, directory dump and thumbnail extraction. */
module ExifHeader {
  import opened Common
  import opened Octets
  import opened Ratios
  import opened Exif
  import opened IfdChain
  import opened JpegWalk
  import opened Thumbnail
  import opened Rebuild

  const OFFSETS_KEY := "Thumbnail" + " " + "StripOffsets"
  const COUNTS_KEY := "Thumbnail" + " " + "StripByteCounts"

  /** A value list used as a list of numbers: its length, and its i-th number if it is one. */
  function ValueLen(vals: Values): nat {
    match vals
    case Ascii(text) => |text|
    case Items(items) => |items|
  }

  function NumberAt(vals: Values, i: nat): Outcome<nat> {
    if i >= ValueLen(vals) then Raised(IndexError)
    else match vals
      case Ascii(_) => Raised(TypeError)
      case Items(items) => if items[i].Number? then Done(items[i].n) else Raised(TypeError)
  }

  /** The offsets and lengths of the first i strips, or the failure met on the way. */
  function PickStrips(offsets: Values, counts: Values, i: nat): (r: Outcome<(seq<nat>, seq<nat>)>)
    ensures r.Done? ==> |r.value.0| == |r.value.1| == i
  {
    if i == 0 then Done(([], []))
    else match PickStrips(offsets, counts, i - 1)
      case Raised(e) => Raised(e)
      case Done(ns) =>
        match NumberAt(offsets, i - 1)
        case Raised(e) => Raised(e)
        case Done(o) =>
          match NumberAt(counts, i - 1)
          case Raised(e) => Raised(e)
          case Done(c) => Done((ns.0 + [o], ns.1 + [c]))
  }

  /** Rebuilding the thumbnail from the two strip tables found among the decoded tags. */
  ghost function Extract(v: View, t: nat, tags: Tags): Outcome<seq<Octet>> {
    if !TypesInTable(v, t) then Raised(IndexError)
    else if OFFSETS_KEY !in tags || COUNTS_KEY !in tags then Raised(KeyError)
    else ExtractStrips(v, t, tags[OFFSETS_KEY].values, tags[COUNTS_KEY].values)
  }

  ghost function ExtractStrips(v: View, t: nat, offsets: Values, counts: Values): Outcome<seq<Octet>> {
    if ValueLen(offsets) == 0 then Done(Relocated(v, t).tiff)
    else if Relocated(v, t).strip.Unassigned? then Raised(UnboundLocalError)
    else match PickStrips(offsets, counts, ValueLen(offsets))
      case Raised(e) => Raised(e)
      case Done(ns) => RebuildTiff(v, t, ns.0, ns.1)
  }

  lemma {:induction false} PickStops(offsets: Values, counts: Values, i: nat, n: nat)
    requires i <= n && PickStrips(offsets, counts, i).Raised?
    ensures PickStrips(offsets, counts, n) == PickStrips(offsets, counts, i)
    decreases n
  {
    if i < n {
      PickStops(offsets, counts, i, n - 1);
    }
  }

  lemma {:induction false} AppendPrefix(e: Endian, tiff: seq<Octet>, off: nat, len: nat,
                                       strips: seq<seq<Octet>>, more: seq<seq<Octet>>, i: nat)
    requires i <= |strips|
    ensures AppendStrips(e, tiff, off, len, strips + more, i) == AppendStrips(e, tiff, off, len, strips, i)
  {
    hide PointAndAppend;
    if i > 0 {
      AppendPrefix(e, tiff, off, len, strips, more, i - 1);
    }
  }

  class ExifHeader {
    const file: seq<Octet>
    var endian: Endian
    var offset: nat
    var tags: Tags
    var tiffThumbnail: Option<seq<Octet>>

    constructor (file: seq<Octet>, endian: Endian, offset: nat)
      ensures this.file == file && V() == View(file, endian, offset) && tags == map[] && tiffThumbnail == None
    {
      this.file, this.endian, this.offset := file, endian, offset;
      tags, tiffThumbnail := map[], None;
    }

    function V(): View
      reads this
    {
      View(file, endian, offset)
    }

    /** Integer at an offset from the header, in the header's byte order; the sign is ignored. */
    method ReadNumber(offset: nat, length: nat) returns (val: nat)
      ensures val == S2N(V(), offset, length)
    {
      var slice := Read(file, this.offset + offset, length);
      hide Read;
      var x: nat := 0;
      if endian == Intel {
        var y: nat := 1;
        for i := 0 to |slice|
          invariant x == Num(Intel, slice[..i]) && y == Pow256(i)
        {
          assert slice[..i + 1] == slice[..i] + [slice[i]];
          NumIntelAppend(slice[..i], slice[i]);
          x := x + slice[i] * y;
          y := 256 * y;
        }
      } else {
        for i := 0 to |slice|
          invariant x == Num(Motorola, slice[..i])
        {
          assert slice[..i + 1][..i] == slice[..i];
          x := 256 * x + slice[i];
        }
      }
      assert slice[..|slice|] == slice;
      val := x;
    }

    /** The lowest `length` octets of a number, in the header's byte order. */
    method NumberToString(number: nat, length: nat) returns (s: seq<Octet>)
      ensures s == Digits(endian, number, length)
    {
      s := [];
      var rest := number;
      for i := 0 to length
        invariant |s| == i
        invariant endian == Intel ==> Digits(Intel, number, length) == s + Digits(Intel, rest, length - i)
        invariant endian == Motorola ==> Digits(Motorola, number, length) == Digits(Motorola, rest, length - i) + s
      {
        if endian == Intel {
          s := s + [rest % 256];
        } else {
          s := [rest % 256] + s;
        }
        rest := rest / 256;
      }
    }

    /** The directories of the header in chain order. */
    method ListIfds() returns (a: seq<nat>)
      requires EndsInFile(V(), FirstIfd(V()))
      ensures Visit(V(), FirstIfd(V()), |a|) == 0
      ensures forall j :: 0 <= j < |a| ==> a[j] == Visit(V(), FirstIfd(V()), j) != 0
    {
      hide S2N, Visit;
      ghost var n: nat :| Visit(V(), FirstIfd(V()), n) == 0;
      var i := ReadNumber(4, 4);
      assert i == Visit(V(), FirstIfd(V()), 0) by { VisitStep(V(), FirstIfd(V()), 0); }
      a := [];
      while i != 0
        invariant i == Visit(V(), FirstIfd(V()), |a|) && |a| <= n
        invariant forall j :: 0 <= j < |a| ==> a[j] == Visit(V(), FirstIfd(V()), j) != 0
        decreases n - |a|
      {
        a := a + [i];
        var entries := ReadNumber(i, 2);
        VisitStep(V(), FirstIfd(V()), |a| - 1);
        i := ReadNumber(i + 2 + 12 * entries, 4);
      }
    }

    method ReadItem(fieldType: nat, p: nat) returns (item: Item)
      requires 0 < fieldType < 11
      ensures item == ItemAt(V(), fieldType, p)
    {
      hide S2N;
      if fieldType == 5 || fieldType == 10 {
        var num := ReadNumber(p, 4);
        var den := ReadNumber(p + 4, 4);
        item := Ratio(num, den);
      } else {
        var n := ReadNumber(p, TypeLen(fieldType));
        item := Number(n);
      }
    }

    /** Values of one entry: text up to its NULs, or a number or ratio per count. */
    method ReadValues(fieldType: nat, count: nat, offset: nat) returns (values: Values)
      requires 0 < fieldType < 11
      ensures values == DecodeValues(V(), fieldType, offset, count)
    {
      hide S2N, ItemAt;
      if fieldType == 2 {
        values := Ascii([]);
        if count != 0 {
          values := Ascii(DropNuls(StripRight(StripLeft(Read(file, this.offset + offset, count)))));
        }
      } else {
        var items := ReadItems(fieldType, count, offset);
        values := Items(items);
      }
    }

    method ReadItems(fieldType: nat, count: nat, offset: nat) returns (items: seq<Item>)
      requires 0 < fieldType < 11
      ensures items == ItemsFrom(V(), fieldType, offset, count)
    {
      hide S2N, ItemAt, TypeLen, V;
      items := [];
      var p: nat := offset;
      for j := 0 to count
        invariant items + ItemsFrom(V(), fieldType, p, count - j) == ItemsFrom(V(), fieldType, offset, count)
      {
        var item := ReadItem(fieldType, p);
        ghost var rest := ItemsFrom(V(), fieldType, p + TypeLen(fieldType), count - j - 1);
        assert items + [item] + rest == items + ([item] + rest);
        items := items + [item];
        p := p + TypeLen(fieldType);
      }
    }

    /** Decodes entry i of a directory; fails on an unknown field type. */
    method ReadEntry(ifd: nat, i: nat) returns (r: Outcome<IfdTag>)
      ensures r == Decode(V(), ifd, i)
    {
      hide S2N, DecodeValues;
      var entry := ifd + 2 + 12 * i;
      var tag := ReadNumber(entry, 2);
      var fieldType := ReadNumber(entry + 2, 2);
      if !(0 < fieldType < 11) {
        return Raised(ValueError);
      }
      var typeLen := TypeLen(fieldType);
      var count := ReadNumber(entry + 4, 4);
      var at := entry + 8;
      if count * typeLen > 4 {
        at := ReadNumber(at, 4);
      }
      var values := ReadValues(fieldType, count, at);
      r := Done(IfdTag(tag, fieldType, values, at, count * typeLen));
    }

    /** What the first loop reads of entry i; fails on a field type outside the table. */
    method ReadField(t: nat, i: nat) returns (r: Outcome<Field>)
      ensures r == if EntryType(V(), t, i) < 11 then Done(FieldOf(V(), t, i)) else Raised(IndexError)
    {
      hide S2N, Read;
      var entry := t + 2 + 12 * i;
      var tag := ReadNumber(entry, 2);
      var fieldType := ReadNumber(entry + 2, 2);
      if fieldType > 10 {
        return Raised(IndexError);
      }
      var typeLen := TypeLen(fieldType);
      var count := ReadNumber(entry + 4, 4);
      var oldOff := ReadNumber(entry + 8, 4);
      r := Done(Field(tag, count * typeLen, Read(file, offset + oldOff, count * typeLen)));
    }

    /** First loop: copies the directory, appends out-of-line values and patches the pointers to them. */
    method RelocateValues(t: nat) returns (r: Outcome<Partial>)
      ensures r == if TypesInTable(V(), t) then Done(Relocated(V(), t)) else Raised(IndexError)
    {
      hide S2N, RelocateField, Read, FieldOf, Skeleton;
      var entries := ReadNumber(t, 2);
      var p := Partial(Skeleton(V(), t), Unassigned);
      for i := 0 to entries
        invariant forall k :: 0 <= k < i ==> EntryType(V(), t, k) < 11
        invariant p == Relocate(endian, Skeleton(V(), t), Fields(V(), t), i)
      {
        var field := ReadField(t, i);
        if field.Raised? {
          return Raised(field.error);
        }
        p := RelocateField(endian, p, field.value, i * 12 + 18);
      }
      r := Done(p);
    }

    /** Second loop: writes the offset of each pixel strip, then appends the strip. */
    method AppendPixelStrips(tiff: seq<Octet>, off: nat, len: nat, offsets: Values, counts: Values)
        returns (r: Outcome<seq<Octet>>)
      ensures var picked := PickStrips(offsets, counts, ValueLen(offsets));
              r == if picked.Raised? then Raised(picked.error)
                   else Done(AppendStrips(endian, tiff, off, len, Strips(V(), picked.value.0, picked.value.1),
                       ValueLen(offsets)))
    {
      hide Splice, Read, Digits;
      var result, stripOff := tiff, off;
      ghost var os: seq<nat>, cs: seq<nat> := [], [];
      for i := 0 to ValueLen(offsets)
        invariant |os| == |cs| == i && PickStrips(offsets, counts, i) == Done((os, cs))
        invariant stripOff == Slot(off, len, i)
        invariant result == AppendStrips(endian, tiff, off, len, Strips(V(), os, cs), i)
      {
        var pointer := NumberToString(|result|, len);
        result := Splice(result, stripOff, pointer);
        stripOff := stripOff + len;
        var at, count := NumberAt(offsets, i), NumberAt(counts, i);
        if at.Raised? {
          PickStops(offsets, counts, i + 1, ValueLen(offsets));
          return Raised(at.error);
        }
        if count.Raised? {
          PickStops(offsets, counts, i + 1, ValueLen(offsets));
          return Raised(count.error);
        }
        var strip := Read(file, offset + at.value, count.value);
        assert Strips(V(), os + [at.value], cs + [count.value]) == Strips(V(), os, cs) + [strip];
        AppendPrefix(endian, tiff, off, len, Strips(V(), os, cs), [strip], i);
        os, cs := os + [at.value], cs + [count.value];
        result := result + strip;
      }
      r := Done(result);
    }

    /** Stores the thumbnail directory as a TIFF file of its own; on a failure nothing is stored. */
    method ExtractTiffThumbnail(t: nat) returns (r: Outcome<()>)
      modifies this`tiffThumbnail
      ensures r == match Extract(V(), t, tags) case Raised(e) => Raised(e) case Done(_) => Done(())
      ensures tiffThumbnail == match Extract(V(), t, tags) case Raised(_) => old(tiffThumbnail) case Done(s) => Some(s)
    {
      hide Relocated;
      var relocated := RelocateValues(t);
      if relocated.Raised? {
        return Raised(relocated.error);
      }
      if OFFSETS_KEY !in tags || COUNTS_KEY !in tags {
        return Raised(KeyError);
      }
      var offsets, counts := tags[OFFSETS_KEY].values, tags[COUNTS_KEY].values;
      var tiff := relocated.value.tiff;
      if ValueLen(offsets) > 0 {
        match relocated.value.strip
        case Unassigned =>
          return Raised(UnboundLocalError);
        case At(off, len) =>
          var appended := AppendPixelStrips(tiff, off, len, offsets, counts);
          if appended.Raised? {
            return Raised(appended.error);
          }
          tiff := appended.value;
      }
      tiffThumbnail := Some(tiff);
      r := Done(());
    }

    /** Makes the printable form of a tag's values one by one, which reduces its ratios. */
    method PrintTag(t: IfdTag) returns (r: IfdTag)
      ensures r == Printed(t)
    {
      hide PrintedItem, Gcd;
      r := t;
      if t.values.Items? {
        var items := t.values.items;
        for j := 0 to |items|
          invariant |items| == |t.values.items|
          invariant forall k :: 0 <= k < j ==> items[k] == PrintedItem(t.values.items[k])
          invariant forall k :: j <= k < |items| ==> items[k] == t.values.items[k]
        {
          var item := ReduceItem(items[j]);
          items := items[j := item];
        }
        assert items == PrintedItems(t.values.items);
        r := t.(values := Items(items));
      }
    }

    method ReduceItem(item: Item) returns (r: Item)
      ensures r == PrintedItem(item)
    {
      r := item;
      if item.Ratio? {
        var div := Gcd(item.num, item.den);
        if div > 1 {
          r := Ratio(Quotient(item.num, div), Quotient(item.den, div));
        }
      }
    }

    /** Decodes the entries of a directory into `tags`; stops at the first unknown field type. */
    method DumpIfd(ifd: nat, ifdName: string, names: map<nat, string>) returns (r: Outcome<()>)
      modifies this`tags
      ensures (tags, r) == Dump(V(), ifd, ifdName, names, old(tags))
    {
      hide S2N, Decode, Key, Printed;
      ghost var es := Entries(V(), ifd);
      ghost var key := (tag: nat) => Key(ifdName, names, tag);
      var entries := ReadNumber(ifd, 2);
      for i := 0 to entries
        invariant (tags, Done(())) == Record(es[..i], key, old(tags))
      {
        assert es[..i + 1][..i] == es[..i];
        var entry := ReadEntry(ifd, i);
        match entry
        case Raised(e) =>
          RecordStops(es, i, key, old(tags));
          return Raised(e);
        case Done(t) =>
          var printed := PrintTag(t);
          tags := tags[Key(ifdName, names, t.tag) := printed];
      }
      assert es[..entries] == es;
      r := Done(());
    }
  }

  /** A failure at entry i is the outcome of the whole dump. */
  lemma {:induction false} RecordStops(es: seq<Outcome<IfdTag>>, i: nat, key: nat -> string, tags: Tags)
    requires i < |es| && es[i].Raised? && Record(es[..i], key, tags).1.Done?
    ensures Record(es, key, tags) == (Record(es[..i], key, tags).0, Raised(es[i].error))
    decreases |es|
  {
    if i < |es| - 1 {
      assert es[..|es| - 1][..i] == es[..i];
      RecordStops(es[..|es| - 1], i, key, tags);
    }
  }

  // ---------------------------------------------------------------- dump, then extract

  /** The numbers entry k lists. */
  function Listed(v: View, t: nat, k: nat): (ns: seq<nat>)
    ensures |ns| == ValueCount(v, t, k)
  {
    var len := TypeLen(EntryType(v, t, k));
    seq(ValueCount(v, t, k), i requires 0 <= i => S2N(v, ValueOffset(v, t, k) + i * len, len))
  }

  /** Entry k is the only one with its tag and lists plain numbers. */
  ghost predicate OnlyNumbers(v: View, t: nat, k: nat, tag: nat) {
    && k < EntryCount(v, t) && EntryTag(v, t, k) == tag && EntryType(v, t, k) !in {2, 5, 10}
    && forall j :: 0 <= j < EntryCount(v, t) && j != k ==> EntryTag(v, t, j) != tag
  }

  lemma ListedAt(v: View, t: nat, k: nat, i: nat)
    requires 0 < EntryType(v, t, k) < 11 && EntryType(v, t, k) !in {2, 5, 10} && i < ValueCount(v, t, k)
    ensures var vals := DecodeValues(v, EntryType(v, t, k), ValueOffset(v, t, k), ValueCount(v, t, k));
            NumberAt(vals, i) == Done(Listed(v, t, k)[i])
  {
    hide S2N;
    ItemsFromAt(v, EntryType(v, t, k), ValueOffset(v, t, k), ValueCount(v, t, k), i);
  }

  lemma {:induction false} PicksListed(v: View, t: nat, ks: nat, kc: nat, i: nat)
    requires 0 < EntryType(v, t, ks) < 11 && EntryType(v, t, ks) !in {2, 5, 10}
    requires 0 < EntryType(v, t, kc) < 11 && EntryType(v, t, kc) !in {2, 5, 10}
    requires i <= ValueCount(v, t, ks) <= ValueCount(v, t, kc)
    ensures PickStrips(DecodeValues(v, EntryType(v, t, ks), ValueOffset(v, t, ks), ValueCount(v, t, ks)),
                       DecodeValues(v, EntryType(v, t, kc), ValueOffset(v, t, kc), ValueCount(v, t, kc)), i)
         == Done((Listed(v, t, ks)[..i], Listed(v, t, kc)[..i]))
  {
    hide S2N, DecodeValues, ValueOffset, Listed, NumberAt, EntryType;
    if i > 0 {
      PicksListed(v, t, ks, kc, i - 1);
      ListedAt(v, t, ks, i - 1);
      ListedAt(v, t, kc, i - 1);
      var a, b := Listed(v, t, ks), Listed(v, t, kc);
      assert a[..i] == a[..i - 1] + [a[i - 1]] && b[..i] == b[..i - 1] + [b[i - 1]];
    }
  }

  /** After a dump under the name of the thumbnail, the two strip tables are found under the keys looked up. */
  lemma DumpFinds(v: View, t: nat, names: map<nat, string>, before: Tags, k: nat, tag: nat)
    requires ReadableIfd(v, t) && OnlyNumbers(v, t, k, tag) && NamesStrips(names)
    requires tag == STRIP_OFFSETS || tag == STRIP_BYTE_COUNTS
    ensures var d := Dump(v, t, "Thumbnail", names, before);
            var key := if tag == STRIP_OFFSETS then OFFSETS_KEY else COUNTS_KEY;
            d.1.Done? && key in d.0 && Done(d.0[key]) == Decode(v, t, k)
  {
    hide S2N, Decode, ValueOffset, Record, Key, Printed;
    var es, key := Entries(v, t), (tag: nat) => Key("Thumbnail", names, tag);
    forall j | 0 <= j < |es|
      ensures es[j].Done? && es[j].value.tag == EntryTag(v, t, j)
    {
      DecodeDone(v, t, j);
    }
    forall j | k < j < |es|
      ensures key(es[j].value.tag) != key(es[k].value.tag)
    {
      StripKeysDiffer(names, es[j].value.tag, tag);
    }
    RecordKeepsLast(es, key, before, k);
    NumbersPrinted(v, t, k);
    StripKeys(names);
  }

  lemma StripKeysDiffer(names: map<nat, string>, other: nat, tag: nat)
    requires NamesStrips(names) && (tag == STRIP_OFFSETS || tag == STRIP_BYTE_COUNTS) && other != tag
    ensures Key("Thumbnail", names, other) != Key("Thumbnail", names, tag)
  {
    hide Key, TagName;
    NameOfStrips(names, other);
    NameOfStrips(names, tag);
    if Key("Thumbnail", names, other) == Key("Thumbnail", names, tag) {
      SameKeySameName("Thumbnail", names, other, tag);
      assert false;
    }
  }

  lemma StripKeys(names: map<nat, string>)
    requires NamesStrips(names)
    ensures Key("Thumbnail", names, STRIP_OFFSETS) == OFFSETS_KEY
    ensures Key("Thumbnail", names, STRIP_BYTE_COUNTS) == COUNTS_KEY
  {
    hide TagName;
    NameOfStrips(names, STRIP_OFFSETS);
    NameOfStrips(names, STRIP_BYTE_COUNTS);
  }

  lemma DecodeDone(v: View, t: nat, j: nat)
    requires 0 < EntryType(v, t, j) < 11
    ensures Decode(v, t, j).Done? && Decode(v, t, j).value.tag == EntryTag(v, t, j)
    ensures Decode(v, t, j).value.values
            == DecodeValues(v, EntryType(v, t, j), ValueOffset(v, t, j), ValueCount(v, t, j))
  {
  }

  /** Dumping a thumbnail directory and extracting it hands the loops the two tables as listed in the file. */
  lemma DumpThenExtract(v: View, t: nat, names: map<nat, string>, before: Tags, ks: nat, kc: nat)
    requires ReadableIfd(v, t) && NamesStrips(names)
    requires OnlyNumbers(v, t, ks, STRIP_OFFSETS) && OnlyNumbers(v, t, kc, STRIP_BYTE_COUNTS)
    requires ValueCount(v, t, ks) <= ValueCount(v, t, kc)
    ensures var d := Dump(v, t, "Thumbnail", names, before);
            && d.1.Done?
            && Extract(v, t, d.0) == RebuildTiff(v, t, Listed(v, t, ks), Listed(v, t, kc)[..ValueCount(v, t, ks)])
  {
    hide S2N, Decode, DecodeValues, ValueOffset, Dump, Listed, Relocated, Strips, Size;
    var m := ValueCount(v, t, ks);
    var tags := Dump(v, t, "Thumbnail", names, before).0;
    DumpFinds(v, t, names, before, ks, STRIP_OFFSETS);
    DumpFinds(v, t, names, before, kc, STRIP_BYTE_COUNTS);
    DecodeDone(v, t, ks);
    DecodeDone(v, t, kc);
    ListLength(v, t, ks);
    PicksListed(v, t, ks, kc, m);
    assert Listed(v, t, ks)[..m] == Listed(v, t, ks);
    StripField(v, t, ks);
  }

  lemma ListLength(v: View, t: nat, k: nat)
    requires 0 < EntryType(v, t, k) < 11 && EntryType(v, t, k) != 2
    ensures ValueLen(DecodeValues(v, EntryType(v, t, k), ValueOffset(v, t, k), ValueCount(v, t, k)))
            == ValueCount(v, t, k)
  {
    hide S2N;
  }

  lemma StripField(v: View, t: nat, ks: nat)
    requires ReadableIfd(v, t) && OnlyNumbers(v, t, ks, STRIP_OFFSETS)
    ensures Relocated(v, t).strip.At?
  {
    hide S2N, Digits, Read, Skeleton, Relocate;
    FieldsSound(v, t);
    RelocatedStripField(v.endian, Skeleton(v, t), Fields(v, t), ks, EntryCount(v, t));
  }

  // ---------------------------------------------------------------- the file names its own byte order

  /** The first four octets of a buffer are those of another. */
  ghost predicate SameMark(s: seq<Octet>, r: seq<Octet>) {
    |s| >= 4 && |r| >= 4 && r[..4] == s[..4]
  }

  lemma PointerKeepsMark(e: Endian, s: seq<Octet>, at: nat, len: nat, y: seq<Octet>)
    requires |s| >= 4 && at >= 4
    ensures SameMark(s, PointAndAppend(e, s, at, len, y))
  {
    hide Digits;
  }

  lemma {:induction false} RelocateKeepsMark(e: Endian, skeleton: seq<Octet>, fs: seq<Field>, i: nat)
    requires |skeleton| >= 4 && i <= |fs|
    ensures var p := Relocate(e, skeleton, fs, i); SameMark(skeleton, p.tiff) && (p.strip.At? ==> p.strip.off >= 4)
  {
    hide PointAndAppend;
    if i > 0 {
      RelocateKeepsMark(e, skeleton, fs, i - 1);
      var p, f, ptr := Relocate(e, skeleton, fs, i - 1), fs[i - 1], (i - 1) * 12 + 18;
      PointerKeepsMark(e, p.tiff, ptr, 4, f.data);
    }
  }

  lemma {:induction false} AppendKeepsMark(e: Endian, tiff: seq<Octet>, off: nat, len: nat, strips: seq<seq<Octet>>,
                                           i: nat)
    requires |tiff| >= 4 && off >= 4 && i <= |strips|
    ensures SameMark(tiff, AppendStrips(e, tiff, off, len, strips, i))
  {
    hide PointAndAppend;
    if i > 0 {
      AppendKeepsMark(e, tiff, off, len, strips, i - 1);
      SlotGrows(off, len, 0, i - 1);
      PointerKeepsMark(e, AppendStrips(e, tiff, off, len, strips, i - 1), Slot(off, len, i - 1), len, strips[i - 1]);
    }
  }

  /** Whatever is extracted starts with MM and 42, or II and 42, in the byte order of the original header. */
  lemma ExtractedMark(v: View, t: nat, tags: Tags)
    requires Extract(v, t, tags).Done?
    ensures var s := Extract(v, t, tags).value;
            |s| >= 4 && s[..4] == if v.endian == Motorola then [77, 77, 0, 42] else [73, 73, 42, 0]
  {
    hide PickStrips, Strips, Fields, AppendStrips, Relocate, Read;
    var n := EntryCount(v, t);
    assert Skeleton(v, t)[..8] == TiffHeader(v.endian);
    assert Skeleton(v, t)[..4] == TiffHeader(v.endian)[..4];
    RelocateKeepsMark(v.endian, Skeleton(v, t), Fields(v, t), n);
    var p := Relocated(v, t);
    if p.strip.At? {
      forall strips: seq<seq<Octet>>
        ensures SameMark(p.tiff, AppendStrips(v.endian, p.tiff, p.strip.off, p.strip.len, strips, |strips|))
      {
        AppendKeepsMark(v.endian, p.tiff, p.strip.off, p.strip.len, strips, |strips|);
      }
    }
  }

  /** So a reader that opens it finds its header at 0 and reads it in that order. */
  lemma ExtractedOpens(v: View, t: nat, tags: Tags)
    requires Extract(v, t, tags).Done?
    ensures var s := Extract(v, t, tags).value;
            && Find(s) == Done(Header([if v.endian == Motorola then 77 else 73], 0))
            && Opened(s) == Some(View(s, v.endian, 0))
  {
    hide Extract;
    ExtractedMark(v, t, tags);
    var s := Extract(v, t, tags).value;
    assert Read(s, 0, 12)[..4] == s[..4];
    assert Read(s, 0, 1) == [s[0]] && s[0] == s[..4][0];
  }

  /**
   End to end: for a readable thumbnail directory with one strip table (slots as wide as its values, every place
   fitting) and one table of at least as many byte counts, dump and extraction succeed, and the stored TIFF, opened
   like any file, has the same entries, the same values, and behind each strip offset the octets of that strip.
   */
  lemma ExtractedThumbnailMeans(v: View, t: nat, names: map<nat, string>, before: Tags, ks: nat, kc: nat)
    requires ReadableIfd(v, t) && NamesStrips(names) && |Relocated(v, t).tiff| <= 0x1_0000_0000
    requires OnlyNumbers(v, t, ks, 0x0111) && OnlyNumbers(v, t, kc, 0x0117)
    requires ValueCount(v, t, ks) <= ValueCount(v, t, kc)
    requires StripLenIsTypeLen(v, t, ks)
    requires PlacesFit(v, t, ks, Listed(v, t, ks), Listed(v, t, kc)[..ValueCount(v, t, ks)])
    ensures var d := Dump(v, t, "Thumbnail", names, before); d.1.Done? && Extract(v, t, d.0).Done?
    ensures Opened(Extract(v, t, Dump(v, t, "Thumbnail", names, before).0).value).Some?
    ensures var w := Opened(Extract(v, t, Dump(v, t, "Thumbnail", names, before).0).value).value;
            && w.endian == v.endian && SameDirectory(v, t, w)
            && (forall k :: 0 <= k < EntryCount(v, t) && k != ks ==>
                  && Decode(w, 8, k).Done? && Decode(v, t, k).Done?
                  && Decode(w, 8, k).value.values == Decode(v, t, k).value.values)
            && Decode(w, 8, ks).Done? && Decode(w, 8, ks).value.values.Items?
            && (forall i :: 0 <= i < ValueCount(v, t, ks) ==>
                  var items := Decode(w, 8, ks).value.values.items;
                  && i < |items| && items[i].Number?
                  && Holds(w.file, items[i].n, Read(v.file, v.base + Listed(v, t, ks)[i], Listed(v, t, kc)[i])))
  {
    hide S2N, Decode, Dump, Extract, Listed, Relocated, Size, ReadableIfd, Holds, RebuildTiff, SameDirectory,
        PlacesFit, Placed, Opened, Find;
    var offsets, counts := Listed(v, t, ks), Listed(v, t, kc)[..ValueCount(v, t, ks)];
    DumpThenExtract(v, t, names, before, ks, kc);
    ThumbnailKeepsMeaning(v, t, ks, offsets, counts);
    ExtractedOpens(v, t, Dump(v, t, "Thumbnail", names, before).0);
    var strips := Strips(v, offsets, counts);
    assert forall i :: 0 <= i < |offsets| ==> strips[i] == Read(v.file, v.base + offsets[i], counts[i]);
  }
}
