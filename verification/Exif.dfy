/**
 Reading a TIFF/EXIF header: multi-byte integers at an offset, the chain of image file
 directories (IFDs), and the entries of one directory.
 */
module Exif {
  import opened Octets
  import opened Ratios

  /** What the reading functions depend on: the file, the byte order and where the header starts. */
  datatype View = View(file: seq<Octet>, endian: Endian, base: nat)

  datatype Item = Number(n: nat) | Ratio(num: nat, den: nat)
  datatype Values = Ascii(text: seq<Octet>) | Items(items: seq<Item>)
  datatype IfdTag = IfdTag(tag: nat, fieldType: nat, values: Values, fieldOffset: nat, fieldLength: nat)

  datatype Error = ValueError | IndexError | KeyError | TypeError | UnboundLocalError
  datatype Outcome<+T> = Done(value: T) | Raised(error: Error)

  type Tags = map<string, IfdTag>

  const STRIP_OFFSETS: nat := 0x0111
  const STRIP_BYTE_COUNTS: nat := 0x0117

  /** Length in octets of each field type; types 0..10 are in the table. */
  function TypeLen(t: nat): nat {
    if t == 0 || t > 10 then 0
    else if t == 3 || t == 8 then 2
    else if t == 4 || t == 9 then 4
    else if t == 5 || t == 10 then 8
    else 1
  }

  // ---------------------------------------------------------------- reading

  function S2N(v: View, offset: nat, length: nat): nat {
    Num(v.endian, Read(v.file, v.base + offset, length))
  }

  function FirstIfd(v: View): nat {
    S2N(v, 4, 4)
  }

  function NextIfd(v: View, ifd: nat): nat {
    S2N(v, ifd + 2 + 12 * S2N(v, ifd, 2), 4)
  }

  function EntryCount(v: View, ifd: nat): nat { S2N(v, ifd, 2) }

  function EntryTag(v: View, ifd: nat, i: nat): nat { S2N(v, ifd + 2 + 12 * i, 2) }

  function EntryType(v: View, ifd: nat, i: nat): nat { S2N(v, ifd + 2 + 12 * i + 2, 2) }

  function ValueCount(v: View, ifd: nat, i: nat): nat { S2N(v, ifd + 2 + 12 * i + 4, 4) }

  /** Octets taken by the values of entry i. */
  function Size(v: View, ifd: nat, i: nat): nat {
    ValueCount(v, ifd, i) * TypeLen(EntryType(v, ifd, i))
  }

  /** Where the values of entry i are: in the entry itself when they fit in 4 octets. */
  function ValueOffset(v: View, ifd: nat, i: nat): nat {
    var inline := ifd + 2 + 12 * i + 8;
    if Size(v, ifd, i) > 4 then S2N(v, inline, 4) else inline
  }

  function ValueOctets(v: View, ifd: nat, i: nat): seq<Octet> {
    Read(v.file, v.base + ValueOffset(v, ifd, i), Size(v, ifd, i))
  }

  function ItemAt(v: View, t: nat, offset: nat): Item
    requires 0 < t < 11
  {
    if t == 5 || t == 10 then Ratio(S2N(v, offset, 4), S2N(v, offset + 4, 4))
    else Number(S2N(v, offset, TypeLen(t)))
  }

  function ItemsFrom(v: View, t: nat, offset: nat, count: nat): (items: seq<Item>)
    requires 0 < t < 11
    ensures |items| == count
    decreases count
  {
    if count == 0 then []
    else [ItemAt(v, t, offset)] + ItemsFrom(v, t, offset + TypeLen(t), count - 1)
  }

  predicate IsWhite(c: Octet) { c == 32 || 9 <= c <= 13 }

  function StripLeft(s: seq<Octet>): seq<Octet> {
    if s != [] && IsWhite(s[0]) then StripLeft(s[1..]) else s
  }

  function StripRight(s: seq<Octet>): seq<Octet> {
    if s != [] && IsWhite(s[|s| - 1]) then StripRight(s[..|s| - 1]) else s
  }

  function DropNuls(s: seq<Octet>): seq<Octet> {
    if s == [] then [] else (if s[0] == 0 then [] else [s[0]]) + DropNuls(s[1..])
  }

  function DecodeValues(v: View, t: nat, offset: nat, count: nat): Values
    requires 0 < t < 11
  {
    if t == 2 then
      Ascii(if count != 0 then DropNuls(StripRight(StripLeft(Read(v.file, v.base + offset, count)))) else [])
    else Items(ItemsFrom(v, t, offset, count))
  }

  function Decode(v: View, ifd: nat, i: nat): Outcome<IfdTag> {
    var t := EntryType(v, ifd, i);
    if !(0 < t < 11) then Raised(ValueError)
    else
      var offset := ValueOffset(v, ifd, i);
      Done(IfdTag(EntryTag(v, ifd, i), t,
                  DecodeValues(v, t, offset, ValueCount(v, ifd, i)), offset, Size(v, ifd, i)))
  }

  function HexDigit(d: nat): char
    requires d < 16
  {
    "0123456789ABCDEF"[d]
  }

  function Hex4(n: nat): string {
    [HexDigit(n / 4096 % 16), HexDigit(n / 256 % 16), HexDigit(n / 16 % 16), HexDigit(n % 16)]
  }

  function TagName(names: map<nat, string>, tag: nat): string {
    if tag in names then names[tag] else "Tag 0x" + Hex4(tag)
  }

  function Key(ifdName: string, names: map<nat, string>, tag: nat): string {
    ifdName + " " + TagName(names, tag)
  }

  /** The decoded entries of a directory, in file order. */
  function Entries(v: View, ifd: nat): (es: seq<Outcome<IfdTag>>)
    ensures |es| == EntryCount(v, ifd)
    ensures forall i :: 0 <= i < |es| ==> es[i] == Decode(v, ifd, i)
  {
    seq(EntryCount(v, ifd), i requires 0 <= i => Decode(v, ifd, i))
  }

  /** What printing a value leaves of it: ratios are reduced in place. */
  function PrintedItem(item: Item): Item {
    match item
    case Number(_) => item
    case Ratio(num, den) => var r := Reduced(num, den); Ratio(r.0, r.1)
  }

  function PrintedItems(items: seq<Item>): (r: seq<Item>)
    ensures |r| == |items| && forall i :: 0 <= i < |items| ==> r[i] == PrintedItem(items[i])
  {
    seq(|items|, i requires 0 <= i < |items| => PrintedItem(items[i]))
  }

  /** A tag as it is recorded, its printable form having been made. */
  function Printed(t: IfdTag): IfdTag {
    if t.values.Ascii? then t else t.(values := Items(PrintedItems(t.values.items)))
  }

  /** Recorded values are the decoded ones, each ratio being the same ratio in lowest terms. */
  lemma PrintedSame(t: IfdTag, i: nat)
    requires t.values.Items? && i < |t.values.items|
    ensures var item, r := t.values.items[i], Printed(t).values.items[i];
            match item
            case Number(_) => r == item
            case Ratio(num, den) => r.Ratio? && r.num * den == num * r.den && Gcd(r.num, r.den) <= 1
  {
    hide Gcd, Reduced;
    if t.values.items[i].Ratio? {
      ReducedIsLowest(t.values.items[i].num, t.values.items[i].den);
    }
  }

  lemma NumbersPrinted(v: View, ifd: nat, k: nat)
    requires 0 < EntryType(v, ifd, k) < 11 && EntryType(v, ifd, k) !in {5, 10}
    ensures Printed(Decode(v, ifd, k).value) == Decode(v, ifd, k).value
  {
    hide S2N, ValueOffset, ItemsFrom, EntryType, ValueCount;
    var t, n := EntryType(v, ifd, k), ValueCount(v, ifd, k);
    if t != 2 {
      var items := ItemsFrom(v, t, ValueOffset(v, ifd, k), n);
      forall i | 0 <= i < n
        ensures PrintedItem(items[i]) == items[i]
      {
        ItemsFromAt(v, t, ValueOffset(v, ifd, k), n, i);
      }
      assert PrintedItems(items) == items;
    }
  }

  /** Entries recorded one after the other under their keys, up to the first that does not decode. */
  function Record(es: seq<Outcome<IfdTag>>, key: nat -> string, tags: Tags): (Tags, Outcome<()>) {
    if es == [] then (tags, Done(()))
    else
      var before := Record(es[..|es| - 1], key, tags);
      if before.1.Raised? then before
      else match es[|es| - 1]
        case Raised(e) => (before.0, Raised(e))
        case Done(t) => (before.0[key(t.tag) := Printed(t)], Done(()))
  }

  function Dump(v: View, ifd: nat, ifdName: string, names: map<nat, string>, tags: Tags): (Tags, Outcome<()>) {
    Record(Entries(v, ifd), (tag: nat) => Key(ifdName, names, tag), tags)
  }

  // ------------------------------------------------- values depend on their octets

  lemma SameOctetsSameNumber(v: View, w: View, p: nat, q: nat, n: nat, a: nat, m: nat)
    requires v.endian == w.endian && a + m <= n
    requires |Read(v.file, v.base + p, n)| == n
    requires Read(v.file, v.base + p, n) == Read(w.file, w.base + q, n)
    ensures S2N(v, p + a, m) == S2N(w, q + a, m)
  {
    ReadSlice(v.file, v.base + p, n, a, m);
    ReadSlice(w.file, w.base + q, n, a, m);
  }

  lemma SameOctetsSameItem(v: View, w: View, t: nat, p: nat, q: nat, n: nat)
    requires v.endian == w.endian && 0 < t < 11 && TypeLen(t) <= n
    requires |Read(v.file, v.base + p, n)| == n
    requires Read(v.file, v.base + p, n) == Read(w.file, w.base + q, n)
    ensures ItemAt(v, t, p) == ItemAt(w, t, q)
  {
    if t == 5 || t == 10 {
      SameOctetsSameNumber(v, w, p, q, n, 0, 4);
      SameOctetsSameNumber(v, w, p, q, n, 4, 4);
    } else {
      SameOctetsSameNumber(v, w, p, q, n, 0, TypeLen(t));
    }
  }

  /** Octets taken by `count` values, counted one value at a time. */
  function Span(t: nat, count: nat): nat
    requires 0 < t < 11
  {
    if count == 0 then 0 else TypeLen(t) + Span(t, count - 1)
  }

  lemma {:induction false} SpanIsProduct(t: nat, count: nat)
    requires 0 < t < 11
    ensures Span(t, count) == count * TypeLen(t)
  {
    if count > 0 {
      SpanIsProduct(t, count - 1);
    }
  }

  lemma {:induction false} SameOctetsSameItems(v: View, w: View, t: nat, p: nat, q: nat, count: nat)
    requires v.endian == w.endian && 0 < t < 11
    requires |Read(v.file, v.base + p, Span(t, count))| == Span(t, count)
    requires Read(v.file, v.base + p, Span(t, count)) == Read(w.file, w.base + q, Span(t, count))
    ensures ItemsFrom(v, t, p, count) == ItemsFrom(w, t, q, count)
    decreases count
  {
    hide ItemAt, Read;
    if count > 0 {
      var l, n, rest := TypeLen(t), Span(t, count), Span(t, count - 1);
      SameOctetsSameItem(v, w, t, p, q, n);
      ReadSlice(v.file, v.base + p, n, l, rest);
      ReadSlice(w.file, w.base + q, n, l, rest);
      SameOctetsSameItems(v, w, t, p + l, q + l, count - 1);
    }
  }

  lemma SameOctetsSameValues(v: View, w: View, t: nat, p: nat, q: nat, count: nat)
    requires v.endian == w.endian && 0 < t < 11
    requires |Read(v.file, v.base + p, count * TypeLen(t))| == count * TypeLen(t)
    requires Read(v.file, v.base + p, count * TypeLen(t)) == Read(w.file, w.base + q, count * TypeLen(t))
    ensures DecodeValues(v, t, p, count) == DecodeValues(w, t, q, count)
  {
    if t != 2 {
      SpanIsProduct(t, count);
      SameOctetsSameItems(v, w, t, p, q, count);
    } else {
      assert count * TypeLen(t) == count;
    }
  }

  /** The items are the numbers read at successive positions. */
  lemma {:induction false} ItemsFromAt(v: View, t: nat, offset: nat, count: nat, j: nat)
    requires 0 < t < 11 && j < count
    ensures ItemsFrom(v, t, offset, count)[j] == ItemAt(v, t, offset + j * TypeLen(t))
    decreases count
  {
    hide ItemAt;
    if j > 0 {
      ItemsFromAt(v, t, offset + TypeLen(t), count - 1, j - 1);
      assert j * TypeLen(t) == TypeLen(t) + (j - 1) * TypeLen(t);
    }
  }

  // ---------------------------------------------------------------- what a dump leaves behind

  /** A dump succeeds exactly when every entry decodes. */
  lemma {:induction false} RecordSucceedsIff(es: seq<Outcome<IfdTag>>, key: nat -> string, tags: Tags)
    ensures Record(es, key, tags).1.Done? <==> forall k :: 0 <= k < |es| ==> es[k].Done?
  {
    if es != [] {
      RecordSucceedsIff(es[..|es| - 1], key, tags);
    }
  }

  /** After a successful dump an entry whose key no later entry shares is found under its key, printed. */
  lemma {:induction false} RecordKeepsLast(es: seq<Outcome<IfdTag>>, key: nat -> string, tags: Tags, k: nat)
    requires k < |es| && forall j :: 0 <= j < |es| ==> es[j].Done?
    requires forall j :: k < j < |es| ==> key(es[j].value.tag) != key(es[k].value.tag)
    ensures var after := Record(es, key, tags);
            after.1.Done? && key(es[k].value.tag) in after.0 && after.0[key(es[k].value.tag)] == Printed(es[k].value)
  {
    hide Printed;
    RecordSucceedsIff(es, key, tags);
    if k < |es| - 1 {
      RecordKeepsLast(es[..|es| - 1], key, tags, k);
    }
  }

  /** The thumbnail reader looks its two strip tables up by name: no other tag may carry those names. */
  predicate NamesStrips(names: map<nat, string>) {
    && STRIP_OFFSETS in names && names[STRIP_OFFSETS] == "StripOffsets"
    && STRIP_BYTE_COUNTS in names && names[STRIP_BYTE_COUNTS] == "StripByteCounts"
    && forall tag | tag in names :: (names[tag] == "StripOffsets" ==> tag == STRIP_OFFSETS)
                                 && (names[tag] == "StripByteCounts" ==> tag == STRIP_BYTE_COUNTS)
  }

  /** A tag without a name is called by its number, which is neither of the two names. */
  lemma NameOfStrips(names: map<nat, string>, tag: nat)
    requires NamesStrips(names)
    ensures TagName(names, tag) == "StripOffsets" <==> tag == STRIP_OFFSETS
    ensures TagName(names, tag) == "StripByteCounts" <==> tag == STRIP_BYTE_COUNTS
  {
    if tag !in names {
      assert TagName(names, tag)[0] == 'T';
    }
  }

  lemma SameKeySameName(ifdName: string, names: map<nat, string>, a: nat, b: nat)
    requires Key(ifdName, names, a) == Key(ifdName, names, b)
    ensures TagName(names, a) == TagName(names, b)
  {
    var p := ifdName + " ";
    assert Key(ifdName, names, a)[|p|..] == TagName(names, a);
    assert Key(ifdName, names, b)[|p|..] == TagName(names, b);
  }
}
