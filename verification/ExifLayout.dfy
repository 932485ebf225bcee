/** What reading, decoding and naming give, told in octets: TIFF Revision 6.0, section 2. */
module ExifLayout {
  import opened Common
  import opened Octets
  import opened Exif

  /** Blanks at both ends and then all NULs removed. */
  function Text(s: seq<Octet>): seq<Octet> { DropNuls(StripRight(StripLeft(s))) }

  // ---------------------------------------------------------------- one entry

  /** The number in these octets of the file, as far as they lie in it. */
  function At(v: View, pos: nat, n: nat): nat {
    Num(v.endian, OctetsAt(v, pos, n))
  }

  function OctetsAt(v: View, pos: nat, n: nat): seq<Octet> {
    v.file[Min(pos, |v.file|)..Min(pos + n, |v.file|)]
  }

  /** Octets per value: bytes, shorts, longs, rationals. */
  ghost predicate Width(typ: nat, n: nat) {
    || (typ in {1, 2, 6, 7} && n == 1) || (typ in {3, 8} && n == 2) || (typ in {4, 9} && n == 4)
    || (typ in {5, 10} && n == 8)
  }

  lemma ReadsAt(v: View, offset: nat, n: nat)
    ensures S2N(v, offset, n) == At(v, v.base + offset, n)
  {
  }

  /** The first directory is told in octets 4 to 8; the next one behind the entries, twelve octets each, of this one. */
  lemma ChainAt(v: View, ifd: nat)
    ensures FirstIfd(v) == At(v, v.base + 4, 4) && EntryCount(v, ifd) == At(v, v.base + ifd, 2)
    ensures NextIfd(v, ifd) == At(v, v.base + ifd + 2 + 12 * At(v, v.base + ifd, 2), 4)
  {
    hide S2N, At;
    ReadsAt(v, 4, 4);
    ReadsAt(v, ifd, 2);
    ReadsAt(v, ifd + 2 + 12 * S2N(v, ifd, 2), 4);
  }

  lemma WidthIs(typ: nat, n: nat)
    requires Width(typ, n)
    ensures 0 < typ < 11 && TypeLen(typ) == n
  {
  }

  lemma FieldsAt(v: View, ifd: nat, i: nat)
    ensures var entry := v.base + ifd + 2 + 12 * i;
            && EntryTag(v, ifd, i) == At(v, entry, 2) && EntryType(v, ifd, i) == At(v, entry + 2, 2)
            && ValueCount(v, ifd, i) == At(v, entry + 4, 4) && S2N(v, ifd + 2 + 12 * i + 8, 4) == At(v, entry + 8, 4)
  {
    hide S2N, At;
    ReadsAt(v, ifd + 2 + 12 * i, 2);
    ReadsAt(v, ifd + 2 + 12 * i + 2, 2);
    ReadsAt(v, ifd + 2 + 12 * i + 4, 4);
    ReadsAt(v, ifd + 2 + 12 * i + 8, 4);
  }

  /** An entry decodes exactly when its type is one of the ten. */
  lemma DecodesIff(v: View, ifd: nat, i: nat)
    ensures Decode(v, ifd, i).Done? <==> 1 <= At(v, v.base + ifd + 2 + 12 * i + 2, 2) <= 10
  {
    FieldsAt(v, ifd, i);
    hide S2N, At, EntryTag, EntryType, ValueCount, Read, DecodeValues, ValueOffset;
  }

  function TypeAt(v: View, ifd: nat, i: nat): nat { At(v, v.base + ifd + 2 + 12 * i + 2, 2) }

  function CountAt(v: View, ifd: nat, i: nat): nat { At(v, v.base + ifd + 2 + 12 * i + 4, 4) }

  /** Where value j of an entry is in the file, its values taking n octets each. */
  function Position(v: View, ifd: nat, i: nat, n: nat, j: nat): nat {
    var entry := v.base + ifd + 2 + 12 * i;
    (if CountAt(v, ifd, i) * n > 4 then v.base + At(v, entry + 8, 4) else entry + 8) + j * n
  }

  /**
   Value j of an entry that is no text: a ratio has its numerator in the first four octets and its denominator in the
   next four, any other value is the number in its octets.
   */
  lemma DecodedItem(v: View, ifd: nat, i: nat, j: nat, n: nat)
    requires Width(TypeAt(v, ifd, i), n) && TypeAt(v, ifd, i) != 2 && j < CountAt(v, ifd, i)
    ensures var p, d := Position(v, ifd, i, n, j), Decode(v, ifd, i);
            && d.Done? && d.value.values.Items? && j < |d.value.values.items|
            && d.value.values.items[j]
               == if TypeAt(v, ifd, i) in {5, 10} then Ratio(At(v, p, 4), At(v, p + 4, 4)) else Number(At(v, p, n))
  {
    hide S2N, At, TypeLen, Width, Position, TypeAt, CountAt, ValueOffset, Decode, ItemAt, EntryType, ValueCount;
    NamedFields(v, ifd, i);
    var typ := TypeAt(v, ifd, i);
    WidthIs(typ, n);
    PositionIs(v, ifd, i, n, j);
    ItemDecoded(v, ifd, i, j);
    ItemOctets(v, typ, ValueOffset(v, ifd, i) + j * n);
  }

  lemma NamedFields(v: View, ifd: nat, i: nat)
    ensures EntryType(v, ifd, i) == TypeAt(v, ifd, i) && ValueCount(v, ifd, i) == CountAt(v, ifd, i)
  {
    FieldsAt(v, ifd, i);
  }

  /** What is recorded of entry i besides its values. */
  lemma DecodedEntry(v: View, ifd: nat, i: nat, n: nat)
    requires Width(TypeAt(v, ifd, i), n)
    ensures var d := Decode(v, ifd, i);
            && d.Done? && d.value.tag == At(v, v.base + ifd + 2 + 12 * i, 2) && d.value.fieldType == TypeAt(v, ifd, i)
            && d.value.fieldLength == CountAt(v, ifd, i) * n
            && v.base + d.value.fieldOffset == Position(v, ifd, i, n, 0)
            && (TypeAt(v, ifd, i) == 2 <==> d.value.values.Ascii?)
            && (d.value.values.Items? ==> |d.value.values.items| == CountAt(v, ifd, i))
  {
    FieldsAt(v, ifd, i);
    NamedFields(v, ifd, i);
    WidthIs(TypeAt(v, ifd, i), n);
    PositionIs(v, ifd, i, n, 0);
    hide S2N, At, TypeLen, Width, ItemsFrom, EntryTag, EntryType, ValueCount, ValueOffset, Read, StripLeft, StripRight,
      DropNuls, TypeAt, CountAt, Position;
  }

  /** The values of a text entry are the text in its octets. */
  lemma DecodedText(v: View, ifd: nat, i: nat)
    requires TypeAt(v, ifd, i) == 2
    ensures var p, n := Position(v, ifd, i, 1, 0), CountAt(v, ifd, i);
            var d := Decode(v, ifd, i);
            d.Done? && d.value.values == Ascii(Text(OctetsAt(v, p, n)))
  {
    hide S2N, At, TypeLen, EntryTag, EntryType, ValueCount, ValueOffset, TypeAt, CountAt, Position, Text, DecodeValues,
      OctetsAt, Size;
    NamedFields(v, ifd, i);
    PositionIs(v, ifd, i, 1, 0);
    TextValues(v, ValueOffset(v, ifd, i), CountAt(v, ifd, i));
  }

  lemma TextValues(v: View, offset: nat, count: nat)
    ensures DecodeValues(v, 2, offset, count) == Ascii(Text(OctetsAt(v, v.base + offset, count)))
  {
    hide StripLeft, StripRight, DropNuls;
    var octets := OctetsAt(v, v.base + offset, count);
    assert octets == Read(v.file, v.base + offset, count);
    if count == 0 {
      EmptyText();
      assert octets == [];
      assert DecodeValues(v, 2, offset, count) == Ascii([]);
    } else {
      assert DecodeValues(v, 2, offset, count) == Ascii(Text(octets));
    }
  }

  lemma EmptyText()
    ensures Text([]) == []
  {
  }

  lemma PositionIs(v: View, ifd: nat, i: nat, n: nat, j: nat)
    requires Width(TypeAt(v, ifd, i), n)
    ensures v.base + ValueOffset(v, ifd, i) + j * n == Position(v, ifd, i, n, j)
  {
    FieldsAt(v, ifd, i);
    WidthIs(TypeAt(v, ifd, i), n);
    hide S2N, At, TypeLen, Width, EntryType, ValueCount;
  }

  lemma ItemDecoded(v: View, ifd: nat, i: nat, j: nat)
    requires 0 < EntryType(v, ifd, i) < 11 && EntryType(v, ifd, i) != 2 && j < ValueCount(v, ifd, i)
    ensures var typ := EntryType(v, ifd, i);
            var item, d := ItemAt(v, typ, ValueOffset(v, ifd, i) + j * TypeLen(typ)), Decode(v, ifd, i);
            && d.Done? && d.value.values.Items? && j < |d.value.values.items| && d.value.values.items[j] == item
  {
    hide S2N, EntryType, ValueCount, ValueOffset, ItemsFrom, ItemAt, TypeLen;
    ItemsFromAt(v, EntryType(v, ifd, i), ValueOffset(v, ifd, i), ValueCount(v, ifd, i), j);
  }

  lemma ItemOctets(v: View, typ: nat, offset: nat)
    requires 0 < typ < 11
    ensures var p := v.base + offset;
            ItemAt(v, typ, offset) ==
              if typ in {5, 10} then Ratio(At(v, p, 4), At(v, p + 4, 4)) else Number(At(v, p, TypeLen(typ)))
  {
    hide S2N, At, TypeLen;
    ReadsAt(v, offset, 4);
    ReadsAt(v, offset + 4, 4);
    ReadsAt(v, offset, TypeLen(typ));
  }

  /** The octets 0 0 0 72 0 0 0 1 are 72 to 1. */
  lemma SeventyTwo()
    ensures ItemAt(View([0, 0, 0, 72, 0, 0, 0, 1], Motorola, 0), 5, 0) == Ratio(72, 1)
  {
    FourOctets(0, 0, 0, 72);
    FourOctets(0, 0, 0, 1);
    var f: seq<Octet> := [0, 0, 0, 72, 0, 0, 0, 1];
    assert f[0..4] == [0, 0, 0, 72] && f[4..8] == [0, 0, 0, 1];
  }

  // ---------------------------------------------------------------- text

  predicate Blank(c: Octet) { c in {9, 10, 11, 12, 13, 32} }

  ghost predicate AllBlank(s: seq<Octet>) {
    forall i :: 0 <= i < |s| ==> Blank(s[i])
  }

  lemma {:induction false} LeftStripped(w: seq<Octet>, s: seq<Octet>)
    requires AllBlank(w) && (s == [] || !Blank(s[0]))
    ensures StripLeft(w + s) == s
  {
    if w == [] {
      assert w + s == s;
    } else {
      assert (w + s)[1..] == w[1..] + s && Blank(w[0]);
      LeftStripped(w[1..], s);
    }
  }

  lemma {:induction false} RightStripped(s: seq<Octet>, w: seq<Octet>)
    requires AllBlank(w) && (s == [] || !Blank(s[|s| - 1]))
    ensures StripRight(s + w) == s
  {
    if w == [] {
      assert s + w == s;
    } else {
      var k := |w| - 1;
      assert (s + w)[..|s + w| - 1] == s + w[..k] && (s + w)[|s + w| - 1] == w[k] && Blank(w[k]);
      RightStripped(s, w[..k]);
    }
  }

  lemma {:induction false} NulsDropped(a: seq<Octet>, b: seq<Octet>)
    requires 0 !in a
    ensures DropNuls(a) == a && DropNuls(a + [0] + b) == a + DropNuls(b)
  {
    if a == [] {
      assert a + [0] + b == [0] + b && ([0] + b)[1..] == b;
    } else {
      assert a[0] in a && (a + [0] + b)[1..] == a[1..] + [0] + b;
      NulsDropped(a[1..], b);
      assert [a[0]] + a[1..] == a;
    }
  }

  /** Text loses the blanks at both ends and then every NUL. */
  lemma TextStripped(w: seq<Octet>, t: seq<Octet>, z: seq<Octet>)
    requires AllBlank(w) && AllBlank(z) && t != [] && !Blank(t[0]) && !Blank(t[|t| - 1])
    ensures Text(w + t + z) == DropNuls(t)
  {
    hide StripLeft, StripRight, DropNuls, AllBlank;
    assert w + t + z == w + (t + z);
    LeftStripped(w, t + z);
    RightStripped(t, z);
  }

  /** So a terminated text comes out without its terminator. */
  lemma TerminatedText(t: seq<Octet>)
    requires 0 !in t && t != [] && !Blank(t[0])
    ensures Text(t + [0]) == t
  {
    hide StripLeft, StripRight, DropNuls, Text;
    var s := t + [0];
    assert [] + s + [] == s;
    TextStripped([], s, []);
    NulsDropped(t, []);
    NoNuls();
    assert t + [0] + [] == s && t + [] == t;
  }

  lemma NoNuls()
    ensures DropNuls([]) == []
  {
  }

  // ---------------------------------------------------------------- names

  /** A tag without a name is called by its number, in four hexadecimal digits. */
  lemma UnnamedTag()
    ensures TagName(map[], 0x9C9B) == "Tag 0x9C9B" && Key("EXIF", map[], 0x000A) == "EXIF Tag 0x000A"
  {
    assert Hex4(0x9C9B) == "9C9B" && Hex4(0x000A) == "000A";
    hide Hex4;
    assert "Tag 0x" + "9C9B" == "Tag 0x9C9B" && "Tag 0x" + "000A" == "Tag 0x000A";
    assert "EXIF" + " " + "Tag 0x000A" == "EXIF Tag 0x000A";
  }
}
