/** Finding the EXIF header of an image file: the walk over the leading segments of a JPEG file. */
module JpegWalk {
  import opened Common
  import opened Octets
  import opened Exif

  datatype Found = Unrecognised | NoExif | Header(endian: seq<Octet>, offset: nat)

  const JFIF: seq<Octet> := [74, 70, 73, 70]
  const JFXX: seq<Octet> := [74, 70, 88, 88]
  const OLYM: seq<Octet> := [79, 76, 89, 77]
  const EXIF: seq<Octet> := [69, 120, 105, 102]

  predicate Skipped(id: seq<Octet>) { id == JFIF || id == JFXX || id == OLYM }

  /** `data[6:10]`, clipped to the data. */
  function Id(data: seq<Octet>): seq<Octet> {
    data[Min(6, |data|)..Min(10, |data|)]
  }

  function Word(high: nat, low: nat): nat { high * 256 + low }

  /** The next 12 octets looked at after skipping a segment of this length field, and the new file position. */
  function Skip(file: seq<Octet>, pos: nat, length: nat): (nat, seq<Octet>)
    requires pos <= |file|
  {
    // a negative count reads to the end of the file
    var p := if length < 8 then |file| else Min(pos + (length - 8), |file|);
    (Min(p + 10, |file|), [255, 0] + Read(file, p, 10))
  }

  function Walk(file: seq<Octet>, pos: nat, data: seq<Octet>): Outcome<Found>
    requires pos <= |file|
    decreases |file| - pos, |data|
  {
    if |data| <= 2 then Raised(IndexError)
    else if data[2] == 255 && Skipped(Id(data)) then
      var next := Skip(file, pos, Word(data[4], data[5]));
      Walk(file, next.0, next.1)
    else if data[2] == 255 && Id(data) == EXIF then Done(Header(Read(file, pos, 1), pos))
    else Done(NoExif)
  }

  method SkipSegment(file: seq<Octet>, pos: nat, length: nat) returns (pos': nat, data: seq<Octet>)
    requires pos <= |file|
    ensures (pos', data) == Skip(file, pos, length)
    ensures pos <= pos' <= |file| && 2 <= |data| <= 12 && (pos < pos' || |data| == 2)
  {
    pos' := if length < 8 then |file| else Min(pos + (length - 8), |file|);
    data := [255, 0] + Read(file, pos', 10);
    pos' := Min(pos' + 10, |file|);
  }

  /** A TIFF file is its own header; a JPEG file is walked through. */
  function Find(file: seq<Octet>): Outcome<Found> {
    var data := Read(file, 0, 12);
    if |data| >= 4 && (data[..4] == [73, 73, 42, 0] || data[..4] == [77, 77, 0, 42]) then
      Done(Header(Read(file, 0, 1), 0))
    else if |data| >= 2 && data[..2] == [255, 216] then Walk(file, Min(12, |file|), data)
    else Done(Unrecognised)
  }

  /** The view a header object is made with: any letter but I reads the high octet first. */
  function Opened(file: seq<Octet>): Option<View> {
    match Find(file)
    case Done(Header(letter, offset)) => Some(View(file, if letter == [73] then Intel else Motorola, offset))
    case _ => None
  }

  method FindHeader(file: seq<Octet>) returns (r: Outcome<Found>)
    ensures r == Find(file)
  {
    var data := Read(file, 0, 12);
    var pos := Min(12, |file|);
    if |data| >= 4 && (data[..4] == [73, 73, 42, 0] || data[..4] == [77, 77, 0, 42]) {
      return Done(Header(Read(file, 0, 1), 0));
    }
    if !(|data| >= 2 && data[..2] == [255, 216]) {
      return Done(Unrecognised);
    }
    hide Read, Id, Skipped, Skip;
    ghost var outcome := Walk(file, pos, data);
    while |data| > 2 && data[2] == 255 && Skipped(Id(data))
      invariant pos <= |file| && Walk(file, pos, data) == outcome
      decreases |file| - pos, |data|
    {
      pos, data := SkipSegment(file, pos, Word(data[4], data[5]));
    }
    if |data| <= 2 {
      return Raised(IndexError);
    }
    if data[2] == 255 && Id(data) == EXIF {
      r := Done(Header(Read(file, pos, 1), pos));
    } else {
      r := Done(NoExif);
    }
  }

  // ---------------------------------------------------------------- files made of segments

  /** A segment before the EXIF one: marker, length field, identifier, whatever follows up to the next segment. */
  datatype Segment = Segment(marker: Octet, length: nat, id: seq<Octet>, body: seq<Octet>) {
    /** The length field counts itself, the identifier and the rest; one too small to do so may say anything. */
    predicate Proper() { Skipped(id) && length < 65536 && (length >= 6 ==> length == 6 + |body|) }

    function Octets(): (s: seq<Octet>)
      requires Proper()
      ensures |s| == 8 + |body|
    {
      [255, marker, length / 256, length % 256] + id + body
    }
  }

  ghost predicate AllProper(segs: seq<Segment>) {
    forall i :: 0 <= i < |segs| ==> segs[i].Proper()
  }

  function Join(segs: seq<Segment>): seq<Octet>
    requires AllProper(segs)
  {
    if segs == [] then [] else segs[0].Octets() + Join(segs[1..])
  }

  /** The EXIF segment up to and including "Exif" and two octets. */
  ghost predicate ExifHead(h: seq<Octet>) {
    |h| == 10 && h[0] == 255 && h[4..8] == EXIF
  }

  /** Every skipped segment is long enough for the 10 octets the walk has already read of it. */
  ghost predicate LongEnough(segs: seq<Segment>) {
    forall i :: 0 <= i < |segs| ==> segs[i].length >= 8
  }

  /** `data` ends with the 10 octets of the file at start, those before the file position. */
  ghost predicate LooksAt(file: seq<Octet>, start: nat, data: seq<Octet>) {
    start + 10 <= |file| && |data| == 12 && data[2..] == file[start..start + 10]
  }

  lemma LooksAtIs(file: seq<Octet>, start: nat, data: seq<Octet>, s: seq<Octet>, i: nat)
    requires LooksAt(file, start, data) && s <= file[start..] && i < |s| && i < 10
    ensures data[2 + i] == s[i]
  {
    assert data[2 + i] == data[2..][i] == file[start..start + 10][i] == file[start..][i];
  }

  lemma AtExif(file: seq<Octet>, start: nat, head: seq<Octet>, rest: seq<Octet>, data: seq<Octet>)
    requires ExifHead(head) && LooksAt(file, start, data) && file[start..] == head + rest
    ensures Walk(file, start + 10, data) == Done(Header(Read(rest, 0, 1), start + 10))
  {
    forall i | 0 <= i < 10 ensures data[2 + i] == head[i] {
      LooksAtIs(file, start, data, head, i);
    }
    assert data[2 + 0] == head[0] && Id(data) == head[4..8] == EXIF;
    assert EXIF[0] == 69 && JFIF[0] == 74 && JFXX[0] == 74 && OLYM[0] == 79;
    assert file[start + 10..] == (head + rest)[10..] == rest;
    assert Read(file, start + 10, 1) == Read(rest, 0, 1) by {
      if rest != [] { assert file[start + 10] == rest[0]; }
    }
  }

  /** One turn of the loop goes from segment to segment, unless the segment is too short. */
  lemma AtSegment(file: seq<Octet>, start: nat, s: Segment, data: seq<Octet>)
    requires s.Proper() && LooksAt(file, start, data) && s.Octets() <= file[start..]
    ensures data[2] == 255 && Id(data) == s.id && Word(data[4], data[5]) == s.length
  {
    var o := s.Octets();
    forall i | 0 <= i < 8 ensures data[2 + i] == o[i] {
      LooksAtIs(file, start, data, o, i);
    }
    assert data[2 + 0] == o[0] && data[2 + 2] == o[2] == s.length / 256 && data[2 + 3] == o[3] == s.length % 256;
    assert Id(data) == o[4..8] == s.id;
  }

  lemma SkipWhole(file: seq<Octet>, start: nat, length: nat)
    requires 8 <= length && start + 2 + length + 10 <= |file|
    ensures var next := Skip(file, start + 10, length);
            next.0 == start + 2 + length + 10 && LooksAt(file, start + 2 + length, next.1)
  {
  }

  lemma SkipShort(file: seq<Octet>, start: nat, length: nat)
    requires length < 8 && start + 10 <= |file|
    ensures var next := Skip(file, start + 10, length);
            Walk(file, next.0, next.1) == Raised(IndexError)
  {
  }

  /**
   Each time the loop test is run, the file position is 10 octets past the start of a segment and `data` ends with
   these octets. So the walk gets past any number of segments, or fails at the first too short to skip.
   */
  lemma {:induction false} WalkFrom(file: seq<Octet>, start: nat, segs: seq<Segment>, tail: seq<Octet>,
                                    data: seq<Octet>)
      returns (data': seq<Octet>)
    requires AllProper(segs) && |tail| >= 10 && LooksAt(file, start, data) && file[start..] == Join(segs) + tail
    ensures var start' := start + |Join(segs)|;
            && LooksAt(file, start', data') && start' <= |file| && file[start'..] == tail
            && Walk(file, start + 10, data)
               == if LongEnough(segs) then Walk(file, start' + 10, data') else Raised(IndexError)
    decreases |segs|
  {
    hide Read, Id, Skip;
    if segs == [] {
      assert Join(segs) + tail == tail;
      data' := data;
    } else {
      var s, more := segs[0], segs[1..];
      var o := s.Octets();
      var start' := start + |o|;
      assert Join(segs) + tail == o + (Join(more) + tail);
      AtSegment(file, start, s, data);
      assert file[start'..] == Join(more) + tail by {
        assert file[start'..] == file[start..][|o|..];
      }
      if s.length >= 8 {
        SkipWhole(file, start, s.length);
        data' := WalkFrom(file, start', more, tail, Skip(file, start + 10, s.length).1);
        assert LongEnough(segs) <==> LongEnough(more);
      } else {
        SkipShort(file, start, s.length);
        data' := [255, 0] + file[|file| - |tail|..][..10];
      }
    }
  }

  /** For any number of leading segments the recorded offset is that of the octet after "Exif" and two octets. */
  lemma HeaderAfterSegments(segs: seq<Segment>, head: seq<Octet>, rest: seq<Octet>)
    requires AllProper(segs) && ExifHead(head)
    ensures Find([255, 216] + Join(segs) + (head + rest))
         == if LongEnough(segs) then Done(Header(Read(rest, 0, 1), 2 + |Join(segs)| + 10)) else Raised(IndexError)
  {
    hide Join, Walk, Id;
    var file: seq<Octet> := [255, 216] + Join(segs) + (head + rest);
    assert file[2..] == Join(segs) + (head + rest);
    assert Read(file, 0, 12)[2..] == file[2..12];
    var data := WalkFrom(file, 2, segs, head + rest, Read(file, 0, 12));
    AtExif(file, 2 + |Join(segs)|, head, rest, data);
    JpegWalked(file);
  }

  /** Any other segment behind them, and the file has no EXIF header. */
  lemma OtherSegment(segs: seq<Segment>, head: seq<Octet>, rest: seq<Octet>)
    requires AllProper(segs) && |head| == 10 && (head[0] != 255 || (!Skipped(head[4..8]) && head[4..8] != EXIF))
    ensures Find([255, 216] + Join(segs) + (head + rest))
         == if LongEnough(segs) then Done(NoExif) else Raised(IndexError)
  {
    hide Join;
    var file: seq<Octet> := [255, 216] + Join(segs) + (head + rest);
    assert file[2..] == Join(segs) + (head + rest);
    assert Read(file, 0, 12)[2..] == file[2..12];
    var data := WalkFrom(file, 2, segs, head + rest, Read(file, 0, 12));
    forall i | 0 <= i < 10 ensures data[2 + i] == head[i] {
      LooksAtIs(file, 2 + |Join(segs)|, data, head, i);
    }
    assert data[2 + 0] == head[0] && Id(data) == head[4..8];
    JpegWalked(file);
  }

  lemma JpegWalked(file: seq<Octet>)
    requires |file| >= 12 && file[..2] == [255, 216]
    ensures Find(file) == Walk(file, 12, Read(file, 0, 12))
  {
    hide Walk;
    var data := Read(file, 0, 12);
    assert data[..2] == file[..2];
    assert data[0] == file[..2][0] == 255;
    assert data[..4][0] == 255;
  }

  predicate Spells(s: seq<Octet>, text: string) {
    |s| == |text| && forall i :: 0 <= i < |s| ==> s[i] == text[i] as int
  }

  /** The identifiers of the segments that are skipped, and the one looked for. */
  lemma MarksAre(id: seq<Octet>)
    ensures Skipped(id) <==> Spells(id, "JFIF") || Spells(id, "JFXX") || Spells(id, "OLYM")
    ensures id == EXIF <==> Spells(id, "Exif")
  {
  }

  /** A file that starts neither as a TIFF file of either order nor as a JPEG file is not recognised. */
  lemma UnrecognisedIff(file: seq<Octet>)
    ensures Find(file) == Done(Unrecognised) <==>
              !([73, 73, 42, 0] <= file) && !([77, 77, 0, 42] <= file) && !([255, 216] <= file)
    ensures [73, 73, 42, 0] <= file ==> Find(file) == Done(Header([73], 0))
    ensures [77, 77, 0, 42] <= file ==> Find(file) == Done(Header([77], 0))
  {
    hide Walk;
    var data := Read(file, 0, 12);
    assert |file| >= 4 ==> data[..4] == file[..4] && Read(file, 0, 1) == file[..1] == [file[..4][0]];
    assert |file| >= 2 ==> data[..2] == file[..2];
    if [255, 216] <= file {
      RecognisedWalk(file, Min(12, |file|), data);
    }
  }

  lemma {:induction false} RecognisedWalk(file: seq<Octet>, pos: nat, data: seq<Octet>)
    requires pos <= |file|
    ensures Walk(file, pos, data) != Done(Unrecognised)
    decreases |file| - pos, |data|
  {
    if |data| > 2 && data[2] == 255 && Skipped(Id(data)) {
      var next := Skip(file, pos, Word(data[4], data[5]));
      RecognisedWalk(file, next.0, next.1);
    }
  }

  /** A JFIF segment whose length field is 2, and a whole EXIF segment behind it: the header is not found. */
  lemma ShortSegmentFails()
    ensures var segs, head := [Segment(224, 2, JFIF, [0])], [255, 225, 0, 16] + EXIF + [0, 0];
            Find([255, 216] + Join(segs) + (head + [77])) == Raised(IndexError)
  {
    hide Find, Join;
    var segs, head := [Segment(224, 2, JFIF, [0])], [255, 225, 0, 16] + EXIF + [0, 0];
    assert segs[0].Proper() && !LongEnough(segs);
    assert head[4..8] == EXIF;
    HeaderAfterSegments(segs, head, [77]);
  }
}
