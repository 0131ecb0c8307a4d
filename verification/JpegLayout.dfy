/**
 Where things stand in a JPEG file before and after labelling (docker/sandbox/aite/aite_label.py), and
 what each defect of a file is answered with.
 */
module JpegLayout {
  import opened Texts
  import opened Jpeg

  // ---- constants, spelled ----------------------------------------------------------

  /** The headers are "Exif" and two zero bytes, and the XMP namespace and one. */
  lemma HeadersSpell()
    ensures |EXIF_HEADER| == 6 && forall i | 0 <= i < 6 :: EXIF_HEADER[i] == "Exif\U{00}\U{00}"[i] as int
    ensures var text := "http://ns.adobe.com/xap/1.0/\U{00}";
      |XMP_HEADER| == |text| && forall i | 0 <= i < |text| :: XMP_HEADER[i] == text[i] as int
  {
  }

  /** Which markers end the header and which stand alone. */
  lemma MarkersAre(marker: Byte)
    ensures EndsHeader(marker) <==> marker in {0xD9, 0xDA}
    ensures Standalone(marker) <==> marker in {0x01, 0xD0, 0xD1, 0xD2, 0xD3, 0xD4, 0xD5, 0xD6, 0xD7}
  {
  }

  /** A label segment is an APP1 that begins with one of the headers. */
  lemma LabelsAre(seg: Segment)
    ensures IsExif(seg) <==> seg.marker == 0xE1 && exists rest :: seg.payload == Some(EXIF_HEADER + rest)
    ensures IsXmp(seg) <==> seg.marker == 0xE1 && exists rest :: seg.payload == Some(XMP_HEADER + rest)
  {
    if seg.payload.Some? {
      BeginsIff(seg.payload.value, EXIF_HEADER);
      BeginsIff(seg.payload.value, XMP_HEADER);
    }
  }

  lemma BeginsIff(data: Bytes, header: Bytes)
    ensures Begins(data, header) <==> exists rest :: data == header + rest
  {
    if Begins(data, header) { assert data == header + data[|header|..]; }
    if rest :| data == header + rest { assert data[..|header|] == header; }
  }

  // ---- the place of the labels -------------------------------------------------------

  /** The segments that are no labels, in order. */
  ghost predicate AreTheOthers(segs: seq<Segment>, at: seq<nat>) {
    && (forall m | 0 <= m < |at| :: at[m] < |segs|)
    && (forall l, m | 0 <= l < m < |at| :: at[l] < at[m])
    && (forall i: nat | i < |segs| :: i in at <==> !IsExif(segs[i]) && !IsXmp(segs[i]))
  }

  lemma OthersStep(front: seq<Segment>, seg: Segment, before: seq<nat>, at: seq<nat>)
    requires AreTheOthers(front, before)
    requires at == if IsLabel(seg) then before else before + [|front|]
    ensures AreTheOthers(front + [seg], at)
    ensures ItemsAt(front + [seg], at) == ItemsAt(front, before) + if IsLabel(seg) then [] else [seg]
  {
    var segs := front + [seg];
    assert |front| !in before;
    forall i: nat | i < |segs| ensures i in at <==> !IsExif(segs[i]) && !IsXmp(segs[i]) {
      if i < |front| { assert segs[i] == front[i]; }
    }
  }

  lemma OnlyOne(seg: Segment)
    ensures Only([seg], false) == if IsLabel(seg) then [] else [seg]
  {
    assert [seg][1..] == [];
  }

  lemma {:induction false} OthersAre(segs: seq<Segment>) returns (at: seq<nat>)
    ensures AreTheOthers(segs, at) && Others(segs) == ItemsAt(segs, at)
    decreases |segs|
  {
    if segs == [] { return []; }
    var front, seg := segs[..|segs| - 1], segs[|segs| - 1];
    assert segs == front + [seg];
    var before := OthersAre(front);
    at := if IsLabel(seg) then before else before + [|front|];
    OthersStep(front, seg, before, at);
    OnlyAppend(front, [seg], false);
    OnlyOne(seg);
  }

  /**
   What a labelled file holds: when the first segment that is no label is an APP0, that one, EXIF, XMP and
   the other segments; otherwise EXIF, XMP and all the others. The new labels are built from the old ones.
   */
  lemma LabelledSegmentsAre(data: Bytes, build: Builders, at: seq<nat>)
    requires build.Valid() && Label(data, build).Ok? && Split(data).Ok? && AreTheOthers(Split(data).value.segs, at)
    ensures Split(Label(data, build).value).Ok?
    ensures var segs := Split(data).value.segs;
      var others := ItemsAt(segs, at);
      var exif := Segment(0xE1, Some(build.exif(OldExif(segs))));
      var xmp := Segment(0xE1, Some(XMP_HEADER + build.xmp(OldXmp(segs))));
      Split(Label(data, build).value).value.segs ==
        if others != [] && others[0].marker == 0xE0 then [others[0], exif, xmp] + others[1..]
        else [exif, xmp] + others
    ensures Split(Label(data, build).value).value.rest == Split(data).value.rest
  {
    var segs := Split(data).value.segs;
    LabelledImage(data, build);
    var at' := OthersAre(segs);
    SamePositions(segs, at, at');
    var others := ItemsAt(segs, at);
    var exif, xmp := build.NewExif(segs), build.NewXmp(segs);
    if others != [] && others[0].marker == 0xE0 {
      assert others[..1] + [exif, xmp] + others[1..] == [others[0], exif, xmp] + others[1..];
    } else {
      assert others[..0] + [exif, xmp] + others[0..] == [exif, xmp] + others;
    }
  }

  lemma {:induction false} SortedSame(a: seq<nat>, b: seq<nat>)
    requires forall l, m | 0 <= l < m < |a| :: a[l] < a[m]
    requires forall l, m | 0 <= l < m < |b| :: b[l] < b[m]
    requires forall i: nat :: i in a <==> i in b
    ensures a == b
  {
    if a == [] {
      assert forall l | 0 <= l < |b| :: b[l] in b;
    } else {
      assert a[0] in a && a[0] in b && b[0] in b && b[0] in a;
      assert a[0] == b[0];
      forall i: nat ensures i in a[1..] <==> i in b[1..] {
        assert i in a <==> i == a[0] || i in a[1..];
        assert i in b <==> i == b[0] || i in b[1..];
      }
      SortedSame(a[1..], b[1..]);
    }
  }

  lemma SamePositions(segs: seq<Segment>, a: seq<nat>, b: seq<nat>)
    requires AreTheOthers(segs, a) && AreTheOthers(segs, b)
    ensures a == b
  {
    forall i: nat ensures i in a <==> i in b {
      assert i in a ==> i < |segs|;
      assert i in b ==> i < |segs|;
    }
    SortedSame(a, b);
  }

  // ---- what the builders are given ---------------------------------------------------

  /** The first EXIF payload, and nothing when there is none. */
  lemma {:induction false} OldExifIs(segs: seq<Segment>, i: nat)
    requires i <= |segs| && (forall j | 0 <= j < i :: !IsExif(segs[j])) && (i < |segs| ==> IsExif(segs[i]))
    ensures OldExif(segs) == if i < |segs| then segs[i].payload.value else []
  {
    if i > 0 { OldExifIs(segs[1..], i - 1); }
  }

  /** The first XMP packet that is not empty, and nothing when there is none. */
  lemma {:induction false} OldXmpIs(segs: seq<Segment>, i: nat)
    requires i <= |segs| && (forall j | 0 <= j < i && IsXmp(segs[j]) :: segs[j].payload == Some(XMP_HEADER))
    requires i < |segs| ==> IsXmp(segs[i]) && segs[i].payload != Some(XMP_HEADER)
    ensures OldXmp(segs) == if i < |segs| then segs[i].payload.value[|XMP_HEADER|..] else []
  {
    if i > 0 {
      OldXmpIs(segs[1..], i - 1);
    } else if segs != [] {
      var payload := segs[0].payload.value;
      assert payload[..|payload|] == payload;
    }
  }

  // ---- what a defect is answered with ---------------------------------------------------

  /** Behind sound segments the splitter goes on with what follows them. */
  lemma {:induction false} SplitGoesOn(segs: seq<Segment>, tail: Bytes, data: Bytes, pos: nat) returns (next: nat)
    requires (forall i | 0 <= i < |segs| :: SoundSegment(segs[i])) && AllFit(segs)
    requires pos <= |data| && data[pos..] == PackedAll(segs) + tail
    ensures next == pos + |PackedAll(segs)| <= |data| && data[next..] == tail
    ensures SplitFrom(data, pos) == Behind(segs, SplitFrom(data, next))
  {
    if segs == [] {
      assert PackedAll(segs) + tail == tail;
      BehindNothing(SplitFrom(data, pos));
      return pos;
    }
    Assoc(Packed(segs[0]), PackedAll(segs[1..]), tail);
    var mid := SplitOnePacked(segs[0], PackedAll(segs[1..]) + tail, data, pos);
    next := SplitGoesOn(segs[1..], tail, data, mid);
    BehindFirst(segs, SplitFrom(data, next));
    assert mid == pos + |Packed(segs[0])|;
  }

  lemma BehindFirst(segs: seq<Segment>, r: Result<Image, Error>)
    requires segs != []
    ensures Cons(segs[0], Behind(segs[1..], r)) == Behind(segs, r)
  {
    if r.Ok? {
      Assoc([segs[0]], segs[1..], r.value.segs);
      assert segs == [segs[0]] + segs[1..];
    }
  }

  /** A marker with a length field. */
  predicate HasLength(tail: Bytes) {
    |tail| >= 4 && tail[0] == 0xFF && tail[1] != 0xFF && !EndsHeader(tail[1]) && !Standalone(tail[1])
  }

  /** The defect a file shows behind its sound segments, at the position given. */
  predicate IsDefect(tail: Bytes, at: nat, e: Error) {
    match e
    case NotJpeg => false
    case NoScan => tail == [] || (HasLength(tail) && 2 + U16(tail[2], tail[3]) >= |tail|)
    case BadHeader(pos) =>
      // no marker, or a length field too short for itself
      || (tail != [] && tail[0] != 0xFF && pos == at)
      || (HasLength(tail) && U16(tail[2], tail[3]) < 2 && pos == at + 2 + U16(tail[2], tail[3]))
    case CutShort =>
      // nothing after the fill bytes, or a length field cut off
      && tail != [] && tail[0] == 0xFF
      && ((forall b | b in tail :: b == 0xFF)
          || (|tail| < 4 && |tail| > 1 && tail[1] != 0xFF && !EndsHeader(tail[1]) && !Standalone(tail[1])))
    case SegmentTooLong => false
  }

  lemma {:induction false} NoMarkerAhead(data: Bytes, pos: nat)
    requires pos < |data| && forall i | pos <= i < |data| :: data[i] == 0xFF
    ensures SkipFill(data, pos) == None
    decreases |data| - pos
  {
    if pos + 1 < |data| { NoMarkerAhead(data, pos + 1); }
  }

  lemma DefectOf(tail: Bytes, data: Bytes, next: nat, e: Error)
    requires next <= |data| && data[next..] == tail && IsDefect(tail, next, e)
    ensures SplitFrom(data, next) == Err(e)
  {
    forall i | next <= i < |data| ensures data[i] == tail[i - next] { assert data[i] == data[next..][i - next]; }
    if e == CutShort {
      if forall b | b in tail :: b == 0xFF {
        forall i | next <= i < |data| ensures data[i] == 0xFF { assert data[i] in tail; }
        NoMarkerAhead(data, next);
      } else {
        assert SkipFill(data, next) == Some(next);
      }
    } else if HasLength(tail) {
      LengthDefect(tail, data, next, e);
    }
  }

  lemma LengthDefect(tail: Bytes, data: Bytes, next: nat, e: Error)
    requires next + |tail| == |data| && (forall i | next <= i < |data| :: data[i] == tail[i - next])
    requires HasLength(tail) && IsDefect(tail, next, e) && e != CutShort
    ensures SplitFrom(data, next) == Err(e)
  {
    assert SkipFill(data, next) == Some(next);
    var length := U16(tail[2], tail[3]);
    if length < 2 {
      assert tail[2] == 0 && tail[3] == length;
      assert data[next + 2 + length] == length;
    }
    assert SplitFrom(data, next + 2 + length) == Err(e);
  }

  /** A file of sound segments and then a defect is answered with that defect. */
  lemma DefectIsReported(segs: seq<Segment>, tail: Bytes, e: Error)
    requires (forall i | 0 <= i < |segs| :: SoundSegment(segs[i])) && AllFit(segs)
    requires IsDefect(tail, 2 + |PackedAll(segs)|, e)
    ensures Split([0xFF, 0xD8] + (PackedAll(segs) + tail)) == Err(e)
  {
    BodyStartsAtTwo(PackedAll(segs) + tail);
    var data := [0xFF, 0xD8] + (PackedAll(segs) + tail);
    var next := SplitGoesOn(segs, tail, data, 2);
    DefectOf(tail, data, next, e);
  }

  /** Without the start marker it is no JPEG file. */
  lemma StartIsChecked(data: Bytes)
    ensures Split(data) == Err(NotJpeg) <==> !(|data| >= 2 && data[0] == 0xFF && data[1] == 0xD8)
  {
    if |data| >= 2 { assert data[0..2] == [data[0], data[1]]; }
    NeverNotJpeg(data, 2);
  }

  lemma {:induction false} NeverNotJpeg(data: Bytes, pos: nat)
    ensures SplitFrom(data, pos) != Err(NotJpeg)
    decreases |data| - pos
  {
    if pos < |data| && data[pos] == 0xFF {
      var p := SkipFill(data, pos);
      if p.Some? && !EndsHeader(data[p.value + 1]) && SegmentAt(data, p.value).Ok? {
        NeverNotJpeg(data, SegmentAt(data, p.value).value.1);
      }
    }
  }
}
