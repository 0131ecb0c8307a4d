/**
 Replacing the metadata segments of a JPEG file (docker/sandbox/aite/aite_label.py), after the marker
 syntax of ITU-T T.81 section B.1.1. What the EXIF and XMP payloads say is left to builder functions.
 */
module Jpeg {
  import opened Texts

  type Byte = b: int | 0 <= b < 256
  type Bytes = seq<Byte>

  /** A marker with its payload; a standalone marker has none. */
  datatype Segment = Segment(marker: Byte, payload: Option<Bytes>)

  datatype Error =
    | NotJpeg
    | BadHeader(pos: nat)
    | CutShort
    | NoScan
    | SegmentTooLong

  datatype Image = Image(segs: seq<Segment>, rest: Bytes)

  const MAX_PAYLOAD := 0xFFFF - 2

  predicate EndsHeader(marker: Byte) { marker == 0xDA || marker == 0xD9 }

  predicate Standalone(marker: Byte) { 0xD0 <= marker <= 0xD7 || marker == 0x01 }

  function U16(hi: Byte, lo: Byte): nat { hi * 256 + lo }

  // ---- splitting ------------------------------------------------------------

  /** The last of the 0xFF bytes before a marker, if a marker follows. */
  function SkipFill(data: Bytes, pos: nat): (r: Option<nat>)
    requires pos < |data| && data[pos] == 0xFF
    ensures r.Some? ==> pos <= r.value && r.value + 1 < |data| && data[r.value] == 0xFF && data[r.value + 1] != 0xFF
    ensures r.Some? ==> forall i | pos <= i <= r.value :: data[i] == 0xFF
    decreases |data| - pos
  {
    if pos + 1 == |data| then None
    else if data[pos + 1] == 0xFF then SkipFill(data, pos + 1)
    else Some(pos)
  }

  function Clamp(n: nat, limit: nat): nat { if n < limit then n else limit }

  /** A slice that, like Python's, stops at the end of the data and is empty when its bounds cross. */
  function Slice(data: Bytes, lo: nat, hi: nat): Bytes {
    var hi := Clamp(hi, |data|);
    if lo <= hi then data[lo..hi] else []
  }

  function Cons(seg: Segment, r: Result<Image, Error>): Result<Image, Error> {
    match r
    case Ok(image) => Ok(Image([seg] + image.segs, image.rest))
    case Err(e) => Err(e)
  }

  /** The segments from `pos` on, up to the scan. */
  function SplitFrom(data: Bytes, pos: nat): Result<Image, Error>
    decreases |data| - pos
  {
    if pos >= |data| then Err(NoScan)
    else if data[pos] != 0xFF then Err(BadHeader(pos))
    else match SkipFill(data, pos)
    case None => Err(CutShort)
    case Some(p) => SplitAt(data, p)
  }

  /** The segment whose marker follows p, and where the next one starts. */
  function SegmentAt(data: Bytes, p: nat): (r: Result<(Segment, nat), Error>)
    requires p + 1 < |data|
    ensures r.Ok? ==> r.value.1 >= p + 2
  {
    var marker := data[p + 1];
    if Standalone(marker) then Ok((Segment(marker, None), p + 2))
    else if p + 4 > |data| then Err(CutShort)
    else
      var next := p + 2 + U16(data[p + 2], data[p + 3]);
      Ok((Segment(marker, Some(Slice(data, p + 4, next))), next))
  }

  /** That segment and those after it. */
  function SplitAt(data: Bytes, p: nat): Result<Image, Error>
    requires p + 1 < |data|
    decreases |data| - p, 0
  {
    if EndsHeader(data[p + 1]) then Ok(Image([], data[p..]))
    else match SegmentAt(data, p)
      case Err(e) => Err(e)
      case Ok((seg, next)) => Cons(seg, SplitFrom(data, next))
  }

  function Split(data: Bytes): Result<Image, Error> {
    if Slice(data, 0, 2) != [0xFF, 0xD8] then Err(NotJpeg) else SplitFrom(data, 2)
  }

  /** What is still to be read, put behind what has been read. */
  function Behind(segs: seq<Segment>, r: Result<Image, Error>): Result<Image, Error> {
    match r
    case Ok(image) => Ok(Image(segs + image.segs, image.rest))
    case Err(e) => Err(e)
  }

  lemma BehindNothing(r: Result<Image, Error>)
    ensures Behind([], r) == r
  {
    if r.Ok? { assert [] + r.value.segs == r.value.segs; }
  }

  lemma BehindLast(segs: seq<Segment>, rest: Bytes)
    ensures Behind(segs, Ok(Image([], rest))) == Ok(Image(segs, rest))
  {
    assert segs + [] == segs;
  }

  lemma BehindCons(segs: seq<Segment>, seg: Segment, r: Result<Image, Error>)
    ensures Behind(segs, Cons(seg, r)) == Behind(segs + [seg], r)
  {
    if r.Ok? { assert segs + ([seg] + r.value.segs) == segs + [seg] + r.value.segs; }
  }

  method SkipFillBytes(data: Bytes, start: nat) returns (last: Option<nat>)
    requires start < |data| && data[start] == 0xFF
    ensures last == SkipFill(data, start)
  {
    var pos := start;
    while pos + 1 < |data| && data[pos + 1] == 0xFF
      invariant start <= pos < |data| && data[pos] == 0xFF && SkipFill(data, pos) == SkipFill(data, start)
    {
      pos := pos + 1;
    }
    return if pos + 1 >= |data| then None else Some(pos);
  }

  method JpegSplit(data: Bytes) returns (r: Result<Image, Error>)
    ensures r == Split(data)
  {
    if Slice(data, 0, 2) != [0xFF, 0xD8] { return Err(NotJpeg); }
    r := SplitSegments(data);
  }

  /**
   One segment, which within the data and with an honest length field is packed just as it stood there;
   only a length field that is cut off is an error.
   */
  method ReadSegment(data: Bytes, pos: nat) returns (r: Result<(Segment, nat), Error>)
    requires pos + 1 < |data|
    ensures r == SegmentAt(data, pos)
    ensures r.Err? <==> !Standalone(data[pos + 1]) && |data| < pos + 4
    ensures r.Ok? && data[pos] == 0xFF && r.value.1 <= |data| && (Standalone(data[pos + 1]) || pos + 4 <= r.value.1) ==>
      Fits(r.value.0) && Packed(r.value.0) == data[pos..r.value.1]
  {
    var marker := data[pos + 1];
    if Standalone(marker) { return Ok((Segment(marker, None), pos + 2)); }
    if pos + 4 > |data| { return Err(CutShort); }
    var length := U16(data[pos + 2], data[pos + 3]);
    var next := pos + 2 + length;
    if data[pos] == 0xFF && pos + 4 <= next <= |data| { PackedLength(data, pos, next); }
    return Ok((Segment(marker, Some(Slice(data, pos + 4, next))), next));
  }

  method SplitSegments(data: Bytes) returns (r: Result<Image, Error>)
    ensures r == SplitFrom(data, 2)
  {
    ghost var whole := SplitFrom(data, 2);
    var pos, segs: seq<Segment> := 2, [];
    BehindNothing(whole);
    while pos < |data|
      invariant Behind(segs, SplitFrom(data, pos)) == whole
      decreases |data| - pos
    {
      if data[pos] != 0xFF { return Err(BadHeader(pos)); }
      var last := SkipFillBytes(data, pos);
      if last.None? { return Err(CutShort); }
      pos := last.value;
      assert Behind(segs, SplitAt(data, pos)) == whole;
      if EndsHeader(data[pos + 1]) {
        BehindLast(segs, data[pos..]);
        return Ok(Image(segs, data[pos..]));
      }
      var one := ReadSegment(data, pos);
      if one.Err? { return Err(one.error); }
      BehindCons(segs, one.value.0, SplitFrom(data, one.value.1));
      segs := segs + [one.value.0];
      pos := one.value.1;
    }
    return Err(NoScan);
  }

  // ---- joining ---------------------------------------------------------------

  predicate Fits(seg: Segment) { seg.payload.Some? ==> |seg.payload.value| <= MAX_PAYLOAD }

  predicate AllFit(segs: seq<Segment>) { forall i | 0 <= i < |segs| :: Fits(segs[i]) }

  function Packed(seg: Segment): Bytes
    requires Fits(seg)
  {
    match seg.payload
    case None => [0xFF, seg.marker]
    case Some(payload) =>
      var length := |payload| + 2;
      [0xFF, seg.marker, length / 256, length % 256] + payload
  }

  function PackedAll(segs: seq<Segment>): Bytes
    requires AllFit(segs)
  {
    if segs == [] then [] else Packed(segs[0]) + PackedAll(segs[1..])
  }

  function Join(image: Image): Result<Bytes, Error> {
    if AllFit(image.segs) then Ok([0xFF, 0xD8] + PackedAll(image.segs) + image.rest) else Err(SegmentTooLong)
  }

  method AppendSegment(seg: Segment, before: Bytes) returns (r: Result<Bytes, Error>)
    ensures r == if Fits(seg) then Ok(before + Packed(seg)) else Err(SegmentTooLong)
  {
    var out := before + [0xFF, seg.marker];
    if seg.payload.Some? {
      var length := |seg.payload.value| + 2;
      if length > 0xFFFF { return Err(SegmentTooLong); }
      out := out + ([length / 256, length % 256] + seg.payload.value);
    }
    AppendedIsPacked(before, seg, out);
    return Ok(out);
  }

  method JpegJoin(image: Image) returns (r: Result<Bytes, Error>)
    ensures r == Join(image)
  {
    var segs, out := image.segs, [0xFF, 0xD8];
    assert segs[0..] == segs;
    for i := 0 to |segs|
      invariant JoinedFrom(out, segs[i..]) == JoinedFrom([0xFF, 0xD8], segs)
    {
      var one := AppendSegment(segs[i], out);
      JoinedStep(out, segs[i..], one);
      if one.Err? { return one; }
      assert segs[i..][1..] == segs[i + 1..];
      out := one.value;
    }
    assert segs[|segs|..] == [] && out + [] == out;
    return Ok(out + image.rest);
  }

  /** What is joined so far with the segments still to come, if they all fit. */
  function JoinedFrom(out: Bytes, segs: seq<Segment>): Result<Bytes, Error> {
    if AllFit(segs) then Ok(out + PackedAll(segs)) else Err(SegmentTooLong)
  }

  lemma JoinedStep(out: Bytes, segs: seq<Segment>, one: Result<Bytes, Error>)
    requires segs != [] && one == if Fits(segs[0]) then Ok(out + Packed(segs[0])) else Err(SegmentTooLong)
    ensures JoinedFrom(out, segs) == if one.Ok? then JoinedFrom(one.value, segs[1..]) else one
  {
    assert AllFit(segs) <==> Fits(segs[0]) && AllFit(segs[1..]) by {
      assert forall i | 1 <= i < |segs| :: segs[i] == segs[1..][i - 1];
    }
    if AllFit(segs) { Assoc(out, Packed(segs[0]), PackedAll(segs[1..])); }
  }

  lemma AppendedIsPacked(before: Bytes, seg: Segment, out: Bytes)
    requires Fits(seg)
    requires seg.payload.None? ==> out == before + [0xFF, seg.marker]
    requires seg.payload.Some? ==>
      var length := |seg.payload.value| + 2;
      out == before + [0xFF, seg.marker] + ([length / 256, length % 256] + seg.payload.value)
    ensures out == before + Packed(seg)
  {
    if seg.payload.Some? {
      var length := |seg.payload.value| + 2;
      assert Packed(seg) == [0xFF, seg.marker] + ([length / 256, length % 256] + seg.payload.value);
      Assoc(before, [0xFF, seg.marker], [length / 256, length % 256] + seg.payload.value);
    }
  }

  // ---- round trips --------------------------------------------------------------

  /** What a segment before the scan can be. */
  predicate SoundSegment(seg: Segment) {
    && seg.marker != 0xFF && !EndsHeader(seg.marker) && Fits(seg)
    && (Standalone(seg.marker) <==> seg.payload.None?)
  }

  predicate Sound(image: Image) {
    && (forall i | 0 <= i < |image.segs| :: SoundSegment(image.segs[i]))
    && |image.rest| >= 2 && image.rest[0] == 0xFF && EndsHeader(image.rest[1])
  }

  lemma {:induction false} SplitOfPacked(image: Image, data: Bytes, pos: nat)
    requires Sound(image) && pos <= |data| && data[pos..] == PackedAll(image.segs) + image.rest
    ensures SplitFrom(data, pos) == Ok(image)
    decreases |image.segs|
  {
    if image.segs == [] {
      assert PackedAll([]) + image.rest == image.rest;
      SplitOfRest(image.rest, data, pos);
    } else {
      var seg, tail := image.segs[0], Image(image.segs[1..], image.rest);
      var after := PackedAll(tail.segs) + tail.rest;
      Assoc(Packed(seg), PackedAll(tail.segs), tail.rest);
      var next := SplitOnePacked(seg, after, data, pos);
      SplitOfPacked(tail, data, next);
      ConsTail(image);
    }
  }

  lemma SplitOfRest(rest: Bytes, data: Bytes, pos: nat)
    requires pos <= |data| && data[pos..] == rest
    requires |rest| >= 2 && rest[0] == 0xFF && EndsHeader(rest[1])
    ensures SplitFrom(data, pos) == Ok(Image([], rest))
  {
    assert data[pos] == data[pos..][0] && data[pos + 1] == data[pos..][1];
  }

  lemma ConsTail(image: Image)
    requires image.segs != []
    ensures Cons(image.segs[0], Ok(Image(image.segs[1..], image.rest))) == Ok(image)
  {
    assert [image.segs[0]] + image.segs[1..] == image.segs;
  }

  lemma SplitOnePacked(seg: Segment, after: Bytes, data: Bytes, pos: nat) returns (next: nat)
    requires SoundSegment(seg) && pos <= |data| && data[pos..] == Packed(seg) + after
    ensures next <= |data| && data[next..] == after
    ensures SplitFrom(data, pos) == Cons(seg, SplitFrom(data, next))
  {
    next := PackedInPlace(Packed(seg), after, data, pos);
    assert SkipFill(data, pos) == Some(pos);
    if seg.payload.Some? { PayloadInPlace(seg, data, pos, next); }
    assert SegmentAt(data, pos) == Ok((seg, next));
  }

  lemma PayloadInPlace(seg: Segment, data: Bytes, pos: nat, next: nat)
    requires Fits(seg) && seg.payload.Some? && next == pos + |Packed(seg)| <= |data|
    requires forall i | pos <= i < next :: data[i] == Packed(seg)[i - pos]
    ensures next == pos + 2 + U16(data[pos + 2], data[pos + 3]) && Slice(data, pos + 4, next) == seg.payload.value
  {
    var length := |seg.payload.value| + 2;
    assert data[pos + 2] == length / 256 && data[pos + 3] == length % 256;
    assert data[pos + 4..next] == seg.payload.value;
  }

  lemma PackedInPlace(packed: Bytes, after: Bytes, data: Bytes, pos: nat) returns (next: nat)
    requires pos <= |data| && data[pos..] == packed + after
    ensures next == pos + |packed| <= |data| && data[next..] == after
    ensures forall i | pos <= i < next :: data[i] == packed[i - pos]
  {
    next := pos + |packed|;
    assert data[next..] == data[pos..][|packed|..];
    forall i | pos <= i < next ensures data[i] == packed[i - pos] { assert data[i] == data[pos..][i - pos]; }
  }

  lemma BodyStartsAtTwo(body: Bytes)
    ensures var data := [0xFF, 0xD8] + body; Slice(data, 0, 2) == [0xFF, 0xD8] && data[2..] == body
  {
    var data := [0xFF, 0xD8] + body;
    assert Slice(data, 0, 2) == data[..2];
  }

  /** Splitting undoes joining on every sound list of segments. */
  lemma SplitUndoesJoin(image: Image)
    requires Sound(image)
    ensures Join(image).Ok? && Split(Join(image).value) == Ok(image)
  {
    assert AllFit(image.segs);
    var body := PackedAll(image.segs) + image.rest;
    Assoc([0xFF, 0xD8], PackedAll(image.segs), image.rest);
    BodyStartsAtTwo(body);
    SplitOfPacked(image, [0xFF, 0xD8] + body, 2);
  }

  /** How many fill bytes the splitter passes over. */
  function Fills(data: Bytes, pos: nat): nat
    decreases |data| - pos
  {
    if pos >= |data| || data[pos] != 0xFF then 0
    else match SkipFill(data, pos)
    case None => 0
    case Some(p) => p - pos + FillsAfter(data, p)
  }

  function FillsAfter(data: Bytes, p: nat): nat
    requires p + 1 < |data|
    decreases |data| - p, 0
  {
    var marker := data[p + 1];
    if EndsHeader(marker) then 0
    else if Standalone(marker) then Fills(data, p + 2)
    else if p + 4 > |data| then 0
    else Fills(data, p + 2 + U16(data[p + 2], data[p + 3]))
  }

  /** The data from pos on without the fill bytes before its markers; `SkipFill` says that those are all 0xFF. */
  function Unfilled(data: Bytes, pos: nat): Bytes
    decreases |data| - pos
  {
    if pos >= |data| || data[pos] != 0xFF then []
    else match SkipFill(data, pos)
    case None => []
    case Some(p) => UnfilledAfter(data, p)
  }

  function UnfilledAfter(data: Bytes, p: nat): Bytes
    requires p + 1 < |data|
    decreases |data| - p, 0
  {
    if EndsHeader(data[p + 1]) then data[p..]
    else match SegmentAt(data, p)
      case Err(_) => []
      case Ok((_, next)) => Slice(data, p, next) + Unfilled(data, next)
  }

  /** `image` is what the data holds from pos on, less so many bytes, all of them fill. */
  ghost predicate Unpacks(data: Bytes, pos: nat, image: Image, kept: Bytes, fills: nat) {
    && Sound(image) && pos <= |data|
    && var joined := PackedAll(image.segs) + image.rest;
      joined == kept && |joined| + fills == |data| - pos && (fills == 0 ==> joined == data[pos..])
  }

  lemma {:induction false} PackedOfSplit(data: Bytes, pos: nat)
    requires SplitFrom(data, pos).Ok?
    ensures Unpacks(data, pos, SplitFrom(data, pos).value, Unfilled(data, pos), Fills(data, pos))
    decreases |data| - pos
  {
    var p := SkipFill(data, pos).value;
    if EndsHeader(data[p + 1]) {
      assert PackedAll([]) + data[p..] == data[p..];
    } else {
      var seg, next := OneSegment(data, p);
      PackedOfSplit(data, next);
      UnpacksCons(data, p, next, seg, SplitFrom(data, next).value, Unfilled(data, next), Fills(data, next));
      var image := SplitFrom(data, pos).value;
      assert Unpacks(data, p, image, Unfilled(data, pos), Fills(data, next));
    }
  }

  lemma UnpacksCons(data: Bytes, p: nat, next: nat, seg: Segment, image: Image, kept: Bytes, fills: nat)
    requires Unpacks(data, next, image, kept, fills) && SoundSegment(seg)
    requires p <= next <= |data| && Packed(seg) == data[p..next]
    ensures Unpacks(data, p, Image([seg] + image.segs, image.rest), data[p..next] + kept, fills)
  {
    var segs := [seg] + image.segs;
    assert segs[1..] == image.segs;
    Assoc(Packed(seg), PackedAll(image.segs), image.rest);
    assert data[p..] == data[p..next] + data[next..];
  }

  /** A segment read without error was packed just so in the data. */
  lemma OneSegment(data: Bytes, p: nat) returns (seg: Segment, next: nat)
    requires p + 1 < |data| && data[p] == 0xFF && data[p + 1] != 0xFF && !EndsHeader(data[p + 1])
    requires SplitAt(data, p).Ok?
    ensures p + 2 <= next <= |data| && SoundSegment(seg) && Packed(seg) == data[p..next]
    ensures SplitAt(data, p) == Cons(seg, SplitFrom(data, next)) && FillsAfter(data, p) == Fills(data, next)
    ensures UnfilledAfter(data, p) == data[p..next] + Unfilled(data, next)
  {
    var marker := data[p + 1];
    if Standalone(marker) {
      seg, next := Segment(marker, None), p + 2;
    } else {
      next := LengthIsSound(data, p);
      seg := Segment(marker, Some(data[p + 4..next]));
      PackedLength(data, p, next);
    }
  }

  /** A length field below two points back at itself, where no marker starts. */
  lemma LengthIsSound(data: Bytes, p: nat) returns (next: nat)
    requires p + 4 <= |data|
    requires SplitFrom(data, p + 2 + U16(data[p + 2], data[p + 3])).Ok?
    ensures next == p + 2 + U16(data[p + 2], data[p + 3]) && p + 4 <= next <= |data|
    ensures data[p + 4..next] == Slice(data, p + 4, next)
  {
    var length := U16(data[p + 2], data[p + 3]);
    next := p + 2 + length;
    assert data[next] == 0xFF;
    assert length != 0 && length != 1;
  }

  lemma PackedLength(data: Bytes, p: nat, next: nat)
    requires p + 4 <= |data| && p + 4 <= next <= |data| && data[p] == 0xFF
    requires next == p + 2 + U16(data[p + 2], data[p + 3])
    ensures var seg := Segment(data[p + 1], Some(data[p + 4..next])); Fits(seg) && Packed(seg) == data[p..next]
  {
    var length := next - p - 2;
    assert (length / 256, length % 256) == (data[p + 2], data[p + 3]);
  }

  /** Joining undoes splitting exactly when the file has no fill bytes before its markers. */
  lemma JoinUndoesSplitIff(data: Bytes)
    requires Split(data).Ok?
    ensures Join(Split(data).value).Ok?
    ensures Join(Split(data).value) == Ok(data) <==> Fills(data, 2) == 0
  {
    PackedOfSplit(data, 2);
    var image := Split(data).value;
    assert AllFit(image.segs);
    var joined := [0xFF, 0xD8] + PackedAll(image.segs) + image.rest;
    assert joined == [0xFF, 0xD8] + (PackedAll(image.segs) + image.rest);
    assert data == data[0..2] + data[2..];
  }

  /** What splitting can yield: the sound images, and only those. */
  lemma SplitYieldsSound(data: Bytes)
    ensures Split(data).Ok? ==> Sound(Split(data).value)
  {
    if Split(data).Ok? { PackedOfSplit(data, 2); }
  }

  // ---- relabelling -----------------------------------------------------------------

  const APP0: Byte := 0xE0
  const APP1: Byte := 0xE1

  /** "Exif" and two zero bytes. */
  const EXIF_HEADER: Bytes := [0x45, 0x78, 0x69, 0x66, 0x00, 0x00]

  /** "http://ns.adobe.com/xap/1.0/" and a zero byte. */
  const XMP_HEADER: Bytes := [
    0x68, 0x74, 0x74, 0x70, 0x3A, 0x2F, 0x2F, 0x6E, 0x73, 0x2E, 0x61, 0x64, 0x6F, 0x62, 0x65, 0x2E,
    0x63, 0x6F, 0x6D, 0x2F, 0x78, 0x61, 0x70, 0x2F, 0x31, 0x2E, 0x30, 0x2F, 0x00]

  predicate Begins(data: Bytes, header: Bytes) { |header| <= |data| && data[..|header|] == header }

  predicate IsExif(seg: Segment) {
    seg.marker == APP1 && seg.payload.Some? && Begins(seg.payload.value, EXIF_HEADER)
  }

  predicate IsXmp(seg: Segment) {
    seg.marker == APP1 && seg.payload.Some? && Begins(seg.payload.value, XMP_HEADER)
  }

  predicate IsLabel(seg: Segment) { IsExif(seg) || IsXmp(seg) }

  /** The segments that are labels, or those that are not, in order. */
  function Only(segs: seq<Segment>, labels: bool): (r: seq<Segment>)
    ensures forall seg | seg in r :: seg in segs && IsLabel(seg) == labels
  {
    if segs == [] then []
    else if IsLabel(segs[0]) == labels then [segs[0]] + Only(segs[1..], labels)
    else Only(segs[1..], labels)
  }

  function Others(segs: seq<Segment>): seq<Segment> { Only(segs, false) }

  /** The first EXIF payload; empty when there is none. */
  function OldExif(segs: seq<Segment>): Bytes {
    if segs == [] then [] else if IsExif(segs[0]) then segs[0].payload.value else OldExif(segs[1..])
  }

  /** The first XMP packet that is not empty; empty when there is none. */
  function OldXmp(segs: seq<Segment>): Bytes {
    if segs == [] then []
    else if IsXmp(segs[0]) && |segs[0].payload.value| > |XMP_HEADER| then segs[0].payload.value[|XMP_HEADER|..]
    else OldXmp(segs[1..])
  }

  /** How the new payloads are made from the old ones; empty stands for none. */
  datatype Builders = Builders(exif: Bytes -> Bytes, xmp: Bytes -> Bytes) {
    /** The EXIF writer puts the EXIF header in front. */
    ghost predicate Valid() { forall before: Bytes :: Begins(exif(before), EXIF_HEADER) }

    function NewExif(segs: seq<Segment>): Segment { Segment(APP1, Some(exif(OldExif(segs)))) }

    function NewXmp(segs: seq<Segment>): Segment { Segment(APP1, Some(XMP_HEADER + xmp(OldXmp(segs)))) }
  }

  /** Where the new segments go: after a leading APP0, else first. */
  function InsertAt(kept: seq<Segment>): (at: nat)
    ensures at <= 1 && at <= |kept|
  {
    if kept != [] && kept[0].marker == APP0 then 1 else 0
  }

  function Relabelled(segs: seq<Segment>, build: Builders): seq<Segment> {
    var kept := Others(segs);
    var at := InsertAt(kept);
    kept[..at] + [build.NewExif(segs), build.NewXmp(segs)] + kept[at..]
  }

  function Label(data: Bytes, build: Builders): Result<Bytes, Error> {
    match Split(data)
    case Err(e) => Err(e)
    case Ok(image) => Join(Image(Relabelled(image.segs, build), image.rest))
  }

  method LabelJpeg(data: Bytes, build: Builders) returns (r: Result<Bytes, Error>)
    ensures r == Label(data, build)
  {
    var split := JpegSplit(data);
    if split.Err? { return Err(split.error); }
    var segs, rest := split.value.segs, split.value.rest;
    var kept, oldExif, oldXmp := TakeLabels(segs);
    var fresh_ := [Segment(APP1, Some(build.exif(oldExif))), Segment(APP1, Some(XMP_HEADER + build.xmp(oldXmp)))];
    var at := if kept != [] && kept[0].marker == APP0 then 1 else 0;
    r := JpegJoin(Image(kept[..at] + fresh_ + kept[at..], rest));
  }

  method TakeLabels(segs: seq<Segment>) returns (kept: seq<Segment>, oldExif: Bytes, oldXmp: Bytes)
    ensures kept == Others(segs) && oldExif == OldExif(segs) && oldXmp == OldXmp(segs)
  {
    kept, oldExif, oldXmp := [], [], [];
    for i := 0 to |segs|
      invariant kept + Others(segs[i..]) == Others(segs)
      invariant Or(oldExif, OldExif(segs[i..])) == OldExif(segs)
      invariant Or(oldXmp, OldXmp(segs[i..])) == OldXmp(segs)
    {
      var seg := segs[i];
      assert segs[i..][0] == seg && segs[i..][1..] == segs[i + 1..];
      NotBoth(seg);
      if IsExif(seg) {
        if oldExif == [] { oldExif := seg.payload.value; }
      } else if IsXmp(seg) {
        if oldXmp == [] { oldXmp := seg.payload.value[|XMP_HEADER|..]; }
      } else {
        Assoc(kept, [seg], Others(segs[i + 1..]));
        kept := kept + [seg];
      }
    }
    assert segs[|segs|..] == [] && kept + [] == kept;
  }

  /** Python's `or` on bytes. */
  function Or(a: Bytes, b: Bytes): Bytes { if a != [] then a else b }

  lemma NotBoth(seg: Segment)
    ensures IsExif(seg) ==> !IsXmp(seg)
  {
    if IsExif(seg) {
      var payload := seg.payload.value;
      assert payload[..|EXIF_HEADER|][0] == payload[0] == 0x45;
      if |XMP_HEADER| <= |payload| { assert payload[..|XMP_HEADER|][0] == payload[0]; }
    }
  }

  lemma {:induction false} OnlyAppend(a: seq<Segment>, b: seq<Segment>, labels: bool)
    ensures Only(a + b, labels) == Only(a, labels) + Only(b, labels)
  {
    if a == [] {
      assert a + b == b;
    } else {
      assert (a + b)[0] == a[0] && (a + b)[1..] == a[1..] + b;
      OnlyAppend(a[1..], b, labels);
      var more, rest := Only(a[1..], labels), Only(b, labels);
      assert [a[0]] + (more + rest) == [a[0]] + more + rest;
    }
  }

  lemma {:induction false} OnlyOfSame(segs: seq<Segment>, labels: bool)
    requires forall seg | seg in segs :: IsLabel(seg) == labels
    ensures Only(segs, labels) == segs && Only(segs, !labels) == []
  {
    if segs != [] {
      assert segs[0] in segs && segs == [segs[0]] + segs[1..];
      OnlyOfSame(segs[1..], labels);
    }
  }

  lemma NewSegmentsAreLabels(segs: seq<Segment>, build: Builders)
    requires build.Valid()
    ensures IsExif(build.NewExif(segs)) && IsXmp(build.NewXmp(segs))
  {
    var xmp := build.NewXmp(segs).payload.value;
    assert xmp[..|XMP_HEADER|] == XMP_HEADER;
  }

  /** Relabelling leaves one EXIF and one XMP segment, in that order, and keeps the others as they stood. */
  lemma RelabelledSegments(segs: seq<Segment>, build: Builders)
    requires build.Valid()
    ensures Only(Relabelled(segs, build), true) == [build.NewExif(segs), build.NewXmp(segs)]
    ensures IsExif(build.NewExif(segs)) && IsXmp(build.NewXmp(segs)) && !IsXmp(build.NewExif(segs))
    ensures Others(Relabelled(segs, build)) == Others(segs)
  {
    var kept := Others(segs);
    var at := InsertAt(kept);
    var added := [build.NewExif(segs), build.NewXmp(segs)];
    NewSegmentsAreLabels(segs, build);
    NotBoth(build.NewExif(segs));
    forall seg | seg in added ensures IsLabel(seg) {}
    OnlyOfInserted(kept[..at], added, kept[at..]);
    assert kept[..at] + kept[at..] == kept;
  }

  lemma OnlyAppendTwice(a: seq<Segment>, b: seq<Segment>, c: seq<Segment>, labels: bool)
    ensures Only(a + b + c, labels) == Only(a, labels) + Only(b, labels) + Only(c, labels)
  {
    OnlyAppend(a + b, c, labels);
    OnlyAppend(a, b, labels);
  }

  lemma OnlyOfInserted(head: seq<Segment>, added: seq<Segment>, tail: seq<Segment>)
    requires forall seg | seg in added :: IsLabel(seg)
    requires forall seg | seg in head + tail :: !IsLabel(seg)
    ensures Only(head + added + tail, true) == added
    ensures Only(head + added + tail, false) == head + tail
  {
    forall seg | seg in head || seg in tail ensures !IsLabel(seg) { assert seg in head + tail; }
    OnlyOfSame(added, true);
    OnlyOfSame(head, false);
    OnlyOfSame(tail, false);
    OnlyAppendTwice(head, added, tail, true);
    OnlyAppendTwice(head, added, tail, false);
    EmptyEnds(head, added, tail);
  }

  lemma EmptyEnds(head: seq<Segment>, added: seq<Segment>, tail: seq<Segment>)
    ensures [] + added + [] == added && head + [] + tail == head + tail
  {
  }

  /** The new payloads fit their length fields. */
  predicate LabelsFit(segs: seq<Segment>, build: Builders) { Fits(build.NewExif(segs)) && Fits(build.NewXmp(segs)) }

  lemma RelabelledIsSound(image: Image, build: Builders)
    requires Sound(image)
    ensures AllFit(Relabelled(image.segs, build)) <==> LabelsFit(image.segs, build)
    ensures LabelsFit(image.segs, build) ==> Sound(Image(Relabelled(image.segs, build), image.rest))
  {
    var segs := image.segs;
    var r, at := Relabelled(segs, build), InsertAt(Others(segs));
    assert r[at] == build.NewExif(segs) && r[at + 1] == build.NewXmp(segs);
    forall i | 0 <= i < |r| && i != at && i != at + 1 ensures SoundSegment(r[i]) {
      assert r[i] in Others(segs);
    }
  }

  /**
   Labelling fails exactly when splitting fails or a new payload is too long. Otherwise the scan data is
   the same bytes, and the segments read back are the relabelled ones.
   */
  lemma LabelledImage(data: Bytes, build: Builders)
    ensures Label(data, build).Ok? <==> Split(data).Ok? && LabelsFit(Split(data).value.segs, build)
    ensures Label(data, build).Ok? ==>
      Split(Label(data, build).value) == Ok(Image(Relabelled(Split(data).value.segs, build), Split(data).value.rest))
  {
    if Split(data).Ok? {
      SplitYieldsSound(data);
      RelabelledIsSound(Split(data).value, build);
      var image := Image(Relabelled(Split(data).value.segs, build), Split(data).value.rest);
      if LabelsFit(Split(data).value.segs, build) { SplitUndoesJoin(image); }
    }
  }

  /** Labelling once after another, each time with its own builders. */
  function LabelAll(data: Bytes, runs: seq<Builders>): Result<Bytes, Error> {
    if runs == [] then Ok(data)
    else match LabelAll(data, runs[..|runs| - 1])
      case Err(e) => Err(e)
      case Ok(once) => Label(once, runs[|runs| - 1])
  }

  /** However often a file is labelled, it has one EXIF and one XMP segment, and all else is as at first. */
  lemma {:induction false} RepeatedLabels(data: Bytes, runs: seq<Builders>)
    requires runs != [] && (forall build | build in runs :: build.Valid()) && LabelAll(data, runs).Ok?
    ensures Split(data).Ok? && Split(LabelAll(data, runs).value).Ok?
    ensures var before, after := Split(data).value, Split(LabelAll(data, runs).value).value;
      && after.rest == before.rest && Others(after.segs) == Others(before.segs)
      && |Only(after.segs, true)| == 2
      && IsExif(Only(after.segs, true)[0]) && IsXmp(Only(after.segs, true)[1]) && !IsXmp(Only(after.segs, true)[0])
  {
    var earlier, build := runs[..|runs| - 1], runs[|runs| - 1];
    var once := LabelAll(data, earlier).value;
    if earlier != [] { RepeatedLabels(data, earlier); }
    LabelledImage(once, build);
    RelabelledSegments(Split(once).value.segs, build);
  }

  lemma OldOfNew(e: Segment, x: Segment, tail: seq<Segment>)
    requires IsExif(e) && !IsXmp(e) && IsXmp(x) && forall seg | seg in tail :: !IsLabel(seg)
    ensures OldExif([e] + ([x] + tail)) == e.payload.value
    ensures OldXmp([e] + ([x] + tail)) == x.payload.value[|XMP_HEADER|..]
  {
    assert ([e] + ([x] + tail))[1..] == [x] + tail && ([x] + tail)[1..] == tail;
    NoOldXmp(tail);
  }

  lemma OldBehind(seg: Segment, segs: seq<Segment>)
    requires !IsLabel(seg)
    ensures OldExif([seg] + segs) == OldExif(segs) && OldXmp([seg] + segs) == OldXmp(segs)
  {
    assert ([seg] + segs)[1..] == segs;
  }

  /** A second label finds the payloads of the first one to build upon. */
  lemma LabelSeesLastLabel(segs: seq<Segment>, build: Builders)
    requires build.Valid()
    ensures OldExif(Relabelled(segs, build)) == build.exif(OldExif(segs))
    ensures OldXmp(Relabelled(segs, build)) == build.xmp(OldXmp(segs))
  {
    var kept := Others(segs);
    var at := InsertAt(kept);
    var e, x, tail := build.NewExif(segs), build.NewXmp(segs), kept[at..];
    var behind := [e] + ([x] + tail);
    NewSegmentsAreLabels(segs, build);
    NotBoth(e);
    OldOfNew(e, x, tail);
    assert Relabelled(segs, build) == kept[..at] + behind;
    if at == 1 {
      assert kept[..1] == [kept[0]] && kept[0] in kept;
      OldBehind(kept[0], behind);
    } else {
      assert kept[..0] + behind == behind;
    }
    assert x.payload.value[|XMP_HEADER|..] == build.xmp(OldXmp(segs));
  }

  lemma {:induction false} NoOldXmp(segs: seq<Segment>)
    requires forall seg | seg in segs :: !IsLabel(seg)
    ensures OldXmp(segs) == []
  {
    if segs != [] {
      assert !IsLabel(segs[0]);
      NoOldXmp(segs[1..]);
    }
  }
}
