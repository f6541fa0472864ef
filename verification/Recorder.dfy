/** The recorder: what it appends for a sequence of frames, and what a reader gets from the file, whole
    or cut short. Times are nanoseconds since the start, from a clock that never goes back. */
module Recorder {
  import opened Bytes
  import opened Ebml
  import opened WebM

  datatype Input = Input(vp8: seq<byte>, key: bool, ts: nat)

  datatype Rec = Rec(isOpen: bool, start: nat, pieces: seq<Piece>, frames: nat)

  const EMPTY: Rec := Rec(false, 0, [], 0)

  function Cluster(ts: nat): seq<Piece> {
    [Begin(ID_CLUSTER), Whole(ID_TIMECODE, Minimal(ts / MS))]
  }

  function Block(rel: int, key: bool, vp8: seq<byte>): Piece {
    Whole(ID_SIMPLE_BLOCK, [0x81, rel / 0x100 % 0x100, rel % 0x100, if key then 0x80 else 0] + vp8)
  }

  function StartCluster(r: Rec, ts: nat): Rec {
    r.(isOpen := true, start := ts, pieces := r.pieces + Cluster(ts))
  }

  predicate NeedsCluster(r: Rec, ts: nat) {
    !r.isOpen || ts - r.start >= CLUSTER_SPAN
  }

  function Step(r: Rec, i: Input): Rec
    requires r.isOpen ==> r.start <= i.ts
  {
    if i.vp8 == [] then r
    else
      var r1 := if NeedsCluster(r, i.ts) then StartCluster(r, i.ts) else r;
      AddBlock(r1, i, (i.ts - r1.start) / MS)
  }

  /** Appends the frame; a relative time that does not fit in 16 bits gets a cluster of its own. */
  function AddBlock(r: Rec, i: Input, rel: int): Rec {
    var r' := if rel > 0x7FFF then StartCluster(r, i.ts) else r;
    var rel' := if rel > 0x7FFF then 0 else rel;
    r'.(pieces := r'.pieces + [Block(rel', i.key, i.vp8)], frames := r'.frames + 1)
  }

  predicate Ascending(inputs: seq<Input>) {
    forall i, j :: 0 <= i < j < |inputs| ==> inputs[i].ts <= inputs[j].ts
  }

  predicate Sane(inputs: seq<Input>) {
    forall i :: 0 <= i < |inputs| ==> |inputs[i].vp8| + 4 < UNKNOWN && inputs[i].ts < 0x8000_0000_0000_0000
  }

  function Run(inputs: seq<Input>): (r: Rec)
    requires Ascending(inputs)
    ensures r.isOpen ==> inputs != [] && r.start <= inputs[|inputs| - 1].ts
  {
    if inputs == [] then EMPTY
    else
      var last := inputs[|inputs| - 1];
      assert |inputs| > 1 ==> inputs[|inputs| - 2].ts <= last.ts;
      Step(Run(inputs[..|inputs| - 1]), last)
  }

  /** The frames that are recorded: empty ones are skipped. */
  function Kept(inputs: seq<Input>): seq<Input> {
    if inputs == [] then []
    else
      var last := inputs[|inputs| - 1];
      Kept(inputs[..|inputs| - 1]) + (if last.vp8 == [] then [] else [last])
  }

  // ---- The header ----

  function Ascii(s: string): seq<byte> {
    seq(|s|, i requires 0 <= i < |s| => s[i] as int % 0x100)
  }

  datatype Item = Item(id: nat, body: seq<byte>)

  predicate ValidItems(items: seq<Item>) {
    forall i :: 0 <= i < |items| ==> ValidId(items[i].id)
  }

  predicate Within(items: seq<Item>, n: nat) {
    forall i :: 0 <= i < |items| ==> |items[i].body| <= n
  }

  /** Sub-elements of a body, end to end. */
  function Body(items: seq<Item>): seq<byte>
    requires ValidItems(items)
  {
    if items == [] then [] else Element(items[0].id, items[0].body) + Body(items[1..])
  }

  /** The sub-elements of a body, if they fill it exactly. */
  function ReadBody(s: seq<byte>): Option<seq<Item>>
    decreases |s|
  {
    if s == [] then Some([])
    else
      match ReadNext(s)
      case Elem(id, body, rest) =>
        if |rest| >= |s| then None
        else
          var tail := ReadBody(rest);
          if tail.None? then None else Some([Item(id, body)] + tail.value)
      case _ => None
  }

  lemma ReadBodyFirst(id: nat, body: seq<byte>, rest: seq<byte>)
    requires ValidId(id) && |body| < UNKNOWN && ReadBody(rest).Some?
    ensures ReadBody(Element(id, body) + rest) == Some([Item(id, body)] + ReadBody(rest).value)
  {
    IdBytes(id);
    ReadElement(id, body, rest);
  }

  /** Nested elements are read back as the same list, with no byte left over. */
  lemma {:induction false} BodyReadsBack(items: seq<Item>)
    requires ValidItems(items) && Within(items, UNKNOWN - 1)
    ensures ReadBody(Body(items)) == Some(items)
  {
    if items != [] {
      BodyReadsBack(items[1..]);
      ReadBodyFirst(items[0].id, items[0].body, Body(items[1..]));
      HeadTail(items);
    }
  }

  function EbmlItems(): seq<Item> {
    [Item(ID_EBML_VERSION, Minimal(1)), Item(ID_EBML_READ_VERSION, Minimal(1)), Item(ID_EBML_MAX_ID_LENGTH, Minimal(4)),
     Item(ID_EBML_MAX_SIZE_LENGTH, Minimal(8)), Item(ID_DOC_TYPE, Ascii("webm")), Item(ID_DOC_TYPE_VERSION, Minimal(2)),
     Item(ID_DOC_TYPE_READ_VERSION, Minimal(2))]
  }

  function InfoItems(): seq<Item> {
    [Item(ID_TIMECODE_SCALE, Minimal(MS)), Item(ID_MUXING_APP, Ascii("Neev Remote")),
     Item(ID_WRITING_APP, Ascii("Neev Remote"))]
  }

  function VideoItems(width: nat, height: nat): seq<Item> {
    [Item(ID_PIXEL_WIDTH, Minimal(width)), Item(ID_PIXEL_HEIGHT, Minimal(height))]
  }

  function TrackItems(width: nat, height: nat): seq<Item> {
    [Item(ID_TRACK_NUMBER, Minimal(1)), Item(ID_TRACK_UID, Minimal(1)), Item(ID_TRACK_TYPE, Minimal(1)),
     Item(ID_FLAG_LACING, Minimal(0)), Item(ID_CODEC, Ascii("V_VP8")), Item(ID_VIDEO, Body(VideoItems(width, height)))]
  }

  function Header(width: nat, height: nat): seq<Piece> {
    [Whole(ID_EBML, Body(EbmlItems())), Begin(ID_SEGMENT), Whole(ID_INFO, Body(InfoItems())),
     Whole(ID_TRACKS, Body(TracksItems(width, height)))]
  }

  // ---- Sizes stay within what can be read back ----

  lemma MinimalFits(n: nat)
    requires n < Pow256(8)
    ensures |Minimal(n)| <= 8
  {
    BeIsPaddedMinimal(n, 8);
  }

  lemma ElementLength(id: nat, body: seq<byte>)
    requires ValidId(id)
    ensures |Element(id, body)| <= |body| + 12
  {
    IdBytes(id);
  }

  lemma {:induction false} BodyLength(items: seq<Item>, n: nat)
    requires ValidItems(items) && Within(items, n)
    ensures |Body(items)| <= |items| * (n + 12)
  {
    if items != [] {
      BodyLength(items[1..], n);
      ElementLength(items[0].id, items[0].body);
      assert |items| * (n + 12) == (n + 12) + (|items| - 1) * (n + 12);
    }
  }

  lemma SmallValues()
    ensures |Minimal(0)| == |Minimal(1)| == |Minimal(2)| == |Minimal(4)| == |Minimal(8)| == 1 && |Minimal(MS)| == 3
  {
    assert Minimal(MS) == Minimal(3906) + [64];
    assert Minimal(3906) == Minimal(15) + [66];
  }

  lemma EbmlSize()
    ensures Within(EbmlItems(), 4) && |Body(EbmlItems())| <= 112
  {
    SmallValues();
    BodyLength(EbmlItems(), 4);
  }

  lemma InfoSize()
    ensures Within(InfoItems(), 11) && |Body(InfoItems())| <= 69
  {
    SmallValues();
    BodyLength(InfoItems(), 11);
  }

  lemma VideoSize(width: nat, height: nat)
    requires width < Pow256(8) && height < Pow256(8)
    ensures Within(VideoItems(width, height), 8) && |Body(VideoItems(width, height))| <= 40
  {
    MinimalFits(width);
    MinimalFits(height);
    BodyLength(VideoItems(width, height), 8);
  }

  lemma TrackSize(width: nat, height: nat)
    requires width < Pow256(8) && height < Pow256(8)
    ensures Within(TrackItems(width, height), 40) && |Body(TrackItems(width, height))| <= 312
  {
    SmallValues();
    VideoSize(width, height);
    BodyLength(TrackItems(width, height), 40);
  }

  function TracksItems(width: nat, height: nat): seq<Item> {
    [Item(ID_TRACK_ENTRY, Body(TrackItems(width, height)))]
  }

  lemma TracksSize(width: nat, height: nat)
    requires width < Pow256(8) && height < Pow256(8)
    ensures Within(TracksItems(width, height), 312) && |Body(TracksItems(width, height))| <= 324
  {
    TrackSize(width, height);
    BodyLength(TracksItems(width, height), 312);
  }

  lemma HeaderReadable(width: nat, height: nat)
    requires width < Pow256(8) && height < Pow256(8)
    ensures AllReadable(Header(width, height))
  {
    EbmlSize();
    InfoSize();
    TracksSize(width, height);
  }

  lemma SmallBytes()
    ensures Minimal(0) == [0] && Minimal(1) == [1] && Minimal(2) == [2] && Minimal(4) == [4] && Minimal(8) == [8]
    ensures Minimal(1_000_000) == [0x0F, 0x42, 0x40]
  {
    assert Minimal(1_000_000) == Minimal(3906) + [0x40];
    assert Minimal(3906) == Minimal(15) + [0x42];
  }

  /** "webm", "V_VP8" and "Neev Remote" as bytes. */
  lemma Names()
    ensures Ascii("webm") == [0x77, 0x65, 0x62, 0x6D] && Ascii("V_VP8") == [0x56, 0x5F, 0x56, 0x50, 0x38]
    ensures Ascii("Neev Remote") == [0x4E, 0x65, 0x65, 0x76, 0x20, 0x52, 0x65, 0x6D, 0x6F, 0x74, 0x65]
  {
  }

  /** A reader finds in the header, by the ids of section 11 of RFC 8794, version 1 of the format and the document
      type "webm". */
  lemma EbmlReadsBack()
    ensures ReadBody(Body(EbmlItems())) ==
            Some([Item(0x4286, [1]), Item(0x42F7, [1]), Item(0x42F2, [4]), Item(0x42F3, [8]),
                  Item(0x4282, [0x77, 0x65, 0x62, 0x6D]), Item(0x4287, [2]), Item(0x4285, [2])])
  {
    EbmlSize();
    BodyReadsBack(EbmlItems());
    SmallBytes();
    Names();
  }

  /** And, by the ids of section 5 of RFC 9559, a time scale of a million nanoseconds. */
  lemma InfoReadsBack()
    ensures var app := [0x4E, 0x65, 0x65, 0x76, 0x20, 0x52, 0x65, 0x6D, 0x6F, 0x74, 0x65];
            ReadBody(Body(InfoItems())) ==
            Some([Item(0x2AD7B1, [0x0F, 0x42, 0x40]), Item(0x4D80, app), Item(0x5741, app)])
  {
    InfoSize();
    BodyReadsBack(InfoItems());
    SmallBytes();
    Names();
  }

  /** So is the one track entry: track 1 is a video track with codec "V_VP8". */
  lemma TrackReadsBack(width: nat, height: nat)
    requires width < Pow256(8) && height < Pow256(8)
    ensures ReadBody(Body(TracksItems(width, height))) == Some([Item(0xAE, Body(TrackItems(width, height)))])
    ensures ReadBody(Body(TrackItems(width, height))) ==
            Some([Item(0xD7, [1]), Item(0x73C5, [1]), Item(0x83, [1]), Item(0x9C, [0]),
                  Item(0x86, [0x56, 0x5F, 0x56, 0x50, 0x38]), Item(0xE0, Body(VideoItems(width, height)))])
  {
    TracksSize(width, height);
    TrackSize(width, height);
    BodyReadsBack(TracksItems(width, height));
    BodyReadsBack(TrackItems(width, height));
    SmallBytes();
    Names();
  }

  /** And the picture size inside it. */
  lemma PictureReadsBack(width: nat, height: nat)
    requires width < Pow256(8) && height < Pow256(8)
    ensures exists w, h ::
              && ReadBody(Body(VideoItems(width, height))) == Some([Item(0xB0, w), Item(0xBA, h)])
              && FromBe(w) == width && FromBe(h) == height
  {
    VideoSize(width, height);
    BodyReadsBack(VideoItems(width, height));
    FromBeMinimal(width);
    FromBeMinimal(height);
  }

  /** The ids of a recording's top-level elements and of a cluster's, with what the header holds. */
  lemma TopLevel(width: nat, height: nat, ts: nat, rel: int, key: bool, vp8: seq<byte>)
    ensures Header(width, height) == [Whole(0x1A45DFA3, Body(EbmlItems())), Begin(0x18538067),
                                      Whole(0x1549A966, Body(InfoItems())),
                                      Whole(0x1654AE6B, Body(TracksItems(width, height)))]
    ensures Cluster(ts) == [Begin(0x1F43B675), Whole(0xE7, Minimal(ts / 1_000_000))]
    ensures Block(rel, key, vp8).id == 0xA3 && Block(rel, key, vp8).body[0] == 0x81
    ensures Block(rel, key, vp8).body[3] == (if key then 0x80 else 0) && Block(rel, key, vp8).body[4..] == vp8
  {
  }

  // ---- The time scale ----

  function FindItem(items: seq<Item>, id: nat): Option<seq<byte>> {
    if items == [] then None
    else if items[0].id == id then Some(items[0].body)
    else FindItem(items[1..], id)
  }

  /** The nanoseconds that one tick means, from the first Info element (id 0x1549A966) that was read. */
  function Scale(ps: seq<Piece>): Option<nat> {
    if ps == [] then None
    else if ps[0].Whole? && ps[0].id == 0x1549A966 then
      var items := ReadBody(ps[0].body);
      if items.None? then None
      else
        var scale := FindItem(items.value, 0x2AD7B1);
        if scale.None? then None else Some(FromBe(scale.value))
    else Scale(ps[1..])
  }

  lemma MillionReads()
    ensures FromBe([0x0F, 0x42, 0x40]) == 1_000_000
  {
    SmallBytes();
    FromBeMinimal(1_000_000);
  }

  /** Whoever has read the first three pieces of a recording knows its time scale. */
  lemma {:induction false} ScaleIsRead(width: nat, height: nat, ps: seq<Piece>)
    requires |ps| >= 3 && ps[..3] == Header(width, height)[..3]
    ensures Scale(ps) == Some(1_000_000)
  {
    var h := Header(width, height);
    assert ps[0] == h[..3][0] && ps[1] == h[..3][1] && ps[2] == h[..3][2];
    ScaleThird(ps);
    ScaleOfInfo(ps[2..]);
  }

  lemma {:induction false} ScaleOfInfo(ps: seq<Piece>)
    requires ps != [] && ps[0] == Whole(0x1549A966, Body(InfoItems()))
    ensures Scale(ps) == Some(1_000_000)
  {
    InfoReadsBack();
    MillionReads();
    FirstItem(ReadBody(Body(InfoItems())).value);
  }

  lemma {:induction false} FirstItem(items: seq<Item>)
    requires items != []
    ensures FindItem(items, items[0].id) == Some(items[0].body)
  {
  }

  lemma {:induction false} ScaleThird(ps: seq<Piece>)
    requires |ps| >= 3 && ps[0].id != 0x1549A966 && ps[1].id != 0x1549A966
    ensures Scale(ps) == Scale(ps[2..])
  {
    assert ps[1..][1..] == ps[2..];
  }

  // ---- Recorded time ----

  /** What a reader should see of a recording: the frames kept, in order, each at most one millisecond
      early and never late, and in nondecreasing time. */
  predicate Faithful(frames: seq<Frame>, kept: seq<Input>) {
    && |frames| == |kept|
    && (forall i :: 0 <= i < |kept| ==> frames[i].payload == kept[i].vp8 && frames[i].key == kept[i].key)
    && (forall i :: 0 <= i < |kept| ==> kept[i].ts / MS - 1 <= frames[i].time <= kept[i].ts / MS)
    && (forall i, j :: 0 <= i < j < |kept| ==> frames[i].time <= frames[j].time)
  }

  /** What a player shows: the frames kept, in order, with the times that the file's own scale gives them in
      nanoseconds, each less than two milliseconds early and never late, and never decreasing. */
  predicate Plays(read: seq<Piece>, kept: seq<Input>) {
    var frames, scale := FramesOf(read), Scale(read);
    && |frames| == |kept|
    && (frames != [] ==> scale.Some?)
    && (forall i :: 0 <= i < |frames| ==>
          && frames[i].payload == kept[i].vp8 && frames[i].key == kept[i].key
          && kept[i].ts - 2_000_000 < frames[i].time * scale.value <= kept[i].ts)
    && (forall i, j :: 0 <= i < j < |frames| ==> frames[i].time * scale.value <= frames[j].time * scale.value)
  }

  lemma TicksPlay(time: int, ts: nat)
    requires ts / MS - 1 <= time <= ts / MS
    ensures ts - 2_000_000 < time * 1_000_000 <= ts
  {
  }

  lemma {:induction false} FaithfulPlays(read: seq<Piece>, kept: seq<Input>)
    requires Faithful(FramesOf(read), kept) && (FramesOf(read) != [] ==> Scale(read) == Some(1_000_000))
    ensures Plays(read, kept)
  {
    forall i | 0 <= i < |kept|
      ensures kept[i].ts - 2_000_000 < FramesOf(read)[i].time * 1_000_000 <= kept[i].ts
    {
      TicksPlay(FramesOf(read)[i].time, kept[i].ts);
    }
  }

  /** The recorder against what a reader makes of its pieces. */
  ghost predicate Consistent(r: Rec, kept: seq<Input>) {
    var frames := FramesOf(r.pieces);
    && Faithful(frames, kept) && r.frames == |kept|
    && (r.isOpen <==> kept != [])
    && (r.isOpen ==>
          && ClusterTime(r.pieces) == r.start / MS
          && r.start <= kept[|kept| - 1].ts
          && frames[|frames| - 1].time == r.start / MS + (kept[|kept| - 1].ts - r.start) / MS)
  }

  /** Rounding the start of a cluster and the distance from it separately loses at most one
      millisecond, keeps the order, and inside a cluster stays below 2000. */
  lemma Rounding(start: nat, early: nat, late: nat)
    requires start <= early <= late
    ensures late / MS - 1 <= start / MS + (late - start) / MS <= late / MS
    ensures start / MS + (early - start) / MS <= start / MS + (late - start) / MS
    ensures late - start < CLUSTER_SPAN ==> 0 <= (late - start) / MS <= 1999
  {
  }

  lemma BlockFrame(ps: seq<Piece>, rel: nat, key: bool, vp8: seq<byte>)
    requires rel <= 1999
    ensures FramesOf(ps + [Block(rel, key, vp8)]) == FramesOf(ps) + [Frame(ClusterTime(ps) + rel, key, vp8)]
    ensures ClusterTime(ps + [Block(rel, key, vp8)]) == ClusterTime(ps)
  {
    var b := Block(rel, key, vp8);
    FramesSnoc(ps, b);
    assert rel / 0x100 * 0x100 + rel % 0x100 == rel;
    assert b.body[4..] == vp8;
  }

  lemma ClusterFrames(ps: seq<Piece>, ts: nat)
    ensures FramesOf(ps + Cluster(ts)) == FramesOf(ps) && ClusterTime(ps + Cluster(ts)) == ts / MS
  {
    FramesSnoc(ps, Begin(ID_CLUSTER));
    FramesSnoc(ps + [Begin(ID_CLUSTER)], Whole(ID_TIMECODE, Minimal(ts / MS)));
    FromBeMinimal(ts / MS);
    assert ps + Cluster(ts) == ps + [Begin(ID_CLUSTER)] + [Whole(ID_TIMECODE, Minimal(ts / MS))];
  }

  /** The guard against overflowing the 16-bit block time never fires: a block is always less than two
      seconds into its cluster. */
  lemma GuardNeverFires(r: Rec, i: Input)
    requires (r.isOpen ==> r.start <= i.ts) && i.vp8 != []
    ensures var r' := Step(r, i);
            var start := if NeedsCluster(r, i.ts) then i.ts else r.start;
            && r'.isOpen && r'.start == start && 0 <= (i.ts - start) / MS <= 1999
            && r'.pieces == r.pieces + (if NeedsCluster(r, i.ts) then Cluster(i.ts) else [])
                            + [Block((i.ts - start) / MS, i.key, i.vp8)]
            && r'.frames == r.frames + 1
  {
    var start := if NeedsCluster(r, i.ts) then i.ts else r.start;
    Rounding(start, start, i.ts);
    assert r.pieces + [] == r.pieces;
  }

  /** Whether a frame starts a cluster does not depend on its being a keyframe. */
  lemma KeyframesStartNoCluster(r: Rec, vp8: seq<byte>, ts: nat)
    requires (r.isOpen ==> r.start <= ts) && vp8 != []
    ensures var a, b := Step(r, Input(vp8, true, ts)), Step(r, Input(vp8, false, ts));
            a.start == b.start && |a.pieces| == |b.pieces|
            && forall i :: 0 <= i < |a.pieces| - 1 ==> a.pieces[i] == b.pieces[i]
  {
    GuardNeverFires(r, Input(vp8, true, ts));
    GuardNeverFires(r, Input(vp8, false, ts));
  }

  lemma FaithfulAdd(frames: seq<Frame>, kept: seq<Input>, f: Frame, i: Input)
    requires Faithful(frames, kept) && f.payload == i.vp8 && f.key == i.key
    requires i.ts / MS - 1 <= f.time <= i.ts / MS
    requires frames != [] ==> frames[|frames| - 1].time <= f.time
    ensures Faithful(frames + [f], kept + [i])
  {
  }

  /** What one recorded frame adds for a reader. */
  lemma StepFrames(r: Rec, i: Input)
    requires (r.isOpen ==> r.start <= i.ts && ClusterTime(r.pieces) == r.start / MS) && i.vp8 != []
    ensures var r' := Step(r, i);
            var start := if NeedsCluster(r, i.ts) then i.ts else r.start;
            && r'.isOpen && r'.start == start && r'.frames == r.frames + 1
            && ClusterTime(r'.pieces) == start / MS
            && FramesOf(r'.pieces) == FramesOf(r.pieces) + [Frame(start / MS + (i.ts - start) / MS, i.key, i.vp8)]
  {
    GuardNeverFires(r, i);
    var start := if NeedsCluster(r, i.ts) then i.ts else r.start;
    AddedFrames(r.pieces, NeedsCluster(r, i.ts), i.ts, (i.ts - start) / MS, i.key, i.vp8);
  }

  lemma AddedFrames(ps: seq<Piece>, cluster: bool, ts: nat, rel: nat, key: bool, vp8: seq<byte>)
    requires rel <= 1999
    ensures var added := ps + (if cluster then Cluster(ts) else []) + [Block(rel, key, vp8)];
            var time := if cluster then ts / MS else ClusterTime(ps);
            ClusterTime(added) == time && FramesOf(added) == FramesOf(ps) + [Frame(time + rel, key, vp8)]
  {
    if cluster {
      ClusterFrames(ps, ts);
      BlockFrame(ps + Cluster(ts), rel, key, vp8);
    } else {
      assert ps + [] == ps;
      BlockFrame(ps, rel, key, vp8);
    }
  }

  lemma ConsistentStep(r: Rec, kept: seq<Input>, i: Input)
    requires Consistent(r, kept) && i.vp8 != []
    requires kept != [] ==> kept[|kept| - 1].ts <= i.ts
    ensures Consistent(Step(r, i), kept + [i])
  {
    StepFrames(r, i);
    var start := if NeedsCluster(r, i.ts) then i.ts else r.start;
    var f := Frame(start / MS + (i.ts - start) / MS, i.key, i.vp8);
    if kept == [] {
      Rounding(start, start, i.ts);
    } else {
      NextTime(r.start, kept[|kept| - 1].ts, i.ts, start);
    }
    FaithfulAdd(FramesOf(r.pieces), kept, f, i);
    ConsistentAdd(Step(r, i), FramesOf(r.pieces), kept, f, i);
  }

  lemma ConsistentAdd(r: Rec, frames: seq<Frame>, kept: seq<Input>, f: Frame, i: Input)
    requires FramesOf(r.pieces) == frames + [f] && Faithful(frames + [f], kept + [i]) && r.frames == |kept| + 1
    requires r.isOpen && ClusterTime(r.pieces) == r.start / MS && r.start <= i.ts
    requires f.time == r.start / MS + (i.ts - r.start) / MS
    ensures Consistent(r, kept + [i])
  {
    Snoc(frames, f);
    Snoc(kept, i);
  }

  /** The time a reader gives to the next frame, in the same cluster or in one of its own. */
  lemma NextTime(start: nat, last: nat, ts: nat, start': nat)
    requires start <= last <= ts && (start' == start || start' == ts)
    ensures ts / MS - 1 <= start' / MS + (ts - start') / MS <= ts / MS
    ensures start / MS + (last - start) / MS <= start' / MS + (ts - start') / MS
  {
    Rounding(start', start', ts);
    Rounding(start, last, ts);
    Rounding(start, start, last);
  }

  ghost predicate RunInv(inputs: seq<Input>)
    requires Ascending(inputs)
  {
    && Consistent(Run(inputs), Kept(inputs))
    && (Kept(inputs) != [] ==> Kept(inputs)[|Kept(inputs)| - 1].ts <= inputs[|inputs| - 1].ts)
  }

  lemma {:induction false} RunConsistent(inputs: seq<Input>)
    requires Ascending(inputs)
    ensures RunInv(inputs)
  {
    if inputs != [] {
      RunConsistent(inputs[..|inputs| - 1]);
      RunStep(inputs);
    }
  }

  lemma RunStep(inputs: seq<Input>)
    requires inputs != [] && Ascending(inputs) && RunInv(inputs[..|inputs| - 1])
    ensures RunInv(inputs)
  {
    var front, last := inputs[..|inputs| - 1], inputs[|inputs| - 1];
    var r, kept := Run(front), Kept(front);
    assert |front| > 0 ==> front[|front| - 1].ts <= last.ts;
    assert Run(inputs) == Step(r, last);
    if last.vp8 != [] {
      assert Kept(inputs) == kept + [last];
      ConsistentStep(r, kept, last);
    } else {
      assert Kept(inputs) == kept;
    }
  }

  lemma {:induction false} RunReadable(inputs: seq<Input>)
    requires Ascending(inputs) && Sane(inputs)
    ensures AllReadable(Run(inputs).pieces)
  {
    if inputs != [] {
      var front, last := inputs[..|inputs| - 1], inputs[|inputs| - 1];
      RunReadable(front);
      if last.vp8 != [] {
        assert |inputs| > 1 ==> inputs[|inputs| - 2].ts <= last.ts;
        GuardNeverFires(Run(front), last);
        Pow256Values();
        MinimalFits(last.ts / MS);
      }
    }
  }

  // ---- The file ----

  function File(width: nat, height: nat, inputs: seq<Input>): seq<Piece>
    requires Ascending(inputs)
  {
    Header(width, height) + Run(inputs).pieces
  }

  /** Pieces before the first cluster change nothing about the frames after it. */
  lemma {:induction false} FramesAfter(h: seq<Piece>, ps: seq<Piece>)
    requires FramesOf(h) == [] && ClusterTime(h) == 0
    ensures FramesOf(h + ps) == FramesOf(ps) && ClusterTime(h + ps) == ClusterTime(ps)
  {
    if ps == [] {
      assert h + ps == h;
    } else {
      var front, last := ps[..|ps| - 1], ps[|ps| - 1];
      FramesAfter(h, front);
      assert h + ps == (h + front) + [last];
      assert ps == front + [last];
      FramesSnoc(h + front, last);
      FramesSnoc(front, last);
    }
  }

  /** A piece that is neither a frame nor a cluster's time. */
  predicate Silent(p: Piece) {
    p.id != ID_SIMPLE_BLOCK && p.id != ID_TIMECODE
  }

  lemma {:induction false} SilentHasNoFrames(ps: seq<Piece>)
    requires forall i :: 0 <= i < |ps| ==> Silent(ps[i])
    ensures FramesOf(ps) == [] && ClusterTime(ps) == 0
  {
    if ps != [] {
      SilentHasNoFrames(ps[..|ps| - 1]);
    }
  }

  lemma HeaderHasNoFrames(width: nat, height: nat)
    ensures FramesOf(Header(width, height)) == [] && ClusterTime(Header(width, height)) == 0
  {
    SilentHasNoFrames(Header(width, height));
  }

  // ---- Blocks lie in clusters ----

  predicate HasCluster(ps: seq<Piece>) {
    Begin(ID_CLUSTER) in ps
  }

  /** Every block comes after the head of a cluster, as the format asks. */
  predicate InClusters(ps: seq<Piece>) {
    ps == [] ||
    (InClusters(ps[..|ps| - 1]) && (ps[|ps| - 1].id == ID_SIMPLE_BLOCK ==> HasCluster(ps[..|ps| - 1])))
  }

  lemma InClustersSnoc(ps: seq<Piece>, p: Piece)
    ensures InClusters(ps + [p]) <==> InClusters(ps) && (p.id == ID_SIMPLE_BLOCK ==> HasCluster(ps))
    ensures HasCluster(ps + [p]) <==> HasCluster(ps) || p == Begin(ID_CLUSTER)
  {
    Snoc(ps, p);
  }

  lemma ClusterInClusters(ps: seq<Piece>, ts: nat)
    requires InClusters(ps)
    ensures InClusters(ps + Cluster(ts)) && HasCluster(ps + Cluster(ts))
  {
    var head, time := Begin(ID_CLUSTER), Whole(ID_TIMECODE, Minimal(ts / MS));
    InClustersSnoc(ps, head);
    InClustersSnoc(ps + [head], time);
    assert ps + Cluster(ts) == ps + [head] + [time];
  }

  lemma StepInClusters(r: Rec, i: Input)
    requires (r.isOpen ==> r.start <= i.ts) && InClusters(r.pieces) && (r.isOpen <==> HasCluster(r.pieces))
    ensures var t := Step(r, i); InClusters(t.pieces) && (t.isOpen <==> HasCluster(t.pieces))
  {
    if i.vp8 != [] {
      GuardNeverFires(r, i);
      var start := if NeedsCluster(r, i.ts) then i.ts else r.start;
      if NeedsCluster(r, i.ts) {
        ClusterInClusters(r.pieces, i.ts);
        InClustersSnoc(r.pieces + Cluster(i.ts), Block((i.ts - start) / MS, i.key, i.vp8));
      } else {
        assert r.pieces + [] == r.pieces;
        InClustersSnoc(r.pieces, Block((i.ts - start) / MS, i.key, i.vp8));
      }
    }
  }

  lemma {:induction false} RunInClusters(inputs: seq<Input>)
    requires Ascending(inputs)
    ensures InClusters(Run(inputs).pieces) && (Run(inputs).isOpen <==> HasCluster(Run(inputs).pieces))
  {
    if inputs != [] {
      var front, last := inputs[..|inputs| - 1], inputs[|inputs| - 1];
      RunInClusters(front);
      assert |inputs| > 1 ==> inputs[|inputs| - 2].ts <= last.ts;
      StepInClusters(Run(front), last);
    }
  }

  lemma {:induction false} ClustersAfter(h: seq<Piece>, ps: seq<Piece>)
    requires forall i :: 0 <= i < |h| ==> h[i].id != ID_SIMPLE_BLOCK && h[i].id != ID_CLUSTER
    ensures InClusters(h + ps) <==> InClusters(ps)
    ensures HasCluster(h + ps) <==> HasCluster(ps)
    decreases |h| + |ps|
  {
    if ps != [] {
      var front, last := ps[..|ps| - 1], ps[|ps| - 1];
      ClustersAfter(h, front);
      FrontLast(ps);
      Assoc(h, front, [last]);
      InClustersSnoc(h + front, last);
      InClustersSnoc(front, last);
    } else if h != [] {
      assert h + [] == h && h[..|h| - 1] + [] == h[..|h| - 1];
      ClustersAfter(h[..|h| - 1], []);
    } else {
      assert h + [] == [];
    }
  }

  /** In a recording every block lies in a cluster, and there is a cluster exactly when one is open. */
  lemma FileInClusters(width: nat, height: nat, inputs: seq<Input>)
    requires Ascending(inputs)
    ensures InClusters(File(width, height, inputs))
    ensures HasCluster(File(width, height, inputs)) <==> Run(inputs).isOpen
  {
    RunInClusters(inputs);
    ClustersAfter(Header(width, height), Run(inputs).pieces);
  }

  lemma FileReadable(width: nat, height: nat, inputs: seq<Input>)
    requires width < Pow256(8) && height < Pow256(8) && Ascending(inputs) && Sane(inputs)
    ensures AllReadable(File(width, height, inputs))
  {
    HeaderReadable(width, height);
    RunReadable(inputs);
    ReadableAppend(Header(width, height), Run(inputs).pieces);
  }

  /** A reader of the whole file finds the header and then exactly the recorded frames: payload,
      keyframe flag, order and number, with times at most one tick early and never decreasing, across
      cluster boundaries too; and a tick is the millisecond that the header says it is. */
  lemma FileReadsBack(width: nat, height: nat, inputs: seq<Input>)
    requires width < Pow256(8) && height < Pow256(8) && Ascending(inputs) && Sane(inputs)
    requires AllReadable(File(width, height, inputs))
    ensures var read := ReadPieces(FileBytes(File(width, height, inputs)));
            && Header(width, height) <= read && Faithful(FramesOf(read), Kept(inputs))
            && Scale(read) == Some(1_000_000) && Plays(read, Kept(inputs))
  {
    ReadWholeFile(File(width, height, inputs));
    HeaderHasNoFrames(width, height);
    FramesAfter(Header(width, height), Run(inputs).pieces);
    RunConsistent(inputs);
    HeaderTake(width, height, inputs, |File(width, height, inputs)|);
    TakeAll(File(width, height, inputs));
    ScaleIsRead(width, height, File(width, height, inputs));
    FaithfulPlays(File(width, height, inputs), Kept(inputs));
  }

  lemma HeaderTake(width: nat, height: nat, inputs: seq<Input>, n: nat)
    requires Ascending(inputs) && 3 <= n <= |File(width, height, inputs)|
    ensures File(width, height, inputs)[..n][..3] == Header(width, height)[..3]
  {
    TakeWithin(Header(width, height), Run(inputs).pieces, 3);
    TakeTwice(File(width, height, inputs), n, 3);
  }

  lemma FaithfulPrefix(frames: seq<Frame>, kept: seq<Input>, some: seq<Frame>)
    requires Faithful(frames, kept) && some <= frames
    ensures |some| <= |kept| && Faithful(some, kept[..|some|])
  {
  }

  /** As long as only header pieces have been read there is no frame. */
  lemma NoFramesInHeader(width: nat, height: nat, inputs: seq<Input>, n: nat)
    requires Ascending(inputs) && n <= |File(width, height, inputs)| && n < 3
    ensures FramesOf(File(width, height, inputs)[..n]) == []
  {
    TakeWithin(Header(width, height), Run(inputs).pieces, n);
    SilentHasNoFrames(Header(width, height)[..n]);
  }

  /** A recording cut short at any byte stays playable: a reader gets exactly the pieces completely
      written before the cut, and from them a prefix of the recorded frames with their times. */
  lemma CutFileReadsBack(width: nat, height: nat, inputs: seq<Input>, k: nat) returns (n: nat, read: seq<Piece>)
    requires width < Pow256(8) && height < Pow256(8) && Ascending(inputs) && Sane(inputs)
    requires AllReadable(File(width, height, inputs)) && k <= |FileBytes(File(width, height, inputs))|
    ensures CutAt(File(width, height, inputs), k, n)
    ensures read == ReadPieces(FileBytes(File(width, height, inputs))[..k]) && read <= File(width, height, inputs)
    ensures |FramesOf(read)| <= |Kept(inputs)| && Faithful(FramesOf(read), Kept(inputs)[..|FramesOf(read)|])
    ensures Plays(read, Kept(inputs)[..|FramesOf(read)|])
  {
    var f := File(width, height, inputs);
    n := ReadCutFile(f, k);
    read := f[..n];
    FramesPrefix(f, n);
    FileReadsBack(width, height, inputs);
    ReadWholeFile(f);
    FaithfulPrefix(FramesOf(f), Kept(inputs), FramesOf(read));
    if n >= 3 {
      HeaderTake(width, height, inputs, n);
      ScaleIsRead(width, height, read);
    } else {
      NoFramesInHeader(width, height, inputs, n);
    }
    FaithfulPlays(read, Kept(inputs)[..|FramesOf(read)|]);
  }
}
