/** The recorder as it writes bytes, with writes that may fail part of the way: what a reader gets from a
    recording in which a write has failed. */
module RecorderBytes {
  import opened Bytes
  import opened Ebml
  import opened WebM
  import opened Recorder

  /** What the recorder holds, and the bytes in its file. */
  datatype Tape = Tape(isOpen: bool, start: nat, file: seq<byte>, frames: nat)

  /** For each write that a frame may need: how many bytes get out before it fails, if it does. */
  datatype Fault = Fault(head: Option<nat>, guard: Option<nat>, block: Option<nat>)

  const NO_FAULT: Fault := Fault(None, None, None)

  function Put(file: seq<byte>, bytes: seq<byte>, failAt: Option<nat>): seq<byte> {
    if failAt.None? then file + bytes else file + bytes[..Min(failAt.value, |bytes|)]
  }

  function HeaderBytes(width: nat, height: nat): seq<byte> {
    Element(ID_EBML, Body(EbmlItems())) + (EncodeId(ID_SEGMENT) + UnknownSize())
    + Element(ID_INFO, Body(InfoItems())) + Element(ID_TRACKS, Body(TracksItems(width, height)))
  }

  /** The head of a cluster without its time code. */
  function ClusterHead(): seq<byte> {
    EncodeId(ID_CLUSTER) + UnknownSize()
  }

  function ClusterBytes(ts: nat): seq<byte> {
    ClusterHead() + Element(ID_TIMECODE, Minimal(ts / MS))
  }

  function BlockBytes(rel: int, key: bool, vp8: seq<byte>): seq<byte> {
    Element(ID_SIMPLE_BLOCK, [0x81, rel / 0x100 % 0x100, rel % 0x100, if key then 0x80 else 0] + vp8)
  }

  /** The recorder counts the cluster as open before its head is written. */
  function OpenCluster(t: Tape, ts: nat, failAt: Option<nat>): Tape {
    t.(isOpen := true, start := ts, file := Put(t.file, ClusterBytes(ts), failAt))
  }

  function PutBlock(t: Tape, i: Input, rel: int, failAt: Option<nat>): Tape {
    var file := Put(t.file, BlockBytes(rel, i.key, i.vp8), failAt);
    t.(file := file, frames := if failAt.None? then t.frames + 1 else t.frames)
  }

  function PutFrame(t: Tape, i: Input, rel: int, f: Fault): Tape {
    if rel <= 0x7FFF then PutBlock(t, i, rel, f.block)
    else
      var t1 := OpenCluster(t, i.ts, f.guard);
      if f.guard.Some? then t1 else PutBlock(t1, i, 0, f.block)
  }

  predicate Opens(t: Tape, ts: nat) {
    !t.isOpen || ts - t.start >= CLUSTER_SPAN
  }

  /** A frame opens a cluster exactly when none is open or the open one began two seconds ago or more, and once
      more exactly when its offset is not one of 16 signed bits. */
  lemma {:induction false} OpensWhen(t: Tape, i: Input, at: int)
    requires i.vp8 != [] && (t.isOpen ==> t.start <= i.ts)
    ensures var u := WriteFrame(t, i, NO_FAULT);
            u.isOpen && u.start == if !t.isOpen || i.ts - t.start >= 2_000_000_000 then i.ts else t.start
    ensures PutFrame(t, i, at, NO_FAULT).start == if at > 32_767 then i.ts else t.start
  {
    if t.isOpen {
      Rounding(t.start, t.start, i.ts);
    }
  }

  /** One call of Write. */
  function WriteFrame(t: Tape, i: Input, f: Fault): Tape
    requires t.isOpen ==> t.start <= i.ts
  {
    if i.vp8 == [] then t
    else if !Opens(t, i.ts) then PutFrame(t, i, (i.ts - t.start) / MS, f)
    else if f.head.Some? then OpenCluster(t, i.ts, f.head)
    else PutFrame(OpenCluster(t, i.ts, None), i, 0, f)
  }

  /** The write that a fault makes fail is one the frame needs. */
  predicate Succeeds(t: Tape, i: Input, f: Fault)
    requires t.isOpen ==> t.start <= i.ts
  {
    i.vp8 != [] ==>
      && (Opens(t, i.ts) ==> f.head.None?)
      && (!Opens(t, i.ts) && (i.ts - t.start) / MS > 0x7FFF ==> f.guard.None?)
      && f.block.None?
  }

  function NewTape(width: nat, height: nat): Tape {
    Tape(false, 0, HeaderBytes(width, height), 0)
  }

  function Record(width: nat, height: nat, inputs: seq<Input>, faults: seq<Fault>): (t: Tape)
    requires Ascending(inputs) && |faults| == |inputs|
    ensures t.isOpen ==> inputs != [] && t.start <= inputs[|inputs| - 1].ts
  {
    if inputs == [] then NewTape(width, height)
    else
      var last := inputs[|inputs| - 1];
      assert |inputs| > 1 ==> inputs[|inputs| - 2].ts <= last.ts;
      WriteFrame(Record(width, height, inputs[..|inputs| - 1], faults[..|faults| - 1]), last, faults[|faults| - 1])
  }

  // ---- Without faults it is the recorder of pieces ----

  lemma AppendPiece(ps: seq<Piece>, p: Piece)
    requires AllReadable(ps) && Readable(p)
    ensures AllReadable(ps + [p]) && FileBytes(ps + [p]) == FileBytes(ps) + PieceBytes(p)
  {
    FileBytesAppend(ps, [p]);
    assert [p][1..] == [];
    assert FileBytes([p]) == PieceBytes(p);
  }

  lemma FourPieces(a: Piece, b: Piece, c: Piece, d: Piece)
    requires Readable(a) && Readable(b) && Readable(c) && Readable(d) && AllReadable([a, b, c, d])
    ensures FileBytes([a, b, c, d]) == PieceBytes(a) + PieceBytes(b) + PieceBytes(c) + PieceBytes(d)
  {
    AppendPiece([], a);
    AppendPiece([a], b);
    AppendPiece([a, b], c);
    AppendPiece([a, b, c], d);
    assert [] + [a] == [a] && [a] + [b] == [a, b] && [a, b] + [c] == [a, b, c] && [a, b, c] + [d] == [a, b, c, d];
    assert [] + PieceBytes(a) == PieceBytes(a);
  }

  lemma HeaderIs(width: nat, height: nat)
    requires width < Pow256(8) && height < Pow256(8)
    ensures AllReadable(Header(width, height)) && FileBytes(Header(width, height)) == HeaderBytes(width, height)
  {
    HeaderReadable(width, height);
    var h := Header(width, height);
    FourPieces(h[0], h[1], h[2], h[3]);
    assert h == [h[0], h[1], h[2], h[3]];
  }

  /** The tape holds what the recorder of pieces has written behind the header h. */
  ghost predicate Holds(t: Tape, r: Rec, h: seq<Piece>) {
    && t.isOpen == r.isOpen && t.start == r.start && t.frames == r.frames
    && AllReadable(h + r.pieces) && t.file == FileBytes(h + r.pieces)
  }

  lemma PutPiece(h: seq<Piece>, ps: seq<Piece>, p: Piece, bytes: seq<byte>)
    requires AllReadable(h + ps) && Readable(p) && bytes == PieceBytes(p)
    ensures AllReadable(h + (ps + [p])) && FileBytes(h + (ps + [p])) == FileBytes(h + ps) + bytes
  {
    AppendPiece(h + ps, p);
    assert h + (ps + [p]) == (h + ps) + [p];
  }

  lemma PutCluster(h: seq<Piece>, ps: seq<Piece>, ts: nat)
    requires AllReadable(h + ps) && ts < 0x8000_0000_0000_0000
    ensures AllReadable(h + (ps + Cluster(ts)))
    ensures FileBytes(h + (ps + Cluster(ts))) == FileBytes(h + ps) + ClusterBytes(ts)
  {
    var head, time := Begin(ID_CLUSTER), Whole(ID_TIMECODE, Minimal(ts / MS));
    Pow256Values();
    MinimalFits(ts / MS);
    PutPiece(h, ps, head, PieceBytes(head));
    PutPiece(h, ps + [head], time, PieceBytes(time));
    Assoc(FileBytes(h + ps), PieceBytes(head), PieceBytes(time));
    TwoPieces(ps, head, time);
  }

  lemma TwoPieces(ps: seq<Piece>, a: Piece, b: Piece)
    ensures (ps + [a]) + [b] == ps + [a, b]
  {
  }

  lemma HoldsOpen(t: Tape, r: Rec, h: seq<Piece>, ts: nat)
    requires Holds(t, r, h) && ts < 0x8000_0000_0000_0000
    ensures Holds(OpenCluster(t, ts, None), StartCluster(r, ts), h)
  {
    PutCluster(h, r.pieces, ts);
  }

  lemma HoldsBlock(t: Tape, r: Rec, h: seq<Piece>, i: Input, rel: int)
    requires Holds(t, r, h) && |i.vp8| + 4 < UNKNOWN
    ensures Holds(PutBlock(t, i, rel, None),
                  r.(pieces := r.pieces + [Block(rel, i.key, i.vp8)], frames := r.frames + 1), h)
  {
    PutPiece(h, r.pieces, Block(rel, i.key, i.vp8), BlockBytes(rel, i.key, i.vp8));
  }

  lemma HoldsStep(t: Tape, r: Rec, h: seq<Piece>, i: Input, f: Fault)
    requires Holds(t, r, h) && |i.vp8| + 4 < UNKNOWN && i.ts < 0x8000_0000_0000_0000
    requires (t.isOpen ==> t.start <= i.ts) && Succeeds(t, i, f)
    ensures Holds(WriteFrame(t, i, f), Step(r, i), h)
  {
    if i.vp8 != [] {
      if Opens(t, i.ts) {
        HoldsOpen(t, r, h, i.ts);
        HoldsBlock(OpenCluster(t, i.ts, None), StartCluster(r, i.ts), h, i, 0);
      } else {
        Rounding(t.start, t.start, i.ts);
        HoldsBlock(t, r, h, i, (i.ts - t.start) / MS);
      }
    }
  }

  /** Every write the first frames needed succeeded. */
  predicate AllSucceed(width: nat, height: nat, inputs: seq<Input>, faults: seq<Fault>)
    requires Ascending(inputs) && |faults| == |inputs|
  {
    inputs == [] ||
    var front := Record(width, height, inputs[..|inputs| - 1], faults[..|faults| - 1]);
    && AllSucceed(width, height, inputs[..|inputs| - 1], faults[..|faults| - 1])
    && (front.isOpen ==> front.start <= inputs[|inputs| - 1].ts)
    && Succeeds(front, inputs[|inputs| - 1], faults[|faults| - 1])
  }

  lemma {:induction false} RecordHolds(width: nat, height: nat, inputs: seq<Input>, faults: seq<Fault>)
    requires width < Pow256(8) && height < Pow256(8) && Ascending(inputs) && Sane(inputs) && |faults| == |inputs|
    requires AllSucceed(width, height, inputs, faults)
    ensures Holds(Record(width, height, inputs, faults), Run(inputs), Header(width, height))
  {
    if inputs == [] {
      NewTapeHolds(width, height);
    } else {
      RecordHolds(width, height, inputs[..|inputs| - 1], faults[..|faults| - 1]);
      HoldsNext(width, height, inputs, faults, Header(width, height));
    }
  }

  lemma NewTapeHolds(width: nat, height: nat)
    requires width < Pow256(8) && height < Pow256(8)
    ensures Holds(NewTape(width, height), Run([]), Header(width, height))
  {
    HeaderIs(width, height);
    assert Header(width, height) + [] == Header(width, height);
  }

  lemma HoldsNext(width: nat, height: nat, inputs: seq<Input>, faults: seq<Fault>, h: seq<Piece>)
    requires Ascending(inputs) && Sane(inputs) && |faults| == |inputs| > 0
    requires AllSucceed(width, height, inputs, faults)
    requires Holds(Record(width, height, inputs[..|inputs| - 1], faults[..|faults| - 1]),
                   Run(inputs[..|inputs| - 1]), h)
    ensures Holds(Record(width, height, inputs, faults), Run(inputs), h)
  {
    var front, last := inputs[..|inputs| - 1], inputs[|inputs| - 1];
    assert |inputs| > 1 ==> inputs[|inputs| - 2].ts <= last.ts;
    HoldsStep(Record(width, height, front, faults[..|faults| - 1]), Run(front), h, last, faults[|faults| - 1]);
  }

  // ---- After a failed write ----

  /** A file only grows. */
  lemma FileGrows(t: Tape, i: Input, f: Fault)
    requires t.isOpen ==> t.start <= i.ts
    ensures t.file <= WriteFrame(t, i, f).file
  {
  }

  /** What a failing write leaves is a cut of what it would have written. */
  lemma FaultIsCut(t: Tape, i: Input, f: Fault)
    requires t.isOpen ==> t.start <= i.ts
    ensures WriteFrame(t, i, f).file <= WriteFrame(t, i, NO_FAULT).file
  {
  }

  lemma {:induction false} ReadBeforeJunk(ps: seq<Piece>, junk: seq<byte>)
    requires AllReadable(ps)
    ensures ps <= ReadPieces(FileBytes(ps) + junk)
  {
    if ps != [] {
      ReadBeforeJunk(ps[1..], junk);
      ReadFirst(ps[0], FileBytes(ps[1..]) + junk);
      Assoc(PieceBytes(ps[0]), FileBytes(ps[1..]), junk);
      FirstThen(ps, ReadPieces(FileBytes(ps[1..]) + junk));
    }
  }

  lemma FirstThen(ps: seq<Piece>, rest: seq<Piece>)
    requires ps != [] && ps[1..] <= rest
    ensures ps <= [ps[0]] + rest
  {
  }

  lemma {:induction false} RecordGrows(width: nat, height: nat, inputs: seq<Input>, faults: seq<Fault>, n: nat)
    requires Ascending(inputs) && |faults| == |inputs| && n <= |inputs|
    ensures Record(width, height, inputs[..n], faults[..n]).file <= Record(width, height, inputs, faults).file
    decreases |inputs|
  {
    if n == |inputs| {
      assert inputs[..n] == inputs && faults[..n] == faults;
    } else {
      var front, last := inputs[..|inputs| - 1], inputs[|inputs| - 1];
      RecordGrows(width, height, front, faults[..|faults| - 1], n);
      assert front[..n] == inputs[..n] && faults[..|faults| - 1][..n] == faults[..n];
      assert |inputs| > 1 ==> inputs[|inputs| - 2].ts <= last.ts;
      FileGrows(Record(width, height, front, faults[..|faults| - 1]), last, faults[|faults| - 1]);
    }
  }

  /** Whatever is written after a first failure, and however often writing fails, a reader still gets every
      piece written before it, and the frames they hold. */
  lemma FramesBeforeFailure(width: nat, height: nat, inputs: seq<Input>, faults: seq<Fault>, n: nat)
    requires width < Pow256(8) && height < Pow256(8) && Ascending(inputs) && Sane(inputs)
    requires |faults| == |inputs| && n <= |inputs| && AllSucceed(width, height, inputs[..n], faults[..n])
    ensures var read := ReadPieces(Record(width, height, inputs, faults).file);
            File(width, height, inputs[..n]) <= read && FramesOf(File(width, height, inputs[..n])) <= FramesOf(read)
  {
    RecordHolds(width, height, inputs[..n], faults[..n]);
    RecordGrows(width, height, inputs, faults, n);
    ReadPrefix(File(width, height, inputs[..n]), Record(width, height, inputs, faults).file);
  }

  lemma ReadPrefix(ps: seq<Piece>, file: seq<byte>)
    requires AllReadable(ps) && FileBytes(ps) <= file
    ensures ps <= ReadPieces(file) && FramesOf(ps) <= FramesOf(ReadPieces(file))
  {
    var junk := file[|FileBytes(ps)|..];
    assert file == FileBytes(ps) + junk;
    ReadBeforeJunk(ps, junk);
    PrefixFrames(ps, ReadPieces(file));
  }

  lemma PrefixFrames(ps: seq<Piece>, read: seq<Piece>)
    requires ps <= read
    ensures FramesOf(ps) <= FramesOf(read)
  {
    assert read[..|ps|] == ps;
    FramesPrefix(read, |ps|);
  }

  /** A recording stopped at its first failed write stays playable: a reader gets every piece of the frames
      before it and maybe some of the failed one's, and from them a prefix of the recorded frames with their
      times. */
  lemma StoppedAtFailure(width: nat, height: nat, inputs: seq<Input>, faults: seq<Fault>)
    requires width < Pow256(8) && height < Pow256(8) && Ascending(inputs) && Sane(inputs)
    requires |faults| == |inputs| > 0 && AllSucceed(width, height, inputs[..|inputs| - 1], faults[..|faults| - 1])
    ensures var read := ReadPieces(Record(width, height, inputs, faults).file);
            && File(width, height, inputs[..|inputs| - 1]) <= read <= File(width, height, inputs)
            && |FramesOf(read)| <= |Kept(inputs)|
            && Faithful(FramesOf(read), Kept(inputs)[..|FramesOf(read)|])
            && Plays(read, Kept(inputs)[..|FramesOf(read)|])
  {
    FileReadable(width, height, inputs);
    FramesBeforeFailure(width, height, inputs, faults, |inputs| - 1);
    FailedIsCut(width, height, inputs, faults);
    ReadCutRecord(width, height, inputs, Record(width, height, inputs, faults).file);
  }

  lemma ReadCutRecord(width: nat, height: nat, inputs: seq<Input>, file: seq<byte>)
    requires width < Pow256(8) && height < Pow256(8) && Ascending(inputs) && Sane(inputs)
    requires AllReadable(File(width, height, inputs)) && file <= FileBytes(File(width, height, inputs))
    ensures ReadPieces(file) <= File(width, height, inputs)
    ensures var frames := FramesOf(ReadPieces(file));
            && |frames| <= |Kept(inputs)| && Faithful(frames, Kept(inputs)[..|frames|])
            && Plays(ReadPieces(file), Kept(inputs)[..|frames|])
  {
    PrefixIsTake(file, FileBytes(File(width, height, inputs)));
    var n, read := CutFileReadsBack(width, height, inputs, |file|);
  }

  lemma FailedIsCut(width: nat, height: nat, inputs: seq<Input>, faults: seq<Fault>)
    requires width < Pow256(8) && height < Pow256(8) && Ascending(inputs) && Sane(inputs)
    requires |faults| == |inputs| > 0 && AllSucceed(width, height, inputs[..|inputs| - 1], faults[..|faults| - 1])
    requires AllReadable(File(width, height, inputs))
    ensures Record(width, height, inputs, faults).file <= FileBytes(File(width, height, inputs))
  {
    var front, last := inputs[..|inputs| - 1], inputs[|inputs| - 1];
    var t := Record(width, height, front, faults[..|faults| - 1]);
    assert |inputs| > 1 ==> inputs[|inputs| - 2].ts <= last.ts;
    RecordHolds(width, height, front, faults[..|faults| - 1]);
    HoldsStep(t, Run(front), Header(width, height), last, NO_FAULT);
    FaultIsCut(t, last, faults[|faults| - 1]);
  }

  /** What got out of a cluster's head, when that is nothing or all but the time code. */
  function HeadOut(failAt: Option<nat>): seq<byte> {
    if failAt == Some(0) then [] else ClusterHead()
  }

  /** The recorder counts a cluster as open even when its time code did not get into the file. With a cluster
      before it, a reader then takes the next frame for one of that cluster's time, at least 1999 ms early. With
      no cluster before it and nothing written of this one, the frame lies outside every cluster, where the
      format has none. */
  lemma LostHead(width: nat, height: nat, inputs: seq<Input>, faults: seq<Fault>, lost: Input, fault: Fault,
                 next: Input)
    requires width < Pow256(8) && height < Pow256(8) && Ascending(inputs) && Sane(inputs) && |faults| == |inputs|
    requires AllSucceed(width, height, inputs, faults) && |next.vp8| + 4 < UNKNOWN && lost.vp8 != [] && next.vp8 != []
    requires var t := Record(width, height, inputs, faults);
             (t.isOpen ==> t.start <= lost.ts) && Opens(t, lost.ts) && lost.ts <= next.ts < lost.ts + CLUSTER_SPAN
    requires fault.head == Some(0) || fault.head == Some(|ClusterHead()|)
    ensures var t := Record(width, height, inputs, faults);
            var t1 := WriteFrame(t, lost, fault);
            var read := ReadPieces(WriteFrame(t1, next, NO_FAULT).file);
            var before := FramesOf(File(width, height, inputs));
            && |FramesOf(read)| == |before| + 1 && before <= FramesOf(read)
            && (InClusters(read) <==> t.isOpen || fault.head != Some(0))
            && (t.isOpen ==> FramesOf(read)[|before|].time <= next.ts / MS - 1999)
  {
    var t, ps := Record(width, height, inputs, faults), File(width, height, inputs);
    LostFile(t, lost, fault, next);
    RecordHolds(width, height, inputs, faults);
    Rounding(lost.ts, lost.ts, next.ts);
    FileInClusters(width, height, inputs);
    var all := HeadRead(ps, fault.head);
    ReadOneMore(all, (next.ts - lost.ts) / MS, next.key, next.vp8);
    TimeSoFar(width, height, inputs, faults);
    LostTime(if t.isOpen then t.start else 0, lost.ts, next.ts);
  }

  lemma HeadRead(ps: seq<Piece>, failAt: Option<nat>) returns (all: seq<Piece>)
    requires AllReadable(ps) && InClusters(ps) && (failAt == Some(0) || failAt == Some(|ClusterHead()|))
    ensures AllReadable(all) && FileBytes(all) == FileBytes(ps) + HeadOut(failAt)
    ensures FramesOf(all) == FramesOf(ps) && ClusterTime(all) == ClusterTime(ps)
    ensures InClusters(all) && (HasCluster(all) <==> HasCluster(ps) || failAt != Some(0))
  {
    if failAt == Some(0) {
      all := ps;
      assert FileBytes(ps) + [] == FileBytes(ps);
    } else {
      all := ps + [Begin(ID_CLUSTER)];
      AppendPiece(ps, Begin(ID_CLUSTER));
      FramesSnoc(ps, Begin(ID_CLUSTER));
      assert FramesOf(ps) + [] == FramesOf(ps);
      InClustersSnoc(ps, Begin(ID_CLUSTER));
    }
  }

  /** When only the report of a head written whole is an error, it is as if the write had succeeded. */
  lemma WholeHead(t: Tape, lost: Input, fault: Fault)
    requires (t.isOpen ==> t.start <= lost.ts) && Opens(t, lost.ts) && lost.vp8 != []
    requires fault.head.Some? && fault.head.value >= |ClusterBytes(lost.ts)|
    ensures WriteFrame(t, lost, fault) == OpenCluster(t, lost.ts, None)
  {
    TakeAll(ClusterBytes(lost.ts));
  }

  /** The time of the cluster a reader is in after a recording. */
  lemma TimeSoFar(width: nat, height: nat, inputs: seq<Input>, faults: seq<Fault>)
    requires width < Pow256(8) && height < Pow256(8) && Ascending(inputs) && Sane(inputs) && |faults| == |inputs|
    requires AllSucceed(width, height, inputs, faults)
    ensures var t := Record(width, height, inputs, faults);
            ClusterTime(File(width, height, inputs)) == if t.isOpen then t.start / MS else 0
  {
    var h, r := Header(width, height), Run(inputs);
    RecordHolds(width, height, inputs, faults);
    RunConsistent(inputs);
    HeaderHasNoFrames(width, height);
    FramesAfter(h, r.pieces);
    if !r.isOpen {
      ClosedIsEmpty(inputs);
      assert h + [] == h;
    }
  }

  lemma {:induction false} ClosedIsEmpty(inputs: seq<Input>)
    requires Ascending(inputs) && !Run(inputs).isOpen
    ensures Run(inputs).pieces == []
  {
    if inputs != [] {
      var front, last := inputs[..|inputs| - 1], inputs[|inputs| - 1];
      assert |inputs| > 1 ==> inputs[|inputs| - 2].ts <= last.ts;
      if last.vp8 == [] {
        ClosedIsEmpty(front);
      }
    }
  }

  lemma ReadOneMore(ps: seq<Piece>, rel: nat, key: bool, vp8: seq<byte>)
    requires AllReadable(ps) && rel <= 1999 && |vp8| + 4 < UNKNOWN
    ensures var read := ReadPieces(FileBytes(ps) + BlockBytes(rel, key, vp8));
            && FramesOf(read) == FramesOf(ps) + [Frame(ClusterTime(ps) + rel, key, vp8)]
            && (InClusters(read) <==> InClusters(ps) && HasCluster(ps))
  {
    AppendPiece(ps, Block(rel, key, vp8));
    ReadWholeFile(ps + [Block(rel, key, vp8)]);
    BlockFrame(ps, rel, key, vp8);
    InClustersSnoc(ps, Block(rel, key, vp8));
  }

  lemma LostFile(t: Tape, lost: Input, fault: Fault, next: Input)
    requires (t.isOpen ==> t.start <= lost.ts) && Opens(t, lost.ts) && lost.ts <= next.ts < lost.ts + CLUSTER_SPAN
    requires (fault.head == Some(0) || fault.head == Some(|ClusterHead()|)) && lost.vp8 != [] && next.vp8 != []
    ensures var t1 := WriteFrame(t, lost, fault);
            WriteFrame(t1, next, NO_FAULT).file
            == t.file + HeadOut(fault.head) + BlockBytes((next.ts - lost.ts) / MS, next.key, next.vp8)
  {
    Rounding(lost.ts, lost.ts, next.ts);
    CutOfHead(lost.ts, ClusterHead(), Element(ID_TIMECODE, Minimal(lost.ts / MS)), t.file);
  }

  lemma CutOfHead(ts: nat, head: seq<byte>, time: seq<byte>, file: seq<byte>)
    requires head + time == ClusterBytes(ts)
    ensures Put(file, ClusterBytes(ts), Some(0)) == file + []
    ensures Put(file, ClusterBytes(ts), Some(|head|)) == file + head
  {
  }

  lemma LostTime(start: nat, lost: nat, next: nat)
    requires start <= lost <= next
    ensures lost - start >= CLUSTER_SPAN ==> start / MS + (next - lost) / MS <= next / MS - 1999
    ensures (next - lost) / MS <= next / MS
  {
  }
}
