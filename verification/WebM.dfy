/** The WebM recorder: the pieces it appends to the file, a reader for them, and the frames a reader
    sees. SimpleBlocks are those of section 10 of RFC 9559. */
module WebM {
  import opened Bytes
  import opened Ebml

  const ID_EBML: nat := 0x1A45DFA3
  const ID_EBML_VERSION: nat := 0x4286
  const ID_EBML_READ_VERSION: nat := 0x42F7
  const ID_EBML_MAX_ID_LENGTH: nat := 0x42F2
  const ID_EBML_MAX_SIZE_LENGTH: nat := 0x42F3
  const ID_DOC_TYPE: nat := 0x4282
  const ID_DOC_TYPE_VERSION: nat := 0x4287
  const ID_DOC_TYPE_READ_VERSION: nat := 0x4285
  const ID_SEGMENT: nat := 0x18538067
  const ID_INFO: nat := 0x1549A966
  const ID_TIMECODE_SCALE: nat := 0x2AD7B1
  const ID_MUXING_APP: nat := 0x4D80
  const ID_WRITING_APP: nat := 0x5741
  const ID_TRACKS: nat := 0x1654AE6B
  const ID_TRACK_ENTRY: nat := 0xAE
  const ID_TRACK_NUMBER: nat := 0xD7
  const ID_TRACK_UID: nat := 0x73C5
  const ID_TRACK_TYPE: nat := 0x83
  const ID_FLAG_LACING: nat := 0x9C
  const ID_CODEC: nat := 0x86
  const ID_VIDEO: nat := 0xE0
  const ID_PIXEL_WIDTH: nat := 0xB0
  const ID_PIXEL_HEIGHT: nat := 0xBA
  const ID_CLUSTER: nat := 0x1F43B675
  const ID_TIMECODE: nat := 0xE7
  const ID_SIMPLE_BLOCK: nat := 0xA3

  const MS: nat := 1_000_000
  const CLUSTER_SPAN: nat := 2_000_000_000

  // ---- Pieces of a file ----

  /** An element with its size, or the head of one of unknown size, which lasts to the end of the data. */
  datatype Piece = Whole(id: nat, body: seq<byte>) | Begin(id: nat)

  predicate Readable(p: Piece) {
    ValidId(p.id) && (p.Whole? ==> |p.body| < UNKNOWN)
  }

  predicate AllReadable(ps: seq<Piece>) {
    forall i :: 0 <= i < |ps| ==> Readable(ps[i])
  }

  function PieceBytes(p: Piece): (b: seq<byte>)
    requires Readable(p)
  {
    if p.Whole? then Element(p.id, p.body) else EncodeId(p.id) + UnknownSize()
  }

  function FileBytes(ps: seq<Piece>): seq<byte>
    requires AllReadable(ps)
  {
    if ps == [] then [] else PieceBytes(ps[0]) + FileBytes(ps[1..])
  }

  lemma ReadableAppend(a: seq<Piece>, b: seq<Piece>)
    requires AllReadable(a) && AllReadable(b)
    ensures AllReadable(a + b)
  {
  }

  lemma {:induction false} FileBytesAppend(a: seq<Piece>, b: seq<Piece>)
    requires AllReadable(a) && AllReadable(b) && AllReadable(a + b)
    ensures FileBytes(a + b) == FileBytes(a) + FileBytes(b)
  {
    if a == [] {
      assert a + b == b;
    } else {
      ConsAppend(a, b);
      FileBytesAppend(a[1..], b);
      Assoc(PieceBytes(a[0]), FileBytes(a[1..]), FileBytes(b));
    }
  }

  /** Reads a file from its start to the point where the data stops. */
  function ReadPieces(s: seq<byte>): seq<Piece>
    decreases |s|
  {
    match ReadNext(s)
    case Stop => []
    case Elem(id, body, rest) => [Whole(id, body)] + (if |rest| < |s| then ReadPieces(rest) else [])
    case Open(id, rest) => [Begin(id)] + (if |rest| < |s| then ReadPieces(rest) else [])
  }

  lemma ReadFirst(p: Piece, rest: seq<byte>)
    requires Readable(p)
    ensures ReadPieces(PieceBytes(p) + rest) == [p] + ReadPieces(rest)
  {
    IdBytes(p.id);
    if p.Whole? {
      ReadElement(p.id, p.body, rest);
    } else {
      ReadOpen(p.id, rest);
    }
  }

  /** A size cut short is no size. */
  lemma ReadCutSize(n: nat, k: nat)
    requires k < |EncodeSize(n)|
    ensures ReadSize(EncodeSize(n)[..k]) == NoSize
  {
  }

  /** An id or a size cut short stops the reader. */
  lemma ReadCutHead(id: nat, size: seq<byte>, k: nat)
    requires ValidId(id) && k < |EncodeId(id)| + |size|
    requires forall j :: 0 <= j < |size| ==> ReadSize(size[..j]) == NoSize
    ensures ReadNext((EncodeId(id) + size)[..k]) == Stop
  {
    var e := EncodeId(id);
    IdBytes(id);
    if k >= |e| {
      TakePastFirst(e, size, k);
      ReadIdOfEncode(id, size[..k - |e|]);
    }
  }

  /** So does a body cut short. */
  lemma ReadCutBody(id: nat, n: nat, part: seq<byte>)
    requires ValidId(id) && |part| < n < UNKNOWN
    ensures ReadNext(EncodeId(id) + EncodeSize(n) + part) == Stop
  {
    Assoc(EncodeId(id), EncodeSize(n), part);
    ReadIdOfEncode(id, EncodeSize(n) + part);
    SizeReadBackIff(n, part);
  }

  /** A piece cut short is not read at all. */
  lemma ReadCutPiece(p: Piece, k: nat)
    requires Readable(p) && k < |PieceBytes(p)|
    ensures ReadPieces(PieceBytes(p)[..k]) == []
  {
    if p.Begin? {
      ReadCutHead(p.id, UnknownSize(), k);
    } else {
      var head := EncodeId(p.id) + EncodeSize(|p.body|);
      if k < |head| {
        forall j | 0 <= j < |EncodeSize(|p.body|)|
          ensures ReadSize(EncodeSize(|p.body|)[..j]) == NoSize
        {
          ReadCutSize(|p.body|, j);
        }
        ReadCutHead(p.id, EncodeSize(|p.body|), k);
        assert PieceBytes(p)[..k] == head[..k];
      } else {
        TakePastFirst(head, p.body, k);
        ReadCutBody(p.id, |p.body|, p.body[..k - |head|]);
      }
    }
  }

  /** Reading a file cut after k bytes gives its first n pieces, which are all those before the cut. */
  ghost predicate CutAt(ps: seq<Piece>, k: nat, n: nat)
    requires AllReadable(ps) && k <= |FileBytes(ps)|
  {
    && n <= |ps|
    && ReadPieces(FileBytes(ps)[..k]) == ps[..n]
    && |FileBytes(ps[..n])| <= k
    && (n < |ps| ==> k < |FileBytes(ps[..n + 1])|)
  }

  lemma {:induction false} ReadCutFile(ps: seq<Piece>, k: nat) returns (n: nat)
    requires AllReadable(ps) && k <= |FileBytes(ps)|
    ensures CutAt(ps, k, n)
  {
    if ps == [] {
      n := 0;
    } else if k < |PieceBytes(ps[0])| {
      n := 0;
      assert FileBytes(ps)[..k] == PieceBytes(ps[0])[..k];
      ReadCutPiece(ps[0], k);
      FirstLength(ps, 0);
    } else {
      var j := ReadCutFile(ps[1..], k - |PieceBytes(ps[0])|);
      n := j + 1;
      CutAfterFirst(ps, k, j);
      FirstLength(ps, j);
      if n < |ps| {
        FirstLength(ps, n);
      }
    }
  }

  lemma FirstLength(ps: seq<Piece>, n: nat)
    requires AllReadable(ps) && n < |ps|
    ensures |FileBytes(ps[..n + 1])| == |PieceBytes(ps[0])| + |FileBytes(ps[1..][..n])|
  {
    assert ps[..n + 1][1..] == ps[1..][..n];
  }

  lemma CutAfterFirst(ps: seq<Piece>, k: nat, n: nat)
    requires AllReadable(ps) && ps != [] && |PieceBytes(ps[0])| <= k <= |FileBytes(ps)| && n < |ps|
    requires ReadPieces(FileBytes(ps[1..])[..k - |PieceBytes(ps[0])|]) == ps[1..][..n]
    ensures ReadPieces(FileBytes(ps)[..k]) == ps[..n + 1]
  {
    var f, tail := PieceBytes(ps[0]), FileBytes(ps[1..]);
    TakePastFirst(f, tail, k);
    ReadFirst(ps[0], tail[..k - |f|]);
    TakeCons(ps, n);
  }

  lemma TakeCons(ps: seq<Piece>, n: nat)
    requires n < |ps|
    ensures ps[..n + 1] == [ps[0]] + ps[1..][..n]
  {
  }

  /** A whole file is read back piece by piece. */
  lemma {:induction false} ReadWholeFile(ps: seq<Piece>)
    requires AllReadable(ps)
    ensures ReadPieces(FileBytes(ps)) == ps
  {
    if ps != [] {
      ReadWholeFile(ps[1..]);
      ReadFirst(ps[0], FileBytes(ps[1..]));
      HeadTail(ps);
    }
  }

  // ---- Frames ----

  datatype Frame = Frame(time: int, key: bool, payload: seq<byte>)

  /** The time of the cluster that is open after the pieces. */
  function ClusterTime(ps: seq<Piece>): nat {
    if ps == [] then 0
    else
      var last := ps[|ps| - 1];
      if last.Whole? && last.id == ID_TIMECODE then FromBe(last.body) else ClusterTime(ps[..|ps| - 1])
  }

  /** A block's 16-bit signed time. */
  function Signed16(high: byte, low: byte): int {
    if high < 0x80 then high as int * 256 + low as int else high as int * 256 + low as int - 0x1_0000
  }

  predicate IsBlock(p: Piece) {
    p.Whole? && p.id == ID_SIMPLE_BLOCK && |p.body| >= 4 && p.body[0] == 0x81
  }

  /** The frames of track 1, with the time a player gives them. */
  function FramesOf(ps: seq<Piece>): seq<Frame> {
    if ps == [] then []
    else
      var front, last := ps[..|ps| - 1], ps[|ps| - 1];
      FramesOf(front) +
      (if IsBlock(last)
       then [Frame(ClusterTime(front) + Signed16(last.body[1], last.body[2]), last.body[3] >= 0x80, last.body[4..])]
       else [])
  }

  lemma {:induction false} FramesPrefix(ps: seq<Piece>, n: nat)
    requires n <= |ps|
    ensures FramesOf(ps[..n]) <= FramesOf(ps)
    decreases |ps|
  {
    if n < |ps| {
      FramesPrefix(ps[..|ps| - 1], n);
      assert ps[..|ps| - 1][..n] == ps[..n];
    } else {
      assert ps[..n] == ps;
    }
  }

  lemma FramesSnoc(ps: seq<Piece>, p: Piece)
    ensures FramesOf(ps + [p]) == FramesOf(ps) +
            (if IsBlock(p)
             then [Frame(ClusterTime(ps) + Signed16(p.body[1], p.body[2]), p.body[3] >= 0x80, p.body[4..])]
             else [])
    ensures ClusterTime(ps + [p]) == if p.Whole? && p.id == ID_TIMECODE then FromBe(p.body) else ClusterTime(ps)
  {
    assert (ps + [p])[..|ps|] == ps;
  }
}
