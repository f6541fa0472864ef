/** Streaming a file to the other side's clipboard, and what the receiver makes of the stream. */
module ClipSender {
  import opened Bytes
  import opened Base64
  import opened ClipFiles

  /** A file as its sender meets it: the size it is said to have, the bytes reading it gives, and the
      number of the read that fails, if one does. */
  datatype File = Unopened | Opened(size: nat, content: seq<byte>, broken: Option<nat>)

  function TotalChunks(size: nat): (n: nat)
    ensures n > 0
  {
    Max(1, (size + RAW_CHUNK - 1) / RAW_CHUNK)
  }

  /** Where the reader is after k full reads. */
  function ReadPos(content: seq<byte>, k: nat): nat {
    Min(k * RAW_CHUNK, |content|)
  }

  function TextOf(content: seq<byte>, i: nat): string {
    Encode(content[ReadPos(content, i)..ReadPos(content, i + 1)])
  }

  function Texts(content: seq<byte>, k: nat): (ts: seq<string>)
    ensures |ts| == k
  {
    if k == 0 then [] else Texts(content, k - 1) + [TextOf(content, k - 1)]
  }

  function PieceOf(index: int, content: seq<byte>, i: nat, n: nat): Piece {
    Piece(index, true, i, n, TextOf(content, i))
  }

  /** The first k chunks of a file of n. */
  function Streamed(index: int, content: seq<byte>, k: nat, n: nat): (ps: seq<Piece>)
    ensures |ps| == k && AllAcceptable(ps)
  {
    if k == 0 then [] else Streamed(index, content, k - 1, n) + [PieceOf(index, content, k - 1, n)]
  }

  function Refusal(index: int): Piece {
    Piece(index, false, 0, 1, "")
  }

  /** The whole file can be opened and read. */
  predicate Served(f: File) {
    f.Opened? && (f.broken.Some? ==> f.broken.value >= TotalChunks(f.size))
  }

  /** How many chunks of a requested file are sent. */
  function ChunksSent(f: File): nat {
    if f.Unopened? then 0 else if Served(f) then TotalChunks(f.size) else f.broken.value
  }

  /** What goes on the bulk lane about it. */
  function OnBulk(index: int, f: File): seq<Piece> {
    if f.Unopened? then [] else Streamed(index, f.content, ChunksSent(f), TotalChunks(f.size))
  }

  /** And on the hi lane. */
  function OnHi(index: int, f: File): seq<Piece> {
    if Served(f) then [] else [Refusal(index)]
  }

  /** All messages about a requested file, in the order they are sent. */
  function Answer(index: int, f: File): seq<Piece> {
    OnBulk(index, f) + OnHi(index, f)
  }

  method ReadFull(content: seq<byte>, pos: nat) returns (buf: seq<byte>, next: nat)
    requires pos <= |content|
    ensures next == Min(pos + RAW_CHUNK, |content|) && buf == content[pos..next]
  {
    next := Min(pos + RAW_CHUNK, |content|);
    buf := content[pos..next];
  }

  lemma NextPos(content: seq<byte>, k: nat)
    ensures Min(ReadPos(content, k) + RAW_CHUNK, |content|) == ReadPos(content, k + 1)
  {
  }

  /** Streams a requested file: chunks go on the bulk lane, a refusal on the hi lane. */
  method ServeBytes(index: int, f: File) returns (hi: seq<Piece>, bulk: seq<Piece>)
    ensures hi == OnHi(index, f) && bulk == OnBulk(index, f)
  {
    hi, bulk := [], [];
    if f.Unopened? {
      return [Refusal(index)], bulk;
    }
    var total := (f.size + RAW_CHUNK - 1) / RAW_CHUNK;
    if total < 1 {
      total := 1;
    }
    var pos := 0;
    var i := 0;
    while i < total
      invariant 0 <= i <= total == TotalChunks(f.size) && pos == ReadPos(f.content, i)
      invariant f.broken.Some? ==> i <= f.broken.value || total <= f.broken.value
      invariant bulk == Streamed(index, f.content, i, total)
    {
      if f.broken.Some? && f.broken.value == i {
        return [Refusal(index)], bulk;
      }
      var buf, next := ReadFull(f.content, pos);
      NextPos(f.content, i);
      bulk := bulk + [Piece(index, true, i, total, Encode(buf))];
      StreamNext([], index, f.content, i, total);
      pos := next;
      i := i + 1;
    }
  }

  lemma {:induction false} StreamedAt(index: int, content: seq<byte>, k: nat, n: nat, j: nat)
    requires j < k
    ensures Streamed(index, content, k, n)[j] == PieceOf(index, content, j, n)
  {
    if j < k - 1 {
      StreamedAt(index, content, k - 1, n, j);
    }
  }

  /** Message by message: a file is refused exactly when it cannot be opened or read, and its chunks are numbered
      from 0 on under one total, which they make up if it is not refused. */
  lemma {:induction false} AnswerShape(index: int, f: File)
    ensures OnHi(index, f) == if Served(f) then [] else [Piece(index, false, 0, 1, "")]
    ensures f.Unopened? ==> OnBulk(index, f) == []
    ensures Served(f) ==> |OnBulk(index, f)| == TotalChunks(f.size)
    ensures var bulk := OnBulk(index, f);
            f.Opened? ==> forall k :: 0 <= k < |bulk| ==>
              bulk[k].index == index && bulk[k].ok && bulk[k].no == k && bulk[k].total == TotalChunks(f.size)
  {
    forall k | f.Opened? && 0 <= k < |OnBulk(index, f)|
      ensures OnBulk(index, f)[k] == PieceOf(index, f.content, k, TotalChunks(f.size))
    {
      StreamedAt(index, f.content, ChunksSent(f), TotalChunks(f.size), k);
    }
  }

  lemma JoinNext(content: seq<byte>, k: nat)
    ensures Encode(content[..ReadPos(content, k)]) + TextOf(content, k) == Encode(content[..ReadPos(content, k + 1)])
  {
    var from, to := ReadPos(content, k), ReadPos(content, k + 1);
    assert content[..to] == content[..from] + content[from..to];
    if from == |content| {
      assert content[from..to] == [];
      assert content[..from] + [] == content[..from];
    } else {
      EncodeConcat(content[..from], content[from..to]);
    }
  }

  /** Cut at multiples of three bytes, the chunks' texts join to the text of the whole. */
  lemma {:induction false} TextsJoin(content: seq<byte>, k: nat)
    ensures Flatten(Texts(content, k)) == Encode(content[..ReadPos(content, k)])
  {
    if k > 0 {
      TextsJoin(content, k - 1);
      FlattenSnoc(Texts(content, k - 1), TextOf(content, k - 1));
      JoinNext(content, k - 1);
    }
  }

  /** The slot holds the first k texts. */
  ghost predicate Got(s: Slot, content: seq<byte>, k: nat, n: nat) {
    s.total == n && s.got == k <= n == |s.parts| && s.parts[..k] == Texts(content, k)
  }

  lemma PlaceNext(s: Slot, index: int, content: seq<byte>, k: nat, n: nat)
    requires k < n && (k > 0 ==> Got(s, content, k, n))
    ensures Got(Placed(s, PieceOf(index, content, k, n)), content, k + 1, n)
  {
    var p := PieceOf(index, content, k, n);
    var b := Begin(s, p);
    assert Wanted(b, p) && b.parts[..k] == Texts(content, k);
    assert b.parts[k := p.d][..k + 1] == b.parts[..k] + [p.d];
  }

  lemma StreamNext(ps: seq<Piece>, index: int, content: seq<byte>, k: nat, n: nat)
    ensures ps + Streamed(index, content, k + 1, n) == (ps + Streamed(index, content, k, n))
            + [PieceOf(index, content, k, n)]
  {
  }

  /** A stream cut anywhere before its end leaves an open file open. */
  lemma {:induction false} StreamSlot(ps: seq<Piece>, index: int, content: seq<byte>, k: nat, n: nat)
    requires AllAcceptable(ps) && VerdictOf(ps) == Open && k < n
    ensures VerdictOf(ps + Streamed(index, content, k, n)) == Open
    ensures k > 0 ==> Got(SlotAfter(Chunks(ps + Streamed(index, content, k, n))), content, k, n)
  {
    if k == 0 {
      assert ps + [] == ps;
    } else {
      StreamSlot(ps, index, content, k - 1, n);
      StreamNext(ps, index, content, k - 1, n);
      StreamStep(ps + Streamed(index, content, k - 1, n), index, content, k - 1, n);
    }
  }

  lemma StreamStep(ps: seq<Piece>, index: int, content: seq<byte>, k: nat, n: nat)
    requires AllAcceptable(ps) && VerdictOf(ps) == Open && k + 1 < n
    requires k > 0 ==> Got(SlotAfter(Chunks(ps)), content, k, n)
    ensures VerdictOf(ps + [PieceOf(index, content, k, n)]) == Open
    ensures AllAcceptable(ps + [PieceOf(index, content, k, n)])
    ensures Got(SlotAfter(Chunks(ps + [PieceOf(index, content, k, n)])), content, k + 1, n)
  {
    var p := PieceOf(index, content, k, n);
    PlaceNext(SlotAfter(Chunks(ps)), index, content, k, n);
    VerdictStep(ps, p);
    StepSlot(ps, p);
  }

  lemma StreamEnd(ps: seq<Piece>, index: int, content: seq<byte>, n: nat)
    requires AllAcceptable(ps) && VerdictOf(ps) == Open && n > 0
    requires n > 1 ==> Got(SlotAfter(Chunks(ps)), content, n - 1, n)
    ensures VerdictOf(ps + [PieceOf(index, content, n - 1, n)]) == Saved(content[..ReadPos(content, n)])
  {
    var s, p := SlotAfter(Chunks(ps)), PieceOf(index, content, n - 1, n);
    PlaceNext(s, index, content, n - 1, n);
    VerdictStep(ps, p);
    AllGot(Placed(s, p), content, n);
  }

  lemma AllGot(s: Slot, content: seq<byte>, n: nat)
    requires Got(s, content, n, n) && n > 0
    ensures Complete(s) && Decoded(Flatten(s.parts)) == Saved(content[..ReadPos(content, n)])
  {
    assert s.parts[..n] == s.parts;
    TextsJoin(content, n);
    DecodeEncode(content[..ReadPos(content, n)]);
  }

  lemma StepSlot(ps: seq<Piece>, p: Piece)
    requires AllAcceptable(ps) && Acceptable(p) && p.ok
    ensures SlotAfter(Chunks(ps + [p])) == Drain(Placed(SlotAfter(Chunks(ps)), p))
  {
    assert (ps + [p])[..|ps|] == ps;
    assert (Chunks(ps) + [p])[..|Chunks(ps)|] == Chunks(ps);
  }

  lemma StreamRecovered(ps: seq<Piece>, index: int, content: seq<byte>, n: nat)
    requires AllAcceptable(ps) && VerdictOf(ps) == Open && n > 0
    ensures VerdictOf(ps + Streamed(index, content, n, n)) == Saved(content[..ReadPos(content, n)])
  {
    StreamSlot(ps, index, content, n - 1, n);
    StreamNext(ps, index, content, n - 1, n);
    StreamEnd(ps + Streamed(index, content, n - 1, n), index, content, n);
  }

  lemma ServedAnswer(index: int, f: File)
    requires Served(f)
    ensures Answer(index, f) == Streamed(index, f.content, TotalChunks(f.size), TotalChunks(f.size))
  {
  }

  /** Whatever came before for an open file, a whole stream settles it with the bytes the sender read. */
  lemma FileRecovered(ps: seq<Piece>, index: int, f: File)
    requires AllAcceptable(ps) && VerdictOf(ps) == Open && Served(f)
    ensures VerdictOf(ps + Answer(index, f)) == Saved(f.content[..ReadPos(f.content, TotalChunks(f.size))])
  {
    ServedAnswer(index, f);
    StreamRecovered(ps, index, f.content, TotalChunks(f.size));
  }

  lemma TakeAllIff(content: seq<byte>, k: nat)
    requires k <= |content|
    ensures content[..k] == content <==> k == |content|
  {
  }

  /** As many chunks as the size takes, at least one. */
  lemma {:induction false} TotalCovers(size: nat)
    ensures size <= TotalChunks(size) * 36_864
    ensures TotalChunks(size) > 1 ==> (TotalChunks(size) - 1) * 36_864 < size
  {
  }

  /** A stream gives the file back exactly when the file has not outgrown the chunks counted at the
      start: always when it still has the size it was said to have. */
  lemma RecoveredIff(ps: seq<Piece>, index: int, f: File)
    requires AllAcceptable(ps) && VerdictOf(ps) == Open && Served(f)
    ensures VerdictOf(ps + Answer(index, f)) == Saved(f.content) <==> |f.content| <= TotalChunks(f.size) * 36_864
    ensures f.size == |f.content| ==> VerdictOf(ps + Answer(index, f)) == Saved(f.content)
  {
    FileRecovered(ps, index, f);
    TakeAllIff(f.content, ReadPos(f.content, TotalChunks(f.size)));
    TotalCovers(f.size);
  }

  lemma {:induction false} SettledStays(ps: seq<Piece>, qs: seq<Piece>)
    requires VerdictOf(ps) != Open
    ensures VerdictOf(ps + qs) == VerdictOf(ps)
  {
    if qs == [] {
      assert ps + qs == ps;
    } else {
      var front, q := qs[..|qs| - 1], qs[|qs| - 1];
      SettledStays(ps, front);
      FrontLast(qs);
      Assoc(ps, front, [q]);
      Snoc(ps + front, q);
    }
  }

  lemma StreamedGrows(index: int, content: seq<byte>, k: nat, n: nat, j: nat)
    requires j <= k
    ensures Streamed(index, content, j, n) <= Streamed(index, content, k, n)
  {
    var s := (i: nat) => Streamed(index, content, i, n);
    forall i: nat
      ensures s(i) <= s(i + 1)
    {
      assert s(i + 1) == s(i) + [PieceOf(index, content, i, n)];
    }
    Growing(s, j, k);
  }

  /** A file that cannot be opened or read to its end is refused, never saved in part, wherever among the
      chunks the refusal arrives: it is on the lane that may overtake them. */
  lemma BrokenIsRefused(ps: seq<Piece>, index: int, f: File, j: nat)
    requires AllAcceptable(ps) && VerdictOf(ps) == Open && !Served(f) && j <= |OnBulk(index, f)|
    ensures OnHi(index, f) == [Refusal(index)]
    ensures VerdictOf(ps + (OnBulk(index, f)[..j] + [Refusal(index)]) + OnBulk(index, f)[j..]) == Failed
  {
    var bulk := OnBulk(index, f);
    if f.Opened? {
      StreamedGrows(index, f.content, f.broken.value, TotalChunks(f.size), j);
      PrefixIsTake(Streamed(index, f.content, j, TotalChunks(f.size)), bulk);
      CutStreamFails(ps, index, f.content, j, TotalChunks(f.size));
    } else {
      RefusalFails(ps, index);
      assert bulk[..j] + [Refusal(index)] == [Refusal(index)];
    }
    SettledStays(ps + (bulk[..j] + [Refusal(index)]), bulk[j..]);
  }

  lemma CutStreamFails(ps: seq<Piece>, index: int, content: seq<byte>, k: nat, n: nat)
    requires AllAcceptable(ps) && VerdictOf(ps) == Open && k < n
    ensures VerdictOf(ps + (Streamed(index, content, k, n) + [Refusal(index)])) == Failed
  {
    StreamSlot(ps, index, content, k, n);
    Assoc(ps, Streamed(index, content, k, n), [Refusal(index)]);
    RefusalFails(ps + Streamed(index, content, k, n), index);
  }

  lemma RefusalFails(ps: seq<Piece>, index: int)
    requires AllAcceptable(ps) && VerdictOf(ps) == Open
    ensures VerdictOf(ps + [Refusal(index)]) == Failed
  {
    VerdictStep(ps, Refusal(index));
  }
}
