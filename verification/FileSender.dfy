/** The two senders of a file: one streams it from its reads, the other cuts up what it has in memory. The
    offer and a "failed" go on the hi lane, data and the closing message on the bulk lane. */
module FileSender {
  import opened Bytes
  import opened Base64
  import opened FileReceiver

  const CHUNK: nat := 36 * 1024

  datatype Status = More | EndOfFile | Broken

  /** One read of the file into the chunk buffer. */
  datatype Read = Read(bytes: seq<byte>, status: Status)

  datatype Verdict = Streamed | EmptyFile | ReadFailed | Truncated

  /** One message for each chunk, numbered from num on. */
  function DataMsgs(id: string, num: nat, chunks: seq<seq<byte>>): seq<FtMsg> {
    seq(|chunks|, i requires 0 <= i < |chunks| => Data(id, num + i, Encode(chunks[i])))
  }

  lemma {:induction false} DataMsgsSnoc(id: string, num: nat, chunks: seq<seq<byte>>, x: seq<byte>)
    ensures DataMsgs(id, num, chunks + [x]) == DataMsgs(id, num, chunks) + [Data(id, num + |chunks|, Encode(x))]
  {
  }

  lemma DataMsgsAreData(id: string, num: nat, chunks: seq<seq<byte>>)
    ensures forall m :: m in DataMsgs(id, num, chunks) ==> m.Data?
  {
  }

  lemma {:induction false} DataMsgsSplit(id: string, num: nat, a: seq<seq<byte>>, b: seq<seq<byte>>)
    ensures DataMsgs(id, num, a + b) == DataMsgs(id, num, a) + DataMsgs(id, num + |a|, b)
  {
    if b == [] {
      assert a + b == a && DataMsgs(id, num, a) + [] == DataMsgs(id, num, a);
    } else {
      var front, x := b[..|b| - 1], b[|b| - 1];
      DataMsgsSplit(id, num, a, front);
      DataMsgsSnoc(id, num, a + front, x);
      DataMsgsSnoc(id, num + |a|, front, x);
      FrontLast(b);
      Assoc(a, front, [x]);
      Assoc(DataMsgs(id, num, a), DataMsgs(id, num + |a|, front), [Data(id, num + |a| + |front|, Encode(x))]);
    }
  }

  /** What a whole file puts on the bulk lane. */
  function WholeBulk(id: string, chunks: seq<seq<byte>>): seq<FtMsg> {
    DataMsgs(id, 0, chunks) + [FtMsg.End(id)]
  }

  /** The bytes of the reads from the i-th on, up to and including the one that ends the file. */
  function Content(rs: seq<Read>, i: nat): seq<byte>
    requires i <= |rs|
    decreases |rs| - i
  {
    if i == |rs| then []
    else rs[i].bytes + (if rs[i].status == More then Content(rs, i + 1) else [])
  }

  function Ending(rs: seq<Read>, i: nat): Status
    requires i <= |rs|
    decreases |rs| - i
  {
    if i == |rs| then More
    else if rs[i].status == More then Ending(rs, i + 1) else rs[i].status
  }

  predicate NonEmpty(chunks: seq<seq<byte>>) {
    forall i :: 0 <= i < |chunks| ==> chunks[i] != []
  }

  lemma {:induction false} FlattenLonger(chunks: seq<seq<byte>>, x: seq<byte>)
    ensures |Flatten(chunks + [x])| == |Flatten(chunks)| + |x|
  {
    FlattenSnoc(chunks, x);
  }

  lemma {:induction false} ChunkSent(id: string, chunks: seq<seq<byte>>, x: seq<byte>)
    ensures DataMsgs(id, 0, chunks + [x]) == DataMsgs(id, 0, chunks) + [Data(id, |chunks|, Encode(x))]
    ensures |Flatten(chunks + [x])| == |Flatten(chunks)| + |x|
  {
    FlattenLonger(chunks, x);
    DataMsgsSnoc(id, 0, chunks, x);
  }

  lemma StillToSend(chunks: seq<seq<byte>>, x: seq<byte>, rest: seq<seq<byte>>)
    ensures chunks + ([x] + rest) == (chunks + [x]) + rest && [] + rest == rest
  {
  }

  /** The chunks sent for the reads from the i-th on: a read that gives nothing sends nothing. */
  function SentChunks(rs: seq<Read>, i: nat): seq<seq<byte>>
    requires i <= |rs|
    decreases |rs| - i
  {
    if i == |rs| then []
    else
      (if rs[i].bytes == [] then [] else [rs[i].bytes]) + (if rs[i].status == More then SentChunks(rs, i + 1) else [])
  }

  lemma {:induction false} SentChunksJoin(rs: seq<Read>, i: nat)
    requires i <= |rs|
    ensures NonEmpty(SentChunks(rs, i)) && Flatten(SentChunks(rs, i)) == Content(rs, i)
    decreases |rs| - i
  {
    if i < |rs| {
      var rest := if rs[i].status == More then SentChunks(rs, i + 1) else [];
      if rs[i].status == More {
        SentChunksJoin(rs, i + 1);
      }
      FlattenFirst(rs[i].bytes, rest);
    }
  }

  lemma FlattenFirst(x: seq<byte>, rest: seq<seq<byte>>)
    requires NonEmpty(rest)
    ensures var all := (if x == [] then [] else [x]) + rest; NonEmpty(all) && Flatten(all) == x + Flatten(rest)
  {
    if x == [] {
      assert [] + rest == rest && [] + Flatten(rest) == Flatten(rest);
    } else {
      assert ([x] + rest)[1..] == rest;
    }
  }

  function VerdictOf(size: nat, rs: seq<Read>): Verdict {
    if size == 0 then EmptyFile
    else if Ending(rs, 0) == Broken then ReadFailed
    else if |Content(rs, 0)| != size then Truncated
    else Streamed
  }

  /** What goes on the hi lane: nothing for an empty file, otherwise the offer, and the sender's "failed"
      when the file could not be read to its end at its size. */
  function ExportHi(id: string, name: string, size: nat, rs: seq<Read>): seq<FtMsg> {
    match VerdictOf(size, rs)
    case EmptyFile => []
    case Streamed => [Offer(id, name, size)]
    case _ => [Offer(id, name, size), Failure(id)]
  }

  /** What goes on the bulk lane: the chunks, and the closing message only behind a whole file. */
  function ExportBulk(id: string, size: nat, rs: seq<Read>): seq<FtMsg> {
    match VerdictOf(size, rs)
    case EmptyFile => []
    case Streamed => WholeBulk(id, SentChunks(rs, 0))
    case _ => DataMsgs(id, 0, SentChunks(rs, 0))
  }

  /** A read failed, after reads that did not end the file. */
  predicate ReadBroke(rs: seq<Read>) {
    exists k :: 0 <= k < |rs| && rs[k].status == Broken && forall j :: 0 <= j < k ==> rs[j].status == More
  }

  lemma {:induction false} EndingIs(rs: seq<Read>, i: nat)
    requires i <= |rs| && forall j :: 0 <= j < i ==> rs[j].status == More
    ensures Ending(rs, i) == Broken <==> ReadBroke(rs)
    decreases |rs| - i
  {
    if i < |rs| && rs[i].status == More {
      EndingIs(rs, i + 1);
    } else if ReadBroke(rs) {
      var k :| 0 <= k < |rs| && rs[k].status == Broken && forall j :: 0 <= j < k ==> rs[j].status == More;
      assert k >= i;
    }
  }

  /** The viewer always hears how an export ended: by the closing message behind the whole file, or by "failed"
      behind the offer, exactly when a read failed or the bytes read are not as many as announced. */
  lemma ExportReports(id: string, name: string, size: nat, rs: seq<Read>)
    requires Ending(rs, 0) != More
    ensures var hi, bulk := ExportHi(id, name, size, rs), ExportBulk(id, size, rs);
            && (size == 0 ==> hi == [] && bulk == [])
            && (size > 0 ==>
                  && hi != [] && hi[0] == Offer(id, name, size) && (FtMsg.End(id) in bulk <==> Failure(id) !in hi)
                  && (Failure(id) in hi <==> ReadBroke(rs) || |Flatten(SentChunks(rs, 0))| != size)
                  && |SentChunks(rs, 0)| <= |bulk|)
            && (forall k :: 0 <= k < |bulk| && bulk[k] != FtMsg.End(id) ==>
                  k < |SentChunks(rs, 0)| && bulk[k] == Data(id, k, Encode(SentChunks(rs, 0)[k])))
  {
    EndingIs(rs, 0);
    SentChunksJoin(rs, 0);
    DataMsgsAreData(id, 0, SentChunks(rs, 0));
    var all := WholeBulk(id, SentChunks(rs, 0));
    assert all[|all| - 1] == FtMsg.End(id);
  }

  /** Streams a file of the given size, however the reads split it. */
  method ExportFileStreaming(id: string, name: string, size: nat, rs: seq<Read>)
    returns (hi: seq<FtMsg>, bulk: seq<FtMsg>, v: Verdict)
    requires Ending(rs, 0) != More
    ensures v == VerdictOf(size, rs)
    ensures hi == ExportHi(id, name, size, rs) && bulk == ExportBulk(id, size, rs)
    ensures size == 0 ==> hi == [] && bulk == []
    ensures size > 0 ==> hi != [] && hi[0] == Offer(id, name, size) && (FtMsg.End(id) in bulk <==> Failure(id) !in hi)
    ensures size > 0 ==>
              (Failure(id) in hi <==> ReadBroke(rs) || |Flatten(SentChunks(rs, 0))| != size)
    ensures forall k :: 0 <= k < |bulk| && bulk[k] != FtMsg.End(id) ==>
              k < |SentChunks(rs, 0)| && bulk[k] == Data(id, k, Encode(SentChunks(rs, 0)[k]))
    ensures size > 0 ==> |SentChunks(rs, 0)| <= |bulk|
  {
    hi, bulk, v := SendReads(id, name, size, rs);
    ExportReports(id, name, size, rs);
  }

  /** Its read loop. */
  method SendReads(id: string, name: string, size: nat, rs: seq<Read>)
    returns (hi: seq<FtMsg>, bulk: seq<FtMsg>, v: Verdict)
    requires Ending(rs, 0) != More
    ensures v == VerdictOf(size, rs)
    ensures hi == ExportHi(id, name, size, rs) && bulk == ExportBulk(id, size, rs)
  {
    hi, bulk := [], [];
    if size == 0 {
      return hi, bulk, EmptyFile;
    }
    hi := [Offer(id, name, size)];
    ghost var chunks: seq<seq<byte>> := [];
    var num, sent, i := 0, 0, 0;
    SentChunksJoin(rs, 0);
    while true
      invariant 0 <= i <= |rs| && Ending(rs, i) == Ending(rs, 0)
      invariant chunks + SentChunks(rs, i) == SentChunks(rs, 0)
      invariant num == |chunks| && sent == |Flatten(chunks)| && bulk == DataMsgs(id, 0, chunks)
      decreases |rs| - i
    {
      var r := rs[i];
      ghost var rest := if r.status == More then SentChunks(rs, i + 1) else [];
      ChunkSent(id, chunks, r.bytes);
      StillToSend(chunks, r.bytes, rest);
      if |r.bytes| > 0 {
        bulk := bulk + [Data(id, num, Encode(r.bytes))];
        chunks := chunks + [r.bytes];
        num := num + 1;
        sent := sent + |r.bytes|;
      }
      if r.status == EndOfFile {
        assert chunks == SentChunks(rs, 0);
        break;
      } else if r.status == Broken {
        hi := hi + [Failure(id)];
        assert chunks == SentChunks(rs, 0);
        return hi, bulk, ReadFailed;
      }
      i := i + 1;
    }
    if sent != size {
      hi := hi + [Failure(id)];
      return hi, bulk, Truncated;
    }
    return hi, bulk + [FtMsg.End(id)], Streamed;
  }

  /** A file in chunks of 36 KiB, the last one maybe shorter. */
  function Cut(data: seq<byte>): seq<seq<byte>>
    decreases |data|
  {
    if data == [] then [] else [data[..Min(CHUNK, |data|)]] + Cut(data[Min(CHUNK, |data|)..])
  }

  lemma {:induction false} CutJoins(data: seq<byte>)
    ensures NonEmpty(Cut(data)) && Flatten(Cut(data)) == data
    ensures forall i :: 0 <= i < |Cut(data)| - 1 ==> |Cut(data)[i]| == 36_864
    ensures forall i :: 0 <= i < |Cut(data)| ==> |Cut(data)[i]| <= 36_864
    decreases |data|
  {
    if data != [] {
      var n := Min(CHUNK, |data|);
      CutJoins(data[n..]);
      assert Cut(data)[1..] == Cut(data[n..]);
      assert data == data[..n] + data[n..];
    }
  }

  /** Sends a file already read into memory, in chunks of 36 KiB. */
  method ServeExport(id: string, name: string, data: seq<byte>) returns (hi: seq<FtMsg>, bulk: seq<FtMsg>)
    ensures hi == [Offer(id, name, |data|)]
    ensures bulk == WholeBulk(id, Cut(data))
    ensures |bulk| == |Cut(data)| + 1 && bulk[|Cut(data)|] == FtMsg.End(id)
    ensures forall k :: 0 <= k < |Cut(data)| ==> bulk[k] == Data(id, k, Encode(Cut(data)[k]))
  {
    hi, bulk := [Offer(id, name, |data|)], [];
    ghost var chunks: seq<seq<byte>> := [];
    var num, off := 0, 0;
    while off < |data|
      invariant num == |chunks| && 0 <= off
      invariant chunks + Cut(data[Min(off, |data|)..]) == Cut(data)
      invariant bulk == DataMsgs(id, 0, chunks)
      decreases |data| - off
    {
      var end := off + CHUNK;
      if end > |data| {
        end := |data|;
      }
      ChunkServed(id, data, off, chunks);
      bulk := bulk + [Data(id, num, Encode(data[off..end]))];
      chunks := chunks + [data[off..end]];
      num := num + 1;
      off := off + CHUNK;
    }
    assert chunks == Cut(data);
    bulk := bulk + [FtMsg.End(id)];
  }

  lemma ChunkServed(id: string, data: seq<byte>, off: nat, chunks: seq<seq<byte>>)
    requires off < |data|
    ensures var end := Min(off + CHUNK, |data|); var x := data[off..end];
            && DataMsgs(id, 0, chunks + [x]) == DataMsgs(id, 0, chunks) + [Data(id, |chunks|, Encode(x))]
            && chunks + Cut(data[off..]) == chunks + [x] + Cut(data[end..])
  {
    var end := Min(off + CHUNK, |data|);
    CutNext(data, off);
    DataMsgsSnoc(id, 0, chunks, data[off..end]);
    Assoc(chunks, [data[off..end]], Cut(data[end..]));
  }

  lemma CutNext(data: seq<byte>, off: nat)
    requires off < |data|
    ensures var end := Min(off + CHUNK, |data|); Cut(data[off..]) == [data[off..end]] + Cut(data[end..])
  {
    var end, rest := Min(off + CHUNK, |data|), data[off..];
    assert rest[..Min(CHUNK, |rest|)] == data[off..end] && rest[Min(CHUNK, |rest|)..] == data[end..];
  }
}
