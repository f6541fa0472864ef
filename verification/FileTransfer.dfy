/** A file from sender to receiver: the sender's messages, carried by the connection among any other
    traffic, handled by the receiver among any other transfers. */
module FileTransfer {
  import opened Bytes
  import opened Base64
  import opened IpcFraming
  import opened IpcConn
  import opened FileReceiver
  import opened FileReceiverProof
  import opened FileReceiverProps
  import opened FileReceiverCounts
  import opened FileReceiverAlone
  import opened FileSender

  // ---- What reaches one transfer ----

  /** The transfer messages among what the peer read, as its decoder sees them. */
  function Delivered(ms: seq<Msg>, dec: Msg -> Option<FtMsg>): seq<FtMsg> {
    if ms == [] then []
    else
      var last := dec(ms[|ms| - 1]);
      Delivered(ms[..|ms| - 1], dec) + (if last.Some? then [last.value] else [])
  }

  function OfId(fs: seq<FtMsg>, id: string): seq<FtMsg> {
    if fs == [] then []
    else
      var last := fs[|fs| - 1];
      OfId(fs[..|fs| - 1], id) + (if last.id == id then [last] else [])
  }

  function Mine(ms: seq<Msg>, dec: Msg -> Option<FtMsg>, id: string): seq<FtMsg> {
    OfId(Delivered(ms, dec), id)
  }

  function MineOne(m: Msg, dec: Msg -> Option<FtMsg>, id: string): seq<FtMsg> {
    if dec(m).Some? && dec(m).value.id == id then [dec(m).value] else []
  }

  lemma MineSnoc(ms: seq<Msg>, m: Msg, dec: Msg -> Option<FtMsg>, id: string)
    ensures Mine(ms + [m], dec, id) == Mine(ms, dec, id) + MineOne(m, dec, id)
  {
    assert (ms + [m])[..|ms|] == ms;
    var before := Delivered(ms, dec);
    if dec(m).Some? {
      assert (before + [dec(m).value])[..|before|] == before;
    } else {
      assert before + [] == before;
    }
  }

  lemma {:induction false} MinePrefix(a: seq<Msg>, b: seq<Msg>, dec: Msg -> Option<FtMsg>, id: string)
    requires a <= b
    ensures Mine(a, dec, id) <= Mine(b, dec, id)
    decreases |b|
  {
    if a != b {
      var b' := b[..|b| - 1];
      MinePrefix(a, b', dec, id);
      assert b == b' + [b[|b| - 1]];
      MineSnoc(b', b[|b| - 1], dec, id);
    }
  }

  lemma {:induction false} MineSubseq(a: seq<Msg>, b: seq<Msg>, dec: Msg -> Option<FtMsg>, id: string)
    requires Subseq(a, b) && Mine(b, dec, id) == []
    ensures Mine(a, dec, id) == []
    decreases |b|
  {
    if a != [] {
      var a', b' := a[..|a| - 1], b[..|b| - 1];
      assert b == b' + [b[|b| - 1]] && a == a' + [a[|a| - 1]];
      MineSnoc(b', b[|b| - 1], dec, id);
      if Subseq(a, b') {
        MineSubseq(a, b', dec, id);
      } else {
        MineSubseq(a', b', dec, id);
        MineSnoc(a', a[|a| - 1], dec, id);
      }
    }
  }

  /** b with h put in at j. */
  predicate Spliced(m: seq<FtMsg>, b: seq<FtMsg>, h: seq<FtMsg>, j: nat) {
    j <= |b| && m == b[..j] + h + b[j..]
  }

  lemma SpliceGrow(m: seq<FtMsg>, b: seq<FtMsg>, h: seq<FtMsg>, j: nat, x: seq<FtMsg>)
    requires Spliced(m, b, h, j)
    ensures Spliced(m + x, b + x, h, j)
    ensures h == [] ==> Spliced(m + x, b, x, |b|)
  {
    assert (b + x)[..j] == b[..j] && (b + x)[j..] == b[j..] + x;
  }

  /** What was read of this transfer splits into what came by each lane. */
  ghost predicate SplitAt(read: seq<Item>, dec: Msg -> Option<FtMsg>, id: string, j: nat) {
    Spliced(Mine(Msgs(read), dec, id), Mine(Proj(read, Bulk), dec, id), Mine(Proj(read, Hi), dec, id), j)
  }

  /** An interleaving of one hi message with bulk messages puts it somewhere among them. */
  lemma {:induction false} OfferAmongBulk(read: seq<Item>, dec: Msg -> Option<FtMsg>, id: string) returns (j: nat)
    requires |Mine(Proj(read, Hi), dec, id)| <= 1 && Mine(Proj(read, Vid), dec, id) == []
    ensures SplitAt(read, dec, id, j)
  {
    if read == [] {
      j := 0;
    } else {
      var front, x := read[..|read| - 1], read[|read| - 1];
      assert read == front + [x];
      MineLane(front, x, dec, id, Hi);
      MineLane(front, x, dec, id, Vid);
      j := OfferAmongBulk(front, dec, id);
      j := SplitStep(front, x, dec, id, j);
    }
  }

  lemma SplitStep(front: seq<Item>, x: Item, dec: Msg -> Option<FtMsg>, id: string, i: nat) returns (j: nat)
    requires SplitAt(front, dec, id, i)
    requires |Mine(Proj(front + [x], Hi), dec, id)| <= 1 && Mine(Proj(front + [x], Vid), dec, id) == []
    ensures SplitAt(front + [x], dec, id, j)
  {
    MsgsSnoc(front, x);
    MineSnoc(Msgs(front), x.msg, dec, id);
    MineLane(front, x, dec, id, Hi);
    MineLane(front, x, dec, id, Bulk);
    MineLane(front, x, dec, id, Vid);
    j := SpliceNext(Mine(Msgs(front), dec, id), Mine(Proj(front, Bulk), dec, id), Mine(Proj(front, Hi), dec, id),
                    i, MineOne(x.msg, dec, id), x.lane);
  }

  lemma SpliceNext(m: seq<FtMsg>, b: seq<FtMsg>, h: seq<FtMsg>, i: nat, x: seq<FtMsg>, lane: Lane) returns (j: nat)
    requires Spliced(m, b, h, i) && (lane == Vid ==> x == [])
    requires lane == Hi ==> |h + x| <= 1
    ensures Spliced(m + x, b + (if lane == Bulk then x else []), h + (if lane == Hi then x else []), j)
  {
    SpliceGrow(m, b, h, i, x);
    assert b + [] == b && h + [] == h && (x == [] ==> m + x == m && b + x == b && h + x == h);
    j := if lane == Hi && x != [] then |b| else i;
  }

  lemma MineLane(front: seq<Item>, x: Item, dec: Msg -> Option<FtMsg>, id: string, lane: Lane)
    ensures Mine(Proj(front + [x], lane), dec, id)
         == Mine(Proj(front, lane), dec, id) + (if lane == x.lane then MineOne(x.msg, dec, id) else [])
  {
    ProjSnoc(front, x, lane);
    if lane == x.lane {
      MineSnoc(Proj(front, lane), x.msg, dec, id);
    } else {
      assert Proj(front, lane) + [] == Proj(front, lane);
    }
  }

  // ---- The receiver's side ----

  /** The receiver handles the delivered messages, and for this transfer the file system obliges. */
  predicate Handles(evs: seq<Event>, fs: seq<FtMsg>, id: string) {
    && |evs| == |fs|
    && (forall i :: 0 <= i < |evs| ==> evs[i].Handle? && evs[i].msg == fs[i])
    && (forall i :: 0 <= i < |evs| ==> (fs[i].id == id ==> evs[i].createOk && evs[i].writeOk))
  }

  function Plain(fs: seq<FtMsg>): seq<Event> {
    seq(|fs|, i requires 0 <= i < |fs| => Handle(fs[i], true, true))
  }

  lemma {:induction false} ForIdPlain(evs: seq<Event>, fs: seq<FtMsg>, id: string)
    requires Handles(evs, fs, id)
    ensures ForId(evs, id) == Plain(OfId(fs, id))
  {
    if evs != [] {
      ForIdPlain(evs[..|evs| - 1], fs[..|fs| - 1], id);
    }
  }

  /** The private receiver on messages for which the file system obliges. */
  function Fold(limit: nat, o: One, fs: seq<FtMsg>): One
    decreases |fs|
  {
    if fs == [] then o else Fold(limit, OneStep(limit, o, Handle(fs[0], true, true)), fs[1..])
  }

  lemma {:induction false} FoldAppend(limit: nat, o: One, a: seq<FtMsg>, b: seq<FtMsg>)
    ensures Fold(limit, o, a + b) == Fold(limit, Fold(limit, o, a), b)
    decreases |a|
  {
    if a == [] {
      assert a + b == b;
    } else {
      assert (a + b)[1..] == a[1..] + b;
      FoldAppend(limit, OneStep(limit, o, Handle(a[0], true, true)), a[1..], b);
    }
  }

  lemma FoldOne(limit: nat, o: One, m: FtMsg)
    ensures Fold(limit, o, [m]) == OneStep(limit, o, Handle(m, true, true))
  {
    assert [m][1..] == [];
  }

  lemma {:induction false} RunIsFold(limit: nat, fs: seq<FtMsg>)
    ensures OneRun(limit, Plain(fs)) == Fold(limit, NOTHING, fs)
  {
    if fs != [] {
      var front, m := fs[..|fs| - 1], fs[|fs| - 1];
      RunIsFold(limit, front);
      assert Plain(fs)[..|fs| - 1] == Plain(front);
      assert fs == front + [m];
      FoldAppend(limit, NOTHING, front, [m]);
      FoldOne(limit, Fold(limit, NOTHING, front), m);
    }
  }

  predicate NoWhole(out: seq<Outcome>) {
    forall i :: 0 <= i < |out| ==> !out[i].Whole?
  }

  // ---- What the receiver makes of a part of the sender's messages ----

  /** The bytes that data messages carry. */
  function Load(ms: seq<FtMsg>): seq<byte>
    requires AllData(ms)
  {
    if ms == [] then [] else Load(ms[..|ms| - 1]) + Decode(ms[|ms| - 1].d).value
  }

  predicate AllData(ms: seq<FtMsg>) {
    forall i :: 0 <= i < |ms| ==> ms[i].Data? && Decode(ms[i].d).Some?
  }

  /** Data for an open transfer accumulates; data for none is ignored. */
  lemma {:induction false} DataFold(limit: nat, o: One, ms: seq<FtMsg>)
    requires AllData(ms) && NoWhole(o.out)
    requires o.phase.Receiving? ==> |o.phase.content| + |Load(ms)| <= limit
    ensures var r := Fold(limit, o, ms);
            && NoWhole(r.out)
            && (o.phase.Idle? ==> r == o)
            && (o.phase.Receiving? ==> r.phase.Receiving? && r.phase.size == o.phase.size
                                       && r.phase.content == o.phase.content + Load(ms))
  {
    if ms == [] {
      assert o.phase.Receiving? ==> o.phase.content + [] == o.phase.content;
    } else {
      var front, m := ms[..|ms| - 1], ms[|ms| - 1];
      DataFold(limit, o, front);
      FrontLast(ms);
      FoldAppend(limit, o, front, [m]);
      FoldOne(limit, Fold(limit, o, front), m);
      if o.phase.Receiving? {
        DataStep(limit, Fold(limit, o, front), Decode(m.d).value);
        Assoc(o.phase.content, Load(front), Decode(m.d).value);
      }
    }
  }

  lemma DataStep(limit: nat, o: One, chunk: seq<byte>)
    requires NoWhole(o.out)
    requires o.phase.Receiving? && |o.phase.content| + |chunk| <= limit
    ensures var r := OneData(limit, o, chunk, true);
            NoWhole(r.out) && r.phase.Receiving? && r.phase.size == o.phase.size
            && r.phase.content == o.phase.content + chunk
  {
  }

  /** Of a sender's chunks, any that are missing make the bytes too few. */
  lemma {:induction false} LoadOfPart(ms: seq<FtMsg>, id: string, num: nat, chunks: seq<seq<byte>>)
    requires Subseq(ms, DataMsgs(id, num, chunks)) && NonEmpty(chunks)
    ensures AllData(ms) && |Load(ms)| <= |Flatten(chunks)|
    ensures |Load(ms)| == |Flatten(chunks)| <==> ms == DataMsgs(id, num, chunks)
    ensures ms == DataMsgs(id, num, chunks) ==> Load(ms) == Flatten(chunks)
    decreases |chunks|
  {
    if chunks != [] {
      var front, x := chunks[..|chunks| - 1], chunks[|chunks| - 1];
      var before, m := DataMsgs(id, num, front), Data(id, num + |front|, Encode(x));
      FrontLast(chunks);
      DataMsgsSnoc(id, num, front, x);
      FlattenSnoc(front, x);
      Snoc(before, m);
      DecodeEncode(x);
      if Subseq(ms, before) {
        LoadOfPart(ms, id, num, front);
        SubseqShorter(ms, before);
      } else {
        LoadOfPart(ms[..|ms| - 1], id, num, front);
        FrontLast(ms);
        LoadNext(ms[..|ms| - 1], before, m, x, Flatten(front));
      }
    }
  }

  lemma LoadNext(ms: seq<FtMsg>, before: seq<FtMsg>, m: FtMsg, x: seq<byte>, content: seq<byte>)
    requires AllData(ms) && m.Data? && Decode(m.d) == Some(x) && |Load(ms)| <= |content|
    requires (|Load(ms)| == |content| <==> ms == before) && (ms == before ==> Load(ms) == content)
    ensures AllData(ms + [m]) && Load(ms + [m]) == Load(ms) + x
    ensures |Load(ms + [m])| == |content| + |x| <==> ms + [m] == before + [m]
    ensures ms + [m] == before + [m] ==> Load(ms + [m]) == content + x
  {
    Snoc(ms, m);
    Snoc(before, m);
  }

  /** The last outcome is w, and no file was saved before it. */
  predicate EndsIn(out: seq<Outcome>, w: Outcome) {
    out != [] && NoWhole(out[..|out| - 1]) && out[|out| - 1] == w
  }

  lemma NoWholeSnoc(out: seq<Outcome>, w: Outcome)
    requires EndsIn(out, w)
    ensures NoWhole(out) <==> !w.Whole?
    ensures forall i :: 0 <= i < |out| && out[i].Whole? ==> out[i] == w
  {
    assert forall i :: 0 <= i < |out| - 1 ==> out[i] == out[..|out| - 1][i];
  }

  lemma FoldFirst(limit: nat, o: One, m: FtMsg, rest: seq<FtMsg>)
    ensures Fold(limit, o, [m] + rest) == Fold(limit, OneStep(limit, o, Handle(m, true, true)), rest)
  {
    assert ([m] + rest)[1..] == rest;
  }

  /** Some data and the closing message for a transfer just opened. */
  lemma ClosingFold(limit: nat, id: string, size: nat, data: seq<FtMsg>)
    requires AllData(data) && |Load(data)| <= limit
    ensures EndsIn(Fold(limit, One(Receiving(size, [], 0), []), data + [FtMsg.End(id)]).out,
                   if |Load(data)| == size then Whole(Load(data)) else Fail)
  {
    var begun := One(Receiving(size, [], 0), []);
    FoldAppend(limit, begun, data, [FtMsg.End(id)]);
    DataFold(limit, begun, data);
    FoldOne(limit, Fold(limit, begun, data), FtMsg.End(id));
    assert [] + Load(data) == Load(data);
  }

  /** Before an offer there is nothing to receive. */
  lemma {:induction false} LostFold(limit: nat, ms: seq<FtMsg>)
    requires forall i :: 0 <= i < |ms| ==> ms[i].Data? || ms[i].End?
    ensures Fold(limit, NOTHING, ms) == NOTHING
    decreases |ms|
  {
    if ms != [] {
      LostFold(limit, ms[1..]);
    }
  }

  /** A part of a sender's bulk messages is data, with the closing message behind it if that is there. */
  lemma PartShape(b: seq<FtMsg>, id: string, chunks: seq<seq<byte>>) returns (data: seq<FtMsg>)
    requires Subseq(b, WholeBulk(id, chunks))
    ensures Subseq(data, DataMsgs(id, 0, chunks)) && (b == data || b == data + [FtMsg.End(id)])
    ensures forall i :: 0 <= i < |b| ==> b[i].Data? || b[i] == FtMsg.End(id)
    ensures forall i :: 0 <= i < |data| ==> data[i].Data?
  {
    var all := DataMsgs(id, 0, chunks);
    Snoc(all, FtMsg.End(id));
    if Subseq(b, all) {
      data := b;
    } else {
      data := b[..|b| - 1];
      FrontLast(b);
    }
    forall i | 0 <= i < |data|
      ensures data[i].Data?
    {
      SubseqMember(data, all, data[i]);
      DataMsgsAreData(id, 0, chunks);
    }
  }

  /** The messages of a transfer with the offer in place j of those from the bulk lane. */
  function Arrival(offer: FtMsg, b: seq<FtMsg>, j: nat): seq<FtMsg>
    requires j <= |b|
  {
    b[..j] + ([offer] + b[j..])
  }

  /** A private receiver that gets any part of a sender's bulk messages, with the offer anywhere among them,
      saves the file exactly when the offer comes first and nothing is missing; and it never saves anything
      else. */
  lemma VerdictIff(limit: nat, id: string, name: string, chunks: seq<seq<byte>>, b: seq<FtMsg>, j: nat)
    requires NonEmpty(chunks) && |Flatten(chunks)| <= limit && j <= |b| && Subseq(b, WholeBulk(id, chunks))
    ensures var out := Fold(limit, NOTHING, Arrival(Offer(id, name, |Flatten(chunks)|), b, j)).out;
            && (NoWhole(out) <==> !(j == 0 && b == WholeBulk(id, chunks)))
            && (forall i :: 0 <= i < |out| && out[i].Whole? ==> out[i] == Whole(Flatten(chunks)))
  {
    var size := |Flatten(chunks)|;
    var data := PartShape(b, id, chunks);
    FoldArrival(limit, Offer(id, name, size), b, j);
    if b == data || j == |b| {
      NoEndNoWhole(limit, One(Receiving(size, [], 0), []), b[j..]);
      EndOfBulk(b, data, j, id, chunks);
    } else {
      RestOfBulk(b, data, j, FtMsg.End(id));
      RestVerdict(limit, id, chunks, data, j);
      WholeRest(data, j, DataMsgs(id, 0, chunks), FtMsg.End(id));
    }
  }

  /** What comes before the offer is lost. */
  lemma FoldArrival(limit: nat, offer: FtMsg, b: seq<FtMsg>, j: nat)
    requires offer.Offer? && offer.size <= limit && j <= |b|
    requires forall i :: 0 <= i < |b| ==> b[i].Data? || b[i].End?
    ensures Fold(limit, NOTHING, Arrival(offer, b, j)) == Fold(limit, One(Receiving(offer.size, [], 0), []), b[j..])
  {
    LostFold(limit, b[..j]);
    FoldAppend(limit, NOTHING, b[..j], [offer] + b[j..]);
    FoldFirst(limit, NOTHING, offer, b[j..]);
  }

  /** What comes after it is the whole file exactly when it is all of the chunks. */
  lemma RestVerdict(limit: nat, id: string, chunks: seq<seq<byte>>, data: seq<FtMsg>, j: nat)
    requires NonEmpty(chunks) && |Flatten(chunks)| <= limit && j <= |data|
    requires Subseq(data, DataMsgs(id, 0, chunks))
    ensures |data| <= |DataMsgs(id, 0, chunks)|
    ensures var out := Fold(limit, One(Receiving(|Flatten(chunks)|, [], 0), []), data[j..] + [FtMsg.End(id)]).out;
            && (NoWhole(out) <==> data[j..] != DataMsgs(id, 0, chunks))
            && (forall i :: 0 <= i < |out| && out[i].Whole? ==> out[i] == Whole(Flatten(chunks)))
  {
    var size, rest := |Flatten(chunks)|, data[j..];
    SubseqShorter(data, DataMsgs(id, 0, chunks));
    SubseqDrop(data, DataMsgs(id, 0, chunks), j);
    LoadOfPart(rest, id, 0, chunks);
    ClosingFold(limit, id, size, rest);
    NoWholeSnoc(Fold(limit, One(Receiving(size, [], 0), []), rest + [FtMsg.End(id)]).out,
                if |Load(rest)| == size then Whole(Load(rest)) else Fail);
  }

  lemma EndOfBulk(b: seq<FtMsg>, data: seq<FtMsg>, j: nat, id: string, chunks: seq<seq<byte>>)
    requires (b == data || j == |b|) && forall i :: 0 <= i < |data| ==> data[i].Data?
    ensures !(j == 0 && b == WholeBulk(id, chunks))
  {
    var all := WholeBulk(id, chunks);
    assert all[|all| - 1] == FtMsg.End(id);
  }

  lemma RestOfBulk(b: seq<FtMsg>, data: seq<FtMsg>, j: nat, end: FtMsg)
    requires b == data + [end] && j < |b|
    ensures b[j..] == data[j..] + [end]
  {
  }

  lemma WholeRest(data: seq<FtMsg>, j: nat, all: seq<FtMsg>, end: FtMsg)
    requires |data| <= |all| && j <= |data|
    ensures data[j..] == all <==> j == 0 && data + [end] == all + [end]
  {
    if data + [end] == all + [end] {
      Snoc(data, end);
      Snoc(all, end);
    }
    assert j == 0 ==> data[j..] == data;
  }

  // ---- End to end ----

  lemma {:induction false} WholeIsSaved(out: seq<Reply>, disk: map<string, seq<byte>>, id: string) returns (i: nat)
    requires !NoWhole(OutcomesOf(out, disk, id))
    ensures i < |out| && out[i].Saved? && out[i].id == id
  {
    var front, r := out[..|out| - 1], out[|out| - 1];
    if NoWhole(OutcomesOf(front, disk, id)) {
      i := |front|;
    } else {
      i := WholeIsSaved(front, disk, id);
    }
  }

  /** In every run and for every prefix of the wire, the peer sees of one transfer a prefix of what was queued
      for it on the bulk lane, in that order, and the one message queued on the hi lane somewhere among them. */
  lemma TransferOnTheWire(acts: seq<Action>, k: nat, dec: Msg -> Option<FtMsg>, id: string)
    returns (sent: seq<FtMsg>, offer: seq<FtMsg>, j: nat)
    requires Exec(INIT, acts).Some? && k <= |Exec(INIT, acts).value.wire|
    requires |Mine(Puts(acts, Hi), dec, id)| <= 1 && Mine(Puts(acts, Vid), dec, id) == []
    ensures sent <= Mine(Puts(acts, Bulk), dec, id) && offer <= Mine(Puts(acts, Hi), dec, id)
    ensures Spliced(Seen(acts, k, dec, id), sent, offer, j)
  {
    var read := PeerReadsInterleaving(acts, k);
    sent, offer := Mine(Proj(read, Bulk), dec, id), Mine(Proj(read, Hi), dec, id);
    MinePrefix(Proj(read, Bulk), Puts(acts, Bulk), dec, id);
    MinePrefix(Proj(read, Hi), Puts(acts, Hi), dec, id);
    MineSubseq(Proj(read, Vid), Puts(acts, Vid), dec, id);
    j := OfferAmongBulk(read, dec, id);
  }

  /** The sender of this transfer is at work: it has queued for each lane some of what it has for it, in that
      order. A connection that is closing may refuse one message and still take a later one. */
  ghost predicate Sending(
    acts: seq<Action>, dec: Msg -> Option<FtMsg>, id: string, hi: seq<FtMsg>, bulk: seq<FtMsg>) {
    && Subseq(Mine(Puts(acts, Hi), dec, id), hi) && Subseq(Mine(Puts(acts, Bulk), dec, id), bulk)
    && Mine(Puts(acts, Vid), dec, id) == []
  }

  /** The transfer's messages the peer reads from the first k bytes of the wire. */
  ghost function Seen(acts: seq<Action>, k: nat, dec: Msg -> Option<FtMsg>, id: string): seq<FtMsg>
    requires Exec(INIT, acts).Some? && k <= |Exec(INIT, acts).value.wire|
  {
    Mine(Parse(Exec(INIT, acts).value.wire[..k]).msgs, dec, id)
  }

  /** The receiver handles what the peer reads from them. */
  ghost predicate Receives(
    evs: seq<Event>, acts: seq<Action>, k: nat, dec: Msg -> Option<FtMsg>, id: string)
    requires Exec(INIT, acts).Some? && k <= |Exec(INIT, acts).value.wire|
  {
    Handles(evs, Delivered(Parse(Exec(INIT, acts).value.wire[..k]).msgs, dec), id)
  }

  /** The receiver answered "saved" for the id. */
  predicate IsSaved(s: Rx, id: string) {
    exists i :: 0 <= i < |s.out| && s.out[i].Saved? && s.out[i].id == id
  }

  /** Every file it saved for the id has the content. */
  predicate SavedIs(s: Rx, id: string, content: seq<byte>) {
    forall i :: 0 <= i < |s.out| && s.out[i].Saved? && s.out[i].id == id ==>
      s.out[i].path in s.disk && s.disk[s.out[i].path] == content
  }

  lemma {:induction false} HandledIsPossible(limit: nat, files: map<string, seq<byte>>, evs: seq<Event>)
    requires forall i :: 0 <= i < |evs| ==> evs[i].Handle?
    ensures PossibleRun(limit, files, evs)
  {
    if evs != [] {
      HandledIsPossible(limit, files, evs[..|evs| - 1]);
    }
  }

  lemma {:induction false} BlindNoWhole(out: seq<Outcome>)
    ensures NoWhole(Blind(out)) <==> NoWhole(out)
  {
    if out != [] {
      var front, x := out[..|out| - 1], out[|out| - 1];
      BlindNoWhole(front);
      NoWholeLast(front, x);
      NoWholeLast(Blind(front), if x.Whole? then Whole([]) else x);
      FrontLast(out);
    }
  }

  lemma NoWholeLast(out: seq<Outcome>, x: Outcome)
    ensures NoWhole(out + [x]) <==> NoWhole(out) && !x.Whole?
  {
    assert (out + [x])[|out|] == x && forall i :: 0 <= i < |out| ==> (out + [x])[i] == out[i];
  }

  lemma {:induction false} SavedAnswered(out: seq<Reply>, id: string, i: nat)
    requires i < |out| && out[i].Saved? && out[i].id == id
    ensures !NoWhole(OutcomesOf(out, map[], id))
    decreases |out|
  {
    var front, r := out[..|out| - 1], out[|out| - 1];
    if i < |front| {
      SavedAnswered(front, id, i);
      var k :| 0 <= k < |OutcomesOf(front, map[], id)| && OutcomesOf(front, map[], id)[k].Whole?;
      assert OutcomesOf(out, map[], id)[k].Whole?;
    } else {
      assert OutcomesOf(out, map[], id)[|OutcomesOf(front, map[], id)|].Whole?;
    }
  }

  /** The shared receiver answers "saved" exactly when the private one saves a file, whatever the names. */
  lemma SavedIffWhole(limit: nat, files: map<string, seq<byte>>, evs: seq<Event>, id: string)
    requires PossibleRun(limit, files, evs)
    ensures IsSaved(Run(limit, files, evs), id) <==> !NoWhole(OneRun(limit, ForId(evs, id)).out)
  {
    var s := Run(limit, files, evs);
    EachCountedAlone(limit, files, evs, id);
    BlindNoWhole(OneRun(limit, ForId(evs, id)).out);
    if IsSaved(s, id) {
      var i :| 0 <= i < |s.out| && s.out[i].Saved? && s.out[i].id == id;
      SavedAnswered(s.out, id, i);
    }
    if !NoWhole(Answers(s, id)) {
      var i := WholeIsSaved(s.out, map[], id);
    }
  }

  /** Whenever the receiver answered "saved" for the id, if the transfer had been left alone up to then and no
      accepted offer has taken its file since, the file holds the content. */
  ghost predicate ArrivesAs(limit: nat, files: map<string, seq<byte>>, evs: seq<Event>, id: string,
                            content: seq<byte>) {
    forall n: nat, path: string {:trigger AnsweredSaved(limit, files, evs, n, id, path)} ::
      AnsweredSaved(limit, files, evs, n, id, path) && Untouched(limit, files, evs, n, id, path) ==>
        path in Run(limit, files, evs).disk && Run(limit, files, evs).disk[path] == content
  }

  lemma SavedAsSent(limit: nat, files: map<string, seq<byte>>, evs: seq<Event>, id: string, content: seq<byte>)
    requires var out := OneRun(limit, ForId(evs, id)).out;
             forall i :: 0 <= i < |out| && out[i].Whole? ==> out[i] == Whole(content)
    ensures ArrivesAs(limit, files, evs, id, content)
    ensures NamesLast(limit, files, evs) ==> SavedIs(Run(limit, files, evs), id, content)
  {
    forall n: nat, path | AnsweredSaved(limit, files, evs, n, id, path) && Untouched(limit, files, evs, n, id, path)
      ensures path in Run(limit, files, evs).disk && Run(limit, files, evs).disk[path] == content
    {
      SavedMeansWhole(limit, files, evs, n, id, path);
      SavedIsShown(limit, files, evs, n, id, path);
    }
    if NamesLast(limit, files, evs) {
      OwnersArrive(limit, files, evs, id, content);
    }
  }

  /** As long as no offer takes a file that somebody owns, that is every file saved for the id. */
  lemma OwnersArrive(limit: nat, files: map<string, seq<byte>>, evs: seq<Event>, id: string, content: seq<byte>)
    requires NamesLast(limit, files, evs) && ArrivesAs(limit, files, evs, id, content)
    ensures SavedIs(Run(limit, files, evs), id, content)
  {
    var s := Run(limit, files, evs);
    forall i | 0 <= i < |s.out| && s.out[i].Saved? && s.out[i].id == id
      ensures s.out[i].path in s.disk && s.disk[s.out[i].path] == content
    {
      var n := SavedByEvent(limit, files, evs, id, s.out[i].path);
      OwnersUntouched(limit, files, evs, n, id, s.out[i].path);
    }
  }

  lemma {:induction false} NoEndNoWhole(limit: nat, o: One, fs: seq<FtMsg>)
    requires NoWhole(o.out) && forall m :: m in fs ==> !m.End?
    ensures NoWhole(Fold(limit, o, fs).out)
    decreases |fs|
  {
    if fs != [] {
      assert NoWhole(OneStep(limit, o, Handle(fs[0], true, true)).out);
      NoEndNoWhole(limit, OneStep(limit, o, Handle(fs[0], true, true)), fs[1..]);
    }
  }

  lemma {:induction false} NoOfferNoWhole(limit: nat, o: One, fs: seq<FtMsg>)
    requires NoWhole(o.out) && o.phase.Idle? && forall m :: m in fs && m.Offer? ==> m.size > limit
    ensures NoWhole(Fold(limit, o, fs).out)
    decreases |fs|
  {
    if fs != [] {
      var p := OneStep(limit, o, Handle(fs[0], true, true));
      assert NoWhole(p.out) && p.phase.Idle?;
      NoOfferNoWhole(limit, p, fs[1..]);
    }
  }

  /** A whole transfer, in its order. */
  function Complete(id: string, name: string, chunks: seq<seq<byte>>): seq<FtMsg> {
    [Offer(id, name, |Flatten(chunks)|)] + WholeBulk(id, chunks)
  }

  /** What a private receiver makes of any part of a transfer that the peer can see. */
  lemma SeenVerdict(limit: nat, id: string, name: string, chunks: seq<seq<byte>>, mine: seq<FtMsg>, b: seq<FtMsg>,
                    h: seq<FtMsg>, j: nat)
    requires NonEmpty(chunks) && Subseq(b, WholeBulk(id, chunks)) && Spliced(mine, b, h, j)
    requires h == [] || h == [Offer(id, name, |Flatten(chunks)|)]
    ensures var out := Fold(limit, NOTHING, mine).out;
            && (NoWhole(out) <==> !(|Flatten(chunks)| <= limit && mine == Complete(id, name, chunks)))
            && (forall i :: 0 <= i < |out| && out[i].Whole? ==> out[i] == Whole(Flatten(chunks)))
  {
    var offer := Offer(id, name, |Flatten(chunks)|);
    var data := PartShape(b, id, chunks);
    if h == [offer] && |Flatten(chunks)| <= limit {
      VerdictIff(limit, id, name, chunks, b, j);
      Assoc(b[..j], [offer], b[j..]);
      CompleteIff(b, j, offer, WholeBulk(id, chunks));
    } else {
      OffersIn(mine, b, h, j, limit);
      NoOfferNoWhole(limit, NOTHING, mine);
    }
  }

  lemma OffersIn(mine: seq<FtMsg>, b: seq<FtMsg>, h: seq<FtMsg>, j: nat, limit: nat)
    requires Spliced(mine, b, h, j) && (forall i :: 0 <= i < |b| ==> !b[i].Offer?)
    requires h == [] || (|h| == 1 && h[0].Offer? && h[0].size > limit)
    ensures forall m :: m in mine && m.Offer? ==> m.size > limit
    ensures h == [] ==> mine == [] || !mine[0].Offer?
  {
  }

  lemma CompleteIff(b: seq<FtMsg>, j: nat, offer: FtMsg, all: seq<FtMsg>)
    requires j <= |b| && offer.Offer? && forall i :: 0 <= i < |b| ==> !b[i].Offer?
    ensures Arrival(offer, b, j) == [offer] + all <==> j == 0 && b == all
  {
    assert j > 0 ==> Arrival(offer, b, j)[0] == b[0];
    assert Arrival(offer, b, 0)[1..] == b && ([offer] + all)[1..] == all;
  }

  /** A whole transfer, for every moment of its sending, whatever the connection refused, and for every prefix
      of the wire: the receiver answers "saved" exactly when what it has seen is the complete transfer in its
      order, of a size it accepts. The file saved is then, byte for byte, the one sent, if this transfer was left
      alone, whatever the others do to each other; and always when no offer takes somebody's file. */
  lemma WholeArrivesIff(
    acts: seq<Action>, k: nat, dec: Msg -> Option<FtMsg>, id: string, name: string, chunks: seq<seq<byte>>,
    limit: nat, files: map<string, seq<byte>>, evs: seq<Event>)
    requires Exec(INIT, acts).Some? && k <= |Exec(INIT, acts).value.wire| && NonEmpty(chunks)
    requires Sending(acts, dec, id, [Offer(id, name, |Flatten(chunks)|)], WholeBulk(id, chunks))
    requires Receives(evs, acts, k, dec, id)
    ensures IsSaved(Run(limit, files, evs), id) <==>
            |Flatten(chunks)| <= limit && Seen(acts, k, dec, id) == Complete(id, name, chunks)
    ensures ArrivesAs(limit, files, evs, id, Flatten(chunks))
    ensures NamesLast(limit, files, evs) ==> SavedIs(Run(limit, files, evs), id, Flatten(chunks))
  {
    var mine, offer := Seen(acts, k, dec, id), Offer(id, name, |Flatten(chunks)|);
    SubseqOfOne(Mine(Puts(acts, Hi), dec, id), offer);
    var sent, h, j := TransferOnTheWire(acts, k, dec, id);
    PrefixIsTake(sent, Mine(Puts(acts, Bulk), dec, id));
    SubseqTake(Mine(Puts(acts, Bulk), dec, id), WholeBulk(id, chunks), |sent|);
    SeenVerdict(limit, id, name, chunks, mine, sent, h, j);
    RunOfSeen(acts, k, dec, id, limit, files, evs);
    SavedIffWhole(limit, files, evs, id);
    SavedAsSent(limit, files, evs, id, Flatten(chunks));
  }

  lemma RunOfSeen(acts: seq<Action>, k: nat, dec: Msg -> Option<FtMsg>, id: string, limit: nat,
                  files: map<string, seq<byte>>, evs: seq<Event>)
    requires Exec(INIT, acts).Some? && k <= |Exec(INIT, acts).value.wire| && Receives(evs, acts, k, dec, id)
    ensures OneRun(limit, ForId(evs, id)) == Fold(limit, NOTHING, Seen(acts, k, dec, id))
    ensures PossibleRun(limit, files, evs)
  {
    ForIdPlain(evs, Delivered(Parse(Exec(INIT, acts).value.wire[..k]).msgs, dec), id);
    RunIsFold(limit, Seen(acts, k, dec, id));
    HandledIsPossible(limit, files, evs);
  }

  /** End to end. Whatever the writer chose, whatever else was queued on any lane, however the file was split
      into reads and whatever other transfers the receiver had: once everything was queued and the peer has
      read the offer and the closing message, the receiver answers "saved" if and only if the offer was the
      first message of the transfer to arrive. */
  lemma TransferArrivesIff(
    acts: seq<Action>, k: nat, dec: Msg -> Option<FtMsg>, id: string, name: string, chunks: seq<seq<byte>>,
    limit: nat, files: map<string, seq<byte>>, evs: seq<Event>)
    requires Exec(INIT, acts).Some? && k <= |Exec(INIT, acts).value.wire|
    requires NonEmpty(chunks) && |Flatten(chunks)| <= limit && Receives(evs, acts, k, dec, id)
    requires Mine(Puts(acts, Hi), dec, id) == [Offer(id, name, |Flatten(chunks)|)]
    requires Mine(Puts(acts, Bulk), dec, id) == WholeBulk(id, chunks) && Mine(Puts(acts, Vid), dec, id) == []
    requires FtMsg.End(id) in Seen(acts, k, dec, id) && Offer(id, name, |Flatten(chunks)|) in Seen(acts, k, dec, id)
    ensures IsSaved(Run(limit, files, evs), id) <==> Seen(acts, k, dec, id)[0].Offer?
    ensures ArrivesAs(limit, files, evs, id, Flatten(chunks))
    ensures NamesLast(limit, files, evs) ==> SavedIs(Run(limit, files, evs), id, Flatten(chunks))
  {
    var offer := Offer(id, name, |Flatten(chunks)|);
    SubseqWhole([offer]);
    SubseqWhole(WholeBulk(id, chunks));
    WholeArrivesIff(acts, k, dec, id, name, chunks, limit, files, evs);
    var sent, h, j := TransferOnTheWire(acts, k, dec, id);
    AllSent(Seen(acts, k, dec, id), sent, h, j, id, chunks, offer);
    FirstIsOffer(Seen(acts, k, dec, id), j, id, chunks, offer);
  }

  lemma FirstIsOffer(mine: seq<FtMsg>, j: nat, id: string, chunks: seq<seq<byte>>, offer: FtMsg)
    requires offer.Offer? && Spliced(mine, WholeBulk(id, chunks), [offer], j)
    ensures mine != [] && (mine[0].Offer? <==> mine == [offer] + WholeBulk(id, chunks))
  {
    DataMsgsAreData(id, 0, chunks);
    var b := WholeBulk(id, chunks);
    assert forall i :: 0 <= i < |b| ==> b[i] in b;
    Assoc(b[..j], [offer], b[j..]);
    CompleteIff(b, j, offer, b);
    assert j > 0 ==> mine[0] == b[0];
  }

  /** A transfer whose offer and end were both read was sent whole. */
  lemma AllSent(mine: seq<FtMsg>, sent: seq<FtMsg>, offer: seq<FtMsg>, j: nat, id: string, chunks: seq<seq<byte>>,
                m: FtMsg)
    requires sent <= WholeBulk(id, chunks) && offer <= [m] && m.Offer? && Spliced(mine, sent, offer, j)
    requires FtMsg.End(id) in mine && m in mine
    ensures sent == WholeBulk(id, chunks) && offer == [m]
  {
    SplicedMember(mine, sent, offer, j, FtMsg.End(id));
    SplicedMember(mine, sent, offer, j, m);
    DataMsgsAreData(id, 0, chunks);
    LastOnly(sent, DataMsgs(id, 0, chunks), FtMsg.End(id));
  }

  lemma SplicedMember(m: seq<FtMsg>, b: seq<FtMsg>, h: seq<FtMsg>, j: nat, x: FtMsg)
    requires Spliced(m, b, h, j) && x in m
    ensures x in b || x in h
  {
    assert x in b[..j] || x in h || x in b[j..];
  }

  lemma LastOnly(sent: seq<FtMsg>, data: seq<FtMsg>, end: FtMsg)
    requires sent <= data + [end] && end !in data && end in sent
    ensures sent == data + [end]
  {
    var i :| 0 <= i < |sent| && sent[i] == end;
    assert (data + [end])[i] == end;
    assert forall k :: 0 <= k < |data| ==> (data + [end])[k] in data;
  }

  // ---- From the sender's method to the receiver's folder ----

  /** The peer sees nothing of a transfer that was not queued for it. */
  lemma {:induction false} SeenIsQueued(read: seq<Item>, dec: Msg -> Option<FtMsg>, id: string, m: FtMsg)
    requires m in Mine(Msgs(read), dec, id)
    ensures exists lane :: m in Mine(Proj(read, lane), dec, id)
  {
    if read != [] {
      var front, x := read[..|read| - 1], read[|read| - 1];
      assert read == front + [x];
      MsgsSnoc(front, x);
      MineSnoc(Msgs(front), x.msg, dec, id);
      if m in Mine(Msgs(front), dec, id) {
        SeenIsQueued(front, dec, id, m);
        var lane :| m in Mine(Proj(front, lane), dec, id);
        MineLane(front, x, dec, id, lane);
      } else {
        MineLane(front, x, dec, id, x.lane);
      }
    }
  }

  lemma SeenWasSent(acts: seq<Action>, k: nat, dec: Msg -> Option<FtMsg>, id: string, m: FtMsg)
    requires Exec(INIT, acts).Some? && k <= |Exec(INIT, acts).value.wire|
    requires Mine(Puts(acts, Vid), dec, id) == [] && m in Seen(acts, k, dec, id)
    ensures m in Mine(Puts(acts, Hi), dec, id) || m in Mine(Puts(acts, Bulk), dec, id)
  {
    var read := PeerReadsInterleaving(acts, k);
    ReadWasSent(read, Puts(acts, Hi), Puts(acts, Bulk), Puts(acts, Vid), dec, id, m);
  }

  lemma ReadWasSent(read: seq<Item>, hi: seq<Msg>, bulk: seq<Msg>, vid: seq<Msg>, dec: Msg -> Option<FtMsg>,
                    id: string, m: FtMsg)
    requires Proj(read, Hi) <= hi && Proj(read, Bulk) <= bulk && Subseq(Proj(read, Vid), vid)
    requires Mine(vid, dec, id) == [] && m in Mine(Msgs(read), dec, id)
    ensures m in Mine(hi, dec, id) || m in Mine(bulk, dec, id)
  {
    SeenIsQueued(read, dec, id, m);
    MinePrefix(Proj(read, Bulk), bulk, dec, id);
    MinePrefix(Proj(read, Hi), hi, dec, id);
    MineSubseq(Proj(read, Vid), vid, dec, id);
    var lane :| m in Mine(Proj(read, lane), dec, id);
  }

  /** A transfer for which the sender has no closing message is never saved. */
  lemma UnclosedNeverSaved(acts: seq<Action>, k: nat, dec: Msg -> Option<FtMsg>, id: string, hi: seq<FtMsg>,
                           bulk: seq<FtMsg>, limit: nat, files: map<string, seq<byte>>, evs: seq<Event>)
    requires Exec(INIT, acts).Some? && k <= |Exec(INIT, acts).value.wire|
    requires Sending(acts, dec, id, hi, bulk) && forall m :: m in hi || m in bulk ==> !m.End?
    requires Receives(evs, acts, k, dec, id)
    ensures !IsSaved(Run(limit, files, evs), id) && NoWhole(OneRun(limit, ForId(evs, id)).out)
  {
    forall m | m in Seen(acts, k, dec, id)
      ensures !m.End?
    {
      SeenWasSent(acts, k, dec, id, m);
      if m in Mine(Puts(acts, Hi), dec, id) {
        SubseqMember(Mine(Puts(acts, Hi), dec, id), hi, m);
      } else {
        SubseqMember(Mine(Puts(acts, Bulk), dec, id), bulk, m);
      }
    }
    NoEndNoWhole(limit, NOTHING, Seen(acts, k, dec, id));
    RunOfSeen(acts, k, dec, id, limit, files, evs);
    SavedIffWhole(limit, files, evs, id);
  }

  lemma BrokenHasNoEnd(id: string, name: string, size: nat, rs: seq<Read>)
    requires VerdictOf(size, rs) != Streamed
    ensures forall m :: m in ExportHi(id, name, size, rs) || m in ExportBulk(id, size, rs) ==> !m.End?
  {
    DataMsgsAreData(id, 0, SentChunks(rs, 0));
  }

  lemma StreamedIsWhole(id: string, name: string, size: nat, rs: seq<Read>)
    requires VerdictOf(size, rs) == Streamed
    ensures var chunks := SentChunks(rs, 0);
            && NonEmpty(chunks) && Flatten(chunks) == Content(rs, 0) && |Flatten(chunks)| == size
            && ExportHi(id, name, size, rs) == [Offer(id, name, size)]
            && ExportBulk(id, size, rs) == WholeBulk(id, chunks)
  {
    SentChunksJoin(rs, 0);
  }

  /** The streaming sender, end to end, in every run of the connection, at every moment of its sending and
      for every prefix of the wire: the receiver answers "saved" if and only if the sender read the file to
      its end at its size and the receiver has seen all of it, the offer first. What is saved for a transfer left
      alone is exactly the bytes read. A file that could not be read whole is never saved. */
  lemma ExportArrivesIff(
    acts: seq<Action>, k: nat, dec: Msg -> Option<FtMsg>, id: string, name: string, size: nat, rs: seq<Read>,
    limit: nat, files: map<string, seq<byte>>, evs: seq<Event>)
    requires Exec(INIT, acts).Some? && k <= |Exec(INIT, acts).value.wire|
    requires Sending(acts, dec, id, ExportHi(id, name, size, rs), ExportBulk(id, size, rs))
    requires Receives(evs, acts, k, dec, id)
    ensures IsSaved(Run(limit, files, evs), id) <==>
            VerdictOf(size, rs) == Streamed && size <= limit
            && Seen(acts, k, dec, id) == Complete(id, name, SentChunks(rs, 0))
    ensures ArrivesAs(limit, files, evs, id, Content(rs, 0))
    ensures NamesLast(limit, files, evs) ==> SavedIs(Run(limit, files, evs), id, Content(rs, 0))
  {
    if VerdictOf(size, rs) == Streamed {
      StreamedIsWhole(id, name, size, rs);
      WholeArrivesIff(acts, k, dec, id, name, SentChunks(rs, 0), limit, files, evs);
    } else {
      BrokenHasNoEnd(id, name, size, rs);
      UnclosedNeverSaved(acts, k, dec, id, ExportHi(id, name, size, rs), ExportBulk(id, size, rs), limit, files, evs);
      SavedAsSent(limit, files, evs, id, Content(rs, 0));
    }
  }

  /** The same for a file sent from memory. */
  lemma ServedArrivesIff(
    acts: seq<Action>, k: nat, dec: Msg -> Option<FtMsg>, id: string, name: string, data: seq<byte>,
    limit: nat, files: map<string, seq<byte>>, evs: seq<Event>)
    requires Exec(INIT, acts).Some? && k <= |Exec(INIT, acts).value.wire|
    requires Sending(acts, dec, id, [Offer(id, name, |data|)], WholeBulk(id, Cut(data)))
    requires Receives(evs, acts, k, dec, id)
    ensures IsSaved(Run(limit, files, evs), id) <==>
            |data| <= limit && Seen(acts, k, dec, id) == Complete(id, name, Cut(data))
    ensures ArrivesAs(limit, files, evs, id, data)
    ensures NamesLast(limit, files, evs) ==> SavedIs(Run(limit, files, evs), id, data)
  {
    CutJoins(data);
    WholeArrivesIff(acts, k, dec, id, name, Cut(data), limit, files, evs);
  }

  /** A transfer may well arrive out of its order: the lanes let a chunk queued after the offer reach the wire
      before it, when both are queued after the writer has left its hi-first select and before it enters the
      select over all lanes, which then may take either. */
  lemma OfferOvertaken(offer: Msg, chunk: Msg)
    requires Fits(offer) && Fits(chunk)
    ensures var acts := [NoForce, NoHi, HiPut(offer), BulkPut(chunk), TakeBulk, WriteOk, NoForce, TakeHi, WriteOk];
            Exec(INIT, acts).Some? && Msgs(Exec(INIT, acts).value.log) == [chunk, offer]
  {
    var acts, s := ChunkWritten(offer, chunk);
    acts, s := ExecSnoc(acts, TakeHi, s);
    acts, s := ExecSnoc(acts, WriteOk, s);
    assert acts == [NoForce, NoHi, HiPut(offer), BulkPut(chunk), TakeBulk, WriteOk, NoForce, TakeHi, WriteOk];
  }

  lemma ChunkWritten(offer: Msg, chunk: Msg) returns (acts: seq<Action>, s: State)
    requires Fits(offer) && Fits(chunk)
    ensures acts == [NoForce, NoHi, HiPut(offer), BulkPut(chunk), TakeBulk, WriteOk, NoForce]
    ensures Exec(INIT, acts) == Option.Some(s)
    ensures s.hi == [offer] && s.pc == TryHi && s.log == [Item(Bulk, chunk)]
  {
    acts, s := ChunkTaken(offer, chunk);
    acts, s := ExecSnoc(acts, WriteOk, s);
    acts, s := ExecSnoc(acts, NoForce, s);
  }

  lemma ChunkTaken(offer: Msg, chunk: Msg) returns (acts: seq<Action>, s: State)
    requires Fits(offer) && Fits(chunk)
    ensures acts == [NoForce, NoHi, HiPut(offer), BulkPut(chunk), TakeBulk]
    ensures Exec(INIT, acts) == Option.Some(s)
    ensures s == INIT.(hi := [offer], pc := Writing(Item(Bulk, chunk)))
  {
    acts, s := WriterWaits();
    acts, s := ExecSnoc(acts, HiPut(offer), s);
    acts, s := ExecSnoc(acts, BulkPut(chunk), s);
    acts, s := ExecSnoc(acts, TakeBulk, s);
  }

  lemma WriterWaits() returns (acts: seq<Action>, s: State)
    ensures acts == [NoForce, NoHi] && Exec(INIT, acts) == Option.Some(s) && s == INIT.(pc := Wait)
  {
    acts, s := ExecSnoc([], NoForce, INIT);
    acts, s := ExecSnoc(acts, NoHi, s);
  }

  lemma ExecSnoc(acts: seq<Action>, a: Action, s: State) returns (acts': seq<Action>, t: State)
    requires Exec(INIT, acts) == Option.Some(s) && Enabled(s, a)
    ensures acts' == acts + [a] && t == Apply(s, a) && Exec(INIT, acts') == Option.Some(t)
  {
    acts', t := acts + [a], Apply(s, a);
    assert acts'[..|acts|] == acts;
  }
}
