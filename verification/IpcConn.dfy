/** The connection between worker and transport: three queues, any number of producers and one
    writer. Every channel operation and every socket write is one atomic step; the actions
    resolve what a select may choose, so the runs of this system are all interleavings. A queued
    message stands for its frame, which is built before it is queued. */
module IpcConn {
  import opened Bytes
  import opened IpcFraming

  const HI_CAP: nat := 1024
  const BULK_CAP: nat := 256
  const VID_CAP: nat := 8
  const MAX_STREAK: nat := 8

  datatype Lane = Hi | Bulk | Vid

  datatype Item = Item(lane: Lane, msg: Msg)

  /** Where the writer is: before the forced bulk slot, before the hi-first select, in the
      select over all lanes, in a socket write, or out of its loop. */
  datatype Pc =
    | Top
    | TryHi
    | Wait
    | Writing(item: Item)
    | Failed(item: Item, sent: nat)
    | Stopped

  /** A video producer inside WriteDroppable. */
  datatype Attempt = Offering(msg: Msg, retried: bool) | SawFull(msg: Msg)

  datatype State = State(
    hi: seq<Msg>, bulk: seq<Msg>, vid: seq<Msg>,
    done: bool, streak: nat, pc: Pc,
    video: map<nat, Attempt>,
    wire: seq<byte>,     // bytes handed to the socket
    log: seq<Item>,      // completed socket writes
    dropped: nat)        // video frames dropped

  const INIT: State := State([], [], [], false, 0, Top, map[], [], [], 0)

  datatype Action =
    | HiPut(msg: Msg) | BulkPut(msg: Msg)
    | VidStart(p: nat, msg: Msg) | VidPut(p: nat, msg: Msg) | VidFull(p: nat) | VidDrop(p: nat) | VidClosed(p: nat)
    | Close
    | Force | ForceMiss | NoForce
    | TakeHi | NoHi | TakeBulk | TakeVid | Quit
    | WriteOk | WriteFail(sent: nat)

  ghost predicate Enabled(s: State, a: Action) {
    match a
    case HiPut(m) => Fits(m) && |s.hi| < HI_CAP
    case BulkPut(m) => Fits(m) && |s.bulk| < BULK_CAP
    case VidStart(p, m) => Fits(m) && p !in s.video
    case VidPut(p, m) => p in s.video && s.video[p].Offering? && s.video[p].msg == m && |s.vid| < VID_CAP
    case VidFull(p) => p in s.video && s.video[p].Offering? && |s.vid| >= VID_CAP && !s.done
    case VidDrop(p) => p in s.video && s.video[p].SawFull?
    case VidClosed(p) => p in s.video && s.video[p].Offering? && s.done
    case Close => true
    case Force => s.pc == Top && s.streak >= MAX_STREAK && s.bulk != []
    case ForceMiss => s.pc == Top && s.streak >= MAX_STREAK && s.bulk == [] && !s.done
    case NoForce => s.pc == Top && s.streak < MAX_STREAK
    case TakeHi => (s.pc == TryHi || s.pc == Wait) && s.hi != []
    case NoHi => s.pc == TryHi && s.hi == [] && !s.done
    case TakeBulk => s.pc == Wait && s.bulk != []
    case TakeVid => s.pc == Wait && s.vid != []
    case Quit => s.done && ((s.pc == Top && s.streak >= MAX_STREAK) || s.pc == TryHi || s.pc == Wait)
    case WriteOk => s.pc.Writing? && Fits(s.pc.item.msg)
    case WriteFail(k) => s.pc.Writing? && Fits(s.pc.item.msg) && k <= |Encoded(s.pc.item.msg)|
  }

  ghost function Apply(s: State, a: Action): State
    requires Enabled(s, a)
  {
    match a
    case HiPut(m) => s.(hi := s.hi + [m])
    case BulkPut(m) => s.(bulk := s.bulk + [m])
    case VidStart(p, m) => s.(video := s.video[p := Offering(m, false)])
    case VidPut(p, m) => s.(video := s.video - {p}, vid := s.vid + [m])
    case VidFull(p) => s.(video := s.video[p := SawFull(s.video[p].msg)])
    case VidDrop(p) =>
      var t := s.(video := s.video[p := Offering(s.video[p].msg, true)]);
      if s.vid == [] then t else t.(vid := s.vid[1..], dropped := s.dropped + 1)
    case VidClosed(p) => s.(video := s.video - {p})
    case Close => s.(done := true)
    case Force => s.(bulk := s.bulk[1..], pc := Writing(Item(Bulk, s.bulk[0])), streak := 0)
    case ForceMiss => s.(pc := TryHi)
    case NoForce => s.(pc := TryHi)
    case TakeHi => s.(hi := s.hi[1..], pc := Writing(Item(Hi, s.hi[0])), streak := s.streak + 1)
    case NoHi => s.(pc := Wait)
    case TakeBulk => s.(bulk := s.bulk[1..], pc := Writing(Item(Bulk, s.bulk[0])), streak := 0)
    case TakeVid => s.(vid := s.vid[1..], pc := Writing(Item(Vid, s.vid[0])), streak := 0)
    case Quit => s.(pc := Stopped)
    case WriteOk => s.(wire := s.wire + Encoded(s.pc.item.msg), log := s.log + [s.pc.item], pc := Top)
    case WriteFail(k) =>
      s.(wire := s.wire + Encoded(s.pc.item.msg)[..k], pc := Failed(s.pc.item, k), done := true)
  }

  /** The state after the actions, if each was enabled when it was taken. */
  ghost function Exec(s: State, acts: seq<Action>): Option<State> {
    if acts == [] then Some(s)
    else
      match Exec(s, acts[..|acts| - 1])
      case None => None
      case Some(t) => if Enabled(t, acts[|acts| - 1]) then Some(Apply(t, acts[|acts| - 1])) else None
  }

  // ---- Lanes ----

  function Queue(s: State, lane: Lane): seq<Msg> {
    match lane case Hi => s.hi case Bulk => s.bulk case Vid => s.vid
  }

  /** The messages of one lane, in order. */
  function Proj(items: seq<Item>, lane: Lane): seq<Msg> {
    if items == [] then []
    else
      var last := items[|items| - 1];
      Proj(items[..|items| - 1], lane) + (if last.lane == lane then [last.msg] else [])
  }

  function InFlight(s: State): seq<Item> {
    if s.pc.Writing? || s.pc.Failed? then [s.pc.item] else []
  }

  /** Everything the writer took from the queues, in order. */
  function Order(s: State): seq<Item> {
    s.log + InFlight(s)
  }

  function Msgs(items: seq<Item>): seq<Msg> {
    seq(|items|, i requires 0 <= i < |items| => items[i].msg)
  }

  function PutOf(a: Action, lane: Lane): seq<Msg> {
    if (lane == Hi && a.HiPut?) || (lane == Bulk && a.BulkPut?) || (lane == Vid && a.VidPut?) then [a.msg] else []
  }

  /** The messages producers queued on a lane, in the order their sends completed. */
  function Puts(acts: seq<Action>, lane: Lane): seq<Msg> {
    if acts == [] then []
    else Puts(acts[..|acts| - 1], lane) + PutOf(acts[|acts| - 1], lane)
  }

  /** Taken and still queued messages of a lane. */
  function Trail(s: State, lane: Lane): seq<Msg> {
    Proj(Order(s), lane) + Queue(s, lane)
  }

  lemma ProjSnoc(items: seq<Item>, x: Item, lane: Lane)
    ensures Proj(items + [x], lane) == Proj(items, lane) + (if x.lane == lane then [x.msg] else [])
  {
    assert (items + [x])[..|items|] == items;
  }

  predicate Takes(a: Action) {
    a.Force? || a.TakeHi? || a.TakeBulk? || a.TakeVid?
  }

  lemma TrailTake(s: State, a: Action, lane: Lane)
    requires Enabled(s, a) && Takes(a)
    ensures Trail(Apply(s, a), lane) == Trail(s, lane)
  {
    var t := Apply(s, a);
    var taken := if lane == t.pc.item.lane then [t.pc.item.msg] else [];
    assert s.log + [] == s.log;
    ProjSnoc(s.log, t.pc.item, lane);
    QueueTaken(s, a, lane);
    Assoc(Proj(s.log, lane), taken, Queue(t, lane));
  }

  lemma QueueTaken(s: State, a: Action, lane: Lane)
    requires Enabled(s, a) && Takes(a)
    ensures var t := Apply(s, a);
            Queue(s, lane) == (if lane == t.pc.item.lane then [t.pc.item.msg] else []) + Queue(t, lane)
  {
  }

  lemma OrderKept(s: State, a: Action)
    requires Enabled(s, a) && !Takes(a)
    ensures Order(Apply(s, a)) == Order(s)
  {
  }

  /** Every action other than dropping a frame leaves a lane's trail as it was, or extends it by
      the message it queues. */
  lemma TrailStep(s: State, a: Action, lane: Lane)
    requires Enabled(s, a)
    requires !(a.VidDrop? && lane == Vid)
    ensures Trail(Apply(s, a), lane) == Trail(s, lane) + PutOf(a, lane)
  {
    if Takes(a) {
      TrailTake(s, a, lane);
    } else {
      OrderKept(s, a);
      QueueGrows(s, a, lane);
      Assoc(Proj(Order(s), lane), Queue(s, lane), PutOf(a, lane));
    }
  }

  lemma QueueGrows(s: State, a: Action, lane: Lane)
    requires Enabled(s, a) && !Takes(a) && !(a.VidDrop? && lane == Vid)
    ensures Queue(Apply(s, a), lane) == Queue(s, lane) + PutOf(a, lane)
  {
  }

  /** Dropping removes at most one message, the oldest one queued. */
  lemma TrailDrop(s: State, a: Action)
    requires Enabled(s, a) && a.VidDrop?
    ensures var t := Apply(s, a);
            var n := |Proj(Order(s), Vid)|;
            if s.vid == [] then Trail(t, Vid) == Trail(s, Vid) && t.dropped == s.dropped
            else n < |Trail(s, Vid)| && Trail(t, Vid) == Trail(s, Vid)[..n] + Trail(s, Vid)[n + 1..]
                 && t.dropped == s.dropped + 1
  {
    OrderKept(s, a);
  }

  /** Reliable lanes: what producers queued is exactly what the writer took followed by what is
      still queued, in every run. */
  lemma {:induction false} ReliableLane(acts: seq<Action>, lane: Lane)
    requires Exec(INIT, acts).Some? && lane != Vid
    ensures Trail(Exec(INIT, acts).value, lane) == Puts(acts, lane)
  {
    if acts != [] {
      var front, a := acts[..|acts| - 1], acts[|acts| - 1];
      ReliableLane(front, lane);
      TrailStep(Exec(INIT, front).value, a, lane);
    }
  }

  /** The video lane: taken and queued frames are an in-order selection of the frames queued, and
      every missing one was dropped. */
  lemma {:induction false} VideoLane(acts: seq<Action>)
    requires Exec(INIT, acts).Some?
    ensures var s := Exec(INIT, acts).value;
            Subseq(Trail(s, Vid), Puts(acts, Vid)) && |Puts(acts, Vid)| == |Trail(s, Vid)| + s.dropped
  {
    if acts != [] {
      var front, a := acts[..|acts| - 1], acts[|acts| - 1];
      var s := Exec(INIT, front).value;
      VideoLane(front);
      if a.VidDrop? {
        TrailDrop(s, a);
        assert Puts(acts, Vid) == Puts(front, Vid);
        if s.vid != [] {
          SubseqRemove(Trail(s, Vid), Puts(front, Vid), |Proj(Order(s), Vid)|);
        }
      } else {
        TrailStep(s, a, Vid);
        SubseqSnoc(Trail(s, Vid), Puts(front, Vid), PutOf(a, Vid));
      }
    }
  }

  // ---- The wire ----

  lemma MsgsSnoc(items: seq<Item>, x: Item)
    ensures Msgs(items + [x]) == Msgs(items) + [x.msg]
  {
  }

  ghost predicate AllQueuedFit(s: State) {
    && AllFit(s.hi) && AllFit(s.bulk) && AllFit(s.vid)
    && (forall p | p in s.video :: Fits(s.video[p].msg))
    && AllFit(Msgs(Order(s)))
  }

  lemma FitStep(s: State, a: Action)
    requires Enabled(s, a) && AllQueuedFit(s)
    ensures AllQueuedFit(Apply(s, a))
  {
    var t := Apply(s, a);
    if Takes(a) {
      assert Order(s) == s.log;
      MsgsSnoc(s.log, t.pc.item);
    } else {
      OrderKept(s, a);
    }
  }

  /** The bytes on the wire are the completed frames and, after a failed write, part of one. */
  ghost predicate WireInv(s: State) {
    && AllQueuedFit(s)
    && AllFit(Msgs(s.log))
    && s.wire == Wire(Msgs(s.log)) + (if s.pc.Failed? then WirePart(s) else [])
  }

  ghost function WirePart(s: State): seq<byte>
    requires s.pc.Failed? && AllQueuedFit(s)
  {
    assert Msgs(Order(s))[|s.log|] == s.pc.item.msg;
    if s.pc.sent <= |Encoded(s.pc.item.msg)| then Encoded(s.pc.item.msg)[..s.pc.sent] else []
  }

  lemma {:induction false} WireHolds(acts: seq<Action>)
    requires Exec(INIT, acts).Some?
    ensures WireInv(Exec(INIT, acts).value)
  {
    if acts != [] {
      var front, a := acts[..|acts| - 1], acts[|acts| - 1];
      WireHolds(front);
      WireStep(Exec(INIT, front).value, a);
    }
  }

  lemma WireNext(log: seq<Item>, x: Item)
    requires AllFit(Msgs(log)) && Fits(x.msg)
    ensures AllFit(Msgs(log + [x]))
    ensures Wire(Msgs(log + [x])) == Wire(Msgs(log)) + Encoded(x.msg) == Wire(Msgs(log)) + Encoded(x.msg) + []
  {
    MsgsSnoc(log, x);
    WireAppend(Msgs(log), [x.msg]);
    WireOne(x.msg);
  }

  lemma WireStep(s: State, a: Action)
    requires Enabled(s, a) && WireInv(s)
    ensures WireInv(Apply(s, a))
  {
    FitStep(s, a);
    if a.WriteOk? {
      WireNext(s.log, s.pc.item);
    } else if a.WriteFail? {
      WireCut(s, a);
    } else {
      WireKept(s, a);
    }
  }

  lemma WireCut(s: State, a: Action)
    requires Enabled(s, a) && a.WriteFail? && WireInv(s) && AllQueuedFit(Apply(s, a))
    ensures WireInv(Apply(s, a))
  {
  }

  lemma WireKept(s: State, a: Action)
    requires Enabled(s, a) && !a.WriteOk? && !a.WriteFail? && WireInv(s)
    ensures var t := Apply(s, a); t.wire == s.wire && t.log == s.log && t.pc.Failed? == s.pc.Failed?
    ensures Apply(s, a).pc.Failed? ==> Apply(s, a).pc == s.pc
  {
  }

  /** The wire is always a prefix of the frames the writer took. */
  lemma WireWithinOrder(s: State)
    requires WireInv(s)
    ensures |s.wire| <= |Wire(Msgs(Order(s)))| && s.wire == Wire(Msgs(Order(s)))[..|s.wire|]
  {
    if InFlight(s) == [] {
      assert s.log + [] == s.log;
    } else {
      MsgsSnoc(s.log, s.pc.item);
      Snoc(Msgs(s.log), s.pc.item.msg);
      WireAppend(Msgs(s.log), [s.pc.item.msg]);
      WireOne(s.pc.item.msg);
    }
  }

  lemma {:induction false} ProjPrefix(items: seq<Item>, n: nat, lane: Lane)
    requires n <= |items|
    ensures Proj(items[..n], lane) <= Proj(items, lane)
    decreases |items|
  {
    if n < |items| {
      ProjPrefix(items[..|items| - 1], n, lane);
      assert items[..|items| - 1][..n] == items[..n];
    } else {
      assert items[..n] == items;
    }
  }

  /** In every run, what the peer reads from any prefix of the bytes on the wire is an exact
      interleaving of a prefix of the hi messages queued, a prefix of the bulk messages queued and
      an in-order selection of the video frames queued: nothing is split, repeated or invented. */
  lemma PeerReadsInterleaving(acts: seq<Action>, k: nat) returns (read: seq<Item>)
    requires Exec(INIT, acts).Some? && k <= |Exec(INIT, acts).value.wire|
    ensures Parse(Exec(INIT, acts).value.wire[..k]).msgs == Msgs(read)
    ensures !Parse(Exec(INIT, acts).value.wire[..k]).end.BadLength?
    ensures Proj(read, Hi) <= Puts(acts, Hi)
    ensures Proj(read, Bulk) <= Puts(acts, Bulk)
    ensures Subseq(Proj(read, Vid), Puts(acts, Vid))
  {
    var s := Exec(INIT, acts).value;
    WireHolds(acts);
    WireWithinOrder(s);
    var n := ParseCut(Msgs(Order(s)), k);
    read := Order(s)[..n];
    assert Wire(Msgs(Order(s)))[..k] == s.wire[..k];
    assert Msgs(read) == Msgs(Order(s))[..n];
    ReadWithinPuts(acts, n);
  }

  lemma ReadWithinPuts(acts: seq<Action>, n: nat)
    requires Exec(INIT, acts).Some? && n <= |Order(Exec(INIT, acts).value)|
    ensures var read := Order(Exec(INIT, acts).value)[..n];
            && Proj(read, Hi) <= Puts(acts, Hi)
            && Proj(read, Bulk) <= Puts(acts, Bulk)
            && Subseq(Proj(read, Vid), Puts(acts, Vid))
  {
    var s := Exec(INIT, acts).value;
    ReliableLane(acts, Hi);
    ReliableLane(acts, Bulk);
    VideoLane(acts);
    ProjPrefix(Order(s), n, Hi);
    ProjPrefix(Order(s), n, Bulk);
    ProjPrefix(Order(s), n, Vid);
    var m := |Proj(Order(s)[..n], Vid)|;
    SubseqTake(Trail(s, Vid), Puts(acts, Vid), m);
    assert Trail(s, Vid)[..m] == Proj(Order(s)[..n], Vid);
  }

  /** Unless a write failed, the peer that has read every byte has exactly the completed writes. */
  lemma PeerReadsAll(acts: seq<Action>)
    requires Exec(INIT, acts).Some? && !Exec(INIT, acts).value.pc.Failed?
    ensures Parse(Exec(INIT, acts).value.wire) == Parsed(Msgs(Exec(INIT, acts).value.log), Eof)
  {
    WireHolds(acts);
    WholeWire(Exec(INIT, acts).value);
  }

  lemma WholeWire(s: State)
    requires WireInv(s) && !s.pc.Failed?
    ensures Parse(s.wire) == Parsed(Msgs(s.log), Eof)
  {
    ParseWire(Msgs(s.log));
    assert s.wire == Wire(Msgs(s.log));
  }

  lemma {:induction false} ProjConcat(a: seq<Item>, b: seq<Item>, lane: Lane)
    ensures Proj(a + b, lane) == Proj(a, lane) + Proj(b, lane)
  {
    if b == [] {
      assert a + b == a;
    } else {
      var b', x := b[..|b| - 1], b[|b| - 1];
      ProjConcat(a, b', lane);
      assert a + b == (a + b') + [x];
      ProjSnoc(a + b', x, lane);
    }
  }

  /** Nothing is lost on a reliable lane: queued = written, then in flight, then still queued. */
  lemma ReliableLaneSplit(acts: seq<Action>, lane: Lane)
    requires Exec(INIT, acts).Some? && lane != Vid
    ensures var s := Exec(INIT, acts).value;
            Puts(acts, lane) == Proj(s.log, lane) + Proj(InFlight(s), lane) + Queue(s, lane)
  {
    var s := Exec(INIT, acts).value;
    ReliableLane(acts, lane);
    ProjConcat(s.log, InFlight(s), lane);
  }

  // ---- Video producers never wait ----

  ghost predicate Alone(acts: seq<Action>, p: nat) {
    forall i :: 0 <= i < |acts| ==> (acts[i].VidStart? ==> acts[i].p == p)
  }

  ghost predicate RoomAfterDrop(s: State, p: nat) {
    && s.video.Keys <= {p}
    && |s.vid| <= VID_CAP
    && (p in s.video && s.video[p].Offering? && s.video[p].retried ==> |s.vid| < VID_CAP)
  }

  lemma RoomStep(s: State, a: Action, p: nat)
    requires Enabled(s, a) && RoomAfterDrop(s, p) && (a.VidStart? ==> a.p == p)
    ensures RoomAfterDrop(Apply(s, a), p)
  {
    var t := Apply(s, a);
    if a.VidPut? || a.VidClosed? {
      assert t.video == map[];
    }
  }

  lemma {:induction false} RoomHolds(acts: seq<Action>, p: nat)
    requires Exec(INIT, acts).Some? && Alone(acts, p)
    ensures RoomAfterDrop(Exec(INIT, acts).value, p)
  {
    if acts != [] {
      var front := acts[..|acts| - 1];
      assert forall i :: 0 <= i < |front| ==> front[i] == acts[i];
      RoomHolds(front, p);
      RoomStep(Exec(INIT, front).value, acts[|acts| - 1], p);
    }
  }

  /** Two tries at most: with one video producer, once it has dropped a frame the queue has room for
      its own, so the second offer is never turned away. */
  lemma SecondOfferFits(acts: seq<Action>, p: nat)
    requires Exec(INIT, acts).Some? && Alone(acts, p)
    requires var s := Exec(INIT, acts).value; p in s.video && s.video[p].Offering? && s.video[p].retried
    ensures var s := Exec(INIT, acts).value;
            Enabled(s, VidPut(p, s.video[p].msg)) && !Enabled(s, VidFull(p))
  {
    RoomHolds(acts, p);
  }

  // ---- Closing ----

  /** The actions that close the connection. */
  predicate Closes(a: Action) {
    a.Close? || a.WriteFail?
  }

  /** The connection is closed from the first failed write or close on, for good and no earlier. */
  lemma {:induction false} ClosedIff(acts: seq<Action>)
    requires Exec(INIT, acts).Some?
    ensures Exec(INIT, acts).value.done <==> AnyCloses(acts)
  {
    if acts != [] {
      var front, a := acts[..|acts| - 1], acts[|acts| - 1];
      ClosedIff(front);
      SomeCloses(acts);
      ClosedStep(Exec(INIT, front).value, a);
    }
  }

  predicate AnyCloses(acts: seq<Action>) {
    exists i :: 0 <= i < |acts| && Closes(acts[i])
  }

  lemma {:induction false} SomeCloses(acts: seq<Action>)
    requires acts != []
    ensures AnyCloses(acts) <==> Closes(acts[|acts| - 1]) || AnyCloses(acts[..|acts| - 1])
  {
    var front := acts[..|acts| - 1];
    if AnyCloses(front) {
      var i :| 0 <= i < |front| && Closes(front[i]);
      assert Closes(acts[i]);
    }
    assert forall i :: 0 <= i < |front| ==> front[i] == acts[i];
  }

  lemma ClosedStep(s: State, a: Action)
    requires Enabled(s, a)
    ensures Apply(s, a).done <==> s.done || Closes(a)
  {
  }

  /** After a failed write, or once the writer has left its loop, nothing more goes on the wire. */
  lemma {:induction false} NothingAfterFailure(s: State, acts: seq<Action>)
    requires (s.pc.Failed? || s.pc == Stopped) && Exec(s, acts).Some?
    ensures Exec(s, acts).value.pc == s.pc && Exec(s, acts).value.wire == s.wire && Exec(s, acts).value.log == s.log
  {
    if acts != [] {
      NothingAfterFailure(s, acts[..|acts| - 1]);
    }
  }

  /** The queues never hold more than the channels' capacities, and the writer leaves its loop only when the
      connection is closed. */
  lemma {:induction false} QueuesBounded(acts: seq<Action>)
    requires Exec(INIT, acts).Some?
    ensures var s := Exec(INIT, acts).value;
            && |s.hi| <= 1024 && |s.bulk| <= 256 && |s.vid| <= 8
            && (s.pc.Failed? || s.pc == Stopped ==> s.done)
  {
    if acts != [] {
      QueuesBounded(acts[..|acts| - 1]);
    }
  }
}
