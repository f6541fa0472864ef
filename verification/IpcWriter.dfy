/** The connection object. Each method is one atomic step of the code that runs on it, a channel
    operation or a socket write, and moves the object exactly as an action of IpcConn does. */
module IpcWriter {
  import opened Bytes
  import opened IpcFraming
  import opened IpcConn

  datatype SendResult = Sent | TooLarge | Closed | Blocked

  /** What a select with several ready cases is made to choose. */
  datatype Choice = ChooseHi | ChooseBulk | ChooseVid | ChooseDone

  class Conn {
    var hi: seq<Msg>
    var bulk: seq<Msg>
    var vid: seq<Msg>
    var done: bool
    var hiStreak: nat
    var pc: Pc
    var video: map<nat, Attempt>
    var wire: seq<byte>
    var log: seq<Item>
    var dropped: nat

    ghost function State(): IpcConn.State
      reads this
    {
      IpcConn.State(hi, bulk, vid, done, hiStreak, pc, video, wire, log, dropped)
    }

    constructor ()
      ensures State() == INIT
    {
      hi, bulk, vid, done, hiStreak, pc := [], [], [], false, 0, Top;
      video, wire, log, dropped := map[], [], [], 0;
    }

    /** The object took the step a, or nothing was ready and it is unchanged. */
    twostate predicate Took(new a: Option<Action>)
      reads this
    {
      match a
      case None => State() == old(State())
      case Some(act) => Enabled(old(State()), act) && State() == Apply(old(State()), act)
    }

    method WriteMessage(m: Msg, preferDone: bool) returns (r: SendResult)
      modifies this
      ensures r == TooLarge <==> !Fits(m)
      ensures Took(if r == Sent then Some(HiPut(m)) else None)
      ensures Fits(m) ==> r == if |old(hi)| < 1024 && !(done && preferDone) then Sent
                               else if done then Closed else Blocked
    {
      if |m.payload| > MAX_PAYLOAD {
        return TooLarge;
      }
      if |hi| < HI_CAP && !(done && preferDone) {
        hi := hi + [m];
        return Sent;
      }
      return if done then Closed else Blocked;
    }

    method WriteBulk(m: Msg, preferDone: bool) returns (r: SendResult)
      modifies this
      ensures r == TooLarge <==> !Fits(m)
      ensures Took(if r == Sent then Some(BulkPut(m)) else None)
      ensures Fits(m) ==> r == if |old(bulk)| < 256 && !(done && preferDone) then Sent
                               else if done then Closed else Blocked
    {
      if |m.payload| > MAX_PAYLOAD {
        return TooLarge;
      }
      if |bulk| < BULK_CAP && !(done && preferDone) {
        bulk := bulk + [m];
        return Sent;
      }
      return if done then Closed else Blocked;
    }

    /** Entering WriteDroppable: the attempt p begins, unless the frame is too large. */
    method BeginDroppable(p: nat, m: Msg) returns (r: SendResult)
      requires p !in video
      modifies this
      ensures r == TooLarge <==> !Fits(m)
      ensures Took(if r == TooLarge then None else Some(VidStart(p, m)))
    {
      if |m.payload| > MAX_PAYLOAD {
        return TooLarge;
      }
      video := video[p := Offering(m, false)];
      return Sent;
    }

    /** Closing the connection stops the writer and every pending write; closing it again changes nothing. */
    method CloseConn()
      modifies this
      ensures Took(Some(Close))
      ensures old(done) ==> State() == old(State())
    {
      done := true;
    }

    /** The outer select of WriteDroppable: it never blocks. */
    method OfferVideo(p: nat, preferDone: bool) returns (a: Option<Action>)
      requires p in video && video[p].Offering?
      modifies this
      ensures Took(a)
      ensures a == Some(if |old(vid)| < 8 && !(old(done) && preferDone) then VidPut(p, old(video)[p].msg)
                        else if old(done) then VidClosed(p) else VidFull(p))
    {
      var m := video[p].msg;
      if |vid| < VID_CAP && !(done && preferDone) {
        vid := vid + [m];
        video := video - {p};
        return Some(VidPut(p, m));
      } else if done {
        video := video - {p};
        return Some(VidClosed(p));
      }
      video := video[p := SawFull(m)];
      return Some(VidFull(p));
    }

    /** Its inner select, after the queue was found full. */
    method DropOldest(p: nat)
      requires p in video && video[p].SawFull?
      modifies this
      ensures Took(Some(VidDrop(p)))
    {
      if vid != [] {
        vid := vid[1..];
        dropped := dropped + 1;
      }
      video := video[p := Offering(video[p].msg, true)];
    }

    /** The forced bulk slot at the top of the write loop. */
    method ForcedSlot(preferDone: bool) returns (a: Option<Action>)
      requires pc == Top
      modifies this
      ensures Took(a)
      ensures a == Some(if old(hiStreak) < 8 then NoForce
                        else if old(bulk) != [] && !(old(done) && preferDone) then Force
                        else if old(done) then Quit else ForceMiss)
    {
      if hiStreak >= 8 {
        if bulk != [] && !(done && preferDone) {
          pc := Writing(Item(Bulk, bulk[0]));
          bulk := bulk[1..];
          hiStreak := 0;
          return Some(Force);
        } else if done {
          pc := Stopped;
          return Some(Quit);
        }
        pc := TryHi;
        return Some(ForceMiss);
      }
      pc := TryHi;
      return Some(NoForce);
    }

    /** The hi-first select. */
    method PreferHi(preferDone: bool) returns (a: Option<Action>)
      requires pc == TryHi
      modifies this
      ensures Took(a)
      ensures a == Some(if old(hi) != [] && !(old(done) && preferDone) then TakeHi
                        else if old(done) then Quit else NoHi)
    {
      if hi != [] && !(done && preferDone) {
        pc := Writing(Item(Hi, hi[0]));
        hi := hi[1..];
        hiStreak := hiStreak + 1;
        return Some(TakeHi);
      } else if done {
        pc := Stopped;
        return Some(Quit);
      }
      pc := Wait;
      return Some(NoHi);
    }

    /** The select over all lanes: any ready case may run, and it waits if none is ready. */
    method WaitSelect(c: Choice) returns (a: Option<Action>)
      requires pc == Wait
      modifies this
      ensures Took(a)
      ensures a == match c
                   case ChooseHi => if old(hi) != [] then Some(TakeHi) else None
                   case ChooseBulk => if old(bulk) != [] then Some(TakeBulk) else None
                   case ChooseVid => if old(vid) != [] then Some(TakeVid) else None
                   case ChooseDone => if old(done) then Some(Quit) else None
    {
      match c
      case ChooseHi =>
        if hi == [] { return None; }
        pc := Writing(Item(Hi, hi[0]));
        hi := hi[1..];
        hiStreak := hiStreak + 1;
        return Some(TakeHi);
      case ChooseBulk =>
        if bulk == [] { return None; }
        pc := Writing(Item(Bulk, bulk[0]));
        bulk := bulk[1..];
        hiStreak := 0;
        return Some(TakeBulk);
      case ChooseVid =>
        if vid == [] { return None; }
        pc := Writing(Item(Vid, vid[0]));
        vid := vid[1..];
        hiStreak := 0;
        return Some(TakeVid);
      case ChooseDone =>
        if !done { return None; }
        pc := Stopped;
        return Some(Quit);
    }

    /** The socket write; failAt is how many bytes got out before an error. */
    method SocketWrite(failAt: Option<nat>) returns (a: Option<Action>)
      requires pc.Writing? && Fits(pc.item.msg)
      requires failAt.Some? ==> failAt.value <= |Encoded(pc.item.msg)|
      modifies this
      ensures Took(a)
      ensures a == Some(if failAt.None? then WriteOk else WriteFail(failAt.value))
      ensures failAt.None? ==> wire == old(wire) + Encoded(old(pc.item.msg)) && log == old(log) + [old(pc.item)]
                               && done == old(done)
      ensures failAt.Some? ==> wire == old(wire) + Encoded(old(pc.item.msg))[..failAt.value] && log == old(log) && done
    {
      var item := pc.item;
      match failAt
      case None =>
        wire := wire + Encoded(item.msg);
        log := log + [item];
        pc := Top;
        return Some(WriteOk);
      case Some(k) =>
        wire := wire + Encoded(item.msg)[..k];
        done := true;
        pc := Failed(item, k);
        return Some(WriteFail(k));
    }
  }
}
