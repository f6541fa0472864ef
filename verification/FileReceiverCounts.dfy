/** What the shared receiver counts and answers. This holds in every run, also when names run out and
    transfers take each other's files. */
module FileReceiverCounts {
  import opened Bytes
  import opened Base64
  import opened FileReceiver
  import opened FileReceiverProof
  import opened FileReceiverProps

  /** The replies for one id, without the files they name. */
  function Answers(s: Rx, id: string): seq<Outcome> {
    OutcomesOf(s.out, map[], id)
  }

  function Blind(out: seq<Outcome>): seq<Outcome> {
    if out == [] then []
    else
      var last := out[|out| - 1];
      Blind(out[..|out| - 1]) + [if last.Whole? then Whole([]) else last]
  }

  lemma BlindSnoc(out: seq<Outcome>, x: Outcome)
    ensures Blind(out + [x]) == Blind(out) + [if x.Whole? then Whole([]) else x]
  {
    Snoc(out, x);
  }

  lemma {:induction false} BlindVerdicts(out: seq<Outcome>)
    ensures Verdicts(Blind(out)) == Verdicts(out)
  {
    if out != [] {
      var front, x := out[..|out| - 1], out[|out| - 1];
      BlindVerdicts(front);
      VerdictsSnoc(Blind(front), if x.Whole? then Whole([]) else x);
    }
  }

  lemma {:induction false} AckAnswered(out: seq<Outcome>, n: nat)
    requires Ack(n) in out
    ensures Ack(n) in Blind(out)
  {
    var front, x := out[..|out| - 1], out[|out| - 1];
    if x != Ack(n) {
      var i :| 0 <= i < |out| && out[i] == Ack(n);
      assert front[i] == Ack(n);
      AckAnswered(front, n);
    }
  }

  /** The counters and answers of an id are those of a private receiver. */
  ghost predicate Counted(s: Rx, id: string, o: One) {
    CountersAre(s, id, o.phase) && Answers(s, id) == Blind(o.out)
  }

  predicate CountersAre(s: Rx, id: string, p: Phase) {
    && (id in s.open <==> p.Receiving?)
    && (id in s.open ==>
          s.open[id].size == p.size && s.open[id].written == |p.content| && s.open[id].lastProg == p.lastProg)
  }

  /** A step that adds one reply for the id, or none. */
  lemma AnswersSnoc(s: Rx, t: Rx, id: string, r: Reply)
    requires t.out == s.out + [r]
    ensures Answers(t, id) == Answers(s, id) + OutcomesOf([r], map[], id)
  {
    OutcomesSnoc(s.out, r, map[], id);
  }

  lemma AnswersOthers(limit: nat, s: Rx, ev: Event, id: string)
    requires !Concerns(ev, id)
    ensures Answers(Step(limit, s, ev), id) == Answers(s, id)
  {
    var t := Step(limit, s, ev);
    OneReply(limit, s, ev);
    if t.out != s.out {
      var r: Reply :| r.id == ev.msg.id && t.out == s.out + [r];
      AnswersSnoc(s, t, id, r);
    }
  }

  lemma OpenOthers(limit: nat, s: Rx, ev: Event, id: string)
    requires !Concerns(ev, id)
    ensures id in Step(limit, s, ev).open <==> id in s.open
    ensures id in s.open ==> Step(limit, s, ev).open[id] == s.open[id]
  {
  }

  lemma CountOffer(limit: nat, s: Rx, ev: Event, o: One)
    requires ev.Handle? && ev.msg.Offer? && Counted(s, ev.msg.id, o)
    ensures Counted(Step(limit, s, ev), ev.msg.id, OneStep(limit, o, ev))
  {
    if !Accepted(limit, ev) {
      AnswersSnoc(s, Step(limit, s, ev), ev.msg.id, Failed(ev.msg.id));
      BlindSnoc(o.out, Fail);
    }
  }

  lemma CountAbort(s: Rx, id: string, o: One)
    requires Counted(s, id, o) && id in s.open
    ensures Counted(Abort(s, id), id, One(Idle, o.out + [Fail]))
  {
    AnswersSnoc(s, Abort(s, id), id, Failed(id));
    BlindSnoc(o.out, Fail);
  }

  lemma CountData(limit: nat, s: Rx, id: string, raw: seq<byte>, writeOk: bool, o: One)
    requires Counted(s, id, o) && id in s.open
    ensures Counted(OnData(limit, s, id, raw, writeOk), id, OneData(limit, o, raw, writeOk))
  {
    var n := s.open[id].written + |raw|;
    if n > limit || !writeOk {
      CountAbort(s, id, o);
    } else if n - s.open[id].lastProg >= PROG_STEP {
      AnswersSnoc(s, OnData(limit, s, id, raw, writeOk), id, Prog(id, n));
      BlindSnoc(o.out, Ack(n));
    } else {
      assert s.out + [] == s.out;
    }
  }

  lemma CountEnd(limit: nat, s: Rx, ev: Event, o: One)
    requires ev.Handle? && ev.msg.End? && Counted(s, ev.msg.id, o) && ev.msg.id in s.open
    ensures Counted(Step(limit, s, ev), ev.msg.id, OneStep(limit, o, ev))
  {
    var id := ev.msg.id;
    if s.open[id].written == s.open[id].size {
      AnswersSnoc(s, Step(limit, s, ev), id, Saved(id, s.open[id].path));
      BlindSnoc(o.out, Whole(o.phase.content));
    } else {
      CountAbort(s, id, o);
    }
  }

  lemma CountClose(limit: nat, s: Rx, ev: Event, id: string, o: One)
    requires ev.CloseAll? && Possible(s, ev) && Counted(s, id, o)
    ensures Counted(Step(limit, s, ev), id, OneStep(limit, o, ev))
  {
    OutcomesAborts(s.out, ev.order, map[], id);
    assert id in ev.order <==> id in (set i | i in ev.order);
    BlindSnoc(o.out, Fail);
    assert Answers(s, id) + [] == Answers(s, id);
  }

  lemma CountStep(limit: nat, s: Rx, ev: Event, id: string, o: One)
    requires Possible(s, ev) && Counted(s, id, o)
    ensures Counted(Step(limit, s, ev), id, if Concerns(ev, id) then OneStep(limit, o, ev) else o)
  {
    if !Concerns(ev, id) {
      AnswersOthers(limit, s, ev, id);
      OpenOthers(limit, s, ev, id);
    } else if ev.CloseAll? {
      CountClose(limit, s, ev, id, o);
    } else if ev.msg.Offer? {
      CountOffer(limit, s, ev, o);
    } else if id in s.open {
      if ev.msg.Data? && Decode(ev.msg.d).Some? {
        CountData(limit, s, id, Decode(ev.msg.d).value, ev.writeOk, o);
      } else if ev.msg.End? {
        CountEnd(limit, s, ev, o);
      }
    }
  }

  /** Whatever happens to the names, the shared receiver counts and answers for every id exactly as a private
      receiver does that is given only the events of that id. */
  lemma {:induction false} EachCountedAlone(limit: nat, files: map<string, seq<byte>>, evs: seq<Event>, id: string)
    requires PossibleRun(limit, files, evs)
    ensures Counted(Run(limit, files, evs), id, OneRun(limit, ForId(evs, id)))
  {
    if evs != [] {
      var front, ev := evs[..|evs| - 1], evs[|evs| - 1];
      EachCountedAlone(limit, files, front, id);
      CountStep(limit, Run(limit, files, front), ev, id, OneRun(limit, ForId(front, id)));
      ForIdLast(evs, id);
      OneRunSnoc(limit, ForId(front, id), ev);
    }
  }

  /** No transfer is open that declared more than the limit. */
  lemma {:induction false} DeclaredFits(limit: nat, evs: seq<Event>)
    ensures var o := OneRun(limit, evs); o.phase.Receiving? ==> o.phase.size <= limit
  {
    if evs != [] {
      DeclaredFits(limit, evs[..|evs| - 1]);
    }
  }

  /** An open transfer of the shared receiver has counted exactly the bytes of its chunks since its offer,
      never more than the limit, and acknowledged all but less than one progress step of them. */
  lemma OpenTransfersBounded(limit: nat, files: map<string, seq<byte>>, evs: seq<Event>, id: string)
    requires PossibleRun(limit, files, evs) && id in Run(limit, files, evs).open
    ensures var s := Run(limit, files, evs);
            var rf := s.open[id];
            && rf.written == |Chunks(limit, ForId(evs, id))| <= limit
            && Declared(limit, ForId(evs, id)) == Some(rf.size) && rf.size <= limit
            && rf.lastProg <= rf.written < rf.lastProg + 1_048_576
            && (rf.lastProg > 0 ==> Ack(rf.lastProg) in Answers(s, id))
  {
    EachCountedAlone(limit, files, evs, id);
    InProgressHolds(limit, ForId(evs, id));
    DeclaredFits(limit, ForId(evs, id));
    var o := OneRun(limit, ForId(evs, id));
    if o.phase.lastProg > 0 {
      AckAnswered(o.out, o.phase.lastProg);
    }
  }

  /** Every offer is accounted for by the shared receiver: answered by exactly one saved or failed, still
      open, cancelled, or replaced. */
  lemma OffersAccounted(limit: nat, files: map<string, seq<byte>>, evs: seq<Event>, id: string)
    requires PossibleRun(limit, files, evs)
    ensures var s, mine := Run(limit, files, evs), ForId(evs, id);
            OfferCount(mine) == Verdicts(Answers(s, id)) + (if id in s.open then 1 else 0) + Silenced(limit, mine)
  {
    EachCountedAlone(limit, files, evs, id);
    OneVerdictPerOffer(limit, ForId(evs, id));
    BlindVerdicts(OneRun(limit, ForId(evs, id)).out);
  }

  /** An event makes the receiver answer "saved" for an id exactly when it is the closing message of an open
      transfer whose chunks since its offer are together as long as the offer declared. */
  lemma SavedWhenCounted(limit: nat, files: map<string, seq<byte>>, evs: seq<Event>, ev: Event, id: string)
    requires PossibleRun(limit, files, evs) && Possible(Run(limit, files, evs), ev)
    ensures var s, mine := Run(limit, files, evs), ForId(evs, id);
            Answers(Step(limit, s, ev), id) == Answers(s, id) + [Whole([])] <==>
            ev.Handle? && ev.msg == End(id) && id in s.open && Declared(limit, mine) == Some(|Chunks(limit, mine)|)
  {
    var s, mine := Run(limit, files, evs), ForId(evs, id);
    EachCountedAlone(limit, files, evs, id);
    InProgressHolds(limit, mine);
    CountStep(limit, s, ev, id, OneRun(limit, mine));
    if Concerns(ev, id) {
      WholeOnEnd(limit, OneRun(limit, mine), ev);
    }
  }

  lemma WholeOnEnd(limit: nat, o: One, ev: Event)
    ensures Blind(OneStep(limit, o, ev).out) == Blind(o.out) + [Whole([])] <==>
            ev.Handle? && ev.msg.End? && o.phase.Receiving? && |o.phase.content| == o.phase.size
  {
    var out := OneStep(limit, o, ev).out;
    if out != o.out {
      OneAnswer(limit, o, ev);
      BlindWhole(o.out, out[|o.out|]);
    }
  }

  lemma OneAnswer(limit: nat, o: One, ev: Event)
    ensures var out := OneStep(limit, o, ev).out;
            out == o.out || (|out| == |o.out| + 1 && out == o.out + [out[|o.out|]])
  {
  }

  lemma BlindWhole(out: seq<Outcome>, x: Outcome)
    ensures Blind(out + [x]) == Blind(out) + [Whole([])] <==> x.Whole?
  {
    BlindSnoc(out, x);
    Snoc(Blind(out), Whole([]));
    Snoc(Blind(out), x);
  }
}
