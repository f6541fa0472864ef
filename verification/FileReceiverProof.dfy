/** The receiver treats every transfer as if it were alone: what it does for one id is what a
    private receiver does on the events of that id, whatever else arrives in between. */
module FileReceiverProof {
  import opened Bytes
  import opened Base64
  import opened FileReceiver

  // ---- Replies ----

  lemma OutcomesSnoc(out: seq<Reply>, r: Reply, disk: map<string, seq<byte>>, id: string)
    ensures OutcomesOf(out + [r], disk, id) == OutcomesOf(out, disk, id) + OutcomesOf([r], disk, id)
  {
    assert (out + [r])[..|out|] == out;
    assert [r][..0] == [];
  }

  ghost predicate SavedAgree(out: seq<Reply>, d: map<string, seq<byte>>, e: map<string, seq<byte>>) {
    forall i | 0 <= i < |out| && out[i].Saved? ::
      out[i].path in d && out[i].path in e && d[out[i].path] == e[out[i].path]
  }

  lemma {:induction false} OutcomesAgree(out: seq<Reply>, d: map<string, seq<byte>>, e: map<string, seq<byte>>,
                                         id: string)
    requires SavedAgree(out, d, e)
    ensures OutcomesOf(out, d, id) == OutcomesOf(out, e, id)
  {
    if out != [] {
      var front := out[..|out| - 1];
      assert forall i :: 0 <= i < |front| ==> front[i] == out[i];
      OutcomesAgree(front, d, e, id);
      assert out[|out| - 1].Saved? ==> out[|out| - 1].path in d;
    }
  }

  // ---- One step ----

  /** The path an accepted offer gets is new, or the plain name, which is then in the folder. */
  lemma PathOf(disk: map<string, seq<byte>>, name: string)
    ensures UniquePath(disk.Keys, name) !in disk <==> HasFree(disk.Keys, name)
    ensures !HasFree(disk.Keys, name) ==> FileName(name) in disk && UniquePath(disk.Keys, name) == FileName(name)
  {
    UniquePathIsFree(disk.Keys, name);
    if !HasFree(disk.Keys, name) {
      assert Candidate(FileName(name), 0) == FileName(name);
      UniqueFromTaken(disk.Keys, FileName(name), 0);
    }
  }

  /** Nobody owns the file at the path but, if it is open, this transfer. */
  ghost predicate NobodyHas(files: map<string, seq<byte>>, s: Rx, path: string, id: string) {
    && path !in files
    && (forall i | 0 <= i < |s.out| && s.out[i].Saved? :: s.out[i].path != path)
    && (forall o | o in s.open && o != id :: s.open[o].path != path)
  }

  lemma NewPath(limit: nat, files: map<string, seq<byte>>, s: Rx, ev: Event)
    requires Owned(files, s) && Names(limit, files, s, ev)
    ensures Accepted(limit, ev) ==> NobodyHas(files, s, UniquePath(s.disk.Keys, ev.msg.name), ev.msg.id)
  {
    if Accepted(limit, ev) {
      PathOf(s.disk, ev.msg.name);
      assert forall i :: 0 <= i < |s.out| && s.out[i].Saved? ==> s.out[i].path in SavedPaths(s.out);
    }
  }

  lemma TakeOwned(files: map<string, seq<byte>>, s: Rx, id: string, path: string, size: int)
    requires Owned(files, s)
    ensures var t := s.(open := s.open[id := RecvFile(path, size, 0, 0)], disk := s.disk[path := []]);
            && (Owned(files, t) <==> NobodyHas(files, s, path, id))
            && (NobodyHas(files, s, path, id) ==> SavedAgree(s.out, s.disk, t.disk))
  {
    var t := s.(open := s.open[id := RecvFile(path, size, 0, 0)], disk := s.disk[path := []]);
    assert t.open[id].path == path;
    if Owned(files, t) {
      forall o | o in s.open && o != id
        ensures s.open[o].path != path
      {
        assert t.open[o] == s.open[o];
      }
    }
  }

  /** An accepted offer keeps the ownership of files exactly when it takes none that somebody owns. */
  lemma OwnedOfferIff(limit: nat, files: map<string, seq<byte>>, s: Rx, ev: Event)
    requires Owned(files, s) && Accepted(limit, ev)
    ensures Owned(files, Step(limit, s, ev)) <==> TakesNone(files, s, ev.msg)
  {
    var path := UniquePath(s.disk.Keys, ev.msg.name);
    TakeOwned(files, s, ev.msg.id, path, ev.msg.size);
    PathOf(s.disk, ev.msg.name);
    assert forall i :: 0 <= i < |s.out| && s.out[i].Saved? ==> s.out[i].path in SavedPaths(s.out);
  }

  lemma OwnedOffer(limit: nat, files: map<string, seq<byte>>, s: Rx, ev: Event)
    requires Owned(files, s) && Names(limit, files, s, ev) && ev.Handle? && ev.msg.Offer?
    ensures Owned(files, Step(limit, s, ev)) && SavedAgree(s.out, s.disk, Step(limit, s, ev).disk)
  {
    NewPath(limit, files, s, ev);
    if Accepted(limit, ev) {
      TakeOwned(files, s, ev.msg.id, UniquePath(s.disk.Keys, ev.msg.name), ev.msg.size);
    }
  }

  lemma OwnedAbort(files: map<string, seq<byte>>, s: Rx, id: string)
    requires Owned(files, s) && id in s.open
    ensures Owned(files, Abort(s, id)) && SavedAgree(s.out, s.disk, Abort(s, id).disk)
  {
  }

  lemma OwnedData(limit: nat, files: map<string, seq<byte>>, s: Rx, id: string, raw: seq<byte>, writeOk: bool)
    requires Owned(files, s) && id in s.open
    ensures Owned(files, OnData(limit, s, id, raw, writeOk))
    ensures SavedAgree(s.out, s.disk, OnData(limit, s, id, raw, writeOk).disk)
  {
    if s.open[id].written + |raw| > limit || !writeOk {
      OwnedAbort(files, s, id);
    }
  }

  lemma OwnedClose(limit: nat, files: map<string, seq<byte>>, s: Rx, ev: Event)
    requires Owned(files, s) && ev.CloseAll?
    ensures Owned(files, Step(limit, s, ev)) && SavedAgree(s.out, s.disk, Step(limit, s, ev).disk)
  {
  }

  lemma OwnedMessage(limit: nat, files: map<string, seq<byte>>, s: Rx, ev: Event)
    requires Owned(files, s) && ev.Handle? && !ev.msg.Offer? && ev.msg.id in s.open
    ensures Owned(files, Step(limit, s, ev)) && SavedAgree(s.out, s.disk, Step(limit, s, ev).disk)
  {
    match ev.msg
    case Data(id, _, d) =>
      if Decode(d).Some? {
        OwnedData(limit, files, s, id, Decode(d).value, ev.writeOk);
      }
    case End(id) => OwnedAbort(files, s, id);
    case Cancel(id) => OwnedAbort(files, s, id);
    case Failure(_) =>
    case Other(_) =>
  }

  lemma OwnedStep(limit: nat, files: map<string, seq<byte>>, s: Rx, ev: Event)
    requires Owned(files, s) && Names(limit, files, s, ev)
    ensures Owned(files, Step(limit, s, ev)) && SavedAgree(s.out, s.disk, Step(limit, s, ev).disk)
  {
    if ev.CloseAll? {
      OwnedClose(limit, files, s, ev);
    } else if ev.msg.Offer? {
      OwnedOffer(limit, files, s, ev);
    } else if ev.msg.id in s.open {
      OwnedMessage(limit, files, s, ev);
    } else {
      assert Step(limit, s, ev) == s;
    }
  }

  /** A message for one id leaves every other id's open transfer and buffer alone. */
  lemma PhaseOthers(limit: nat, files: map<string, seq<byte>>, s: Rx, ev: Event, id: string)
    requires Owned(files, s) && Names(limit, files, s, ev) && !Concerns(ev, id)
    ensures PhaseOf(Step(limit, s, ev), id) == PhaseOf(s, id)
  {
    NewPath(limit, files, s, ev);
  }

  /** A message adds at most one reply, for its own id. */
  lemma OneReply(limit: nat, s: Rx, ev: Event)
    requires ev.Handle?
    ensures var t := Step(limit, s, ev);
            t.out == s.out || (exists r: Reply :: r.id == ev.msg.id && t.out == s.out + [r])
  {
    var t, id := Step(limit, s, ev), ev.msg.id;
    assert t.out == s.out
      || t.out == s.out + [Failed(id)]
      || (id in s.open && t.out == s.out + [Saved(id, s.open[id].path)])
      || (id in t.open && t.out == s.out + [Prog(id, t.open[id].written)]);
  }

  lemma ViewOthers(limit: nat, files: map<string, seq<byte>>, s: Rx, ev: Event, id: string)
    requires Owned(files, s) && Names(limit, files, s, ev) && !Concerns(ev, id)
    ensures View(Step(limit, s, ev), id) == View(s, id)
  {
    var t := Step(limit, s, ev);
    PhaseOthers(limit, files, s, ev, id);
    OwnedStep(limit, files, s, ev);
    OutcomesAgree(s.out, s.disk, t.disk, id);
    OneReply(limit, s, ev);
    if t.out != s.out {
      var r: Reply :| r.id == ev.msg.id && t.out == s.out + [r];
      OutcomesSnoc(s.out, r, t.disk, id);
    }
  }

  lemma ViewOffer(limit: nat, files: map<string, seq<byte>>, s: Rx, ev: Event)
    requires Owned(files, s) && Names(limit, files, s, ev) && ev.Handle? && ev.msg.Offer?
    ensures View(Step(limit, s, ev), ev.msg.id) == OneStep(limit, View(s, ev.msg.id), ev)
  {
    var t, id := Step(limit, s, ev), ev.msg.id;
    OwnedStep(limit, files, s, ev);
    OutcomesAgree(s.out, s.disk, t.disk, id);
    OutcomesSnoc(s.out, Failed(id), t.disk, id);
  }

  lemma ViewAbort(files: map<string, seq<byte>>, s: Rx, id: string)
    requires Owned(files, s) && id in s.open
    ensures View(Abort(s, id), id) == One(Idle, View(s, id).out + [Fail])
  {
    OwnedAbort(files, s, id);
    OutcomesAgree(s.out, s.disk, Abort(s, id).disk, id);
    OutcomesSnoc(s.out, Failed(id), Abort(s, id).disk, id);
  }

  lemma ViewData(limit: nat, files: map<string, seq<byte>>, s: Rx, id: string, raw: seq<byte>, writeOk: bool)
    requires Owned(files, s) && id in s.open
    ensures View(OnData(limit, s, id, raw, writeOk), id) == OneData(limit, View(s, id), raw, writeOk)
  {
    var rf := s.open[id];
    var t := OnData(limit, s, id, raw, writeOk);
    if rf.written + |raw| > limit || !writeOk {
      ViewAbort(files, s, id);
    } else {
      OwnedData(limit, files, s, id, raw, writeOk);
      OutcomesAgree(s.out, s.disk, t.disk, id);
      OutcomesSnoc(s.out, Prog(id, rf.written + |raw|), t.disk, id);
      AppendAtEnd(s.disk[rf.path], raw);
      assert s.out + [] == s.out;
      assert PhaseOf(t, id).content == s.disk[rf.path] + raw;
    }
  }

  lemma AppendAtEnd(content: seq<byte>, raw: seq<byte>)
    ensures WriteAt(content, |content|, raw) == content + raw
  {
  }

  lemma ViewEnd(limit: nat, files: map<string, seq<byte>>, s: Rx, ev: Event)
    requires Owned(files, s) && ev.Handle? && (ev.msg.End? || ev.msg.Cancel?) && ev.msg.id in s.open
    ensures View(Step(limit, s, ev), ev.msg.id) == OneStep(limit, View(s, ev.msg.id), ev)
  {
    var t, id := Step(limit, s, ev), ev.msg.id;
    OwnedStep(limit, files, s, ev);
    OutcomesAgree(s.out, s.disk, t.disk, id);
    OutcomesSnoc(s.out, Saved(id, s.open[id].path), t.disk, id);
    OutcomesSnoc(s.out, Failed(id), t.disk, id);
  }

  lemma {:induction false} OutcomesAborts(out: seq<Reply>, order: seq<string>, disk: map<string, seq<byte>>, id: string)
    requires NoRepeat(order)
    ensures OutcomesOf(out + seq(|order|, i requires 0 <= i < |order| => Failed(order[i])), disk, id)
         == OutcomesOf(out, disk, id) + (if id in order then [Fail] else [])
  {
    var fails := seq(|order|, i requires 0 <= i < |order| => Failed(order[i]));
    if order == [] {
      assert out + fails == out;
    } else {
      var order' := order[..|order| - 1];
      var fails' := seq(|order'|, i requires 0 <= i < |order'| => Failed(order'[i]));
      OutcomesAborts(out, order', disk, id);
      var last := Failed(order[|order| - 1]);
      assert out + fails == (out + fails') + [last];
      OutcomesSnoc(out + fails', last, disk, id);
      assert id in order <==> id in order' || id == order[|order| - 1];
    }
  }

  lemma ViewClose(limit: nat, files: map<string, seq<byte>>, s: Rx, ev: Event, id: string)
    requires Owned(files, s) && ev.CloseAll? && Possible(s, ev)
    ensures View(Step(limit, s, ev), id) == OneStep(limit, View(s, id), ev)
  {
    var t := Step(limit, s, ev);
    OwnedClose(limit, files, s, ev);
    OutcomesAgree(s.out, s.disk, t.disk, id);
    OutcomesAborts(s.out, ev.order, t.disk, id);
    assert id in ev.order <==> id in (set i | i in ev.order);
  }

  lemma ViewStep(limit: nat, files: map<string, seq<byte>>, s: Rx, ev: Event, id: string)
    requires Owned(files, s) && Names(limit, files, s, ev)
    ensures View(Step(limit, s, ev), id) == if Concerns(ev, id) then OneStep(limit, View(s, id), ev) else View(s, id)
  {
    if !Concerns(ev, id) {
      ViewOthers(limit, files, s, ev, id);
    } else if ev.CloseAll? {
      ViewClose(limit, files, s, ev, id);
    } else {
      match ev.msg
      case Offer(_, _, _) => ViewOffer(limit, files, s, ev);
      case Data(_, _, d) =>
        if Decode(d).Some? && id in s.open {
          ViewData(limit, files, s, id, Decode(d).value, ev.writeOk);
        }
      case End(_) => if id in s.open { ViewEnd(limit, files, s, ev); }
      case Cancel(_) => if id in s.open { ViewEnd(limit, files, s, ev); }
      case Failure(_) =>
      case Other(_) =>
    }
  }

  // ---- Runs ----

  lemma {:induction false} OwnedRun(limit: nat, files: map<string, seq<byte>>, evs: seq<Event>)
    requires NamesLast(limit, files, evs)
    ensures Owned(files, Run(limit, files, evs))
  {
    if evs != [] {
      var front := evs[..|evs| - 1];
      OwnedRun(limit, files, front);
      OwnedStep(limit, files, Run(limit, files, front), evs[|evs| - 1]);
    }
  }

  /** The folder holds fewer than a thousand files whenever an offer is accepted. */
  predicate FewFiles(limit: nat, files: map<string, seq<byte>>, evs: seq<Event>) {
    evs == [] ||
    var front, ev := evs[..|evs| - 1], evs[|evs| - 1];
    FewFiles(limit, files, front) && (Accepted(limit, ev) ==> |Run(limit, files, front).disk.Keys| < 1000)
  }

  /** Then no accepted offer ever takes a file that somebody owns. */
  lemma {:induction false} FewFilesTakeNone(limit: nat, files: map<string, seq<byte>>, evs: seq<Event>)
    requires PossibleRun(limit, files, evs) && FewFiles(limit, files, evs)
    ensures NamesLast(limit, files, evs)
  {
    if evs != [] {
      var front, ev := evs[..|evs| - 1], evs[|evs| - 1];
      FewFilesTakeNone(limit, files, front);
      if Accepted(limit, ev) {
        var taken := Run(limit, files, front).disk.Keys;
        FewFilesFree(taken, ev.msg.name);
        UniquePathIsFree(taken, ev.msg.name);
      }
    }
  }

  /** Files are owned after every event of the run. */
  ghost predicate AlwaysOwned(limit: nat, files: map<string, seq<byte>>, evs: seq<Event>) {
    Owned(files, Run(limit, files, evs)) && (evs != [] ==> AlwaysOwned(limit, files, evs[..|evs| - 1]))
  }

  /** So they are exactly when no accepted offer takes one that somebody owns. */
  lemma {:induction false} OwnedRunIff(limit: nat, files: map<string, seq<byte>>, evs: seq<Event>)
    requires PossibleRun(limit, files, evs)
    ensures AlwaysOwned(limit, files, evs) <==> NamesLast(limit, files, evs)
  {
    if evs != [] {
      var front := evs[..|evs| - 1];
      OwnedRunIff(limit, files, front);
      if NamesLast(limit, files, front) {
        OwnedStepIff(limit, files, Run(limit, files, front), evs[|evs| - 1]);
      }
    }
  }

  lemma OwnedStepIff(limit: nat, files: map<string, seq<byte>>, s: Rx, ev: Event)
    requires Owned(files, s) && Possible(s, ev)
    ensures Owned(files, Step(limit, s, ev)) <==> Names(limit, files, s, ev)
  {
    if Accepted(limit, ev) {
      OwnedOfferIff(limit, files, s, ev);
    } else {
      OwnedStep(limit, files, s, ev);
    }
  }

  lemma ForIdLast(evs: seq<Event>, id: string)
    requires evs != []
    ensures var front, ev := ForId(evs[..|evs| - 1], id), evs[|evs| - 1];
            ForId(evs, id) == if Concerns(ev, id) then front + [ev] else front
  {
  }

  lemma OneRunSnoc(limit: nat, evs: seq<Event>, ev: Event)
    ensures OneRun(limit, evs + [ev]) == OneStep(limit, OneRun(limit, evs), ev)
  {
    Snoc(evs, ev);
  }

  /** For every id, the receiver shared by all transfers shows exactly what a private receiver shows
      that is given only the events of that id: same buffer, same replies in the same order, and
      every saved file still holds what it held when it was saved. */
  lemma {:induction false} EachTransferAlone(limit: nat, files: map<string, seq<byte>>, evs: seq<Event>, id: string)
    requires NamesLast(limit, files, evs)
    ensures View(Run(limit, files, evs), id) == OneRun(limit, ForId(evs, id))
  {
    if evs != [] {
      var front, ev := evs[..|evs| - 1], evs[|evs| - 1];
      EachTransferAlone(limit, files, front, id);
      OwnedRun(limit, files, front);
      ViewStep(limit, files, Run(limit, files, front), ev, id);
      ForIdLast(evs, id);
      OneRunSnoc(limit, ForId(front, id), ev);
    }
  }
}
