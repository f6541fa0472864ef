/** One transfer and its file, in every run: how long the transfer has the file for itself, and what it and
    the saved file then hold. Nothing is asked of the names of other transfers. */
module FileReceiverAlone {
  import opened Bytes
  import opened Base64
  import opened FileReceiver
  import opened FileReceiverProof
  import opened FileReceiverProps

  /** The open transfer has a file of its own, as long as its byte count. */
  predicate Alone(s: Rx, id: string)
    requires id in s.open
  {
    var path := s.open[id].path;
    && path in s.disk && |s.disk[path]| == s.open[id].written
    && forall o :: o in s.open && o != id ==> s.open[o].path != path
  }

  /** The path that an accepted offer gets. */
  function Taken(s: Rx, ev: Event): string
    requires ev.Handle? && ev.msg.Offer?
  {
    UniquePath(s.disk.Keys, ev.msg.name)
  }

  /** An event leaves a transfer its file: an offer of this id gets a path that no other open transfer has, an
      offer of another id gets another path than this one's. */
  predicate Leaves(limit: nat, s: Rx, ev: Event, id: string) {
    Accepted(limit, ev) ==>
      if ev.msg.id == id then forall o :: o in s.open && o != id ==> s.open[o].path != Taken(s, ev)
      else id in s.open ==> s.open[id].path != Taken(s, ev)
  }

  /** Every event since the last accepted offer of the id has. */
  predicate LeftAlone(limit: nat, files: map<string, seq<byte>>, evs: seq<Event>, id: string) {
    evs == [] ||
    var front, ev := evs[..|evs| - 1], evs[|evs| - 1];
    && Leaves(limit, Run(limit, files, front), ev, id)
    && (LeftAlone(limit, files, front, id) || (Accepted(limit, ev) && ev.msg.id == id))
  }

  /** What a private receiver's phase becomes does not depend on its earlier answers. */
  function PhaseStep(limit: nat, p: Phase, ev: Event): Phase {
    OneStep(limit, One(p, []), ev).phase
  }

  lemma PhaseStepIs(limit: nat, o: One, ev: Event)
    ensures OneStep(limit, o, ev).phase == PhaseStep(limit, o.phase, ev)
  {
  }

  lemma AloneOffer(limit: nat, s: Rx, ev: Event)
    requires Accepted(limit, ev)
    ensures ev.msg.id in Step(limit, s, ev).open
    ensures Alone(Step(limit, s, ev), ev.msg.id) <==> Leaves(limit, s, ev, ev.msg.id)
    ensures PhaseOf(Step(limit, s, ev), ev.msg.id) == Receiving(ev.msg.size, [], 0)
  {
    var t, id := Step(limit, s, ev), ev.msg.id;
    forall o | o in s.open && o != id
      ensures o in t.open && t.open[o] == s.open[o]
    {
    }
  }

  lemma AloneOther(limit: nat, s: Rx, ev: Event, id: string)
    requires id in s.open && Alone(s, id) && !Concerns(ev, id)
    ensures id in Step(limit, s, ev).open
    ensures Alone(Step(limit, s, ev), id) <==> Leaves(limit, s, ev, id)
    ensures Leaves(limit, s, ev, id) ==> PhaseOf(Step(limit, s, ev), id) == PhaseOf(s, id)
  {
    var t := Step(limit, s, ev);
    if Accepted(limit, ev) {
      assert t.open[ev.msg.id].path == Taken(s, ev);
    } else if ev.msg.id in s.open {
      assert s.open[ev.msg.id].path != s.open[id].path;
    }
  }

  lemma AloneData(limit: nat, s: Rx, id: string, raw: seq<byte>, writeOk: bool)
    requires id in s.open && Alone(s, id)
    ensures var t := OnData(limit, s, id, raw, writeOk);
            && (id in t.open ==> Alone(t, id))
            && PhaseOf(t, id) == OneData(limit, One(PhaseOf(s, id), []), raw, writeOk).phase
  {
    AppendAtEnd(s.disk[s.open[id].path], raw);
  }

  lemma AloneOwn(limit: nat, s: Rx, ev: Event, id: string)
    requires id in s.open && Alone(s, id) && Concerns(ev, id) && !Accepted(limit, ev)
    ensures id in Step(limit, s, ev).open ==> Alone(Step(limit, s, ev), id)
    ensures PhaseOf(Step(limit, s, ev), id) == PhaseStep(limit, PhaseOf(s, id), ev)
  {
    if ev.Handle? && ev.msg.Data? && Decode(ev.msg.d).Some? {
      AloneData(limit, s, id, Decode(ev.msg.d).value, ev.writeOk);
    }
  }

  /** A transfer keeps its file to itself exactly as long as the events leave it. */
  lemma AloneStepIff(limit: nat, s: Rx, ev: Event, id: string)
    requires id in s.open ==> Alone(s, id)
    ensures var t := Step(limit, s, ev);
            id in t.open ==> (Alone(t, id) <==> Leaves(limit, s, ev, id))
  {
    PhaseAlone(limit, s, ev, id);
  }

  lemma PhaseAlone(limit: nat, s: Rx, ev: Event, id: string)
    requires id in s.open ==> Alone(s, id)
    ensures var t := Step(limit, s, ev);
            && (id in t.open ==> (Alone(t, id) <==> Leaves(limit, s, ev, id)))
            && (Leaves(limit, s, ev, id) ==>
                  PhaseOf(t, id) == if Concerns(ev, id) then PhaseStep(limit, PhaseOf(s, id), ev) else PhaseOf(s, id))
  {
    if Accepted(limit, ev) && ev.msg.id == id {
      AloneOffer(limit, s, ev);
    } else if id in s.open {
      if Concerns(ev, id) {
        AloneOwn(limit, s, ev, id);
      } else {
        AloneOther(limit, s, ev, id);
      }
    }
  }

  /** The transfer has had its file to itself at every moment since its last accepted offer. */
  predicate AloneSince(limit: nat, files: map<string, seq<byte>>, evs: seq<Event>, id: string) {
    && (id in Run(limit, files, evs).open ==> Alone(Run(limit, files, evs), id))
    && (evs == [] || (Accepted(limit, evs[|evs| - 1]) && evs[|evs| - 1].msg.id == id)
        || AloneSince(limit, files, evs[..|evs| - 1], id))
  }

  /** It has exactly when every event since then has left it its file. */
  lemma {:induction false} AloneSinceIff(limit: nat, files: map<string, seq<byte>>, evs: seq<Event>, id: string)
    ensures AloneSince(limit, files, evs, id) <==> LeftAlone(limit, files, evs, id)
  {
    if evs != [] {
      var front, ev := evs[..|evs| - 1], evs[|evs| - 1];
      var s := Run(limit, files, front);
      AloneSinceIff(limit, files, front, id);
      if Accepted(limit, ev) && ev.msg.id == id {
        AloneOffer(limit, s, ev);
      } else if LeftAlone(limit, files, front, id) {
        PhaseOfRun(limit, files, front, id);
        AloneStepIff(limit, s, ev, id);
        if !Concerns(ev, id) {
          OthersOpen(limit, s, ev, id);
        }
      }
    }
  }

  lemma OthersOpen(limit: nat, s: Rx, ev: Event, id: string)
    requires !Concerns(ev, id)
    ensures id in s.open <==> id in Step(limit, s, ev).open
  {
  }

  /** A transfer left alone holds in its file what a private receiver would. */
  lemma {:induction false} PhaseOfRun(limit: nat, files: map<string, seq<byte>>, evs: seq<Event>, id: string)
    requires LeftAlone(limit, files, evs, id)
    ensures var s := Run(limit, files, evs);
            (id in s.open ==> Alone(s, id)) && PhaseOf(s, id) == OneRun(limit, ForId(evs, id)).phase
  {
    if evs != [] {
      var front, ev := evs[..|evs| - 1], evs[|evs| - 1];
      var s := Run(limit, files, front);
      ForIdNext(limit, evs, id);
      if Accepted(limit, ev) && ev.msg.id == id {
        AloneOffer(limit, s, ev);
      } else {
        PhaseOfRun(limit, files, front, id);
        PhaseAlone(limit, s, ev, id);
      }
    }
  }

  lemma ForIdNext(limit: nat, evs: seq<Event>, id: string)
    requires evs != []
    ensures var before, ev := ForId(evs[..|evs| - 1], id), evs[|evs| - 1];
            OneRun(limit, ForId(evs, id)).phase ==
            if Concerns(ev, id) then PhaseStep(limit, OneRun(limit, before).phase, ev) else OneRun(limit, before).phase
  {
    var before, ev := ForId(evs[..|evs| - 1], id), evs[|evs| - 1];
    ForIdLast(evs, id);
    if Concerns(ev, id) {
      OneRunSnoc(limit, before, ev);
      PhaseStepIs(limit, OneRun(limit, before), ev);
    }
  }

  /** The file of an open transfer left alone is the join of its chunks since its offer. */
  lemma OpenFileHolds(limit: nat, files: map<string, seq<byte>>, evs: seq<Event>, id: string)
    requires LeftAlone(limit, files, evs, id) && id in Run(limit, files, evs).open
    ensures var s := Run(limit, files, evs);
            s.open[id].path in s.disk && s.disk[s.open[id].path] == Chunks(limit, ForId(evs, id))
  {
    PhaseOfRun(limit, files, evs, id);
    InProgressHolds(limit, ForId(evs, id));
  }

  // ---- Saved files ----

  /** A file that no open transfer writes to. */
  predicate Resting(s: Rx, path: string) {
    path in s.disk && forall o :: o in s.open ==> s.open[o].path != path
  }

  /** Such a file is left at rest exactly when no accepted offer takes its path, and then it stays as it is. */
  lemma RestStepIff(limit: nat, s: Rx, ev: Event, path: string)
    requires Resting(s, path)
    ensures Resting(Step(limit, s, ev), path) <==> (Accepted(limit, ev) ==> Taken(s, ev) != path)
    ensures Resting(Step(limit, s, ev), path) ==> Step(limit, s, ev).disk[path] == s.disk[path]
  {
    if Accepted(limit, ev) {
      assert Step(limit, s, ev).open[ev.msg.id].path == Taken(s, ev);
    } else if ev.Handle? && ev.msg.id in s.open {
      assert s.open[ev.msg.id].path != path;
    }
  }

  /** No accepted offer from the k-th event on takes the path. */
  predicate Spared(limit: nat, files: map<string, seq<byte>>, evs: seq<Event>, k: nat, path: string) {
    |evs| <= k ||
    var front, ev := evs[..|evs| - 1], evs[|evs| - 1];
    && Spared(limit, files, front, k, path)
    && (Accepted(limit, ev) ==> Taken(Run(limit, files, front), ev) != path)
  }

  /** The file has been at rest ever since the k-th event. */
  predicate RestedSince(limit: nat, files: map<string, seq<byte>>, evs: seq<Event>, k: nat, path: string) {
    Resting(Run(limit, files, evs), path) && (|evs| > k ==> RestedSince(limit, files, evs[..|evs| - 1], k, path))
  }

  /** A file at rest stays at rest exactly when no accepted offer takes its path, and is then never changed. */
  lemma {:induction false} SavedStaysIff(limit: nat, files: map<string, seq<byte>>, evs: seq<Event>, k: nat,
                                         path: string)
    requires k <= |evs| && Resting(Run(limit, files, evs[..k]), path)
    ensures RestedSince(limit, files, evs, k, path) <==> Spared(limit, files, evs, k, path)
    ensures Spared(limit, files, evs, k, path) ==>
              Resting(Run(limit, files, evs), path)
              && Run(limit, files, evs).disk[path] == Run(limit, files, evs[..k]).disk[path]
    decreases |evs|
  {
    if k == |evs| {
      assert evs[..k] == evs;
    } else {
      var front := evs[..|evs| - 1];
      TakeTwice(evs, |evs| - 1, k);
      SavedStaysIff(limit, files, front, k, path);
      if Spared(limit, files, front, k, path) {
        RestStepIff(limit, Run(limit, files, front), evs[|evs| - 1], path);
      }
    }
  }

  /** The n-th event makes the receiver answer "saved". */
  predicate AnsweredSaved(limit: nat, files: map<string, seq<byte>>, evs: seq<Event>, n: nat, id: string,
                          path: string) {
    n < |evs| && Run(limit, files, evs[..n + 1]).out == Run(limit, files, evs[..n]).out + [Saved(id, path)]
  }

  /** Up to then the transfer was left alone, and since then no accepted offer has taken the file. */
  predicate Untouched(limit: nat, files: map<string, seq<byte>>, evs: seq<Event>, n: nat, id: string, path: string)
    requires n < |evs|
  {
    LeftAlone(limit, files, evs[..n], id) && Spared(limit, files, evs, n + 1, path)
  }

  lemma SavedStep(limit: nat, s: Rx, ev: Event, id: string, path: string)
    requires Step(limit, s, ev).out == s.out + [Saved(id, path)]
    ensures ev.Handle? && ev.msg == End(id) && id in s.open
    ensures path == s.open[id].path && s.open[id].written == s.open[id].size
    ensures Step(limit, s, ev).disk == s.disk && Step(limit, s, ev).open == s.open - {id}
  {
    var t := Step(limit, s, ev);
    assert t.out[|s.out|] == Saved(id, path);
  }

  /** Saved means whole: when the k-th event makes the receiver answer "saved" for a transfer that was left
      alone, the file then, and as long as no accepted offer takes its path, is the join of that id's chunks
      since its offer, and it is as long as the offer declared. */
  lemma SavedMeansWhole(limit: nat, files: map<string, seq<byte>>, evs: seq<Event>, k: nat, id: string, path: string)
    requires AnsweredSaved(limit, files, evs, k, id, path) && Untouched(limit, files, evs, k, id, path)
    ensures path in Run(limit, files, evs).disk
    ensures Run(limit, files, evs).disk[path] == Chunks(limit, ForId(evs[..k], id))
    ensures Declared(limit, ForId(evs[..k], id)) == Some(|Chunks(limit, ForId(evs[..k], id))|)
  {
    var front, upto := evs[..k], evs[..k + 1];
    TakeTwice(evs, k + 1, k);
    var s := Run(limit, files, front);
    SavedStep(limit, s, evs[k], id, path);
    PhaseOfRun(limit, files, front, id);
    InProgressHolds(limit, ForId(front, id));
    SavedStaysIff(limit, files, evs, k + 1, path);
  }

  /** What a private receiver has answered stays answered. */
  lemma {:induction false} AnswersStay(limit: nat, evs: seq<Event>, k: nat, id: string)
    requires k <= |evs|
    ensures OneRun(limit, ForId(evs[..k], id)).out <= OneRun(limit, ForId(evs, id)).out
    decreases |evs|
  {
    if k == |evs| {
      assert evs[..k] == evs;
    } else {
      var front, ev := evs[..|evs| - 1], evs[|evs| - 1];
      TakeTwice(evs, |evs| - 1, k);
      AnswersStay(limit, front, k, id);
      ForIdLast(evs, id);
      OneRunSnoc(limit, ForId(front, id), ev);
    }
  }

  /** A file saved for a transfer left alone is one that a private receiver saves. */
  lemma SavedIsShown(limit: nat, files: map<string, seq<byte>>, evs: seq<Event>, n: nat, id: string, path: string)
    requires AnsweredSaved(limit, files, evs, n, id, path) && LeftAlone(limit, files, evs[..n], id)
    ensures Whole(Chunks(limit, ForId(evs[..n], id))) in OneRun(limit, ForId(evs, id)).out
  {
    var front, upto := evs[..n], evs[..n + 1];
    TakeTwice(evs, n + 1, n);
    SavedStep(limit, Run(limit, files, front), evs[n], id, path);
    PhaseOfRun(limit, files, front, id);
    InProgressHolds(limit, ForId(front, id));
    ForIdLast(upto, id);
    OneRunSnoc(limit, ForId(front, id), evs[n]);
    ClosesWhole(limit, OneRun(limit, ForId(front, id)), evs[n]);
    AnswersStay(limit, evs, n + 1, id);
  }

  lemma ClosesWhole(limit: nat, o: One, ev: Event)
    requires ev.Handle? && ev.msg.End? && o.phase.Receiving? && |o.phase.content| == o.phase.size
    ensures Whole(o.phase.content) in OneStep(limit, o, ev).out
  {
    Snoc(o.out, Whole(o.phase.content));
  }

  /** Every "saved" was answered by some event. */
  lemma {:induction false} SavedByEvent(limit: nat, files: map<string, seq<byte>>, evs: seq<Event>, id: string,
                                        path: string) returns (n: nat)
    requires Saved(id, path) in Run(limit, files, evs).out
    ensures AnsweredSaved(limit, files, evs, n, id, path)
    decreases |evs|
  {
    var front, ev := evs[..|evs| - 1], evs[|evs| - 1];
    if Saved(id, path) in Run(limit, files, front).out {
      n := SavedByEvent(limit, files, front, id, path);
      AnsweredEarlier(limit, files, evs, n, id, path);
    } else {
      n := |front|;
      NewlySaved(limit, Run(limit, files, front), ev, id, path);
      TakeAll(evs);
    }
  }

  lemma NewlySaved(limit: nat, s: Rx, ev: Event, id: string, path: string)
    requires Saved(id, path) in Step(limit, s, ev).out && Saved(id, path) !in s.out
    ensures Step(limit, s, ev).out == s.out + [Saved(id, path)]
  {
    var i :| 0 <= i < |Step(limit, s, ev).out| && Step(limit, s, ev).out[i] == Saved(id, path);
  }

  lemma AnsweredEarlier(limit: nat, files: map<string, seq<byte>>, evs: seq<Event>, n: nat, id: string, path: string)
    requires evs != [] && AnsweredSaved(limit, files, evs[..|evs| - 1], n, id, path)
    ensures AnsweredSaved(limit, files, evs, n, id, path)
  {
    TakeTwice(evs, |evs| - 1, n);
    TakeTwice(evs, |evs| - 1, n + 1);
  }

  // ---- As long as no offer takes a file that somebody owns ----

  /** Every transfer is then left alone. */
  lemma {:induction false} OwnersLeftAlone(limit: nat, files: map<string, seq<byte>>, evs: seq<Event>, id: string)
    requires NamesLast(limit, files, evs)
    ensures LeftAlone(limit, files, evs, id)
  {
    if evs != [] {
      var front := evs[..|evs| - 1];
      OwnersLeftAlone(limit, files, front, id);
      OwnedRun(limit, files, front);
      NewPath(limit, files, Run(limit, files, front), evs[|evs| - 1]);
    }
  }

  /** And every saved file is spared. */
  lemma {:induction false} SavedAreSpared(limit: nat, files: map<string, seq<byte>>, evs: seq<Event>, k: nat,
                                          path: string)
    requires NamesLast(limit, files, evs) && k <= |evs| && path in SavedPaths(Run(limit, files, evs[..k]).out)
    ensures Spared(limit, files, evs, k, path) && path in SavedPaths(Run(limit, files, evs).out)
    ensures Resting(Run(limit, files, evs), path)
    decreases |evs|
  {
    OwnedRun(limit, files, evs);
    if k == |evs| {
      assert evs[..k] == evs;
    } else {
      var front := evs[..|evs| - 1];
      TakeTwice(evs, |evs| - 1, k);
      SavedAreSpared(limit, files, front, k, path);
      OwnedRun(limit, files, front);
      SavedSpared(limit, files, Run(limit, files, front), evs[|evs| - 1], path);
    }
    SavedRests(files, Run(limit, files, evs), path);
  }

  lemma SavedRests(files: map<string, seq<byte>>, s: Rx, path: string)
    requires Owned(files, s) && path in SavedPaths(s.out)
    ensures Resting(s, path)
  {
  }

  lemma SavedSpared(limit: nat, files: map<string, seq<byte>>, s: Rx, ev: Event, path: string)
    requires Owned(files, s) && Names(limit, files, s, ev) && path in SavedPaths(s.out)
    ensures Accepted(limit, ev) ==> Taken(s, ev) != path
    ensures path in SavedPaths(Step(limit, s, ev).out)
  {
    NewPath(limit, files, s, ev);
    SavedGrows(limit, s, ev, path);
  }

  lemma {:induction false} NamesLastFront(limit: nat, files: map<string, seq<byte>>, evs: seq<Event>, k: nat)
    requires NamesLast(limit, files, evs) && k <= |evs|
    ensures NamesLast(limit, files, evs[..k])
    decreases |evs|
  {
    if k < |evs| {
      NamesLastFront(limit, files, evs[..|evs| - 1], k);
      TakeTwice(evs, |evs| - 1, k);
    } else {
      TakeAll(evs);
    }
  }

  /** So every saved file is untouched. */
  lemma OwnersUntouched(limit: nat, files: map<string, seq<byte>>, evs: seq<Event>, n: nat, id: string, path: string)
    requires NamesLast(limit, files, evs) && AnsweredSaved(limit, files, evs, n, id, path)
    ensures Untouched(limit, files, evs, n, id, path)
  {
    NamesLastFront(limit, files, evs, n);
    OwnersLeftAlone(limit, files, evs[..n], id);
    SavedPathsAdd(Run(limit, files, evs[..n]).out, Saved(id, path));
    SavedAreSpared(limit, files, evs, n + 1, path);
  }

  lemma SavedGrows(limit: nat, s: Rx, ev: Event, path: string)
    requires path in SavedPaths(s.out)
    ensures path in SavedPaths(Step(limit, s, ev).out)
  {
    var i :| 0 <= i < |s.out| && s.out[i].Saved? && s.out[i].path == path;
    assert Step(limit, s, ev).out[i] == s.out[i];
  }
}
