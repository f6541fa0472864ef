/** What a sender and the owner of the folder may rely on. */
module FileReceiverProps {
  import opened Bytes
  import opened Base64
  import opened FileReceiver
  import opened FileReceiverProof

  // ---- The history of one transfer ----

  /** The decodable chunks since the last accepted offer, joined. */
  function Chunks(limit: nat, evs: seq<Event>): seq<byte> {
    if evs == [] then []
    else
      var before, ev := Chunks(limit, evs[..|evs| - 1]), evs[|evs| - 1];
      if ev.Handle? && Accepts(limit, ev.msg, ev.createOk) then []
      else if ev.Handle? && ev.msg.Data? && Decode(ev.msg.d).Some? then before + Decode(ev.msg.d).value
      else before
  }

  /** The size the last accepted offer declared. */
  function Declared(limit: nat, evs: seq<Event>): Option<int> {
    if evs == [] then None
    else
      var ev := evs[|evs| - 1];
      if ev.Handle? && Accepts(limit, ev.msg, ev.createOk) then Some(ev.msg.size)
      else Declared(limit, evs[..|evs| - 1])
  }

  function OfferCount(evs: seq<Event>): nat {
    if evs == [] then 0
    else OfferCount(evs[..|evs| - 1]) + (if evs[|evs| - 1].Handle? && evs[|evs| - 1].msg.Offer? then 1 else 0)
  }

  /** Transfers that ended without a reply: cancelled, or replaced by a new offer of the same id. */
  function Silenced(limit: nat, evs: seq<Event>): nat {
    if evs == [] then 0
    else
      var front, ev := evs[..|evs| - 1], evs[|evs| - 1];
      Silenced(limit, front) +
      (if OneRun(limit, front).phase.Receiving? && ev.Handle?
          && (ev.msg.Cancel? || Accepts(limit, ev.msg, ev.createOk)) then 1 else 0)
  }

  /** Replies that end a transfer. */
  function Verdicts(out: seq<Outcome>): nat {
    if out == [] then 0
    else Verdicts(out[..|out| - 1]) + (if out[|out| - 1].Ack? then 0 else 1)
  }

  lemma VerdictsSnoc(out: seq<Outcome>, x: Outcome)
    ensures Verdicts(out + [x]) == Verdicts(out) + (if x.Ack? then 0 else 1)
  {
    assert (out + [x])[..|out|] == out;
  }

  ghost predicate InProgress(limit: nat, evs: seq<Event>, o: One) {
    o.phase.Receiving? ==>
      && o.phase.content == Chunks(limit, evs)
      && Declared(limit, evs) == Some(o.phase.size)
      && |o.phase.content| <= limit
      && o.phase.lastProg <= |o.phase.content| < o.phase.lastProg + 1_048_576
      && (o.phase.lastProg > 0 ==> Ack(o.phase.lastProg) in o.out)
  }

  /** An open transfer holds exactly the chunks since its offer, never more than the limit, and less
      than one progress step beyond the last acknowledgement. */
  lemma {:induction false} InProgressHolds(limit: nat, evs: seq<Event>)
    ensures InProgress(limit, evs, OneRun(limit, evs))
  {
    if evs != [] {
      InProgressHolds(limit, evs[..|evs| - 1]);
    }
  }

  /** Every offer is accounted for: answered by exactly one saved or failed, still open, cancelled, or
      replaced. */
  lemma {:induction false} OneVerdictPerOffer(limit: nat, evs: seq<Event>)
    ensures var o := OneRun(limit, evs);
            OfferCount(evs) == Verdicts(o.out) + (if o.phase.Idle? then 0 else 1) + Silenced(limit, evs)
  {
    if evs != [] {
      var o := OneRun(limit, evs[..|evs| - 1]);
      OneVerdictPerOffer(limit, evs[..|evs| - 1]);
      VerdictStep(limit, o, evs[|evs| - 1]);
    }
  }

  lemma VerdictStep(limit: nat, o: One, ev: Event)
    ensures var o' := OneStep(limit, o, ev);
            var isOpen := if o.phase.Idle? then 0 else 1;
            var isOpen' := if o'.phase.Idle? then 0 else 1;
            var offer := if ev.Handle? && ev.msg.Offer? then 1 else 0;
            var silent :=
              if isOpen == 1 && ev.Handle? && (ev.msg.Cancel? || Accepts(limit, ev.msg, ev.createOk)) then 1 else 0;
            Verdicts(o'.out) + isOpen' + silent == Verdicts(o.out) + isOpen + offer
  {
    var o' := OneStep(limit, o, ev);
    if o'.out != o.out {
      VerdictsSnoc(o.out, o'.out[|o'.out| - 1]);
    }
  }

  // ---- The folder ----

  /** The files abandoned so far: an accepted offer that re-uses the id of an open transfer abandons that
      transfer's file, and one that takes an abandoned file is its new owner. */
  function Orphans(limit: nat, files: map<string, seq<byte>>, evs: seq<Event>): set<string> {
    if evs == [] then {}
    else
      var front, ev := evs[..|evs| - 1], evs[|evs| - 1];
      OrphansAfter(limit, Run(limit, files, front), ev, Orphans(limit, files, front))
  }

  function OrphansAfter(limit: nat, s: Rx, ev: Event, orphans: set<string>): set<string> {
    if Accepted(limit, ev) then orphans + OldPath(s, ev.msg.id) - {UniquePath(s.disk.Keys, ev.msg.name)} else orphans
  }

  function OldPath(s: Rx, id: string): set<string> {
    if id in s.open then {s.open[id].path} else {}
  }

  /** The folder holds the files of before, the saved, the open and the abandoned ones, and no others. */
  ghost predicate Ledger(files: map<string, seq<byte>>, s: Rx, orphans: set<string>) {
    && s.disk.Keys == files.Keys + SavedPaths(s.out) + orphans + OpenPaths(s)
    && orphans !! files.Keys && orphans !! SavedPaths(s.out) && orphans !! OpenPaths(s)
  }

  lemma SavedPathsAdd(out: seq<Reply>, r: Reply)
    ensures SavedPaths(out + [r]) == SavedPaths(out) + (if r.Saved? then {r.path} else {})
  {
    var all := out + [r];
    forall p | p in SavedPaths(out)
      ensures p in SavedPaths(all)
    {
      var i :| 0 <= i < |out| && out[i].Saved? && out[i].path == p;
      assert all[i] == out[i];
    }
    if r.Saved? {
      assert all[|out|] == r;
    }
  }

  lemma OpenPathsRemove(files: map<string, seq<byte>>, s: Rx, id: string)
    requires Owned(files, s) && id in s.open
    ensures OpenPaths(s.(open := s.open - {id})) == OpenPaths(s) - {s.open[id].path}
    ensures s.open[id].path in OpenPaths(s)
    ensures s.open[id].path !in SavedPaths(s.out) && s.open[id].path !in files.Keys
  {
    var path, t := s.open[id].path, s.(open := s.open - {id});
    forall p | p in OpenPaths(s) && p != path
      ensures p in OpenPaths(t)
    {
      var other :| other in s.open && s.open[other].path == p;
      assert other in t.open;
    }
  }

  lemma LedgerAbort(files: map<string, seq<byte>>, s: Rx, orphans: set<string>, id: string)
    requires Owned(files, s) && Ledger(files, s, orphans) && id in s.open
    ensures Ledger(files, Abort(s, id), orphans)
  {
    OpenPathsRemove(files, s, id);
    SavedPathsAdd(s.out, Failed(id));
    assert OpenPaths(Abort(s, id)) == OpenPaths(s.(open := s.open - {id}));
  }

  lemma LedgerSave(files: map<string, seq<byte>>, s: Rx, orphans: set<string>, id: string)
    requires Owned(files, s) && Ledger(files, s, orphans) && id in s.open
    ensures Ledger(files, s.(open := s.open - {id}, out := s.out + [Saved(id, s.open[id].path)]), orphans)
  {
    var t := s.(open := s.open - {id}, out := s.out + [Saved(id, s.open[id].path)]);
    OpenPathsRemove(files, s, id);
    SavedPathsAdd(s.out, Saved(id, s.open[id].path));
    assert OpenPaths(t) == OpenPaths(s.(open := s.open - {id}));
  }

  lemma SamePaths(s: Rx, t: Rx)
    requires s.open.Keys == t.open.Keys && forall id :: id in s.open ==> s.open[id].path == t.open[id].path
    ensures OpenPaths(s) == OpenPaths(t)
  {
    forall p | p in OpenPaths(s)
      ensures p in OpenPaths(t)
    {
      var id :| id in s.open && s.open[id].path == p;
      assert id in t.open;
    }
  }

  lemma LedgerData(limit: nat, files: map<string, seq<byte>>, s: Rx, orphans: set<string>, id: string,
                   raw: seq<byte>, writeOk: bool)
    requires Owned(files, s) && Ledger(files, s, orphans) && id in s.open
    ensures Ledger(files, OnData(limit, s, id, raw, writeOk), orphans)
  {
    var t := OnData(limit, s, id, raw, writeOk);
    if s.open[id].written + |raw| > limit || !writeOk {
      LedgerAbort(files, s, orphans, id);
    } else {
      DataParts(limit, s, id, raw);
      SamePaths(s, t);
      if t.out != s.out {
        SavedPathsAdd(s.out, Prog(id, s.open[id].written + |raw|));
      }
      SameLedger(files, s, t, orphans);
    }
  }

  lemma DataParts(limit: nat, s: Rx, id: string, raw: seq<byte>)
    requires id in s.open && s.open[id].written + |raw| <= limit
    ensures var t := OnData(limit, s, id, raw, true);
            && t.disk.Keys == s.disk.Keys && t.open.Keys == s.open.Keys
            && (forall o :: o in s.open ==> t.open[o].path == s.open[o].path)
            && (t.out == s.out || t.out == s.out + [Prog(id, s.open[id].written + |raw|)])
  {
  }

  lemma SameLedger(files: map<string, seq<byte>>, s: Rx, t: Rx, orphans: set<string>)
    requires Ledger(files, s, orphans) && t.disk.Keys == s.disk.Keys && SavedPaths(t.out) == SavedPaths(s.out)
    requires OpenPaths(t) == OpenPaths(s)
    ensures Ledger(files, t, orphans)
  {
  }

  lemma OpenPathsPut(files: map<string, seq<byte>>, s: Rx, t: Rx, id: string)
    requires Owned(files, s) && id in t.open && t.open == s.open[id := t.open[id]]
    ensures OpenPaths(t) == OpenPaths(s) - OldPath(s, id) + {t.open[id].path}
  {
    forall p | p in OpenPaths(s) - OldPath(s, id) + {t.open[id].path}
      ensures p in OpenPaths(t)
    {
      if p != t.open[id].path {
        var other :| other in s.open && s.open[other].path == p;
        assert t.open[other] == s.open[other];
      }
    }
    forall p | p in OpenPaths(t) && p != t.open[id].path
      ensures p in OpenPaths(s) - OldPath(s, id)
    {
      var other :| other in t.open && t.open[other].path == p;
      assert s.open[other] == t.open[other];
    }
  }

  lemma LedgerOffer(limit: nat, files: map<string, seq<byte>>, s: Rx, orphans: set<string>, ev: Event)
    requires Owned(files, s) && Ledger(files, s, orphans) && Names(limit, files, s, ev) && Accepted(limit, ev)
    ensures Ledger(files, Step(limit, s, ev), OrphansAfter(limit, s, ev, orphans))
  {
    var t, id, path := Step(limit, s, ev), ev.msg.id, UniquePath(s.disk.Keys, ev.msg.name);
    OpenPathsPut(files, s, t, id);
    NewPath(limit, files, s, ev);
    if id in s.open {
      OpenPathsRemove(files, s, id);
    }
    assert path !in SavedPaths(s.out);
    TakePath(files.Keys + SavedPaths(s.out), orphans, OpenPaths(s), OldPath(s, id), path);
    assert t.disk.Keys == s.disk.Keys + {path};
  }

  lemma TakePath<T>(base: set<T>, orphans: set<T>, paths: set<T>, was: set<T>, path: T)
    requires was <= paths
    ensures base + orphans + paths + {path} == base + (orphans + was - {path}) + (paths - was + {path})
  {
  }

  lemma LedgerClose(limit: nat, files: map<string, seq<byte>>, s: Rx, orphans: set<string>, ev: Event)
    requires Owned(files, s) && Ledger(files, s, orphans) && ev.CloseAll?
    ensures Ledger(files, Step(limit, s, ev), orphans)
  {
    var t := Step(limit, s, ev);
    assert OpenPaths(t) == {};
    assert forall i :: 0 <= i < |s.out| ==> t.out[i] == s.out[i];
    assert SavedPaths(t.out) == SavedPaths(s.out);
    assert OpenPaths(s) !! SavedPaths(s.out) && OpenPaths(s) !! files.Keys;
  }

  lemma LedgerMessage(limit: nat, files: map<string, seq<byte>>, s: Rx, orphans: set<string>, ev: Event)
    requires Owned(files, s) && Ledger(files, s, orphans) && ev.Handle? && !ev.msg.Offer? && ev.msg.id in s.open
    ensures Ledger(files, Step(limit, s, ev), orphans)
  {
    match ev.msg
    case Data(id, _, d) =>
      if Decode(d).Some? { LedgerData(limit, files, s, orphans, id, Decode(d).value, ev.writeOk); }
    case End(id) =>
      LedgerAbort(files, s, orphans, id);
      LedgerSave(files, s, orphans, id);
    case Cancel(id) =>
      OpenPathsRemove(files, s, id);
      assert OpenPaths(Step(limit, s, ev)) == OpenPaths(s.(open := s.open - {id}));
    case Failure(_) =>
    case Other(_) =>
  }

  lemma LedgerStep(limit: nat, files: map<string, seq<byte>>, s: Rx, orphans: set<string>, ev: Event)
    requires Owned(files, s) && Ledger(files, s, orphans) && Names(limit, files, s, ev)
    ensures Ledger(files, Step(limit, s, ev), OrphansAfter(limit, s, ev, orphans))
  {
    if ev.CloseAll? {
      LedgerClose(limit, files, s, orphans, ev);
    } else if Accepted(limit, ev) {
      LedgerOffer(limit, files, s, orphans, ev);
    } else if ev.msg.Offer? {
      SavedPathsAdd(s.out, Failed(ev.msg.id));
      assert OpenPaths(Step(limit, s, ev)) == OpenPaths(s);
    } else if ev.msg.id in s.open {
      LedgerMessage(limit, files, s, orphans, ev);
    } else {
      assert Step(limit, s, ev) == s;
    }
  }

  /** The folder is accounted for at every moment: it holds the files it began with, untouched, the saved
      files, those of open transfers and the abandoned ones, all of them apart, and no others. */
  lemma {:induction false} FolderLedger(limit: nat, files: map<string, seq<byte>>, evs: seq<Event>)
    requires NamesLast(limit, files, evs)
    ensures Ledger(files, Run(limit, files, evs), Orphans(limit, files, evs))
    ensures forall p | p in files :: p in Run(limit, files, evs).disk && Run(limit, files, evs).disk[p] == files[p]
  {
    OwnedRun(limit, files, evs);
    if evs == [] {
      assert OpenPaths(Start(files)) == {} && SavedPaths([]) == {};
    } else {
      var front := evs[..|evs| - 1];
      FolderLedger(limit, files, front);
      OwnedRun(limit, files, front);
      LedgerStep(limit, files, Run(limit, files, front), Orphans(limit, files, front), evs[|evs| - 1]);
    }
  }

  /** Nothing is left behind. */
  ghost predicate Tidy(files: map<string, seq<byte>>, s: Rx) {
    s.disk.Keys == files.Keys + SavedPaths(s.out) + OpenPaths(s)
  }

  /** Nothing is left behind exactly when every abandoned file has found a new owner. */
  lemma TidyIff(limit: nat, files: map<string, seq<byte>>, evs: seq<Event>)
    requires NamesLast(limit, files, evs)
    ensures Tidy(files, Run(limit, files, evs)) <==> Orphans(limit, files, evs) == {}
  {
    FolderLedger(limit, files, evs);
  }

  /** No accepted offer re-uses the id of a transfer still open. */
  predicate FreshIds(limit: nat, files: map<string, seq<byte>>, evs: seq<Event>) {
    evs == [] ||
    var s, ev := Run(limit, files, evs[..|evs| - 1]), evs[|evs| - 1];
    FreshIds(limit, files, evs[..|evs| - 1]) && (Accepted(limit, ev) ==> ev.msg.id !in s.open)
  }

  /** Every accepted offer finds one of its thousand names free. */
  predicate FreeNames(limit: nat, files: map<string, seq<byte>>, evs: seq<Event>) {
    evs == [] ||
    var s, ev := Run(limit, files, evs[..|evs| - 1]), evs[|evs| - 1];
    FreeNames(limit, files, evs[..|evs| - 1]) && (Accepted(limit, ev) ==> HasFree(s.disk.Keys, ev.msg.name))
  }

  lemma {:induction false} FreshHasNoOrphans(limit: nat, files: map<string, seq<byte>>, evs: seq<Event>)
    requires FreshIds(limit, files, evs)
    ensures Orphans(limit, files, evs) == {}
  {
    if evs != [] {
      FreshHasNoOrphans(limit, files, evs[..|evs| - 1]);
    }
  }

  lemma {:induction false} OrphansStay(limit: nat, files: map<string, seq<byte>>, evs: seq<Event>)
    requires NamesLast(limit, files, evs) && FreeNames(limit, files, evs)
    ensures Orphans(limit, files, evs) == {} <==> FreshIds(limit, files, evs)
    ensures evs != [] ==> Orphans(limit, files, evs[..|evs| - 1]) <= Orphans(limit, files, evs)
  {
    if evs != [] {
      var front, ev := evs[..|evs| - 1], evs[|evs| - 1];
      OrphansStay(limit, files, front);
      FolderLedger(limit, files, front);
      OwnedRun(limit, files, front);
      FreeTakesNoOrphan(limit, files, Run(limit, files, front), ev, Orphans(limit, files, front));
    }
  }

  lemma FreeTakesNoOrphan(limit: nat, files: map<string, seq<byte>>, s: Rx, ev: Event, orphans: set<string>)
    requires Owned(files, s) && Ledger(files, s, orphans) && (Accepted(limit, ev) ==> HasFree(s.disk.Keys, ev.msg.name))
    ensures orphans <= OrphansAfter(limit, s, ev, orphans)
    ensures OrphansAfter(limit, s, ev, orphans) == {} <==>
            orphans == {} && (Accepted(limit, ev) ==> ev.msg.id !in s.open)
  {
    if Accepted(limit, ev) {
      PathOf(s.disk, ev.msg.name);
      var path := UniquePath(s.disk.Keys, ev.msg.name);
      assert path !in orphans;
      if ev.msg.id in s.open {
        assert s.open[ev.msg.id].path in OrphansAfter(limit, s, ev, orphans);
      }
    }
  }

  /** As long as names do not run out, an abandoned file stays for good: nothing is left behind in the folder
      exactly when no accepted offer ever re-used the id of a transfer still open. */
  lemma FolderTidyIff(limit: nat, files: map<string, seq<byte>>, evs: seq<Event>)
    requires NamesLast(limit, files, evs) && FreeNames(limit, files, evs)
    ensures Tidy(files, Run(limit, files, evs)) <==> FreshIds(limit, files, evs)
  {
    TidyIff(limit, files, evs);
    OrphansStay(limit, files, evs);
  }

  // ---- Whatever happens to the names ----

  /** The folder holds nothing but files of before, saved, abandoned and open ones. */
  ghost predicate Within(files: map<string, seq<byte>>, s: Rx, orphans: set<string>) {
    s.disk.Keys <= files.Keys + SavedPaths(s.out) + orphans + OpenPaths(s)
  }

  /** When only one transfer changes, the paths of all others stay. */
  lemma OpenPathsKept(s: Rx, t: Rx, id: string)
    requires forall o :: o in s.open && o != id ==> o in t.open && t.open[o].path == s.open[o].path
    ensures OpenPaths(s) - OldPath(s, id) <= OpenPaths(t)
    ensures id in t.open ==> t.open[id].path in OpenPaths(t)
  {
    forall p | p in OpenPaths(s) - OldPath(s, id)
      ensures p in OpenPaths(t)
    {
      var o :| o in s.open && s.open[o].path == p;
      assert t.open[o].path == p;
    }
  }

  lemma {:induction false} SavedPathsGrow(a: seq<Reply>, b: seq<Reply>)
    requires a <= b
    ensures SavedPaths(a) <= SavedPaths(b)
  {
    forall p | p in SavedPaths(a)
      ensures p in SavedPaths(b)
    {
      var i :| 0 <= i < |a| && a[i].Saved? && a[i].path == p;
      assert b[i] == a[i];
    }
  }

  /** What one message does to the folder and to the other transfers. */
  lemma MessageKeys(limit: nat, s: Rx, ev: Event)
    requires ev.Handle?
    ensures var t, id := Step(limit, s, ev), ev.msg.id;
            && s.out <= t.out
            && (forall o :: o in s.open && o != id ==> o in t.open && t.open[o].path == s.open[o].path)
            && (Accepted(limit, ev) ==>
                  id in t.open && t.open[id].path == UniquePath(s.disk.Keys, ev.msg.name)
                  && t.disk.Keys == s.disk.Keys + {t.open[id].path})
            && (!Accepted(limit, ev) && id in t.open ==>
                  id in s.open && t.open[id].path == s.open[id].path && t.disk.Keys == s.disk.Keys)
            && (!Accepted(limit, ev) && id !in t.open && id in s.open ==>
                  t.disk.Keys == s.disk.Keys - {s.open[id].path}
                  || (t.disk == s.disk && t.out == s.out + [Saved(id, s.open[id].path)]))
            && (!Accepted(limit, ev) && id !in t.open && id !in s.open ==> t.disk == s.disk)
  {
  }

  lemma WithinMessage(limit: nat, files: map<string, seq<byte>>, s: Rx, orphans: set<string>, ev: Event)
    requires Within(files, s, orphans) && ev.Handle?
    ensures Within(files, Step(limit, s, ev), OrphansAfter(limit, s, ev, orphans))
  {
    var t, id := Step(limit, s, ev), ev.msg.id;
    MessageKeys(limit, s, ev);
    OpenPathsKept(s, t, id);
    SavedPathsGrow(s.out, t.out);
    if id in s.open && t.out == s.out + [Saved(id, s.open[id].path)] {
      SavedPathsAdd(s.out, Saved(id, s.open[id].path));
    }
  }

  lemma WithinClose(limit: nat, files: map<string, seq<byte>>, s: Rx, orphans: set<string>, ev: Event)
    requires Within(files, s, orphans) && ev.CloseAll?
    ensures Within(files, Step(limit, s, ev), orphans)
  {
    SavedPathsGrow(s.out, Step(limit, s, ev).out);
  }

  /** In every run, also when names run out and transfers take each other's files, the folder holds nothing
      but the files it began with, the saved ones, the abandoned ones and those of open transfers. */
  lemma {:induction false} NothingElse(limit: nat, files: map<string, seq<byte>>, evs: seq<Event>)
    ensures Within(files, Run(limit, files, evs), Orphans(limit, files, evs))
  {
    if evs != [] {
      var front, ev := evs[..|evs| - 1], evs[|evs| - 1];
      NothingElse(limit, files, front);
      if ev.CloseAll? {
        WithinClose(limit, files, Run(limit, files, front), Orphans(limit, files, front), ev);
      } else {
        WithinMessage(limit, files, Run(limit, files, front), Orphans(limit, files, front), ev);
      }
    }
  }

  /** With fresh ids nothing is left behind, also when names run out: every file of a transfer that ended
      without being saved is gone. As long as no offer takes a file that somebody owns, what should be in the
      folder is also there, the files of before untouched. */
  lemma FolderTidy(limit: nat, files: map<string, seq<byte>>, evs: seq<Event>)
    requires FreshIds(limit, files, evs)
    ensures Within(files, Run(limit, files, evs), {})
    ensures NamesLast(limit, files, evs) ==> Tidy(files, Run(limit, files, evs))
    ensures NamesLast(limit, files, evs) ==>
              forall p | p in files :: p in Run(limit, files, evs).disk && Run(limit, files, evs).disk[p] == files[p]
  {
    FreshHasNoOrphans(limit, files, evs);
    NothingElse(limit, files, evs);
    if NamesLast(limit, files, evs) {
      TidyIff(limit, files, evs);
      FolderLedger(limit, files, evs);
    }
  }

  // ---- Where the code does not deliver this ----

  /** An accepted offer that re-uses an open id abandons the partial file exactly when it does not get that
      very file again: it stays in the folder, no open transfer owns it and no saved reply names it. */
  lemma ReofferLeaksFile(limit: nat, files: map<string, seq<byte>>, s: Rx, ev: Event)
    requires Owned(files, s) && Names(limit, files, s, ev) && Accepted(limit, ev) && ev.msg.id in s.open
    ensures var t, orphan := Step(limit, s, ev), s.open[ev.msg.id].path;
            && orphan in t.disk && orphan !in files && orphan !in SavedPaths(t.out)
            && (orphan !in OpenPaths(t) <==> orphan != UniquePath(s.disk.Keys, ev.msg.name))
  {
    NewPath(limit, files, s, ev);
    OpenPathsPut(files, s, Step(limit, s, ev), ev.msg.id);
  }

  /** An accepted offer leaves every file in the folder as it was exactly when one of its thousand
      names is free or the file of its plain name is empty anyway. */
  lemma OfferKeepsFilesIff(limit: nat, s: Rx, ev: Event)
    requires ev.Handle? && Accepts(limit, ev.msg, ev.createOk)
    ensures var t, name := Step(limit, s, ev), FileName(ev.msg.name);
            (forall p | p in s.disk :: p in t.disk && t.disk[p] == s.disk[p])
            <==> HasFree(s.disk.Keys, ev.msg.name) || (name in s.disk && s.disk[name] == [])
  {
    var t, name := Step(limit, s, ev), FileName(ev.msg.name);
    UniquePathIsFree(s.disk.Keys, ev.msg.name);
    if !HasFree(s.disk.Keys, ev.msg.name) {
      assert Candidate(name, 0) == name && name in s.disk;
      UniqueFromTaken(s.disk.Keys, name, 0);
      assert t.disk[name] == [];
    }
  }

  /** The consequence for a transfer in progress: once the names of its file have run out, an offer of
      the same name empties its file, and the transfer is still answered "saved". */
  lemma SavedAlthoughEmptied(limit: nat, s: Rx, id: string, other: string, name: string, size: nat)
    requires id in s.open && other != id && s.open[id].path == FileName(name) && FileName(name) in s.disk
    requires s.open[id].size == s.open[id].written > 0 && size <= limit
    requires !HasFree(s.disk.Keys, name)
    ensures var t := Step(limit, s, Handle(Offer(other, name, size), true, true));
            var u := Step(limit, t, Handle(End(id), true, true));
            u.out == s.out + [Saved(id, FileName(name))] && u.disk[FileName(name)] == []
  {
    UniqueFromTaken(s.disk.Keys, FileName(name), 0);
  }

  /** A folder in which every numbered form of a name is taken and the plain name is free. */
  predicate OnlyPlainFree(files: map<string, seq<byte>>, name: string) {
    name != "" && name !in files && forall k :: 1 <= k < NAMES ==> Candidate(name, k) in files
  }

  lemma AllTaken(files: map<string, seq<byte>>, disk: map<string, seq<byte>>, name: string)
    requires OnlyPlainFree(files, name) && files.Keys + {name} <= disk.Keys
    ensures !HasFree(disk.Keys, name) && UniquePath(disk.Keys, name) == name
  {
    assert Candidate(name, 0) == name;
    assert forall k :: 0 <= k < NAMES ==> Candidate(name, k) in disk;
    UniqueFromTaken(disk.Keys, name, 0);
  }

  /** Such a run exists for every folder of that kind: the first transfer has all its bytes on disk when an
      offer of the same name empties its file, and its closing message is answered "saved". */
  lemma SavedEmptyRun(limit: nat, files: map<string, seq<byte>>, id: string, other: string, name: string,
                      content: seq<byte>, size: nat)
    requires OnlyPlainFree(files, name) && id != other && 0 < |content| <= limit && size <= limit
    ensures var evs := [Handle(Offer(id, name, |content|), true, true),
                        Handle(Data(id, 0, Encode(content)), true, true),
                        Handle(Offer(other, name, size), true, true), Handle(End(id), true, true)];
            var before, after := Run(limit, files, evs[..2]), Run(limit, files, evs);
            && before.disk == files[name := content] && Saved(id, name) in after.out && after.disk == files[name := []]
  {
    var e0, e1 := Handle(Offer(id, name, |content|), true, true), Handle(Data(id, 0, Encode(content)), true, true);
    var e2, e3 := Handle(Offer(other, name, size), true, true), Handle(End(id), true, true);
    var s := WholeOnDisk(limit, files, id, name, content);
    AllTaken(files, s.disk, name);
    RunSnoc(limit, files, [e0, e1], e2);
    RunSnoc(limit, files, [e0, e1, e2], e3);
    assert [e0, e1, e2, e3][..2] == [e0, e1] && [e0, e1] + [e2] == [e0, e1, e2];
    assert [e0, e1, e2] + [e3] == [e0, e1, e2, e3];
    SavedAlthoughEmptied(limit, s, id, other, name, size);
    EmptiedDisk(limit, files, s, id, other, name, content, size);
  }

  /** Two transfers may also share a file that stays as it is when the second is offered, because it is still
      empty. The first is answered "saved", and then the second writes over its file. */
  lemma SharedFileRun(limit: nat, files: map<string, seq<byte>>, id: string, other: string, name: string,
                      x: seq<byte>, y: seq<byte>)
    requires OnlyPlainFree(files, name) && id != other && 0 < |x| == |y| <= limit && x != y
    ensures var evs := [Handle(Offer(id, name, |x|), true, true), Handle(Offer(other, name, |x|), true, true),
                        Handle(Data(id, 0, Encode(x)), true, true), Handle(End(id), true, true),
                        Handle(Data(other, 0, Encode(y)), true, true)];
            var saved, after := Run(limit, files, evs[..4]), Run(limit, files, evs);
            && Saved(id, name) in saved.out && saved.disk == files[name := x] && after.disk == files[name := y]
  {
    var e0, e1 := Handle(Offer(id, name, |x|), true, true), Handle(Offer(other, name, |x|), true, true);
    var e2, e3 := Handle(Data(id, 0, Encode(x)), true, true), Handle(End(id), true, true);
    var e4 := Handle(Data(other, 0, Encode(y)), true, true);
    var s := BothOpen(limit, files, id, other, name, |x|);
    RunSnoc(limit, files, [e0, e1], e2);
    RunSnoc(limit, files, [e0, e1, e2], e3);
    RunSnoc(limit, files, [e0, e1, e2, e3], e4);
    FiveEvents(e0, e1, e2, e3, e4);
    var t, u, v := SharedWrites(limit, files, s, id, other, name, x, y);
  }

  lemma FiveEvents<T>(a: T, b: T, c: T, d: T, e: T)
    ensures [a, b] + [c] == [a, b, c] && [a, b, c] + [d] == [a, b, c, d] && [a, b, c, d] + [e] == [a, b, c, d, e]
    ensures [a, b, c, d, e][..4] == [a, b, c, d]
  {
  }

  lemma BothOpen(limit: nat, files: map<string, seq<byte>>, id: string, other: string, name: string, size: nat)
    returns (s: Rx)
    requires OnlyPlainFree(files, name) && id != other && size <= limit
    ensures s == Run(limit, files, [Handle(Offer(id, name, size), true, true),
                                    Handle(Offer(other, name, size), true, true)])
    ensures s == Rx(map[id := RecvFile(name, size, 0, 0), other := RecvFile(name, size, 0, 0)], files[name := []], [])
  {
    var e0, e1 := Handle(Offer(id, name, size), true, true), Handle(Offer(other, name, size), true, true);
    PlainIsFirst(files.Keys, name);
    AllTaken(files, files[name := []], name);
    RunSnoc(limit, files, [], e0);
    RunSnoc(limit, files, [e0], e1);
    assert [] + [e0] == [e0] && [e0] + [e1] == [e0, e1];
    s := Step(limit, Step(limit, Start(files), e0), e1);
    PutAgain(files, name, [], []);
  }

  lemma SharedWrites(limit: nat, files: map<string, seq<byte>>, s: Rx, id: string, other: string, name: string,
                     x: seq<byte>, y: seq<byte>) returns (t: Rx, u: Rx, v: Rx)
    requires s == Rx(map[id := RecvFile(name, |x|, 0, 0), other := RecvFile(name, |x|, 0, 0)], files[name := []], [])
    requires id != other && 0 < |x| == |y| <= limit
    ensures t == Step(limit, s, Handle(Data(id, 0, Encode(x)), true, true))
    ensures u == Step(limit, t, Handle(End(id), true, true))
    ensures v == Step(limit, u, Handle(Data(other, 0, Encode(y)), true, true))
    ensures Saved(id, name) in u.out && u.disk == files[name := x] && v.disk == files[name := y]
  {
    t := FirstData(limit, s, id, x);
    PutAgain(files, name, [], x);
    u := EndSaves(limit, t, id);
    v := FirstData(limit, u, other, y);
    PutAgain(files, name, x, y);
  }

  lemma PutAgain<K, V>(m: map<K, V>, k: K, v: V, w: V)
    ensures m[k := v][k := w] == m[k := w]
  {
  }

  lemma EndSaves(limit: nat, s: Rx, id: string) returns (t: Rx)
    requires id in s.open && s.open[id].written == s.open[id].size
    ensures t == Step(limit, s, Handle(End(id), true, true))
    ensures t.out == s.out + [Saved(id, s.open[id].path)] && Saved(id, s.open[id].path) in t.out
    ensures t.disk == s.disk && t.open == s.open - {id}
  {
    t := Step(limit, s, Handle(End(id), true, true));
    Snoc(s.out, Saved(id, s.open[id].path));
  }

  /** The first chunk of a transfer overwrites what is in its file, if that is no longer than the chunk. */
  lemma FirstData(limit: nat, s: Rx, id: string, raw: seq<byte>) returns (t: Rx)
    requires id in s.open && s.open[id].written == 0 && s.open[id].path in s.disk
    requires |s.disk[s.open[id].path]| <= |raw| <= limit
    ensures t == Step(limit, s, Handle(Data(id, 0, Encode(raw)), true, true))
    ensures t.disk == s.disk[s.open[id].path := raw]
    ensures id in t.open && t.open[id].written == |raw|
    ensures t.open[id].path == s.open[id].path && t.open[id].size == s.open[id].size
    ensures forall o :: o != id && o in s.open ==> o in t.open && t.open[o] == s.open[o]
  {
    t := Step(limit, s, Handle(Data(id, 0, Encode(raw)), true, true));
    DecodeEncode(raw);
    WriteOver(s.disk[s.open[id].path], raw);
  }

  lemma WriteOver(before: seq<byte>, raw: seq<byte>)
    requires |before| <= |raw|
    ensures WriteAt(before, 0, raw) == raw
  {
  }

  lemma RunSnoc(limit: nat, files: map<string, seq<byte>>, evs: seq<Event>, ev: Event)
    ensures Run(limit, files, evs + [ev]) == Step(limit, Run(limit, files, evs), ev)
  {
    assert (evs + [ev])[..|evs|] == evs;
  }

  lemma WholeOnDisk(limit: nat, files: map<string, seq<byte>>, id: string, name: string, content: seq<byte>)
    returns (s: Rx)
    requires OnlyPlainFree(files, name) && |content| <= limit
    ensures s == Run(limit, files, [Handle(Offer(id, name, |content|), true, true),
                                    Handle(Data(id, 0, Encode(content)), true, true)])
    ensures s.disk == files[name := content] && id in s.open && s.open[id].path == name
    ensures s.open[id].size == s.open[id].written == |content|
  {
    var e0, e1 := Handle(Offer(id, name, |content|), true, true), Handle(Data(id, 0, Encode(content)), true, true);
    PlainIsFirst(files.Keys, name);
    RunSnoc(limit, files, [], e0);
    RunSnoc(limit, files, [e0], e1);
    assert [] + [e0] == [e0] && [e0] + [e1] == [e0, e1];
    s := DataArrives(limit, files, Run(limit, files, [e0]), id, name, content);
  }

  lemma EmptiedDisk(limit: nat, files: map<string, seq<byte>>, s: Rx, id: string, other: string, name: string,
                    content: seq<byte>, size: nat)
    requires s.disk == files[name := content] && id in s.open && s.open[id].size == s.open[id].written && id != other
    requires UniquePath(s.disk.Keys, name) == name && size <= limit
    ensures Step(limit, Step(limit, s, Handle(Offer(other, name, size), true, true)), Handle(End(id), true, true)).disk
         == files[name := []]
  {
    PutAgain(files, name, content, []);
    var t := EndSaves(limit, Step(limit, s, Handle(Offer(other, name, size), true, true)), id);
  }

  lemma DataArrives(limit: nat, files: map<string, seq<byte>>, s: Rx, id: string, name: string, content: seq<byte>)
    returns (t: Rx)
    requires s == Rx(map[id := RecvFile(name, |content|, 0, 0)], files[name := []], []) && |content| <= limit
    ensures t == Step(limit, s, Handle(Data(id, 0, Encode(content)), true, true))
    ensures t.disk == files[name := content] && id in t.open && t.open[id].path == name
    ensures t.open[id].size == t.open[id].written == |content|
  {
    t := FirstData(limit, s, id, content);
    PutAgain(files, name, [], content);
  }

  /** And such a folder exists. */
  lemma FullFolder(name: string) returns (files: map<string, seq<byte>>)
    requires name != ""
    ensures OnlyPlainFree(files, name)
  {
    var taken := set k | 1 <= k < NAMES :: Candidate(name, k);
    files := map p | p in taken :: [];
    assert forall k :: 1 <= k < NAMES ==> Candidate(name, k) in taken;
    forall k | 1 <= k < NAMES
      ensures |Candidate(name, k)| > |name|
    {
    }
  }
}
