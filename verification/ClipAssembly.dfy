/** Announcements of several files: which of them are settled, what is written for each, and when an
    announcement is over. */
module ClipAssembly {
  import opened Bytes
  import opened ClipFiles

  // ---- The code's state and steps ----

  datatype Asm = Asm(names: seq<string>, parts: map<int, seq<string>>, got: map<int, nat>, total: map<int, int>,
                     done: set<int>, pending: int, paths: seq<string>)

  datatype World = World(asms: map<string, Asm>, disk: map<string, seq<byte>>, staged: seq<seq<string>>)

  datatype Event = Announce(token: string, names: seq<string>) | Data(token: string, piece: Piece)

  /** A missing key reads as the zero value. */
  function At<V>(m: map<int, V>, i: int, zero: V): V {
    if i in m then m[i] else zero
  }

  function SlotAt(a: Asm, i: int): Slot {
    Slot(At(a.parts, i, []), At(a.got, i, 0), At(a.total, i, 0))
  }

  function NewAsm(names: seq<string>): Asm {
    Asm(names, map[], map[], map[], {}, |names|, [])
  }

  function BeginAt(a: Asm, p: Piece): Asm
    requires Acceptable(p) && p.ok
  {
    if p.no == 0 then
      a.(parts := a.parts[p.index := seq(p.total, _ => "")], total := a.total[p.index := p.total],
         got := a.got[p.index := 0])
    else a
  }

  function PlaceAt(a: Asm, p: Piece): Asm {
    var s := SlotAt(a, p.index);
    if Wanted(s, p) then
      a.(parts := a.parts[p.index := s.parts[p.no := p.d]], got := a.got[p.index := s.got + 1])
    else a
  }

  function DrainAt(a: Asm, i: int): Asm {
    if Complete(SlotAt(a, i)) then a.(parts := a.parts[i := []]) else a
  }

  /** The chunk tables after a message. */
  function Kept(a: Asm, p: Piece): Asm
    requires Acceptable(p)
  {
    if p.ok then DrainAt(PlaceAt(BeginAt(a, p), p), p.index) else a
  }

  /** How a message ends its file, if it does. */
  function Outcome(a: Asm, p: Piece): Verdict
    requires Acceptable(p)
  {
    if !p.ok then Failed
    else
      var s := SlotAt(PlaceAt(BeginAt(a, p), p), p.index);
      if Complete(s) then Decoded(Flatten(s.parts)) else Open
  }

  /** The file's name on disk; an announced name stands for its sanitised form. */
  function NameFor(names: seq<string>, i: int): string {
    if 0 <= i < |names| && names[i] != "" then names[i] else "file"
  }

  function Ended(a: Asm, i: int, v: Verdict): Asm {
    a.(done := a.done + {i}, pending := a.pending - 1,
       paths := if v.Saved? then a.paths + [NameFor(a.names, i)] else a.paths)
  }

  function WriteFile(disk: map<string, seq<byte>>, name: string, v: Verdict): map<string, seq<byte>> {
    if v.Saved? then disk[name := v.content] else disk
  }

  function FinishFile(w: World, token: string, i: int, v: Verdict): World
    requires token in w.asms
  {
    var a := w.asms[token];
    if i in a.done then w
    else
      var b := Ended(a, i, v);
      var disk := WriteFile(w.disk, NameFor(a.names, i), v);
      if b.pending <= 0 then
        World(w.asms - {token}, disk, if b.paths == [] then w.staged else w.staged + [b.paths])
      else World(w.asms[token := b], disk, w.staged)
  }

  function RecvBytes(w: World, token: string, p: Piece): World
    requires Acceptable(p)
  {
    if token !in w.asms then w
    else
      var a := w.asms[token];
      var w1 := w.(asms := w.asms[token := Kept(a, p)]);
      if Outcome(a, p) == Open then w1 else FinishFile(w1, token, p.index, Outcome(a, p))
  }

  predicate Valid(e: Event) {
    e.Data? ==> Acceptable(e.piece)
  }

  predicate AllValid(es: seq<Event>) {
    forall i :: 0 <= i < |es| ==> Valid(es[i])
  }

  function Step(w: World, e: Event): World
    requires Valid(e)
  {
    match e
    case Announce(token, names) => w.(asms := w.asms[token := NewAsm(names)])
    case Data(token, p) => RecvBytes(w, token, p)
  }

  function Run(es: seq<Event>): World
    requires AllValid(es)
  {
    if es == [] then World(map[], map[], []) else Step(Run(es[..|es| - 1]), es[|es| - 1])
  }

  // ---- The same, told from the messages alone ----

  /** The messages about one index. */
  function About(ps: seq<Piece>, i: int): (qs: seq<Piece>)
    ensures AllAcceptable(ps) ==> AllAcceptable(qs)
  {
    if ps == [] then []
    else if ps[|ps| - 1].index == i then About(ps[..|ps| - 1], i) + [ps[|ps| - 1]]
    else About(ps[..|ps| - 1], i)
  }

  /** What has become of the file with an index. */
  function FileVerdict(ps: seq<Piece>, i: int): Verdict {
    VerdictOf(About(ps, i))
  }

  function Settled(ps: seq<Piece>): set<int> {
    if ps == [] then {}
    else
      var i := ps[|ps| - 1].index;
      Settled(ps[..|ps| - 1]) + (if FileVerdict(ps, i) != Open then {i} else {})
  }

  /** The message settles its file. */
  predicate Settles(ps: seq<Piece>, p: Piece) {
    FileVerdict(ps, p.index) == Open && FileVerdict(ps + [p], p.index) != Open
  }

  /** The names written, in the order their files were saved. */
  function Written(names: seq<string>, ps: seq<Piece>): seq<string> {
    if ps == [] then []
    else
      var front, p := ps[..|ps| - 1], ps[|ps| - 1];
      Written(names, front) +
      (if Settles(front, p) && FileVerdict(ps, p.index).Saved? then [NameFor(names, p.index)] else [])
  }

  /** An announcement not yet over, with the messages about it; its last message ended it when that
      settles a file and at least as many files are settled as were announced. */
  datatype Session = Gone | Live(names: seq<string>, ps: seq<Piece>)

  predicate Ends(names: seq<string>, ps: seq<Piece>, p: Piece) {
    Settles(ps, p) && |Settled(ps + [p])| >= |names|
  }

  function SessionOf(es: seq<Event>, token: string): (s: Session)
    ensures AllValid(es) && s.Live? ==> AllAcceptable(s.ps)
  {
    if es == [] then Gone
    else
      var was, e := SessionOf(es[..|es| - 1], token), es[|es| - 1];
      if e.token != token then was
      else if e.Announce? then Live(e.names, [])
      else if was.Gone? || Ends(was.names, was.ps, e.piece) then Gone
      else Live(was.names, was.ps + [e.piece])
  }

  /** What the receiver's record holds for a live announcement. */
  ghost predicate Agrees(a: Asm, names: seq<string>, ps: seq<Piece>)
    requires AllAcceptable(ps)
  {
    RecordAgrees(a, names, ps) && SlotsAgree(a, ps)
  }

  ghost predicate RecordAgrees(a: Asm, names: seq<string>, ps: seq<Piece>) {
    && a.names == names && a.done == Settled(ps) && a.pending == |names| - |Settled(ps)|
    && a.paths == Written(names, ps)
  }

  ghost predicate SlotsAgree(a: Asm, ps: seq<Piece>)
    requires AllAcceptable(ps)
  {
    forall i {:trigger SlotAt(a, i)} {:trigger About(ps, i)} :: SlotAt(a, i) == SlotAfter(Chunks(About(ps, i)))
  }

  // ---- One message to one announcement ----

  lemma {:induction false} VerdictStays(ps: seq<Piece>, p: Piece)
    ensures VerdictOf(ps) != Open ==> VerdictOf(ps + [p]) == VerdictOf(ps)
  {
    assert (ps + [p])[..|ps|] == ps;
  }

  lemma AboutStep(ps: seq<Piece>, p: Piece, i: int)
    ensures About(ps + [p], i) == if i == p.index then About(ps, i) + [p] else About(ps, i)
  {
    assert (ps + [p])[..|ps|] == ps;
  }

  lemma {:induction false} SettledIff(ps: seq<Piece>, i: int)
    ensures i in Settled(ps) <==> FileVerdict(ps, i) != Open
  {
    if ps != [] {
      var front, p := ps[..|ps| - 1], ps[|ps| - 1];
      SettledIff(front, i);
      assert ps == front + [p];
      AboutStep(front, p, i);
      VerdictStays(About(front, i), p);
    }
  }

  lemma SettledStep(ps: seq<Piece>, p: Piece)
    ensures Settles(ps, p) <==> p.index !in Settled(ps) && FileVerdict(ps + [p], p.index) != Open
    ensures Settled(ps + [p]) == Settled(ps) + (if Settles(ps, p) then {p.index} else {})
    ensures |Settled(ps + [p])| == |Settled(ps)| + (if Settles(ps, p) then 1 else 0)
  {
    assert (ps + [p])[..|ps|] == ps;
    SettledIff(ps, p.index);
    AboutStep(ps, p, p.index);
    VerdictStays(About(ps, p.index), p);
  }

  lemma PlacedAt(a: Asm, p: Piece, i: int)
    requires Acceptable(p) && p.ok
    ensures SlotAt(PlaceAt(BeginAt(a, p), p), i) == if i == p.index then Placed(SlotAt(a, i), p) else SlotAt(a, i)
  {
  }

  lemma KeptAt(a: Asm, p: Piece, i: int)
    requires Acceptable(p)
    ensures SlotAt(Kept(a, p), i) == if i == p.index && p.ok then Drain(Placed(SlotAt(a, i), p)) else SlotAt(a, i)
  {
    if p.ok {
      PlacedAt(a, p, i);
      PlacedAt(a, p, p.index);
    }
  }

  lemma ChunksStep(ps: seq<Piece>, p: Piece)
    requires AllAcceptable(ps) && Acceptable(p)
    ensures SlotAfter(Chunks(ps + [p])) ==
            if p.ok then Drain(Placed(SlotAfter(Chunks(ps)), p)) else SlotAfter(Chunks(ps))
  {
    assert (ps + [p])[..|ps|] == ps;
    assert (Chunks(ps) + [p])[..|Chunks(ps)|] == Chunks(ps);
  }

  lemma KeptAgrees(a: Asm, ps: seq<Piece>, p: Piece, i: int)
    requires AllAcceptable(ps) && SlotsAgree(a, ps) && Acceptable(p)
    ensures SlotAt(Kept(a, p), i) == SlotAfter(Chunks(About(ps + [p], i)))
  {
    KeptAt(a, p, i);
    AboutStep(ps, p, i);
    assert SlotAt(a, i) == SlotAfter(Chunks(About(ps, i)));
    if i == p.index {
      ChunksStep(About(ps, i), p);
    }
  }

  /** The code's outcome for a file still open is its verdict. */
  lemma OutcomeIsVerdict(a: Asm, names: seq<string>, ps: seq<Piece>, p: Piece)
    requires AllAcceptable(ps) && Agrees(a, names, ps) && Acceptable(p) && p.index !in a.done
    ensures Outcome(a, p) == FileVerdict(ps + [p], p.index)
  {
    SettledIff(ps, p.index);
    AboutStep(ps, p, p.index);
    VerdictStep(About(ps, p.index), p);
    assert SlotAt(a, p.index) == SlotAfter(Chunks(About(ps, p.index)));
    if p.ok {
      PlacedAt(a, p, p.index);
    }
  }

  function After(a: Asm, i: int, v: Verdict): Asm {
    if v == Open || i in a.done then a else Ended(a, i, v)
  }

  function Next(a: Asm, p: Piece): Asm
    requires Acceptable(p)
  {
    After(Kept(a, p), p.index, Outcome(a, p))
  }

  lemma NextSlots(a: Asm, ps: seq<Piece>, p: Piece)
    requires AllAcceptable(ps) && SlotsAgree(a, ps) && Acceptable(p)
    ensures SlotsAgree(Next(a, p), ps + [p])
  {
    forall i
      ensures SlotAt(Next(a, p), i) == SlotAfter(Chunks(About(ps + [p], i)))
    {
      KeptAgrees(a, ps, p, i);
      assert SlotAt(Next(a, p), i) == SlotAt(Kept(a, p), i);
    }
  }

  lemma NextSettles(a: Asm, names: seq<string>, ps: seq<Piece>, p: Piece)
    requires AllAcceptable(ps) && Agrees(a, names, ps) && Acceptable(p)
    ensures Settles(ps, p) <==> Outcome(a, p) != Open && p.index !in a.done
    ensures Settles(ps, p) ==> Outcome(a, p) == FileVerdict(ps + [p], p.index)
  {
    SettledStep(ps, p);
    if p.index !in a.done {
      OutcomeIsVerdict(a, names, ps, p);
    }
  }

  lemma WrittenStep(names: seq<string>, ps: seq<Piece>, p: Piece)
    ensures Written(names, ps + [p]) == Written(names, ps) +
            (if Settles(ps, p) && FileVerdict(ps + [p], p.index).Saved? then [NameFor(names, p.index)] else [])
  {
    assert (ps + [p])[..|ps|] == ps;
  }

  lemma KeptRecord(a: Asm, p: Piece)
    requires Acceptable(p)
    ensures var b := Kept(a, p); b.names == a.names && b.done == a.done && b.pending == a.pending && b.paths == a.paths
  {
  }

  lemma AfterRecord(a: Asm, names: seq<string>, ps: seq<Piece>, p: Piece, v: Verdict)
    requires RecordAgrees(a, names, ps)
    requires Settles(ps, p) <==> v != Open && p.index !in a.done
    requires Settles(ps, p) ==> v == FileVerdict(ps + [p], p.index)
    ensures RecordAgrees(After(a, p.index, v), names, ps + [p])
  {
    SettledStep(ps, p);
    WrittenStep(names, ps, p);
  }

  lemma NextAgrees(a: Asm, names: seq<string>, ps: seq<Piece>, p: Piece)
    requires AllAcceptable(ps) && Agrees(a, names, ps) && Acceptable(p)
    ensures Agrees(Next(a, p), names, ps + [p])
  {
    NextSettles(a, names, ps, p);
    NextSlots(a, ps, p);
    KeptRecord(a, p);
    AfterRecord(Kept(a, p), names, ps, p, Outcome(a, p));
  }

  // ---- Whole runs ----

  function DiskOf(es: seq<Event>): map<string, seq<byte>> {
    if es == [] then map[]
    else
      var front, e := es[..|es| - 1], es[|es| - 1];
      var was := SessionOf(front, e.token);
      if e.Data? && was.Live? && Settles(was.ps, e.piece) then
        WriteFile(DiskOf(front), NameFor(was.names, e.piece.index), FileVerdict(was.ps + [e.piece], e.piece.index))
      else DiskOf(front)
  }

  function StagedOf(es: seq<Event>): seq<seq<string>> {
    if es == [] then []
    else
      var front, e := es[..|es| - 1], es[|es| - 1];
      var was := SessionOf(front, e.token);
      if e.Data? && was.Live? && Ends(was.names, was.ps, e.piece) then
        var paths := Written(was.names, was.ps + [e.piece]);
        if paths == [] then StagedOf(front) else StagedOf(front) + [paths]
      else StagedOf(front)
  }

  /** The receiver keeps a record for exactly the live announcements, and the right one. */
  ghost predicate Follows(es: seq<Event>, asms: map<string, Asm>, token: string)
    requires AllValid(es)
  {
    var s := SessionOf(es, token);
    (token in asms <==> s.Live?) && (s.Live? ==> Agrees(asms[token], s.names, s.ps))
  }

  lemma SessionStep(es: seq<Event>, e: Event, token: string)
    ensures SessionOf(es + [e], token) ==
            var was := SessionOf(es, token);
            if e.token != token then was
            else if e.Announce? then Live(e.names, [])
            else if was.Gone? || Ends(was.names, was.ps, e.piece) then Gone
            else Live(was.names, was.ps + [e.piece])
  {
    assert (es + [e])[..|es|] == es;
  }

  /** What finishing with a verdict does to the three parts of the state. */
  lemma FinishParts(w: World, token: string, a: Asm, i: int, v: Verdict)
    requires v != Open && token in w.asms && w.asms[token] == a && i !in a.done
    ensures var t, b := FinishFile(w, token, i, v), After(a, i, v);
            && t.disk == WriteFile(w.disk, NameFor(a.names, i), v)
            && t.asms == (if b.pending <= 0 then w.asms - {token} else w.asms[token := b])
            && t.staged == (if b.pending <= 0 && b.paths != [] then w.staged + [b.paths] else w.staged)
  {
  }

  /** The state after a message to a live announcement, told from its messages. */
  ghost predicate Received(w: World, t: World, token: string, names: seq<string>, ps: seq<Piece>, p: Piece, a: Asm) {
    var all, ends := ps + [p], Ends(names, ps, p);
    && t.disk == (if Settles(ps, p) then WriteFile(w.disk, NameFor(names, p.index), FileVerdict(all, p.index))
                  else w.disk)
    && t.asms == (if ends then w.asms - {token} else w.asms[token := a])
    && t.staged == (if ends && Written(names, all) != [] then w.staged + [Written(names, all)] else w.staged)
  }

  lemma RecvStep(w: World, token: string, p: Piece, names: seq<string>, ps: seq<Piece>)
    requires Acceptable(p) && token in w.asms && AllAcceptable(ps) && Agrees(w.asms[token], names, ps)
    ensures Received(w, RecvBytes(w, token, p), token, names, ps, p, Next(w.asms[token], p))
  {
    var a := w.asms[token];
    NextSettles(a, names, ps, p);
    NextAgrees(a, names, ps, p);
    KeptRecord(a, p);
    var b, v := Kept(a, p), Outcome(a, p);
    var w1 := w.(asms := w.asms[token := b]);
    RecvParts(w, w1, token, p, names, ps, b, v);
  }

  lemma PutTwice<K, V>(m: map<K, V>, k: K, v: V, u: V)
    ensures m[k := v] - {k} == m - {k} && m[k := v][k := u] == m[k := u]
  {
  }

  lemma RecvParts(w: World, w1: World, token: string, p: Piece, names: seq<string>, ps: seq<Piece>, b: Asm, v: Verdict)
    requires token in w.asms && w1 == World(w.asms[token := b], w.disk, w.staged) && b.names == names
    requires Settles(ps, p) <==> v != Open && p.index !in b.done
    requires Settles(ps, p) ==> v == FileVerdict(ps + [p], p.index)
    requires RecordAgrees(After(b, p.index, v), names, ps + [p])
    ensures Received(w, if v == Open then w1 else FinishFile(w1, token, p.index, v), token, names, ps, p,
                     After(b, p.index, v))
  {
    if v != Open && p.index !in b.done {
      var c := After(b, p.index, v);
      FinishParts(w1, token, b, p.index, v);
      PutTwice(w.asms, token, b, c);
      assert Ends(names, ps, p) <==> c.pending <= 0;
    }
  }

  lemma FollowsStep(es: seq<Event>, w: World, e: Event, token: string)
    requires AllValid(es) && Valid(e) && Follows(es, w.asms, token) && Follows(es, w.asms, e.token)
    ensures Follows(es + [e], Step(w, e).asms, token)
  {
    SessionStep(es, e, token);
    var was := SessionOf(es, e.token);
    if e.Data? && was.Live? {
      RecvStep(w, e.token, e.piece, was.names, was.ps);
      NextAgrees(w.asms[e.token], was.names, was.ps, e.piece);
    }
  }

  /** What the receiver does is what the messages say, over every run: a record for exactly the live
      announcements, files written exactly when a message settles them as saved, and an announcement's
      files put on the clipboard exactly when a message ends it. */
  lemma {:induction false} RunFollows(es: seq<Event>, token: string)
    requires AllValid(es)
    ensures Follows(es, Run(es).asms, token)
    ensures Run(es).disk == DiskOf(es) && Run(es).staged == StagedOf(es)
    decreases |es|
  {
    if es != [] {
      var front, e := es[..|es| - 1], es[|es| - 1];
      RunFollows(front, token);
      RunFollows(front, e.token);
      FrontLast(es);
      FollowsStep(front, Run(front), e, token);
      EffectStep(front, e);
    }
  }

  lemma EffectStep(es: seq<Event>, e: Event)
    requires AllValid(es) && Valid(e) && Follows(es, Run(es).asms, e.token)
    requires Run(es).disk == DiskOf(es) && Run(es).staged == StagedOf(es)
    ensures Step(Run(es), e).disk == DiskOf(es + [e]) && Step(Run(es), e).staged == StagedOf(es + [e])
  {
    assert (es + [e])[..|es|] == es;
    var was := SessionOf(es, e.token);
    if e.Data? && was.Live? {
      RecvStep(Run(es), e.token, e.piece, was.names, was.ps);
    }
  }

  // ---- Consequences ----

  /** The count of files still to come drops once for each file settled, in every run. */
  lemma PendingCounts(es: seq<Event>, token: string)
    requires AllValid(es) && token in Run(es).asms
    ensures SessionOf(es, token).Live?
    ensures var s := SessionOf(es, token);
            Run(es).asms[token].pending == |s.names| - |Settled(s.ps)|
            && forall i :: i in Settled(s.ps) <==> FileVerdict(s.ps, i) != Open
  {
    RunFollows(es, token);
    var s := SessionOf(es, token);
    forall i
      ensures i in Settled(s.ps) <==> FileVerdict(s.ps, i) != Open
    {
      SettledIff(s.ps, i);
    }
  }

  /** A message writes a file exactly when it settles one as saved, with that file's content and under
      its name, and removes an announcement exactly when it is then over. */
  lemma MessageEffect(es: seq<Event>, token: string, p: Piece)
    requires AllValid(es) && Acceptable(p) && SessionOf(es, token).Live?
    ensures AllValid(es + [Data(token, p)])
    ensures var s, after := SessionOf(es, token), Run(es + [Data(token, p)]);
            var v := FileVerdict(s.ps + [p], p.index);
            && after.disk == (if Settles(s.ps, p) && v.Saved? then Run(es).disk[NameFor(s.names, p.index) := v.content]
                              else Run(es).disk)
            && (token !in after.asms <==> Settles(s.ps, p) && |Settled(s.ps + [p])| >= |s.names|)
  {
    var all := es + [Data(token, p)];
    assert all[..|es|] == es;
    RunFollows(all, token);
    RunFollows(es, token);
  }

  function Indices(n: nat): (s: set<int>)
    ensures |s| == n && forall i :: i in s <==> 0 <= i < n
  {
    if n == 0 then {} else Indices(n - 1) + {n - 1}
  }

  lemma SubsetFills(s: set<int>, t: set<int>)
    requires s <= t
    ensures |s| <= |t| && (|s| == |t| ==> s == t)
  {
    assert t == s + (t - s);
  }

  /** Every announced file has been settled. */
  predicate AllSettled(names: seq<string>, ps: seq<Piece>) {
    forall i :: 0 <= i < |names| ==> FileVerdict(ps, i) != Open
  }

  /** Every file settled is an announced one. */
  predicate OnlyAnnounced(names: seq<string>, ps: seq<Piece>) {
    forall i :: i in Settled(ps) ==> 0 <= i < |names|
  }

  lemma AllSettledIs(names: seq<string>, ps: seq<Piece>)
    ensures AllSettled(names, ps) <==> Indices(|names|) <= Settled(ps)
  {
    forall i
      ensures i in Settled(ps) <==> FileVerdict(ps, i) != Open
    {
      SettledIff(ps, i);
    }
  }

  /** Fewer files have been settled for a live announcement than were announced. */
  predicate NotFull(s: Session) {
    s.Live? ==> |Settled(s.ps)| < |s.names| || Settled(s.ps) == {}
  }

  lemma {:induction false} LiveIsNotFull(es: seq<Event>, token: string)
    ensures NotFull(SessionOf(es, token))
    decreases |es|
  {
    if es != [] {
      LiveIsNotFull(es[..|es| - 1], token);
      FrontLast(es);
      NotFullStep(es[..|es| - 1], es[|es| - 1], token);
    }
  }

  lemma NotFullStep(es: seq<Event>, e: Event, token: string)
    requires NotFull(SessionOf(es, token))
    ensures NotFull(SessionOf(es + [e], token))
  {
    SessionStep(es, e, token);
    var was := SessionOf(es, token);
    if e.token == token && e.Data? && was.Live? {
      SettledStep(was.ps, e.piece);
    }
  }

  /** An announcement that ends does so when all its files have been settled, if and only if no file was
      settled that had not been announced. */
  lemma EndsWholeIff(es: seq<Event>, token: string, p: Piece)
    requires SessionOf(es, token).Live? && SessionOf(es, token).names != []
    requires var s := SessionOf(es, token); Ends(s.names, s.ps, p)
    ensures var s := SessionOf(es, token);
            AllSettled(s.names, s.ps + [p]) <==> OnlyAnnounced(s.names, s.ps + [p])
  {
    var s := SessionOf(es, token);
    LiveIsNotFull(es, token);
    SettledStep(s.ps, p);
    AllSettledIs(s.names, s.ps + [p]);
    FullIffEqual(Settled(s.ps + [p]), |s.names|);
  }

  lemma FullIffEqual(settled: set<int>, n: nat)
    requires |settled| == n
    ensures Indices(n) <= settled <==> forall i :: i in settled ==> 0 <= i < n
  {
    if Indices(n) <= settled {
      SubsetFills(Indices(n), settled);
    } else if settled <= Indices(n) {
      SubsetFills(settled, Indices(n));
    }
  }

  /** It never ends late: a live announcement still has an open file. */
  lemma LiveHasOpenFile(es: seq<Event>, token: string)
    requires SessionOf(es, token).Live? && SessionOf(es, token).names != []
    ensures var s := SessionOf(es, token); !AllSettled(s.names, s.ps)
  {
    var s := SessionOf(es, token);
    LiveIsNotFull(es, token);
    AllSettledIs(s.names, s.ps);
    if Indices(|s.names|) <= Settled(s.ps) {
      SubsetFills(Indices(|s.names|), Settled(s.ps));
    }
  }

  /** As long as only announced files are settled, whatever other messages come, an announcement is over
      exactly when its last open file has been settled. */
  lemma OverWhenAllSettled(es: seq<Event>, token: string, p: Piece)
    requires AllValid(es) && Acceptable(p) && SessionOf(es, token).Live? && SessionOf(es, token).names != []
    requires var s := SessionOf(es, token); OnlyAnnounced(s.names, s.ps + [p])
    ensures AllValid(es + [Data(token, p)])
    ensures token !in Run(es + [Data(token, p)]).asms
            <==> var s := SessionOf(es, token); AllSettled(s.names, s.ps + [p])
  {
    var s, all := SessionOf(es, token), es + [Data(token, p)];
    RunFollows(all, token);
    SessionStep(es, Data(token, p), token);
    if Ends(s.names, s.ps, p) {
      EndsWholeIff(es, token, p);
    } else {
      LiveHasOpenFile(all, token);
    }
  }

  /** An index outside the announcement is counted as well: two refusals of files never announced end
      an announcement of two files of which nothing has arrived. */
  lemma EndedByStrangers(token: string)
    ensures var no := Piece(7, false, 0, 1, "");
            var es := [Announce(token, ["a", "b"]), Data(token, no), Data(token, no.(index := 8))];
            && AllValid(es) && token in Run(es[..2]).asms && token !in Run(es).asms && Run(es).disk == map[]
            && FileVerdict([no, no.(index := 8)], 0) == FileVerdict([no, no.(index := 8)], 1) == Open
  {
    var no := Piece(7, false, 0, 1, "");
    var es := [Announce(token, ["a", "b"]), Data(token, no), Data(token, no.(index := 8))];
    assert es[..2][..1] == es[..1] && es[..1][..0] == [];
    var w1 := World(map[token := NewAsm(["a", "b"])], map[], []);
    assert Run(es[..1]) == w1;
    assert Run(es[..2]) == Step(w1, es[1]);
    assert Run(es) == Step(Run(es[..2]), es[2]);
    NothingAbout([no, no.(index := 8)], 0);
    NothingAbout([no, no.(index := 8)], 1);
  }

  lemma {:induction false} NothingAbout(ps: seq<Piece>, i: int)
    requires forall k :: 0 <= k < |ps| ==> ps[k].index != i
    ensures FileVerdict(ps, i) == Open
  {
    if ps != [] {
      NothingAbout(ps[..|ps| - 1], i);
    }
  }
}
