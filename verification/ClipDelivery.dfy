/** From the sender's stream to the receiver's folder: what lands there, and which of the files put on the
    clipboard still hold their own bytes. All announcements share one folder, and a file is written under
    its bare name. */
module ClipDelivery {
  import opened Bytes
  import opened Base64
  import opened ClipFiles
  import opened ClipAssembly
  import opened ClipSender

  // ---- A streamed file lands ----

  lemma AnswerEnds(index: int, f: File)
    requires Served(f)
    ensures var n := TotalChunks(f.size);
            Answer(index, f) == Streamed(index, f.content, n - 1, n) + [PieceOf(index, f.content, n - 1, n)]
  {
  }

  lemma {:induction false} AcceptableFront(ps: seq<Piece>, qs: seq<Piece>)
    requires AllAcceptable(ps + qs)
    ensures AllAcceptable(ps)
  {
    assert forall i :: 0 <= i < |ps| ==> (ps + qs)[i] == ps[i];
  }

  /** The chunk that completes a stream settles its file, with the bytes the sender read. */
  lemma AnswerSettles(ps: seq<Piece>, p: Piece, qs: seq<Piece>, f: File)
    requires AllAcceptable(ps) && Acceptable(p) && VerdictOf(qs) == Open && Served(f)
    requires About(ps + [p], p.index) == qs + Answer(p.index, f)
    ensures Settles(ps, p)
    ensures FileVerdict(ps + [p], p.index) == Saved(f.content[..ReadPos(f.content, TotalChunks(f.size))])
  {
    var n, i := TotalChunks(f.size), p.index;
    var s := Streamed(i, f.content, n - 1, n);
    AboutStep(ps, p, i);
    assert AllAcceptable(About(ps, i) + [p]);
    AcceptableFront(qs, Answer(i, f));
    AnswerEnds(i, f);
    SameFront(About(ps, i), p, qs + s, PieceOf(i, f.content, n - 1, n), qs, Answer(i, f));
    StreamSlot(qs, i, f.content, n - 1, n);
    FileRecovered(qs, i, f);
  }

  lemma SameFront(a: seq<Piece>, p: Piece, b: seq<Piece>, q: Piece, qs: seq<Piece>, answer: seq<Piece>)
    requires a + [p] == qs + answer && qs + answer == b + [q]
    ensures a == b
  {
    assert (a + [p])[..|a|] == a && (b + [q])[..|b|] == b;
  }

  /** Whatever else the receiver was sent: if the messages about a file of a live announcement are some that
      left it open, followed by its sender's stream, then the last of them leaves the bytes the sender read in
      the folder under the file's name, and changes no other file there. */
  lemma AnswerLands(es: seq<Event>, token: string, p: Piece, qs: seq<Piece>, f: File)
    requires AllValid(es) && Acceptable(p) && SessionOf(es, token).Live?
    requires VerdictOf(qs) == Open && Served(f)
    requires About(SessionOf(es, token).ps + [p], p.index) == qs + Answer(p.index, f)
    ensures AllValid(es + [Data(token, p)])
    ensures Run(es + [Data(token, p)]).disk
         == Run(es).disk[NameFor(SessionOf(es, token).names, p.index) :=
                         f.content[..ReadPos(f.content, TotalChunks(f.size))]]
  {
    AnswerSettles(SessionOf(es, token).ps, p, qs, f);
    MessageEffect(es, token, p);
  }

  // ---- What stays there ----

  datatype Write = Write(name: string, content: seq<byte>)

  /** The file an event writes after a run. */
  function WriteOf(es: seq<Event>, e: Event): Option<Write> {
    var was := SessionOf(es, e.token);
    if e.Data? && was.Live? && Settles(was.ps, e.piece) then
      var v := FileVerdict(was.ps + [e.piece], e.piece.index);
      if v.Saved? then Some(Write(NameFor(was.names, e.piece.index), v.content)) else None
    else None
  }

  lemma DiskStep(es: seq<Event>, e: Event)
    ensures DiskOf(es + [e]) ==
            var w := WriteOf(es, e); if w.Some? then DiskOf(es)[w.value.name := w.value.content] else DiskOf(es)
  {
    assert (es + [e])[..|es|] == es;
  }

  /** What each event of a run writes, where f says what an event writes after a run. */
  function WritesBy(f: (seq<Event>, Event) -> Option<Write>, es: seq<Event>): (ws: seq<Option<Write>>)
    ensures |ws| == |es|
  {
    if es == [] then [] else WritesBy(f, es[..|es| - 1]) + [f(es[..|es| - 1], es[|es| - 1])]
  }

  function WritesOf(es: seq<Event>): (ws: seq<Option<Write>>)
    ensures |ws| == |es|
  {
    WritesBy(WriteOf, es)
  }

  function Folder(ws: seq<Option<Write>>): map<string, seq<byte>> {
    if ws == [] then map[]
    else
      var before, w := Folder(ws[..|ws| - 1]), ws[|ws| - 1];
      if w.Some? then before[w.value.name := w.value.content] else before
  }

  /** The last content written under a name from the k-th write on. */
  function LastWrite(ws: seq<Option<Write>>, k: nat, name: string): Option<seq<byte>> {
    if |ws| <= k then None
    else
      var w := ws[|ws| - 1];
      if w.Some? && w.value.name == name then Some(w.value.content) else LastWrite(ws[..|ws| - 1], k, name)
  }

  function InFolder(disk: map<string, seq<byte>>, name: string): Option<seq<byte>> {
    if name in disk then Some(disk[name]) else None
  }

  lemma {:induction false} FolderSince(ws: seq<Option<Write>>, k: nat, name: string)
    requires k <= |ws|
    ensures InFolder(Folder(ws), name) ==
            if LastWrite(ws, k, name).Some? then LastWrite(ws, k, name) else InFolder(Folder(ws[..k]), name)
    decreases |ws|
  {
    if k == |ws| {
      assert ws[..k] == ws;
    } else {
      FolderSince(ws[..|ws| - 1], k, name);
      assert ws[..|ws| - 1][..k] == ws[..k];
    }
  }

  lemma {:induction false} RunFolder(es: seq<Event>)
    ensures DiskOf(es) == Folder(WritesOf(es))
  {
    if es != [] {
      var front, e := es[..|es| - 1], es[|es| - 1];
      RunFolder(front);
      DiskStep(front, e);
      FrontLast(es);
      FolderSnoc(WritesOf(front), WriteOf(front, e));
    }
  }

  lemma FolderSnoc(ws: seq<Option<Write>>, w: Option<Write>)
    ensures Folder(ws + [w]) == if w.Some? then Folder(ws)[w.value.name := w.value.content] else Folder(ws)
  {
    assert (ws + [w])[..|ws|] == ws;
  }

  lemma {:induction false} WrittenAt(f: (seq<Event>, Event) -> Option<Write>, es: seq<Event>, k: nat)
    requires k < |es|
    ensures WritesBy(f, es)[k] == f(es[..k], es[k])
  {
    var front := es[..|es| - 1];
    if k < |front| {
      WrittenAt(f, front, k);
      assert front[..k] == es[..k];
    }
  }

  lemma FolderAfter(ws: seq<Option<Write>>, k: nat)
    requires k < |ws| && ws[k].Some?
    ensures InFolder(Folder(ws[..k + 1]), ws[k].value.name) == Some(ws[k].value.content)
  {
    assert ws[..k + 1][k] == ws[k];
  }

  /** A file written by the k-th event holds its bytes at the end of a run exactly when no later event wrote
      another file under its name, or the last that did wrote the same bytes. */
  lemma FileStaysIff(es: seq<Event>, k: nat)
    requires AllValid(es) && k < |es| && WriteOf(es[..k], es[k]).Some?
    ensures var w := WriteOf(es[..k], es[k]).value;
            var later := LastWrite(WritesOf(es), k + 1, w.name);
            w.name in Run(es).disk && (Run(es).disk[w.name] == w.content <==> later.None? || later == Some(w.content))
  {
    WrittenAt(WriteOf, es, k);
    RunFollows(es, "");
    RunFolder(es);
    FolderAfter(WritesOf(es), k);
    FolderSince(WritesOf(es), k + 1, WritesOf(es)[k].value.name);
  }

  // ---- What is put on the clipboard ----

  /** The file with the index was saved. */
  predicate SavedIndex(ps: seq<Piece>, i: int) {
    FileVerdict(ps, i).Saved?
  }

  /** Every saved file of the announcement is in the folder with its own bytes. */
  ghost predicate OwnFiles(disk: map<string, seq<byte>>, names: seq<string>, ps: seq<Piece>) {
    forall i {:trigger SavedIndex(ps, i)} ::
      SavedIndex(ps, i) ==> InFolder(disk, NameFor(names, i)) == Some(FileVerdict(ps, i).content)
  }

  /** Saved files of one name have the same bytes. */
  ghost predicate NoClash(names: seq<string>, ps: seq<Piece>) {
    forall i, j {:trigger SavedIndex(ps, i), SavedIndex(ps, j)} ::
      SavedIndex(ps, i) && SavedIndex(ps, j) && NameFor(names, i) == NameFor(names, j)
      ==> FileVerdict(ps, i) == FileVerdict(ps, j)
  }

  /** While the announcement was live, no other one wrote under the name of a file it had saved. */
  ghost predicate Undisturbed(es: seq<Event>, token: string) {
    es == [] ||
    var front, e := es[..|es| - 1], es[|es| - 1];
    var s, w := SessionOf(front, token), WriteOf(front, e);
    && Undisturbed(front, token)
    && (e.token != token && w.Some? && s.Live? ==>
          forall i {:trigger SavedIndex(s.ps, i)} :: SavedIndex(s.ps, i) ==> NameFor(s.names, i) != w.value.name)
  }

  /** A message changes the verdict of no file but the one it settles. */
  lemma VerdictAfter(ps: seq<Piece>, p: Piece, i: int)
    ensures i != p.index || !Settles(ps, p) ==> FileVerdict(ps + [p], i) == FileVerdict(ps, i)
  {
    AboutStep(ps, p, i);
    VerdictStays(About(ps, i), p);
  }

  lemma ClashBefore(names: seq<string>, ps: seq<Piece>, p: Piece)
    requires NoClash(names, ps + [p])
    ensures NoClash(names, ps)
  {
    forall i, j | SavedIndex(ps, i) && SavedIndex(ps, j) && NameFor(names, i) == NameFor(names, j)
      ensures FileVerdict(ps, i) == FileVerdict(ps, j)
    {
      VerdictAfter(ps, p, i);
      VerdictAfter(ps, p, j);
      assert SavedIndex(ps + [p], i) && SavedIndex(ps + [p], j);
    }
  }

  /** The folder after a message to the announcement. */
  function DiskAfter(disk: map<string, seq<byte>>, names: seq<string>, ps: seq<Piece>, p: Piece)
    : map<string, seq<byte>>
  {
    if Settles(ps, p) then WriteFile(disk, NameFor(names, p.index), FileVerdict(ps + [p], p.index)) else disk
  }

  lemma OwnStep(disk: map<string, seq<byte>>, names: seq<string>, ps: seq<Piece>, p: Piece)
    requires OwnFiles(disk, names, ps) && NoClash(names, ps + [p])
    ensures OwnFiles(DiskAfter(disk, names, ps, p), names, ps + [p])
  {
    var all := ps + [p];
    forall i | SavedIndex(all, i)
      ensures InFolder(DiskAfter(disk, names, ps, p), NameFor(names, i)) == Some(FileVerdict(all, i).content)
    {
      VerdictAfter(ps, p, i);
      if i != p.index || !Settles(ps, p) {
        assert SavedIndex(ps, i);
      }
      assert SavedIndex(all, p.index) && Settles(ps, p) && NameFor(names, i) == NameFor(names, p.index)
             ==> FileVerdict(all, i) == FileVerdict(all, p.index);
    }
  }

  lemma OtherStep(es: seq<Event>, e: Event, token: string)
    requires SessionOf(es, token).Live? && Undisturbed(es + [e], token) && e.token != token
    requires var s := SessionOf(es, token); OwnFiles(DiskOf(es), s.names, s.ps)
    ensures var s := SessionOf(es, token); OwnFiles(DiskOf(es + [e]), s.names, s.ps)
  {
    assert (es + [e])[..|es|] == es;
    DiskStep(es, e);
  }

  lemma OwnData(es: seq<Event>, token: string, p: Piece)
    requires SessionOf(es, token).Live?
    ensures var s := SessionOf(es, token); DiskOf(es + [Data(token, p)]) == DiskAfter(DiskOf(es), s.names, s.ps, p)
  {
    assert (es + [Data(token, p)])[..|es|] == es;
  }

  lemma {:induction false} OwnRun(es: seq<Event>, token: string)
    requires Undisturbed(es, token) && SessionOf(es, token).Live?
    requires var s := SessionOf(es, token); NoClash(s.names, s.ps)
    ensures var s := SessionOf(es, token); OwnFiles(DiskOf(es), s.names, s.ps)
    decreases |es|
  {
    var front, e := es[..|es| - 1], es[|es| - 1];
    assert es == front + [e];
    SessionStep(front, e, token);
    if e.token != token {
      OwnRun(front, token);
      OtherStep(front, e, token);
    } else if e.Data? {
      var was := SessionOf(front, token);
      ClashBefore(was.names, was.ps, e.piece);
      OwnRun(front, token);
      OwnStep(DiskOf(front), was.names, was.ps, e.piece);
      OwnData(front, token, e.piece);
    }
  }

  lemma {:induction false} WrittenAreSaved(names: seq<string>, ps: seq<Piece>, name: string)
    ensures name in Written(names, ps) <==> exists i :: SavedIndex(ps, i) && NameFor(names, i) == name
  {
    if ps != [] {
      var front, p := ps[..|ps| - 1], ps[|ps| - 1];
      assert ps == front + [p];
      WrittenAreSaved(names, front, name);
      WrittenStep(names, front, p);
      forall i
        ensures i != p.index || !Settles(front, p) ==> FileVerdict(ps, i) == FileVerdict(front, i)
      {
        VerdictAfter(front, p, i);
      }
      if name in Written(names, front) {
        var i :| SavedIndex(front, i) && NameFor(names, i) == name;
        assert SavedIndex(ps, i);
      } else if name in Written(names, ps) {
        assert SavedIndex(ps, p.index);
      }
      forall i | SavedIndex(ps, i) && NameFor(names, i) == name && name !in Written(names, front)
        ensures name in Written(names, ps)
      {
        assert !SavedIndex(front, i);
      }
    }
  }

  /** Where the file with the index was settled, in the announcement that is live or has just ended. */
  function SettledAt(es: seq<Event>, token: string, i: int): (k: nat)
    ensures es != [] ==> k < |es|
  {
    if es == [] then 0
    else
      var front, e := es[..|es| - 1], es[|es| - 1];
      if e.token == token && e.Data? && e.piece.index == i && SessionOf(front, token).Live?
         && Settles(SessionOf(front, token).ps, e.piece)
      then |front|
      else SettledAt(front, token, i)
  }

  lemma SettledBefore(es: seq<Event>, token: string, i: int, e: Event)
    requires e.token != token || !e.Data? || e.piece.index != i || !SessionOf(es, token).Live?
             || !Settles(SessionOf(es, token).ps, e.piece)
    ensures SettledAt(es + [e], token, i) == SettledAt(es, token, i)
  {
    assert (es + [e])[..|es|] == es;
  }

  lemma SettledNow(es: seq<Event>, token: string, p: Piece)
    requires SessionOf(es, token).Live? && Settles(SessionOf(es, token).ps, p)
    ensures SettledAt(es + [Data(token, p)], token, p.index) == |es|
  {
    assert (es + [Data(token, p)])[..|es|] == es;
  }

  /** The k-th event wrote this file. */
  predicate Wrote(es: seq<Event>, k: nat, name: string, v: Verdict) {
    k < |es| && v.Saved? && WriteOf(es[..k], es[k]) == Some(Write(name, v.content))
  }

  lemma WroteBefore(es: seq<Event>, e: Event, k: nat, name: string, v: Verdict)
    requires Wrote(es, k, name, v)
    ensures Wrote(es + [e], k, name, v)
  {
    TakeSnoc(es, e, k);
  }

  lemma WroteNow(es: seq<Event>, token: string, p: Piece)
    requires SessionOf(es, token).Live?
    requires var ps := SessionOf(es, token).ps; Settles(ps, p) && SavedIndex(ps + [p], p.index)
    ensures var s := SessionOf(es, token);
            Wrote(es + [Data(token, p)], |es|, NameFor(s.names, p.index), FileVerdict(s.ps + [p], p.index))
  {
    assert (es + [Data(token, p)])[..|es|] == es;
  }

  /** A saved file of a live announcement was written where it was settled. */
  predicate WrittenThere(es: seq<Event>, token: string, i: int) {
    var s := SessionOf(es, token);
    s.Live? && SavedIndex(s.ps, i) ==>
      Wrote(es, SettledAt(es, token, i), NameFor(s.names, i), FileVerdict(s.ps, i))
  }

  lemma {:induction false} SavedWasWritten(es: seq<Event>, token: string, i: int)
    ensures WrittenThere(es, token, i)
    decreases |es|
  {
    if es != [] {
      SavedWasWritten(es[..|es| - 1], token, i);
      FrontLast(es);
      WrittenThereStep(es[..|es| - 1], es[|es| - 1], token, i);
    }
  }

  lemma WrittenThereStep(es: seq<Event>, e: Event, token: string, i: int)
    requires WrittenThere(es, token, i)
    ensures WrittenThere(es + [e], token, i)
  {
    SessionStep(es, e, token);
    var s := SessionOf(es, token);
    if e.token == token && e.Data? && SessionOf(es + [e], token).Live? && SavedIndex(s.ps + [e.piece], i) {
      SavedNextWritten(es, token, e.piece, i);
    } else if e.token != token && s.Live? && SavedIndex(s.ps, i) {
      SettledBefore(es, token, i, e);
      WroteBefore(es, e, SettledAt(es, token, i), NameFor(s.names, i), FileVerdict(s.ps, i));
    }
  }

  lemma SavedNextWritten(es: seq<Event>, token: string, p: Piece, i: int)
    requires SessionOf(es, token).Live? && SavedIndex(SessionOf(es, token).ps + [p], i)
    requires WrittenThere(es, token, i)
    ensures var s, all := SessionOf(es, token), es + [Data(token, p)];
            Wrote(all, SettledAt(all, token, i), NameFor(s.names, i), FileVerdict(s.ps + [p], i))
  {
    var s := SessionOf(es, token);
    VerdictAfter(s.ps, p, i);
    if i == p.index && Settles(s.ps, p) {
      SettledNow(es, token, p);
      WroteNow(es, token, p);
    } else {
      SettledBefore(es, token, i, Data(token, p));
      WroteBefore(es, Data(token, p), SettledAt(es, token, i), NameFor(s.names, i), FileVerdict(s.ps, i));
    }
  }

  /** No event after the k-th wrote other bytes under the name, or the last that wrote there wrote these. */
  predicate Stays(es: seq<Event>, k: nat, name: string, content: seq<byte>) {
    var later := LastWrite(WritesOf(es), k + 1, name);
    later.None? || later == Some(content)
  }

  lemma WroteStaysIff(es: seq<Event>, k: nat, name: string, v: Verdict)
    requires AllValid(es) && Wrote(es, k, name, v)
    ensures InFolder(Run(es).disk, name) == Some(v.content) <==> Stays(es, k, name, v.content)
  {
    FileStaysIff(es, k);
  }

  /** When a message ends an announcement, the paths put on the clipboard are those of its saved files, and
      each of these holds its own bytes exactly when what was last written under its name since it was settled,
      if anything was, had the same bytes. */
  lemma StagedFilesOwnIff(es: seq<Event>, token: string, p: Piece)
    requires AllValid(es) && Acceptable(p) && SessionOf(es, token).Live?
    requires var s := SessionOf(es, token); Ends(s.names, s.ps, p)
    ensures AllValid(es + [Data(token, p)])
    ensures var s, all := SessionOf(es, token), es + [Data(token, p)];
            var paths := Written(s.names, s.ps + [p]);
            && Run(all).staged == (if paths == [] then Run(es).staged else Run(es).staged + [paths])
            && (forall name :: name in paths <==> exists i :: SavedIndex(s.ps + [p], i) && NameFor(s.names, i) == name)
            && (forall i :: SavedIndex(s.ps + [p], i) ==>
                  var name, content := NameFor(s.names, i), FileVerdict(s.ps + [p], i).content;
                  InFolder(Run(all).disk, name) == Some(content)
                  <==> Stays(all, SettledAt(all, token, i), name, content))
  {
    var s, all := SessionOf(es, token), es + [Data(token, p)];
    RunFollows(es, token);
    RunFollows(all, token);
    StagedData(es, token, p);
    forall name
      ensures name in Written(s.names, s.ps + [p]) <==>
              exists i :: SavedIndex(s.ps + [p], i) && NameFor(s.names, i) == name
    {
      WrittenAreSaved(s.names, s.ps + [p], name);
    }
    forall i | SavedIndex(s.ps + [p], i)
      ensures var name, content := NameFor(s.names, i), FileVerdict(s.ps + [p], i).content;
              InFolder(Run(all).disk, name) == Some(content)
              <==> Stays(all, SettledAt(all, token, i), name, content)
    {
      SavedStaysIff(es, token, p, i);
    }
  }

  lemma SavedStaysIff(es: seq<Event>, token: string, p: Piece, i: int)
    requires AllValid(es + [Data(token, p)]) && SessionOf(es, token).Live?
    requires SavedIndex(SessionOf(es, token).ps + [p], i)
    ensures var s, all := SessionOf(es, token), es + [Data(token, p)];
            var name, content := NameFor(s.names, i), FileVerdict(s.ps + [p], i).content;
            InFolder(Run(all).disk, name) == Some(content)
            <==> Stays(all, SettledAt(all, token, i), name, content)
  {
    var s, all := SessionOf(es, token), es + [Data(token, p)];
    SavedWasWritten(es, token, i);
    SavedNextWritten(es, token, p, i);
    WroteStaysIff(all, SettledAt(all, token, i), NameFor(s.names, i), FileVerdict(s.ps + [p], i));
  }

  /** When no other announcement wrote under the names of this one while it was live, all its files hold their
      own bytes at its end exactly when no two of them, of one name, have different bytes. */
  lemma UndisturbedOwnIff(es: seq<Event>, token: string, p: Piece)
    requires AllValid(es) && Acceptable(p) && SessionOf(es, token).Live? && Undisturbed(es, token)
    ensures AllValid(es + [Data(token, p)])
    ensures var s := SessionOf(es, token);
            OwnFiles(Run(es + [Data(token, p)]).disk, s.names, s.ps + [p]) <==> NoClash(s.names, s.ps + [p])
  {
    var s := SessionOf(es, token);
    RunFollows(es + [Data(token, p)], token);
    if NoClash(s.names, s.ps + [p]) {
      ClashBefore(s.names, s.ps, p);
      OwnRun(es, token);
      OwnStep(DiskOf(es), s.names, s.ps, p);
    }
    OwnData(es, token, p);
  }

  lemma StagedData(es: seq<Event>, token: string, p: Piece)
    requires SessionOf(es, token).Live?
    requires var s := SessionOf(es, token); Ends(s.names, s.ps, p)
    ensures var paths := Written(SessionOf(es, token).names, SessionOf(es, token).ps + [p]);
            StagedOf(es + [Data(token, p)]) == if paths == [] then StagedOf(es) else StagedOf(es) + [paths]
  {
    assert (es + [Data(token, p)])[..|es|] == es;
  }

  // ---- Two files of one name ----

  /** A file that fits in one chunk. */
  function OneChunk(i: int, content: seq<byte>): Piece {
    Piece(i, true, 0, 1, Encode(content))
  }

  /** Two announced files of one name: both are settled as saved and both are put on the clipboard, but the
      folder holds the second one's bytes only. */
  lemma SameNameLost(token: string, name: string, x: seq<byte>, y: seq<byte>)
    requires name != ""
    ensures var es := [Announce(token, [name, name]), Data(token, OneChunk(0, x)), Data(token, OneChunk(1, y))];
            && AllValid(es) && Run(es).disk == map[name := y] && Run(es).staged == [[name, name]]
            && FileVerdict([OneChunk(0, x), OneChunk(1, y)], 0) == Saved(x)
            && FileVerdict([OneChunk(0, x), OneChunk(1, y)], 1) == Saved(y)
  {
    TwoVerdicts(x, y);
    SavedUnder(token, [name, name], name, OneChunk(0, x), OneChunk(1, y), x, y);
  }

  lemma OneByOne<T>(a: T, b: T, c: T)
    ensures [] + [a] == [a] && [a] + [b] == [a, b] && [a, b] + [c] == [a, b, c]
  {
  }

  lemma SavedUnder(token: string, names: seq<string>, name: string, p: Piece, q: Piece, x: seq<byte>, y: seq<byte>)
    requires |names| == 2 && NameFor(names, p.index) == NameFor(names, q.index) == name
    requires Acceptable(p) && Acceptable(q) && FileVerdict([], p.index) == Open && FileVerdict([p], q.index) == Open
    requires FileVerdict([p], p.index) == Saved(x) && FileVerdict([p, q], q.index) == Saved(y)
    ensures var es := [Announce(token, names), Data(token, p), Data(token, q)];
            AllValid(es) && Run(es).disk == map[name := y] && Run(es).staged == [[name, name]]
  {
    var e0, e1, e2 := Announce(token, names), Data(token, p), Data(token, q);
    OneByOne(p, q, q);
    OneByOne(e0, e1, e2);
    NewlySettled([], p);
    NewlySettled([p], q);
    TwoWritten(names, name, [], p, q);
    FirstSaved([e0], token, names, name, p, x);
    SecondSaved([e0, e1], token, names, name, [p], q, x, y);
  }

  /** A message that saves a file of a live announcement. */
  lemma SaveStep(es: seq<Event>, token: string, names: seq<string>, ps: seq<Piece>, p: Piece, content: seq<byte>)
    requires AllValid(es) && Acceptable(p) && SessionOf(es, token) == Live(names, ps)
    requires Settles(ps, p) && FileVerdict(ps + [p], p.index) == Saved(content)
    ensures AllValid(es + [Data(token, p)])
    ensures var t, ends := Run(es + [Data(token, p)]), |Settled(ps + [p])| >= |names|;
            && t.disk == Run(es).disk[NameFor(names, p.index) := content]
            && t.staged == (if ends then Run(es).staged + [Written(names, ps + [p])] else Run(es).staged)
            && (!ends ==> SessionOf(es + [Data(token, p)], token) == Live(names, ps + [p]))
  {
    MessageEffect(es, token, p);
    RunFollows(es, token);
    RunFollows(es + [Data(token, p)], token);
    SessionStep(es, Data(token, p), token);
    WrittenStep(names, ps, p);
    StagedStep(es, token, p);
  }

  lemma StagedStep(es: seq<Event>, token: string, p: Piece)
    requires SessionOf(es, token).Live?
    ensures var s := SessionOf(es, token);
            var paths := Written(s.names, s.ps + [p]);
            StagedOf(es + [Data(token, p)])
            == if Ends(s.names, s.ps, p) && paths != [] then StagedOf(es) + [paths] else StagedOf(es)
  {
    assert (es + [Data(token, p)])[..|es|] == es;
  }

  lemma Announced(token: string, names: seq<string>)
    ensures var es := [Announce(token, names)];
            && AllValid(es) && SessionOf(es, token) == Live(names, [])
            && Run(es).disk == map[] && Run(es).staged == []
  {
    assert [Announce(token, names)][..0] == [];
  }

  lemma NewlySettled(ps: seq<Piece>, p: Piece)
    requires FileVerdict(ps, p.index) == Open && FileVerdict(ps + [p], p.index) != Open
    ensures Settles(ps, p) && |Settled(ps + [p])| == |Settled(ps)| + 1
  {
    SettledStep(ps, p);
  }

  lemma FirstSaved(es: seq<Event>, token: string, names: seq<string>, name: string, p: Piece, x: seq<byte>)
    requires es == [Announce(token, names)] && |names| == 2 && Acceptable(p) && NameFor(names, p.index) == name
    requires Settles([], p) && |Settled([p])| == 1 && FileVerdict([p], p.index) == Saved(x)
    ensures AllValid(es + [Data(token, p)]) && SessionOf(es + [Data(token, p)], token) == Live(names, [p])
    ensures Run(es + [Data(token, p)]).disk == map[name := x] && Run(es + [Data(token, p)]).staged == []
  {
    assert [] + [p] == [p];
    Announced(token, names);
    SaveStep(es, token, names, [], p, x);
  }

  lemma SecondSaved(es: seq<Event>, token: string, names: seq<string>, name: string, ps: seq<Piece>, q: Piece,
                    x: seq<byte>, y: seq<byte>)
    requires AllValid(es) && Acceptable(q) && SessionOf(es, token) == Live(names, ps) && |names| == 2
    requires Run(es).disk == map[name := x] && Run(es).staged == [] && NameFor(names, q.index) == name
    requires Settles(ps, q) && |Settled(ps + [q])| == 2 && FileVerdict(ps + [q], q.index) == Saved(y)
    requires Written(names, ps + [q]) == [name, name]
    ensures AllValid(es + [Data(token, q)])
    ensures Run(es + [Data(token, q)]).disk == map[name := y] && Run(es + [Data(token, q)]).staged == [[name, name]]
  {
    SaveStep(es, token, names, ps, q, y);
    OneStaged(Run(es).disk, Run(es).staged, name, x, y, Written(names, ps + [q]));
  }

  lemma OneStaged(disk: map<string, seq<byte>>, staged: seq<seq<string>>, name: string, x: seq<byte>, y: seq<byte>,
                  paths: seq<string>)
    requires disk == map[name := x] && staged == []
    ensures disk[name := y] == map[name := y] && staged + [paths] == [paths]
  {
  }

  lemma TwoWritten(names: seq<string>, name: string, ps: seq<Piece>, p: Piece, q: Piece)
    requires NameFor(names, p.index) == NameFor(names, q.index) == name && ps == []
    requires Settles(ps, p) && FileVerdict(ps + [p], p.index).Saved?
    requires Settles(ps + [p], q) && FileVerdict(ps + [p] + [q], q.index).Saved?
    ensures Written(names, ps + [p] + [q]) == [name, name]
  {
    WrittenStep(names, ps, p);
    WrittenStep(names, ps + [p], q);
    assert Written(names, ps + [p]) == [name];
  }

  lemma AboutTwo(p: Piece, q: Piece)
    requires p.index != q.index
    ensures About([p], p.index) == [p] && About([p], q.index) == []
    ensures About([p, q], p.index) == [p] && About([p, q], q.index) == [q]
  {
    AboutStep([], p, p.index);
    AboutStep([], p, q.index);
    AboutStep([p], q, p.index);
    AboutStep([p], q, q.index);
    OneByOne(p, q, q);
    assert [] + [q] == [q];
  }

  lemma TwoVerdicts(x: seq<byte>, y: seq<byte>)
    ensures var p, q := OneChunk(0, x), OneChunk(1, y);
            && FileVerdict([p], 0) == Saved(x) && FileVerdict([p], 1) == Open
            && FileVerdict([p, q], 0) == Saved(x) && FileVerdict([p, q], 1) == Saved(y)
  {
    AboutTwo(OneChunk(0, x), OneChunk(1, y));
    OneChunkIsSaved(0, x);
    OneChunkIsSaved(1, y);
  }

  lemma OneChunkIsSaved(i: int, content: seq<byte>)
    ensures VerdictOf([OneChunk(i, content)]) == Saved(content)
  {
    var p := OneChunk(i, content);
    assert [] + [p] == [p];
    VerdictStep([], p);
    var t := Placed(SlotAfter(Chunks([])), p);
    assert t.parts == [p.d] && [p.d][1..] == [];
    assert Flatten(t.parts) == p.d;
    DecodeEncode(content);
  }
}
