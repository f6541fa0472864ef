/** The receiver of the file clipboard as its handlers change it. */
module ClipCode {
  import opened Bytes
  import opened Base64
  import opened ClipFiles
  import opened ClipAssembly

  class ClipInAsm {
    var names: seq<string>
    var parts: map<int, seq<string>>
    var got: map<int, nat>
    var total: map<int, int>
    var done: set<int>
    var pending: int
    var pathsWritten: seq<string>
    /** The announcement the record was made for. */
    ghost const token: string

    function Value(): Asm
      reads this
    {
      Asm(names, parts, got, total, done, pending, pathsWritten)
    }

    constructor (files: seq<string>, ghost announced: string)
      ensures Value() == NewAsm(files) && token == announced
    {
      token := announced;
      names, parts, got, total, done, pending, pathsWritten := files, map[], map[], map[], {}, |files|, [];
    }

    /** Stores a chunk; the text of the file if that completes it. */
    method Store(p: Piece) returns (b64: Option<string>)
      requires Acceptable(p) && p.ok
      modifies this
      ensures Value() == Kept(old(Value()), p)
      ensures var s := SlotAt(PlaceAt(BeginAt(old(Value()), p), p), p.index);
              b64 == if Complete(s) then Some(Flatten(s.parts)) else None
    {
      var i := p.index;
      if p.no == 0 {
        parts := parts[i := seq(p.total, _ => "")];
        total := total[i := p.total];
        got := got[i := 0];
      }
      assert Value() == BeginAt(old(Value()), p);
      if At(total, i, 0) == p.total && p.no == At(got, i, 0) && p.no < |At(parts, i, [])| {
        parts := parts[i := At(parts, i, [])[p.no := p.d]];
        got := got[i := At(got, i, 0) + 1];
      }
      assert Value() == PlaceAt(BeginAt(old(Value()), p), p);
      if At(got, i, 0) == At(total, i, 0) && At(total, i, 0) > 0 {
        b64 := Some(Flatten(At(parts, i, [])));
        parts := parts[i := []];
      } else {
        b64 := None;
      }
    }

    /** Counts a file as finished. */
    method End(i: int, v: Verdict) returns (name: string, allDone: bool)
      requires i !in done
      modifies this
      ensures Value() == Ended(old(Value()), i, v)
      ensures name == NameFor(names, i) && (allDone <==> pending <= 0)
      ensures name == (if 0 <= i < |names| && names[i] != "" then names[i] else "file")
      ensures pending == old(pending) - 1 && done == old(done) + {i}
    {
      done := done + {i};
      pending := pending - 1;
      name := "file";
      if 0 <= i < |names| && names[i] != "" {
        name := names[i];
      }
      allDone := pending <= 0;
      if v.Saved? {
        pathsWritten := pathsWritten + [name];
      }
    }
  }

  class ClipFilesHost {
    var inAsm: map<string, ClipInAsm>
    var disk: map<string, seq<byte>>
    var staged: seq<seq<string>>

    /** The records made so far. */
    ghost var made: set<ClipInAsm>

    /** No record serves two announcements. */
    ghost predicate Valid()
      reads this
    {
      forall t :: t in inAsm ==> inAsm[t] in made && inAsm[t].token == t
    }

    ghost function Records(): map<string, Asm>
      requires Valid()
      reads this, made
    {
      map t | t in inAsm :: inAsm[t].Value()
    }

    ghost function State(): World
      requires Valid()
      reads this, made
    {
      World(Records(), disk, staged)
    }

    twostate lemma OneChanged(token: string)
      requires old(Valid()) && Valid() && inAsm == old(inAsm) && token in inAsm
      requires forall t :: t in inAsm && t != token ==> inAsm[t].Value() == old(inAsm[t].Value())
      ensures Records() == old(Records())[token := inAsm[token].Value()]
    {
    }

    constructor ()
      ensures Valid() && State() == Run([])
    {
      inAsm, disk, staged, made := map[], map[], [], {};
    }

    method HandleAnnounce(token: string, files: seq<string>)
      requires Valid()
      modifies this
      ensures Valid() && State() == Step(old(State()), Announce(token, files))
      ensures token in inAsm && inAsm[token].Value() == Asm(files, map[], map[], map[], {}, |files|, [])
    {
      var asm := new ClipInAsm(files, token);
      inAsm, made := inAsm[token := asm], made + {asm};
    }

    /** An announcement is over: its record goes and its files are put on the clipboard. */
    method Retire(token: string, paths: seq<string>)
      requires Valid()
      modifies this`inAsm, this`staged
      ensures Valid() && Records() == old(Records()) - {token}
      ensures staged == if paths == [] then old(staged) else old(staged) + [paths]
    {
      inAsm := inAsm - {token};
      if |paths| > 0 {
        staged := staged + [paths];
      }
    }

    method EndAt(asm: ClipInAsm, token: string, i: int, v: Verdict) returns (name: string, allDone: bool)
      requires Valid() && token in inAsm && inAsm[token] == asm && i !in asm.done
      modifies asm
      ensures Valid() && Records() == old(Records())[token := asm.Value()]
      ensures asm.Value() == Ended(old(asm.Value()), i, v) && (allDone <==> asm.pending <= 0)
      ensures name == NameFor(asm.names, i)
    {
      name, allDone := asm.End(i, v);
      OneChanged(token);
    }

    method Write(name: string, v: Verdict)
      requires Valid()
      modifies this`disk
      ensures Valid() && Records() == old(Records()) && disk == WriteFile(old(disk), name, v)
    {
      if v.Saved? {
        disk := disk[name := v.content];
      }
    }

    method FinishFile(asm: ClipInAsm, token: string, i: int, v: Verdict)
      requires Valid() && token in inAsm && inAsm[token] == asm
      modifies this, asm
      ensures Valid() && State() == ClipAssembly.FinishFile(old(State()), token, i, v)
      ensures made == old(made)
    {
      if i in asm.done {
        return;
      }
      var name, allDone := EndAt(asm, token, i, v);
      Write(name, v);
      if allDone {
        Retire(token, asm.pathsWritten);
      }
      Finished(old(State()), State(), token, i, v, asm.Value());
    }

    static lemma Finished(w: World, t: World, token: string, i: int, v: Verdict, b: Asm)
      requires token in w.asms && i !in w.asms[token].done && b == Ended(w.asms[token], i, v)
      requires t.asms == if b.pending <= 0 then w.asms[token := b] - {token} else w.asms[token := b]
      requires t.disk == WriteFile(w.disk, NameFor(b.names, i), v)
      requires t.staged == if b.pending <= 0 && b.paths != [] then w.staged + [b.paths] else w.staged
      ensures t == ClipAssembly.FinishFile(w, token, i, v)
    {
      PutTwice(w.asms, token, b, b);
    }

    method StoreAt(asm: ClipInAsm, token: string, p: Piece) returns (b64: Option<string>)
      requires Valid() && token in inAsm && inAsm[token] == asm && Acceptable(p) && p.ok
      modifies asm
      ensures asm.Value() == Kept(old(asm.Value()), p)
      ensures Valid() && Records() == old(Records())[token := asm.Value()]
      ensures Outcome(old(asm.Value()), p) == if b64.Some? then Decoded(b64.value) else Open
    {
      b64 := asm.Store(p);
      OneChanged(token);
    }

    method RecvBytes(token: string, p: Piece)
      requires Valid() && Acceptable(p)
      modifies this, made
      ensures Valid() && State() == Step(old(State()), Data(token, p))
    {
      if token !in inAsm {
        return;
      }
      var asm := inAsm[token];
      var v := Failed;
      if p.ok {
        var b64 := StoreAt(asm, token, p);
        if b64.None? {
          return;
        }
        v := Decoded(b64.value);
      }
      assert asm.Value() == Kept(old(asm.Value()), p) && v == Outcome(old(asm.Value()), p);
      FinishFile(asm, token, p.index, v);
    }
  }
}
