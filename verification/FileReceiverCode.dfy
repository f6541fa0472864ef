/** The receiver object: its methods move its state as FileReceiver.Step says. */
module FileReceiverCode {
  import opened Bytes
  import opened Base64
  import opened FileReceiver

  class Receiver {
    const limit: nat
    var open: map<string, RecvFile>
    var disk: map<string, seq<byte>>
    var out: seq<Reply>

    ghost function State(): Rx
      reads this
    {
      Rx(open, disk, out)
    }

    constructor (limit: nat, files: map<string, seq<byte>>)
      ensures this.limit == limit && State() == Start(files)
    {
      this.limit := limit;
      open, disk, out := map[], files, [];
    }

    /** Looks for a file name that is not taken yet. */
    method FindPath(name: string) returns (path: string)
      ensures path == UniquePath(disk.Keys, name)
      ensures |disk.Keys| < 1000 ==> path !in disk
      ensures name != "" && name !in disk ==> path == name
      ensures name == "" && "file" !in disk ==> path == "file"
    {
      if |disk.Keys| < 1000 {
        FewFilesFree(disk.Keys, name);
      }
      PlainIsFirst(disk.Keys, name);
      var n := if name == "" then "file" else name;
      if n !in disk {
        return n;
      }
      var ext := n[ExtAt(n)..];
      var base := n[..ExtAt(n)];
      var i := 1;
      while i < 1000
        invariant 1 <= i <= 1000
        invariant UniquePath(disk.Keys, name) == UniqueFrom(disk.Keys, n, i)
      {
        var q := base + " (" + Decimal(i) + ")" + ext;
        assert q == Candidate(n, i);
        if q !in disk {
          return q;
        }
        i := i + 1;
      }
      return n;
    }

    method Fail(id: string)
      requires id in open
      modifies this
      ensures State() == Abort(old(State()), id)
    {
      var rf := open[id];
      open := open - {id};
      disk := disk - {rf.path};
      out := out + [Failed(id)];
    }

    method Append(id: string, raw: seq<byte>, writeOk: bool)
      requires id in open
      modifies this
      ensures State() == OnData(limit, old(State()), id, raw, writeOk)
      ensures var was := old(open)[id];
              var n := was.written + |raw|;
              if n <= limit && writeOk then
                out == old(out) + (if n - was.lastProg >= 1_048_576 then [Prog(id, n)] else [])
              else
                out == old(out) + [Failed(id)] && id !in open && was.path !in disk
    {
      var rf := open[id];
      if rf.written + |raw| > limit || !writeOk {
        Fail(id);
        return;
      }
      if rf.path in disk {
        disk := disk[rf.path := WriteAt(disk[rf.path], rf.written, raw)];
      }
      rf := rf.(written := rf.written + |raw|);
      if rf.written - rf.lastProg >= 1024 * 1024 {
        rf := rf.(lastProg := rf.written);
        out := out + [Prog(id, rf.written)];
      }
      open := open[id := rf];
      assert old(out) + [] == old(out);
    }

    method HandleMessage(m: FtMsg, createOk: bool, writeOk: bool)
      modifies this
      ensures State() == Step(limit, old(State()), Handle(m, createOk, writeOk))
      ensures m.Offer? && (m.size > limit || !createOk) ==>
                open == old(open) && disk == old(disk) && out == old(out) + [Failed(m.id)]
    {
      match m
      case Offer(id, name, size) =>
        if size > limit {
          out := out + [Failed(id)];
          return;
        }
        var path := FindPath(name);
        if !createOk {
          out := out + [Failed(id)];
          return;
        }
        disk := disk[path := []];
        open := open[id := RecvFile(path, size, 0, 0)];
      case Data(id, _, d) =>
        var raw := Decode(d);
        if raw.None? {
          return;
        }
        if id in open {
          Append(id, raw.value, writeOk);
        }
      case End(id) =>
        if id !in open {
          return;
        }
        var rf := open[id];
        if rf.written != rf.size {
          Fail(id);
          return;
        }
        open := open - {id};
        out := out + [Saved(id, rf.path)];
      case Cancel(id) =>
        if id in open {
          var rf := open[id];
          open := open - {id};
          disk := disk - {rf.path};
        }
      case Failure(_) =>
      case Other(_) =>
    }

    /** Aborts every open transfer, in whatever order the map yields them. */
    method CloseAllTransfers() returns (order: seq<string>)
      modifies this
      ensures OrderOf(old(State()), order)
      ensures State() == Step(limit, old(State()), CloseAll(order))
    {
      ghost var before := State();
      order := [];
      var left := open.Keys;
      while left != {}
        invariant left <= before.open.Keys && NoRepeat(order)
        invariant forall i :: 0 <= i < |order| ==> order[i] !in left
        invariant (set id | id in order) == before.open.Keys - left
        invariant open == before.open
        invariant disk == before.disk - (set id | id in before.open.Keys - left :: before.open[id].path)
        invariant out == before.out + seq(|order|, i requires 0 <= i < |order| => Failed(order[i]))
      {
        var id :| id in left;
        label step:
        var order' := order + [id];
        disk := disk - {open[id].path};
        out := out + [Failed(id)];
        assert before.open.Keys - (left - {id}) == (before.open.Keys - left) + {id};
        assert (set i | i in order') == (set i | i in order) + {id};
        order := order';
        left := left - {id};
      }
      open := map[];
    }
  }
}
