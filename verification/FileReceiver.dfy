/** The receiving side of a file transfer: many transfers at once, keyed by id, writing into one
    folder. File names are paths inside that folder; the environment decides whether creating a
    file or writing a chunk succeeds. */
module FileReceiver {
  import opened Bytes
  import opened Base64

  const PROG_STEP: nat := 1024 * 1024
  const NAMES: nat := 1000

  datatype FtMsg =
    | Offer(id: string, name: string, size: int)
    | Data(id: string, num: int, d: string)
    | End(id: string)
    | Cancel(id: string)
    | Failure(id: string)
    | Other(id: string)

  /** A message with what the file system answered, or the end of the session, which aborts the
      open transfers in the map's order. */
  datatype Event =
    | Handle(msg: FtMsg, createOk: bool, writeOk: bool)
    | CloseAll(order: seq<string>)

  datatype Reply = Failed(id: string) | Prog(id: string, recv: nat) | Saved(id: string, path: string)

  datatype RecvFile = RecvFile(path: string, size: int, written: nat, lastProg: nat)

  datatype Rx = Rx(open: map<string, RecvFile>, disk: map<string, seq<byte>>, out: seq<Reply>)

  // ---- Naming ----

  /** Index of the last dot, or the length. */
  function ExtAt(name: string): (i: nat)
    ensures i <= |name|
  {
    if name == [] then 0
    else if name[|name| - 1] == '.' then |name| - 1
    else
      var j := ExtAt(name[..|name| - 1]);
      if j == |name| - 1 then |name| else j
  }

  function Decimal(n: nat): string {
    (if n < 10 then [] else Decimal(n / 10)) + ["0123456789"[n % 10]]
  }

  function Candidate(name: string, i: nat): string {
    if i == 0 then name
    else name[..ExtAt(name)] + " (" + Decimal(i) + ")" + name[ExtAt(name)..]
  }

  function FileName(name: string): string {
    if name == "" then "file" else name
  }

  predicate HasFree(taken: set<string>, name: string) {
    exists i :: 0 <= i < NAMES && Candidate(FileName(name), i) !in taken
  }

  /** The least free candidate at or after i; the plain name when none is left. */
  function UniqueFrom(taken: set<string>, name: string, i: nat): string
    requires i <= NAMES
    decreases NAMES - i
  {
    if i == NAMES then name
    else if Candidate(name, i) !in taken then Candidate(name, i)
    else UniqueFrom(taken, name, i + 1)
  }

  function UniquePath(taken: set<string>, name: string): string {
    UniqueFrom(taken, FileName(name), 0)
  }

  lemma {:induction false} UniqueFromFree(taken: set<string>, name: string, i: nat, k: nat)
    requires i <= k < NAMES && Candidate(name, k) !in taken
    ensures UniqueFrom(taken, name, i) !in taken
    decreases k - i
  {
    if Candidate(name, i) in taken {
      UniqueFromFree(taken, name, i + 1, k);
    }
  }

  lemma {:induction false} UniqueFromTaken(taken: set<string>, name: string, i: nat)
    requires i <= NAMES && name in taken
    requires forall k :: i <= k < NAMES ==> Candidate(name, k) in taken
    ensures UniqueFrom(taken, name, i) == name
    decreases NAMES - i
  {
    if i < NAMES {
      UniqueFromTaken(taken, name, i + 1);
    }
  }

  /** The chosen path is new exactly when one of the thousand candidate names is free. */
  lemma UniquePathIsFree(taken: set<string>, name: string)
    ensures UniquePath(taken, name) !in taken <==> HasFree(taken, name)
  {
    var n := FileName(name);
    if HasFree(taken, name) {
      var k :| 0 <= k < NAMES && Candidate(n, k) !in taken;
      UniqueFromFree(taken, n, 0, k);
    } else {
      assert Candidate(n, 0) == n;
      UniqueFromTaken(taken, n, 0);
    }
  }

  /** The number that decimal digits stand for. */
  function Numeral(digits: string): int {
    if digits == "" then 0 else 10 * Numeral(digits[..|digits| - 1]) + DigitOf(digits[|digits| - 1])
  }

  function DigitOf(c: char): int {
    c as int - '0' as int
  }

  lemma DigitReads(d: nat)
    requires d < 10
    ensures DigitOf("0123456789"[d]) == d && '0' <= "0123456789"[d] <= '9' && (d > 0 ==> "0123456789"[d] != '0')
  {
  }

  lemma DecimalNext(n: nat)
    ensures Numeral(Decimal(n)) == (if n < 10 then 0 else 10 * Numeral(Decimal(n / 10))) + n % 10
  {
    DigitReads(n % 10);
    Snoc(if n < 10 then [] else Decimal(n / 10), "0123456789"[n % 10]);
  }

  lemma {:induction false} DecimalReads(n: nat)
    ensures Decimal(n) != "" && Numeral(Decimal(n)) == n
  {
    DecimalNext(n);
    if n >= 10 {
      DecimalReads(n / 10);
    }
  }

  predicate IsDigit(c: char) {
    '0' <= c <= '9'
  }

  lemma {:induction false} DecimalDigits(n: nat)
    ensures Decimal(n) != "" && (n > 0 ==> Decimal(n)[0] != '0')
    ensures forall k :: 0 <= k < |Decimal(n)| ==> IsDigit(Decimal(n)[k])
  {
    DigitReads(n % 10);
    if n >= 10 {
      DecimalDigits(n / 10);
      var front, last := Decimal(n / 10), "0123456789"[n % 10];
      assert Decimal(n) == front + [last];
      Snoc(front, last);
      TakeSnoc(front, last, 0);
    } else {
      assert Decimal(n) == ["0123456789"[n % 10]];
    }
  }

  lemma {:induction false} ExtIsLast(name: string)
    ensures ExtAt(name) == |name| <==> '.' !in name
    ensures ExtAt(name) < |name| ==> name[ExtAt(name)] == '.' && '.' !in name[ExtAt(name) + 1..]
  {
    if name != [] && name[|name| - 1] != '.' {
      var front := name[..|name| - 1];
      ExtIsLast(front);
      FrontLast(name);
      if ExtAt(front) < |front| {
        assert name[ExtAt(front) + 1..] == front[ExtAt(front) + 1..] + [name[|name| - 1]];
      }
    }
  }

  /** A numbered name is the name with " (i)" put in before its last extension. */
  lemma CandidateShape(name: string, i: nat) returns (base: string, digits: string, ext: string)
    requires i > 0
    ensures base + ext == name && Candidate(name, i) == base + " (" + digits + ")" + ext
    ensures ext == "" <==> '.' !in name
    ensures ext != "" ==> ext[0] == '.' && '.' !in ext[1..]
    ensures digits != "" && digits[0] != '0' && Numeral(digits) == i
    ensures forall k :: 0 <= k < |digits| ==> IsDigit(digits[k])
  {
    base, digits, ext := name[..ExtAt(name)], Decimal(i), name[ExtAt(name)..];
    ExtIsLast(name);
    DecimalReads(i);
    DecimalDigits(i);
  }

  lemma Between<T>(a: seq<T>, x: seq<T>, y: seq<T>, b: seq<T>)
    requires a + x + b == a + y + b
    ensures x == y
  {
    assert |x| == |y|;
    assert x == (a + x + b)[|a|..|a| + |x|] && y == (a + y + b)[|a|..|a| + |y|];
  }

  /** The candidate names all differ. */
  lemma CandidatesDiffer(name: string, i: nat, j: nat)
    requires i < j
    ensures Candidate(name, i) != Candidate(name, j)
  {
    if i > 0 && Candidate(name, i) == Candidate(name, j) {
      var base, ext := name[..ExtAt(name)], name[ExtAt(name)..];
      DecimalReads(i);
      DecimalReads(j);
      SameMiddle(base, Decimal(i), Decimal(j), ext);
    } else if i == 0 {
      assert |Candidate(name, j)| > |name|;
    }
  }

  lemma SameMiddle(base: string, x: string, y: string, ext: string)
    requires base + " (" + x + ")" + ext == base + " (" + y + ")" + ext
    ensures x == y
  {
    Assoc(base + " (" + x, ")", ext);
    Assoc(base + " (" + y, ")", ext);
    Between(base + " (", x, y, ")" + ext);
  }

  /** The first n candidate names. */
  function Candidates(name: string, n: nat): (names: set<string>)
    ensures forall p :: p in names <==> exists i :: 0 <= i < n && Candidate(name, i) == p
  {
    if n == 0 then {} else Candidates(name, n - 1) + {Candidate(name, n - 1)}
  }

  lemma {:induction false} CandidateCount(name: string, n: nat)
    ensures |Candidates(name, n)| == n
  {
    if n > 0 {
      CandidateCount(name, n - 1);
      NextIsNew(name, n - 1);
      OneMore(Candidates(name, n - 1), Candidate(name, n - 1));
    }
  }

  lemma {:induction false} NextIsNew(name: string, n: nat)
    ensures Candidate(name, n) !in Candidates(name, n)
  {
    forall i | 0 <= i < n
      ensures Candidate(name, i) != Candidate(name, n)
    {
      CandidatesDiffer(name, i, n);
    }
  }

  lemma {:induction false} OneMore<T>(s: set<T>, x: T)
    requires x !in s
    ensures |s + {x}| == |s| + 1
  {
  }

  lemma SubsetIsSmaller<T>(s: set<T>, t: set<T>)
    requires s <= t
    ensures |s| <= |t|
  {
    assert t == s + (t - s);
  }

  /** A name that is free is taken as it is. */
  lemma PlainIsFirst(taken: set<string>, name: string)
    ensures name != "" && name !in taken ==> UniquePath(taken, name) == name
    ensures name == "" && "file" !in taken ==> UniquePath(taken, name) == "file"
  {
    assert Candidate(FileName(name), 0) == FileName(name);
  }

  /** As long as the folder holds fewer than a thousand files, a file never gets the name of another. */
  lemma FewFilesFree(taken: set<string>, name: string)
    requires |taken| < 1000
    ensures UniquePath(taken, name) !in taken
  {
    UniquePathIsFree(taken, name);
    if !HasFree(taken, name) {
      CandidateCount(FileName(name), 1000);
      assert forall i :: 0 <= i < NAMES ==> Candidate(FileName(name), i) in taken;
      SubsetIsSmaller(Candidates(FileName(name), 1000), taken);
    }
  }

  // ---- The receiver ----

  /** A write through a handle whose offset is `at`. */
  function WriteAt(content: seq<byte>, at: nat, raw: seq<byte>): seq<byte> {
    if |content| <= at then content + seq(at - |content|, i => 0) + raw
    else if |content| <= at + |raw| then content[..at] + raw
    else content[..at] + raw + content[at + |raw|..]
  }

  function Abort(s: Rx, id: string): Rx
    requires id in s.open
  {
    s.(open := s.open - {id}, disk := s.disk - {s.open[id].path}, out := s.out + [Failed(id)])
  }

  function Accepts(limit: nat, m: FtMsg, createOk: bool): bool {
    m.Offer? && m.size <= limit && createOk
  }

  function OnData(limit: nat, s: Rx, id: string, raw: seq<byte>, writeOk: bool): Rx
    requires id in s.open
  {
    var rf := s.open[id];
    var n := rf.written + |raw|;
    if n > limit || !writeOk then Abort(s, id)
    else
      var ack := n - rf.lastProg >= PROG_STEP;
      var rf' := rf.(written := n, lastProg := if ack then n else rf.lastProg);
      var disk' := if rf.path in s.disk
                   then s.disk[rf.path := WriteAt(s.disk[rf.path], rf.written, raw)] else s.disk;
      Rx(s.open[id := rf'], disk', s.out + (if ack then [Prog(id, n)] else []))
  }

  function OnMessage(limit: nat, s: Rx, m: FtMsg, createOk: bool, writeOk: bool): Rx {
    match m
    case Offer(id, name, size) =>
      if !Accepts(limit, m, createOk) then s.(out := s.out + [Failed(id)])
      else
        var path := UniquePath(s.disk.Keys, name);
        s.(open := s.open[id := RecvFile(path, size, 0, 0)], disk := s.disk[path := []])
    case Data(id, _, d) =>
      var raw := Decode(d);
      if raw.None? || id !in s.open then s else OnData(limit, s, id, raw.value, writeOk)
    case End(id) =>
      if id !in s.open then s
      else if s.open[id].written != s.open[id].size then Abort(s, id)
      else s.(open := s.open - {id}, out := s.out + [Saved(id, s.open[id].path)])
    case Cancel(id) =>
      if id !in s.open then s
      else s.(open := s.open - {id}, disk := s.disk - {s.open[id].path})
    case Failure(_) => s
    case Other(_) => s
  }

  function OpenPaths(s: Rx): set<string> {
    set id | id in s.open :: s.open[id].path
  }

  predicate NoRepeat<T(==)>(s: seq<T>) {
    forall i, j :: 0 <= i < j < |s| ==> s[i] != s[j]
  }

  predicate OrderOf(s: Rx, order: seq<string>) {
    NoRepeat(order) && (set id | id in order) == s.open.Keys
  }

  predicate Possible(s: Rx, ev: Event) {
    ev.CloseAll? ==> OrderOf(s, ev.order)
  }

  function Step(limit: nat, s: Rx, ev: Event): Rx {
    match ev
    case Handle(m, createOk, writeOk) => OnMessage(limit, s, m, createOk, writeOk)
    case CloseAll(order) =>
      Rx(map[], s.disk - OpenPaths(s), s.out + seq(|order|, i requires 0 <= i < |order| => Failed(order[i])))
  }

  function Start(files: map<string, seq<byte>>): Rx {
    Rx(map[], files, [])
  }

  function Run(limit: nat, files: map<string, seq<byte>>, evs: seq<Event>): Rx {
    if evs == [] then Start(files)
    else Step(limit, Run(limit, files, evs[..|evs| - 1]), evs[|evs| - 1])
  }

  predicate Accepted(limit: nat, ev: Event) {
    ev.Handle? && Accepts(limit, ev.msg, ev.createOk)
  }

  /** Every session end names the open transfers once. */
  predicate PossibleRun(limit: nat, files: map<string, seq<byte>>, evs: seq<Event>) {
    evs == [] ||
    (PossibleRun(limit, files, evs[..|evs| - 1]) && Possible(Run(limit, files, evs[..|evs| - 1]), evs[|evs| - 1]))
  }

  /** An offer takes no file that somebody owns: one of its thousand names is free, or its plain name is
      neither that of a file from before, nor of a saved one, nor of another open transfer. */
  predicate TakesNone(files: map<string, seq<byte>>, s: Rx, m: FtMsg)
    requires m.Offer?
  {
    var name := FileName(m.name);
    || HasFree(s.disk.Keys, m.name)
    || (name !in files && name !in SavedPaths(s.out)
        && forall o :: o in s.open && o != m.id ==> s.open[o].path != name)
  }

  predicate Names(limit: nat, files: map<string, seq<byte>>, s: Rx, ev: Event) {
    Possible(s, ev) && (Accepted(limit, ev) ==> TakesNone(files, s, ev.msg))
  }

  /** A possible run in which no accepted offer takes a file that somebody owns. */
  predicate NamesLast(limit: nat, files: map<string, seq<byte>>, evs: seq<Event>) {
    evs == [] ||
    var front := evs[..|evs| - 1];
    NamesLast(limit, files, front) && Names(limit, files, Run(limit, files, front), evs[|evs| - 1])
  }

  // ---- One transfer on its own ----

  datatype Phase = Idle | Receiving(size: int, content: seq<byte>, lastProg: nat)
  datatype Outcome = Fail | Ack(recv: nat) | Whole(content: seq<byte>)
  datatype One = One(phase: Phase, out: seq<Outcome>)

  const NOTHING: One := One(Idle, [])

  /** A receiver for a single id with a private buffer instead of a folder. */
  function OneStep(limit: nat, o: One, ev: Event): One {
    match ev
    case CloseAll(_) => if o.phase.Idle? then o else One(Idle, o.out + [Fail])
    case Handle(m, createOk, writeOk) =>
      match m
      case Offer(_, _, size) =>
        if Accepts(limit, m, createOk) then One(Receiving(size, [], 0), o.out)
        else o.(out := o.out + [Fail])
      case Data(_, _, d) =>
        var raw := Decode(d);
        if raw.None? || o.phase.Idle? then o else OneData(limit, o, raw.value, writeOk)
      case End(_) =>
        if o.phase.Idle? then o
        else One(Idle, o.out + [if |o.phase.content| == o.phase.size then Whole(o.phase.content) else Fail])
      case Cancel(_) => o.(phase := Idle)
      case Failure(_) => o
      case Other(_) => o
  }

  function OneData(limit: nat, o: One, raw: seq<byte>, writeOk: bool): One
    requires o.phase.Receiving?
  {
    var content := o.phase.content + raw;
    if |content| > limit || !writeOk then One(Idle, o.out + [Fail])
    else if |content| - o.phase.lastProg >= PROG_STEP then
      One(Receiving(o.phase.size, content, |content|), o.out + [Ack(|content|)])
    else One(Receiving(o.phase.size, content, o.phase.lastProg), o.out)
  }

  function OneRun(limit: nat, evs: seq<Event>): One {
    if evs == [] then NOTHING else OneStep(limit, OneRun(limit, evs[..|evs| - 1]), evs[|evs| - 1])
  }

  predicate Concerns(ev: Event, id: string) {
    ev.CloseAll? || ev.msg.id == id
  }

  /** The events one transfer id can see. */
  function ForId(evs: seq<Event>, id: string): seq<Event> {
    if evs == [] then []
    else
      var front, ev := evs[..|evs| - 1], evs[|evs| - 1];
      ForId(front, id) + (if Concerns(ev, id) then [ev] else [])
  }

  /** What the outside can see of one id: its buffer on disk and its replies, a saved reply with the
      file it left behind. */
  function PhaseOf(s: Rx, id: string): Phase {
    if id !in s.open then Idle
    else
      var rf := s.open[id];
      Receiving(rf.size, if rf.path in s.disk then s.disk[rf.path] else [], rf.lastProg)
  }

  function OutcomesOf(out: seq<Reply>, disk: map<string, seq<byte>>, id: string): seq<Outcome> {
    if out == [] then []
    else
      var r := out[|out| - 1];
      OutcomesOf(out[..|out| - 1], disk, id) +
      (if r.id != id then []
       else match r
            case Failed(_) => [Fail]
            case Prog(_, n) => [Ack(n)]
            case Saved(_, p) => [Whole(if p in disk then disk[p] else [])])
  }

  function View(s: Rx, id: string): One {
    One(PhaseOf(s, id), OutcomesOf(s.out, s.disk, id))
  }

  // ---- Invariant ----

  function SavedPaths(out: seq<Reply>): set<string> {
    set i | 0 <= i < |out| && out[i].Saved? :: out[i].path
  }

  /** Open transfers own their files: distinct, on disk, as long as the bytes counted, and apart from
      the saved files and from the files that were there before. */
  ghost predicate Owned(files: map<string, seq<byte>>, s: Rx) {
    && (forall id | id in s.open :: s.open[id].path in s.disk && |s.disk[s.open[id].path]| == s.open[id].written)
    && (forall id, id' | id in s.open && id' in s.open && id != id' :: s.open[id].path != s.open[id'].path)
    && (forall i | 0 <= i < |s.out| && s.out[i].Saved? :: s.out[i].path in s.disk)
    && (forall i, id | 0 <= i < |s.out| && s.out[i].Saved? && id in s.open :: s.out[i].path != s.open[id].path)
    && (forall p | p in files :: p in s.disk && s.disk[p] == files[p])
    && (forall p, id | p in files && id in s.open :: s.open[id].path != p)
  }
}
