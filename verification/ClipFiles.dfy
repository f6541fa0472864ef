/** The file clipboard: one side streams a file as base64 chunks, the other puts announced files
    together under any sequence of chunk messages and decides when a whole announcement is done. */
module ClipFiles {
  import opened Bytes
  import opened Base64

  const RAW_CHUNK: nat := 36 * 1024

  /** A data message without its token. */
  datatype Piece = Piece(index: int, ok: bool, no: int, total: int, d: string)

  /** Making the part list fails on a negative count, so chunk 0 needs a count that is not. */
  predicate Acceptable(p: Piece) {
    p.ok && p.no == 0 ==> p.total >= 0
  }

  predicate AllAcceptable(ps: seq<Piece>) {
    forall i :: 0 <= i < |ps| ==> Acceptable(ps[i])
  }

  // ---- Assembling one file ----

  /** What is kept for one index. */
  datatype Slot = Slot(parts: seq<string>, got: nat, total: int)

  function Begin(s: Slot, p: Piece): Slot
    requires Acceptable(p) && p.ok
  {
    if p.no == 0 then Slot(seq(p.total, _ => ""), 0, p.total) else s
  }

  predicate Wanted(s: Slot, p: Piece) {
    s.total == p.total && p.no == s.got && p.no < |s.parts|
  }

  function Place(s: Slot, p: Piece): Slot {
    if Wanted(s, p) then Slot(s.parts[p.no := p.d], s.got + 1, s.total) else s
  }

  predicate Complete(s: Slot) {
    s.got == s.total && s.total > 0
  }

  function Drain(s: Slot): Slot {
    if Complete(s) then s.(parts := []) else s
  }

  function Placed(s: Slot, p: Piece): Slot
    requires Acceptable(p) && p.ok
  {
    Place(Begin(s, p), p)
  }

  /** The slot after the chunks `ps` of its index. */
  function SlotAfter(ps: seq<Piece>): Slot
    requires AllAcceptable(ps) && AllOk(ps)
  {
    if ps == [] then Slot([], 0, 0) else Drain(Placed(SlotAfter(ps[..|ps| - 1]), ps[|ps| - 1]))
  }

  predicate AllOk(ps: seq<Piece>) {
    forall i :: 0 <= i < |ps| ==> ps[i].ok
  }

  /** The last chunk numbered 0 is one of n, and chunks 1 to m - 1 of n follow it in that order, with
      any other chunks between them. */
  predicate InOrder(ps: seq<Piece>, m: nat, n: int) {
    ps != [] &&
    var front, p := ps[..|ps| - 1], ps[|ps| - 1];
    if p.no == 0 then m == 1 && p.total == n
    else (m > 1 && p.no == m - 1 && p.total == n && InOrder(front, m - 1, n)) || InOrder(front, m, n)
  }

  /** Where those chunks are, each at its first occurrence after the one before it. */
  function Chosen(ps: seq<Piece>, m: nat, n: int): (at: seq<nat>)
    requires InOrder(ps, m, n)
    ensures |at| == m > 0
    ensures forall k :: 0 <= k < m ==> at[k] < |ps| && ps[at[k]].no == k && ps[at[k]].total == n
    ensures forall i, k :: 0 <= i < k < m ==> at[i] < at[k]
    ensures forall j :: at[0] < j < |ps| ==> ps[j].no != 0
  {
    var front, p := ps[..|ps| - 1], ps[|ps| - 1];
    if p.no == 0 then [|ps| - 1]
    else if InOrder(front, m, n) then Chosen(front, m, n)
    else Chosen(front, m - 1, n) + [|ps| - 1]
  }

  /** The texts at the given places, joined. */
  function TextAt(ps: seq<Piece>, at: seq<nat>): string
    requires forall k :: 0 <= k < |at| ==> at[k] < |ps|
  {
    if at == [] then [] else TextAt(ps, at[..|at| - 1]) + ps[at[|at| - 1]].d
  }

  lemma {:induction false} TextAtFront(ps: seq<Piece>, p: Piece, at: seq<nat>)
    requires forall k :: 0 <= k < |at| ==> at[k] < |ps|
    ensures TextAt(ps + [p], at) == TextAt(ps, at)
  {
    if at != [] {
      TextAtFront(ps, p, at[..|at| - 1]);
    }
  }

  /** How far the slot has got, told without it. */
  ghost predicate Counts(ps: seq<Piece>, s: Slot) {
    && 0 <= s.total && s.got <= s.total && (s.total > 0 ==> s.got > 0)
    && (forall m: nat, n: nat {:trigger InOrder(ps, m, n)} ::
          0 < m <= n ==> (InOrder(ps, m, n) <==> s.total == n && m <= s.got))
    && (if Complete(s) then s.parts == [] else |s.parts| == s.total)
  }

  /** The parts held are the texts of the chunks chosen. */
  ghost predicate Holds(ps: seq<Piece>, parts: seq<string>, got: nat, n: int) {
    got <= |parts| && (got > 0 ==> InOrder(ps, got, n) && Flatten(parts[..got]) == TextAt(ps, Chosen(ps, got, n)))
  }

  lemma CountsStep(ps: seq<Piece>, s: Slot, p: Piece)
    requires Counts(ps, s) && Acceptable(p) && p.ok
    ensures Counts(ps + [p], Drain(Placed(s, p)))
  {
    var all, t := ps + [p], Drain(Placed(s, p));
    assert all[..|ps|] == ps;
    forall m: nat, n: nat | 0 < m <= n
      ensures InOrder(all, m, n) <==> t.total == n && m <= t.got
    {
      OrderStep(ps, s, p, m, n);
    }
  }

  lemma OrderStep(ps: seq<Piece>, s: Slot, p: Piece, m: nat, n: nat)
    requires Counts(ps, s) && Acceptable(p) && p.ok && 0 < m <= n
    ensures InOrder(ps + [p], m, n) <==> Placed(s, p).total == n && m <= Placed(s, p).got
  {
    assert (ps + [p])[..|ps|] == ps;
    if p.no != 0 && m > 1 {
      assert InOrder(ps, m - 1, n) <==> s.total == n && m - 1 <= s.got;
    }
  }

  /** A chunk that is taken extends the chosen ones. */
  lemma ChosenStep(ps: seq<Piece>, s: Slot, p: Piece)
    requires Counts(ps, s) && Acceptable(p) && p.ok && !Complete(s)
    requires p.no != 0 ==> Holds(ps, s.parts, s.got, s.total)
    requires Wanted(Begin(s, p), p)
    ensures var t := Placed(s, p); Holds(ps + [p], t.parts, t.got, t.total)
  {
    var all, b, t := ps + [p], Begin(s, p), Placed(s, p);
    assert all[..|ps|] == ps;
    FlattenSnoc(b.parts[..p.no], p.d);
    assert t.parts[..t.got] == b.parts[..p.no] + [p.d];
    OrderStep(ps, s, p, t.got, t.total);
    if p.no == 0 {
      assert b.parts[..0] == [];
      assert Chosen(all, 1, t.total) == [|ps|];
      assert TextAt(all, [|ps|]) == TextAt(all, []) + p.d;
    } else {
      var was := Chosen(ps, s.got, s.total);
      assert !InOrder(ps, t.got, t.total);
      assert Chosen(all, t.got, t.total) == was + [|ps|];
      assert (was + [|ps|])[..|was|] == was;
      TextAtFront(ps, p, was);
    }
  }

  /** A chunk that is not taken changes nothing. */
  lemma IgnoredStep(ps: seq<Piece>, s: Slot, p: Piece)
    requires Counts(ps, s) && Acceptable(p) && p.ok && !Complete(s)
    requires Holds(ps, s.parts, s.got, s.total)
    requires !Wanted(Begin(s, p), p)
    ensures var t := Placed(s, p); Holds(ps + [p], t.parts, t.got, t.total)
  {
    var all := ps + [p];
    assert all[..|ps|] == ps;
    if p.no != 0 && s.got > 0 {
      var was := Chosen(ps, s.got, s.total);
      assert Chosen(all, s.got, s.total) == was;
      TextAtFront(ps, p, was);
    }
  }

  lemma {:induction false} SlotCounts(ps: seq<Piece>)
    requires AllAcceptable(ps) && AllOk(ps)
    ensures Counts(ps, SlotAfter(ps))
  {
    if ps != [] {
      var front, p := ps[..|ps| - 1], ps[|ps| - 1];
      SlotCounts(front);
      CountsStep(front, SlotAfter(front), p);
      assert ps == front + [p];
    }
  }

  lemma {:induction false} SlotHolds(ps: seq<Piece>)
    requires AllAcceptable(ps) && AllOk(ps) && !Complete(SlotAfter(ps))
    ensures var s := SlotAfter(ps); Holds(ps, s.parts, s.got, s.total)
  {
    if ps != [] {
      var front, p := ps[..|ps| - 1], ps[|ps| - 1];
      var s := SlotAfter(front);
      SlotCounts(front);
      assert ps == front + [p];
      if Complete(s) {
        assert p.no == 0;
        BegunAnew(front, s, p);
      } else {
        SlotHolds(front);
        if Wanted(Begin(s, p), p) {
          ChosenStep(front, s, p);
        } else {
          IgnoredStep(front, s, p);
        }
      }
    }
  }

  /** Chunk 0 begins the file anew whatever was held. */
  lemma BegunAnew(ps: seq<Piece>, s: Slot, p: Piece)
    requires Acceptable(p) && p.ok && p.no == 0
    ensures var t := Placed(s, p); Holds(ps + [p], t.parts, t.got, t.total)
  {
    var all, t := ps + [p], Placed(s, p);
    if p.total > 0 {
      assert t.parts[..1] == [p.d] && [p.d][1..] == [];
      assert Chosen(all, 1, t.total) == [|ps|];
      assert TextAt(all, [|ps|]) == TextAt(all, []) + p.d;
    }
  }

  lemma {:induction false} OrderLasts(ps: seq<Piece>, j: nat, m: nat, n: int)
    requires j <= |ps| && InOrder(ps[..j], m, n) && forall k :: j <= k < |ps| ==> ps[k].no != 0
    ensures InOrder(ps, m, n)
  {
    if j == |ps| {
      assert ps[..j] == ps;
    } else {
      var front := ps[..|ps| - 1];
      assert front[..j] == ps[..j];
      OrderLasts(front, j, m, n);
    }
  }

  lemma {:induction false} OrderAtChosen(ps: seq<Piece>, m: nat, n: int)
    requires InOrder(ps, m, n)
    ensures InOrder(ps[..Chosen(ps, m, n)[m - 1] + 1], m, n)
  {
    var front, p := ps[..|ps| - 1], ps[|ps| - 1];
    if p.no != 0 && InOrder(front, m, n) {
      OrderAtChosen(front, m, n);
      FrontTake(ps, Chosen(front, m, n)[m - 1] + 1);
    } else {
      assert ps[..|ps|] == ps;
    }
  }

  lemma OrderBefore(ps: seq<Piece>, m: nat, n: int, j: nat)
    requires m > 0 && InOrder(ps, m, n) && Chosen(ps, m, n)[m - 1] < j < |ps|
    ensures InOrder(ps[..j], m, n) && forall k :: j <= k < |ps| ==> ps[k].no != 0
  {
    var at := Chosen(ps, m, n);
    var last := at[m - 1];
    assert at[0] <= last;
    OrderAtChosen(ps, m, n);
    TakeTwice(ps, j, last + 1);
    OrderLasts(ps[..j], last + 1, m, n);
  }

  lemma ExtendsEarlier(ps: seq<Piece>, m: nat, n: int, j: nat)
    requires m > 1 && InOrder(ps, m - 1, n) && Chosen(ps, m - 1, n)[m - 2] < j < |ps|
    requires ps[j].no == m - 1 && ps[j].total == n
    ensures InOrder(ps, m, n)
  {
    OrderBefore(ps, m - 1, n, j);
    TakeTwice(ps, j + 1, j);
    OrderNext(ps[..j + 1], m, n);
    OrderLasts(ps, j + 1, m, n);
  }

  lemma OrderNext(ps: seq<Piece>, m: nat, n: int)
    requires ps != [] && m > 1 && InOrder(ps[..|ps| - 1], m - 1, n)
    requires ps[|ps| - 1].no == m - 1 && ps[|ps| - 1].total == n
    ensures InOrder(ps, m, n)
  {
  }

  /** No earlier chunk would have done: between two chosen chunks the later one does not occur. */
  lemma {:induction false} ChosenFirst(ps: seq<Piece>, m: nat, n: int, k: nat, j: nat)
    requires InOrder(ps, m, n) && 0 < k < m && Chosen(ps, m, n)[k - 1] < j < Chosen(ps, m, n)[k]
    ensures ps[j].no != k || ps[j].total != n
  {
    var front, p := ps[..|ps| - 1], ps[|ps| - 1];
    if InOrder(front, m, n) {
      ChosenFirst(front, m, n, k, j);
    } else if k < m - 1 {
      ChosenFirst(front, m - 1, n, k, j);
    } else if ps[j].no == k && ps[j].total == n {
      ExtendsEarlier(front, m, n, j);
    }
  }

  // ---- What becomes of one file ----

  datatype Verdict = Open | Failed | Saved(content: seq<byte>)

  /** The messages for one index that carry a chunk. */
  function Chunks(ps: seq<Piece>): (cs: seq<Piece>)
    ensures AllOk(cs) && (AllAcceptable(ps) ==> AllAcceptable(cs))
  {
    if ps == [] then []
    else if ps[|ps| - 1].ok then Chunks(ps[..|ps| - 1]) + [ps[|ps| - 1]]
    else Chunks(ps[..|ps| - 1])
  }

  function Decoded(text: string): Verdict {
    var raw := Decode(text);
    if raw.None? then Failed else Saved(raw.value)
  }

  /** The first message that refuses the file or completes the series 0 to n - 1 settles it. */
  function VerdictOf(ps: seq<Piece>): Verdict {
    if ps == [] then Open
    else
      var before, p := VerdictOf(ps[..|ps| - 1]), ps[|ps| - 1];
      var cs := Chunks(ps);
      if before != Open then before
      else if !p.ok then Failed
      else if p.total > 0 && InOrder(cs, p.total, p.total) then Decoded(TextAt(cs, Chosen(cs, p.total, p.total)))
      else Open
  }

  /** As long as a file is open its slot is not complete. */
  lemma {:induction false} OpenIncomplete(ps: seq<Piece>)
    requires AllAcceptable(ps) && VerdictOf(ps) == Open
    ensures !Complete(SlotAfter(Chunks(ps)))
  {
    if ps != [] {
      var front, p := ps[..|ps| - 1], ps[|ps| - 1];
      OpenIncomplete(front);
      var cs, s := Chunks(front), SlotAfter(Chunks(front));
      assert (cs + [p])[..|cs|] == cs;
      SlotCounts(cs);
      if Complete(Placed(s, p)) {
        OrderStep(cs, s, p, p.total, p.total);
      }
    }
  }

  /** What the next message does to an open file. */
  lemma VerdictStep(ps: seq<Piece>, p: Piece)
    requires AllAcceptable(ps) && Acceptable(p) && VerdictOf(ps) == Open
    ensures VerdictOf(ps + [p]) ==
            if !p.ok then Failed
            else
              var t := Placed(SlotAfter(Chunks(ps)), p);
              if Complete(t) then Decoded(Flatten(t.parts)) else Open
  {
    var all := ps + [p];
    assert all[..|ps|] == ps;
    if p.ok {
      OpenIncomplete(ps);
      ChunkStep(Chunks(ps), p);
    }
  }

  lemma ChunkStep(cs: seq<Piece>, p: Piece)
    requires AllAcceptable(cs) && AllOk(cs) && Acceptable(p) && p.ok && !Complete(SlotAfter(cs))
    ensures var t := Placed(SlotAfter(cs), p);
            && (Complete(t) <==> p.total > 0 && InOrder(cs + [p], p.total, p.total))
            && (Complete(t) ==> Flatten(t.parts) == TextAt(cs + [p], Chosen(cs + [p], p.total, p.total)))
  {
    var s := SlotAfter(cs);
    var t := Placed(s, p);
    SlotCounts(cs);
    SlotHolds(cs);
    if p.total > 0 {
      OrderStep(cs, s, p, p.total, p.total);
    }
    if Complete(t) {
      ChosenStep(cs, s, p);
      assert t.parts[..t.got] == t.parts;
    }
  }
}
