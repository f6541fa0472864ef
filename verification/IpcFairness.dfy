/** Fairness of the writer: bulk data always gets through, whatever the interactive lane does. */
module IpcFairness {
  import opened Bytes
  import opened IpcConn

  /** How many of the last entries are hi writes. */
  function HiRun(items: seq<Item>): (n: nat)
    ensures n <= |items|
  {
    if items == [] || items[|items| - 1].lane != Hi then 0 else 1 + HiRun(items[..|items| - 1])
  }

  lemma {:induction false} HiRunCovers(items: seq<Item>, i: nat)
    requires i <= |items| && forall j :: i <= j < |items| ==> items[j].lane == Hi
    ensures HiRun(items) >= |items| - i
    decreases |items|
  {
    if i < |items| {
      HiRunCovers(items[..|items| - 1], i);
    }
  }

  /** In every run the writer's counter is the number of hi messages it has taken last without any other between. */
  lemma {:induction false} StreakIsRun(acts: seq<Action>)
    requires Exec(INIT, acts).Some?
    ensures Exec(INIT, acts).value.streak == HiRun(Order(Exec(INIT, acts).value))
  {
    if acts != [] {
      StreakIsRun(acts[..|acts| - 1]);
      StreakStep(Exec(INIT, acts[..|acts| - 1]).value, acts[|acts| - 1]);
    }
  }

  lemma {:induction false} StreakStep(s: State, a: Action)
    requires Enabled(s, a) && s.streak == HiRun(Order(s))
    ensures Apply(s, a).streak == HiRun(Order(Apply(s, a)))
  {
    if Takes(a) {
      assert s.log + [] == s.log;
      Snoc(s.log, Apply(s, a).pc.item);
    } else {
      OrderKept(s, a);
    }
  }

  /** Nine consecutive hi writes starting at i. */
  predicate HiWindow(items: seq<Item>, i: nat) {
    i + 8 < |items| && forall j :: i <= j <= i + 8 ==> items[j].lane == Hi
  }

  lemma WindowAtEnd(items: seq<Item>, x: Item, i: nat)
    requires HiWindow(items + [x], i)
    ensures HiWindow(items, i) || HiRun(items + [x]) > MAX_STREAK
  {
    var all := items + [x];
    if i + MAX_STREAK < |items| {
      assert forall j :: i <= j <= i + MAX_STREAK ==> items[j] == all[j];
    } else {
      HiRunCovers(all, i);
    }
  }

  /** The lane is not empty before, between and after the actions. */
  ghost predicate Busy(s: State, acts: seq<Action>, lane: Lane) {
    && (Exec(s, acts).Some? ==> Queue(Exec(s, acts).value, lane) != [])
    && (acts != [] ==> Busy(s, acts[..|acts| - 1], lane))
  }

  /** The writes completed between two states of a run. */
  function NewWrites(s: State, t: State): seq<Item> {
    if |s.log| <= |t.log| then t.log[|s.log|..] else []
  }

  lemma NewWritesStep(s: State, t: State, a: Action)
    requires |s.log| <= |t.log| && Enabled(t, a)
    ensures |s.log| <= |Apply(t, a).log|
    ensures NewWrites(s, Apply(t, a)) ==
            if a.WriteOk? then NewWrites(s, t) + [t.pc.item] else NewWrites(s, t)
  {
  }

  function HiNow(t: State): nat {
    if t.pc.Writing? && t.pc.item.lane == Hi then 1 else 0
  }

  /** What holds of the writer throughout a stretch that began in s and wrote `writes`. */
  ghost predicate StretchInv(writes: seq<Item>, t: State) {
    var run := HiRun(writes);
    && run + HiNow(t) <= MAX_STREAK
    && (t.pc == Top || HiNow(t) == 1 ==> run + HiNow(t) <= t.streak)
    && (t.pc == TryHi || t.pc == Wait ==> run == 0 || run <= t.streak < MAX_STREAK)
  }

  ghost predicate StreakCounts(s: State) {
    s.pc.Writing? ==> if s.pc.item.lane == Hi then s.streak >= 1 else s.streak == 0
  }

  lemma {:induction false} StreakHolds(acts: seq<Action>)
    requires Exec(INIT, acts).Some?
    ensures StreakCounts(Exec(INIT, acts).value)
  {
    if acts != [] {
      StreakHolds(acts[..|acts| - 1]);
    }
  }

  lemma StretchStep(writes: seq<Item>, t: State, a: Action)
    requires StretchInv(writes, t) && Enabled(t, a) && t.bulk != []
    ensures StretchInv(if a.WriteOk? then writes + [t.pc.item] else writes, Apply(t, a))
  {
    if a.WriteOk? {
      assert (writes + [t.pc.item])[..|writes|] == writes;
    }
  }

  lemma {:induction false} Stretch(s: State, acts: seq<Action>)
    requires StreakCounts(s) && Exec(s, acts).Some? && Busy(s, acts, Bulk)
    ensures |s.log| <= |Exec(s, acts).value.log|
    ensures StretchInv(NewWrites(s, Exec(s, acts).value), Exec(s, acts).value)
    ensures forall i: nat :: !HiWindow(NewWrites(s, Exec(s, acts).value), i)
  {
    if acts != [] {
      var front, a := acts[..|acts| - 1], acts[|acts| - 1];
      Stretch(s, front);
      var t := Exec(s, front).value;
      NewWritesStep(s, t, a);
      var writes := NewWrites(s, t);
      StretchStep(writes, t, a);
      if a.WriteOk? {
        forall i: nat | HiWindow(writes + [t.pc.item], i)
          ensures false
        {
          WindowAtEnd(writes, t.pc.item, i);
        }
      }
    }
  }

  /** Bulk is not starved: while the bulk lane is never empty, no nine consecutive writes are all
      hi writes, however the stretch began. */
  lemma BulkNotStarved(before: seq<Action>, acts: seq<Action>, i: nat)
    requires Exec(INIT, before).Some?
    requires Exec(Exec(INIT, before).value, acts).Some? && Busy(Exec(INIT, before).value, acts, Bulk)
    ensures !HiWindow(NewWrites(Exec(INIT, before).value, Exec(Exec(INIT, before).value, acts).value), i)
  {
    StreakHolds(before);
    Stretch(Exec(INIT, before).value, acts);
  }

  /** The writer has chosen a video frame, or is in the select that may. */
  predicate MayPickVideo(s: State) {
    s.pc == Wait || (s.pc.Writing? && s.pc.item.lane == Vid)
  }

  /** While the hi lane is never empty only a choice made before the stretch can pick a video frame,
      and that write is the first one of the stretch. */
  ghost predicate VideoOnlyFirst(s: State, t: State) {
    var writes := NewWrites(s, t);
    && |s.log| <= |t.log|
    && (forall j :: 0 < j < |writes| ==> writes[j].lane != Vid)
    && (writes != [] && writes[0].lane == Vid ==> MayPickVideo(s))
    && (MayPickVideo(t) ==> MayPickVideo(s) && writes == [])
  }

  lemma {:induction false} HiBusy(s: State, acts: seq<Action>)
    requires Exec(s, acts).Some? && Busy(s, acts, Hi)
    ensures VideoOnlyFirst(s, Exec(s, acts).value)
  {
    if acts != [] {
      var front, a := acts[..|acts| - 1], acts[|acts| - 1];
      HiBusy(s, front);
      NewWritesStep(s, Exec(s, front).value, a);
    }
  }

  /** Between two bulk writes there are at least eight hi writes: what a stretch looks like while hi is never
      empty. */
  ghost predicate Spaced(writes: seq<Item>) {
    forall i, j :: 0 <= i < j < |writes| && writes[i].lane == writes[j].lane == Bulk ==> j - i >= 9
  }

  /** Since the last bulk write, if there was one, there were only hi writes, and the writer has counted them. */
  ghost predicate CountsHi(writes: seq<Item>, t: State) {
    var run := HiRun(writes);
    StreakCounts(t) &&
    (run < |writes| && writes[|writes| - 1 - run].lane == Bulk ==>
      && (t.pc == Top || t.pc == TryHi ==> t.streak == run)
      && (t.pc.Writing? ==> t.pc.item.lane != Vid && (t.pc.item.lane == Bulk ==> run >= 8))
      && (t.pc.Writing? && t.pc.item.lane == Hi ==> t.streak == run + 1)
      && t.pc != Wait)
  }

  lemma HiRunSnoc(writes: seq<Item>, x: Item)
    ensures HiRun(writes + [x]) == if x.lane == Hi then HiRun(writes) + 1 else 0
  {
    Snoc(writes, x);
  }

  lemma {:induction false} HiRunIsHi(writes: seq<Item>, j: nat)
    requires |writes| - HiRun(writes) <= j < |writes|
    ensures writes[j].lane == Hi
  {
    if j < |writes| - 1 {
      HiRunIsHi(writes[..|writes| - 1], j);
    }
  }

  lemma CountsHiStep(writes: seq<Item>, t: State, a: Action)
    requires CountsHi(writes, t) && Enabled(t, a) && t.hi != []
    ensures CountsHi(if a.WriteOk? then writes + [t.pc.item] else writes, Apply(t, a))
  {
    if a.WriteOk? {
      HiRunSnoc(writes, t.pc.item);
      if t.pc.item.lane == Hi {
        var all := writes + [t.pc.item];
        assert HiRun(writes) < |writes| ==> all[|all| - 1 - HiRun(all)] == writes[|writes| - 1 - HiRun(writes)];
      }
    }
  }

  lemma SpacedSnoc(writes: seq<Item>, t: State)
    requires Spaced(writes) && CountsHi(writes, t) && t.pc.Writing?
    requires forall j :: 0 < j < |writes| ==> writes[j].lane != Vid
    ensures Spaced(writes + [t.pc.item])
  {
    var all := writes + [t.pc.item];
    forall i | 0 <= i < |writes| && all[i].lane == all[|writes|].lane == Bulk
      ensures |writes| - i >= 9
    {
      var last := |writes| - 1 - HiRun(writes);
      if i > last {
        HiRunIsHi(writes, i);
      } else {
        LastIsBulk(writes, i);
      }
    }
  }

  /** The write before the last hi writes is a bulk one, if there was any. */
  lemma {:induction false} LastIsBulk(writes: seq<Item>, i: nat)
    requires i < |writes| - HiRun(writes) && writes[i].lane == Bulk
    requires forall j :: 0 < j < |writes| ==> writes[j].lane != Vid
    ensures HiRun(writes) < |writes| && writes[|writes| - 1 - HiRun(writes)].lane == Bulk
  {
    if writes[|writes| - 1].lane == Hi {
      LastIsBulk(writes[..|writes| - 1], i);
    }
  }

  lemma {:induction false} HiStretch(s: State, acts: seq<Action>)
    requires StreakCounts(s) && Exec(s, acts).Some? && Busy(s, acts, Hi)
    ensures VideoOnlyFirst(s, Exec(s, acts).value)
    ensures CountsHi(NewWrites(s, Exec(s, acts).value), Exec(s, acts).value)
    ensures Spaced(NewWrites(s, Exec(s, acts).value))
  {
    HiBusy(s, acts);
    if acts != [] {
      var front, a := acts[..|acts| - 1], acts[|acts| - 1];
      var t := Exec(s, front).value;
      HiStretch(s, front);
      NewWritesStep(s, t, a);
      CountsHiStep(NewWrites(s, t), t, a);
      if a.WriteOk? {
        SpacedSnoc(NewWrites(s, t), t);
      }
    }
  }

  /** Input goes before file data: while the hi lane is never empty, of any nine consecutive writes at most one
      is a bulk write, and behind the first write every other one is a hi write. This holds for every stretch
      of every run, whatever waits on the other lanes. */
  lemma HiBeforeBulk(before: seq<Action>, acts: seq<Action>)
    requires Exec(INIT, before).Some?
    requires Exec(Exec(INIT, before).value, acts).Some? && Busy(Exec(INIT, before).value, acts, Hi)
    ensures var s := Exec(INIT, before).value;
            var writes := NewWrites(s, Exec(s, acts).value);
            && (forall i, j :: 0 <= i < j < |writes| && writes[i].lane == writes[j].lane == Bulk ==> j - i >= 9)
            && (forall j :: 0 < j < |writes| ==> writes[j].lane == Hi || writes[j].lane == Bulk)
  {
    StreakHolds(before);
    HiStretch(Exec(INIT, before).value, acts);
  }

  /** While neither lane is ever empty, every nine consecutive writes include a bulk write. The one
      exception is nine that start with the first write of the stretch when that is a video frame,
      which takes a writer that could already pick one as the stretch began. */
  lemma BulkServed(before: seq<Action>, acts: seq<Action>, i: nat) returns (j: nat)
    requires Exec(INIT, before).Some?
    requires Exec(Exec(INIT, before).value, acts).Some?
    requires Busy(Exec(INIT, before).value, acts, Bulk) && Busy(Exec(INIT, before).value, acts, Hi)
    requires i + 8 < |NewWrites(Exec(INIT, before).value, Exec(Exec(INIT, before).value, acts).value)|
    ensures i <= j <= i + 8
    ensures var s := Exec(INIT, before).value;
            var writes := NewWrites(s, Exec(s, acts).value);
            writes[j].lane == Bulk || (i == j == 0 && writes[0].lane == Vid && MayPickVideo(s))
  {
    var s := Exec(INIT, before).value;
    var writes := NewWrites(s, Exec(s, acts).value);
    BulkNotStarved(before, acts, i);
    HiBusy(s, acts);
    j :| i <= j <= i + 8 && writes[j].lane != Hi;
  }
}
