/** Privacy mode: a blanked screen is a lease that the viewer has to renew. Every command and every
    watchdog tick is one timed step; times are nanoseconds. */
module Privacy {
  import opened Bytes

  const SECOND: nat := 1_000_000_000
  const TTL: nat := 12 * SECOND
  const CHECK: nat := 2 * SECOND

  datatype Event = Assert(on: bool) | Clear | Tick

  datatype Timed = Timed(at: nat, ev: Event)

  /** What the guard believes, the lease's end, and what the operating system was last told. */
  datatype Guard = Guard(isOn: bool, deadline: nat, blanked: bool)

  const OFF: Guard := Guard(false, 0, false)

  function Step(g: Guard, e: Timed): Guard {
    match e.ev
    case Assert(on) =>
      var g1 := Guard(on, if on then e.at + TTL else g.deadline, g.blanked);
      if on != g.isOn then g1.(blanked := on) else if !on then g1.(blanked := false) else g1
    case Clear => Guard(false, 0, false)
    case Tick => if g.isOn && e.at > g.deadline then g.(isOn := false, blanked := false) else g
  }

  function Run(es: seq<Timed>): Guard {
    if es == [] then OFF else Step(Run(es[..|es| - 1]), es[|es| - 1])
  }

  /** The guard's shared state. setPrivacy tells the operating system. */
  class PrivacyGuard {
    var isOn: bool
    var deadline: nat
    var blanked: bool

    function State(): Guard
      reads this
    {
      Guard(isOn, deadline, blanked)
    }

    constructor ()
      ensures State() == OFF
    {
      isOn, deadline, blanked := false, 0, false;
    }

    method SetPrivacy(on: bool)
      modifies this`blanked
      ensures blanked == on
    {
      blanked := on;
    }

    method AssertPrivacy(on: bool, now: nat)
      modifies this
      ensures State() == Step(old(State()), Timed(now, Assert(on)))
      ensures isOn == on && (on ==> deadline == now + 12_000_000_000)
      ensures !on ==> !blanked
      ensures on ==> blanked == (if old(isOn) then old(blanked) else true)
    {
      var changed := on != isOn;
      isOn := on;
      if on {
        deadline := now + TTL;
      }
      if changed {
        SetPrivacy(on);
        return;
      }
      if !on {
        SetPrivacy(false);
      }
    }

    method ClearPrivacy(now: nat)
      modifies this
      ensures State() == Step(old(State()), Timed(now, Clear))
      ensures !isOn && !blanked
    {
      isOn := false;
      deadline := 0;
      SetPrivacy(false);
    }

    /** One pass of the watchdog. */
    method CheckLease(now: nat)
      modifies this
      ensures State() == Step(old(State()), Timed(now, Tick))
      ensures old(isOn) && now > old(deadline) ==> !isOn && !blanked
      ensures !(old(isOn) && now > old(deadline)) ==> State() == old(State())
    {
      var expired := isOn && now > deadline;
      if expired {
        isOn := false;
      }
      if expired {
        SetPrivacy(false);
      }
    }
  }

  /** Steps happen in the order of their times. */
  predicate Ordered(es: seq<Timed>) {
    forall i, j :: 0 <= i < j < |es| ==> es[i].at <= es[j].at
  }

  /** The last watchdog tick, or the start. */
  function LastTick(es: seq<Timed>): nat {
    if es == [] then 0
    else if es[|es| - 1].ev.Tick? then es[|es| - 1].at
    else LastTick(es[..|es| - 1])
  }

  predicate AssertedAt(es: seq<Timed>, i: int) {
    0 <= i < |es| && es[i].ev == Assert(true)
  }

  lemma LastTickBound(es: seq<Timed>)
    requires Ordered(es)
    ensures es != [] ==> LastTick(es) <= es[|es| - 1].at
    decreases |es|
  {
    if es != [] {
      LastTickBound(es[..|es| - 1]);
      assert |es| > 1 ==> es[|es| - 2].at <= es[|es| - 1].at;
    }
  }

  /** While the screen is blanked the guard knows it, the lease comes from an assertion of the viewer,
      and no tick has come after its end. */
  ghost predicate Leased(es: seq<Timed>, g: Guard) {
    && g.blanked == g.isOn
    && (g.isOn ==>
          && (exists i :: AssertedAt(es, i) && g.deadline == es[i].at + 12_000_000_000)
          && LastTick(es) <= g.deadline)
  }

  lemma {:induction false} LeaseHolds(es: seq<Timed>)
    requires Ordered(es)
    ensures Leased(es, Run(es))
  {
    if es != [] {
      var front, e := es[..|es| - 1], es[|es| - 1];
      LeaseHolds(front);
      LastTickBound(front);
      var g := Run(front);
      if e.ev == Assert(true) {
        assert AssertedAt(es, |es| - 1);
        assert front != [] ==> front[|front| - 1].at <= e.at;
      } else if Run(es).isOn {
        var i :| AssertedAt(front, i) && g.deadline == front[i].at + TTL;
        assert AssertedAt(es, i) && es[i] == front[i];
      }
    }
  }

  /** The dead-man's switch: at any moment at which the watchdog is no more than a check period behind,
      a blanked screen means that the viewer asserted privacy within the last lease and check period. */
  lemma BlankedOnlyWhileAsserted(es: seq<Timed>, now: nat) returns (i: nat)
    requires Ordered(es) && Run(es).blanked
    requires LastTick(es) <= now <= LastTick(es) + 2_000_000_000
    ensures AssertedAt(es, i) && now <= es[i].at + 14_000_000_000
  {
    LeaseHolds(es);
    i :| AssertedAt(es, i) && Run(es).deadline == es[i].at + TTL;
  }

  /** What the operating system was told is what the guard believes, after every step. */
  lemma {:induction false} ScreenMatchesBelief(es: seq<Timed>)
    ensures Run(es).blanked == Run(es).isOn
  {
    if es != [] {
      ScreenMatchesBelief(es[..|es| - 1]);
    }
  }

  /** The last assertion of the viewer that switched privacy on, or renewed it. */
  function LastAssert(es: seq<Timed>): Option<nat> {
    if es == [] then None
    else if es[|es| - 1].ev == Assert(true) then Some(es[|es| - 1].at)
    else LastAssert(es[..|es| - 1])
  }

  lemma {:induction false} LeaseIsLastAssert(es: seq<Timed>)
    ensures Run(es).isOn ==> LastAssert(es).Some? && Run(es).deadline == LastAssert(es).value + TTL
  {
    if es != [] {
      LeaseIsLastAssert(es[..|es| - 1]);
    }
  }

  /** A tick restores the screen exactly when the viewer's last assertion is more than a lease old: as
      long as renewals come within every lease, the watchdog never does. */
  lemma WatchdogRestoresIff(es: seq<Timed>, now: nat)
    requires Run(es).isOn
    ensures LastAssert(es).Some?
    ensures !Step(Run(es), Timed(now, Tick)).isOn <==> now > LastAssert(es).value + 12_000_000_000
  {
    LeaseIsLastAssert(es);
  }

  /** Renewed in time: every tick comes within a lease of the last assertion before it. */
  predicate Renewed(es: seq<Timed>) {
    es == [] ||
    (Renewed(es[..|es| - 1]) &&
     (es[|es| - 1].ev.Tick? ==>
        LastAssert(es[..|es| - 1]).Some? && es[|es| - 1].at <= LastAssert(es[..|es| - 1]).value + 12_000_000_000))
  }

  /** So a screen that was blanked and is neither released nor cleared stays blanked while renewed. */
  lemma {:induction false} RenewedStaysBlanked(es: seq<Timed>)
    requires es != [] && es[0].ev == Assert(true) && Renewed(es)
    requires forall i :: 0 <= i < |es| ==> es[i].ev == Assert(true) || es[i].ev == Tick
    ensures Run(es).isOn && Run(es).blanked
  {
    var front := es[..|es| - 1];
    if front == [] {
      assert Run(es) == Step(OFF, es[0]);
    } else {
      assert forall i :: 0 <= i < |front| ==> front[i] == es[i];
      RenewedStaysBlanked(front);
      LeaseIsLastAssert(front);
    }
  }

  /** The event leaves a blanked screen blanked: it asserts privacy, or is a tick within the lease of the last
      assertion. */
  predicate Keeps(es: seq<Timed>, j: nat)
    requires j < |es|
  {
    || es[j].ev == Assert(true)
    || (es[j].ev == Tick && LastAssert(es[..j]).Some? && es[j].at <= LastAssert(es[..j]).value + 12_000_000_000)
  }

  /** The screen is blanked exactly when the viewer has asserted privacy and since then has neither released nor
      cleared it, nor has a tick come more than twelve seconds after the last assertion. */
  lemma {:induction false} BlankedIff(es: seq<Timed>)
    ensures Run(es).blanked <==> exists i: nat :: i < |es| && HeldSince(es, i)
  {
    if es != [] {
      var front, n := es[..|es| - 1], |es| - 1;
      BlankedIff(front);
      ScreenMatchesBelief(front);
      ScreenMatchesBelief(es);
      if Run(front).isOn {
        LeaseIsLastAssert(front);
      }
      forall i: nat | i < n
        ensures HeldSince(es, i) <==> HeldSince(front, i) && Keeps(es, n)
      {
        HeldStep(es, i);
      }
      if es[n].ev == Assert(true) {
        assert HeldSince(es, n);
      }
    }
  }

  /** Privacy was asserted by the i-th event and nothing since has restored the screen. */
  predicate HeldSince(es: seq<Timed>, i: nat)
    requires i < |es|
  {
    es[i].ev == Assert(true) && forall j :: i < j < |es| ==> Keeps(es, j)
  }

  lemma HeldStep(es: seq<Timed>, i: nat)
    requires i + 1 < |es|
    ensures HeldSince(es, i) <==> HeldSince(es[..|es| - 1], i) && Keeps(es, |es| - 1)
  {
    var front := es[..|es| - 1];
    forall j | i < j < |front|
      ensures Keeps(es, j) <==> Keeps(front, j)
    {
      assert front[..j] == es[..j];
    }
  }
}
