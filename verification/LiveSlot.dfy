/**
 One slot of the live identity store: the binding of one address, or of one
 device.  Both kinds follow the same rules (newest event wins, a close leaves a
 tombstone, reopening the closed entity takes a strictly newer event), so both
 are this machine.  Steps arrive in any order and may repeat; sweeps interleave.
 */
module LiveSlot {
  import opened Evidence

  datatype Binding = Binding(claim: Claim, time: int, deadline: int, closed: bool)

  datatype Slot = Vacant | Held(b: Binding)

  datatype Step = Apply(f: Fact) | Sweep(now: int)

  /** An open older than the binding changes nothing, nor one no newer than its own entity's tombstone. */
  predicate Refuses(slot: Slot, f: Fact) {
    slot.Held? && if slot.b.closed && slot.b.claim.entity == f.claim.entity
                  then f.time <= slot.b.time
                  else f.time < slot.b.time
  }

  /** Folds one fact into the slot. */
  function Fold(slot: Slot, f: Fact, horizon: int): Slot {
    if f.opens then
      if Refuses(slot, f) then slot else Held(Binding(f.claim, f.time, f.time + horizon, false))
    else if slot.Held? && slot.b.claim.entity == f.claim.entity && slot.b.time <= f.time then
      Held(Binding(f.claim, f.time, f.time + horizon, true))
    else
      slot
  }

  function After(slot: Slot, step: Step, horizon: int): Slot {
    match step
    case Apply(f) => Fold(slot, f, horizon)
    case Sweep(now) => if slot.Held? && slot.b.deadline < now then Vacant else slot
  }

  function Run(steps: seq<Step>, horizon: int): Slot {
    if steps == [] then Vacant
    else After(Run(steps[..|steps| - 1], horizon), steps[|steps| - 1], horizon)
  }

  lemma {:induction false} RunSnoc(steps: seq<Step>, step: Step, horizon: int)
    ensures Run(steps + [step], horizon) == After(Run(steps, horizon), step, horizon)
  {
  }

  /** What a reader sees at `now`: nothing, or the one live claim. */
  function Visible(slot: Slot, now: int): set<Claim> {
    if slot.Held? && !slot.b.closed && now <= slot.b.deadline then {slot.b.claim} else {}
  }

  predicate SweptBy(steps: seq<Step>, now: int) {
    forall s | s in steps && s.Sweep? :: s.now <= now
  }

  function Seen(steps: seq<Step>): set<Fact> {
    set s | s in steps && s.Apply? :: s.f
  }

  lemma {:induction false} SeenSnoc(steps: seq<Step>, step: Step)
    ensures Seen(steps + [step]) == Seen(steps) + if step.Apply? then {step.f} else {}
  {
  }

  // ---------------------------------------------------------------- no run shows a rolled-back binding

  /** A held binding is exactly one applied fact, with the deadline that fact earns. */
  lemma {:induction false} HeldWasApplied(steps: seq<Step>, horizon: int)
    requires Run(steps, horizon).Held?
    ensures var b := Run(steps, horizon).b;
            b.deadline == b.time + horizon && Fact(b.time, !b.closed, b.claim) in Seen(steps)
  {
    var n := |steps| - 1;
    assert steps == steps[..n] + [steps[n]];
    SeenSnoc(steps[..n], steps[n]);
    if Run(steps[..n], horizon).Held? {
      HeldWasApplied(steps[..n], horizon);
    }
  }

  /** From the moment the slot held time m on, it is no older than m or m has expired. */
  lemma {:induction false} NewestOrExpired(steps: seq<Step>, i: nat, now: int, horizon: int)
    requires i <= |steps| && Run(steps[..i], horizon).Held?
    requires SweptBy(steps, now)
    ensures var m, slot := Run(steps[..i], horizon).b.time, Run(steps, horizon);
            (slot.Held? && m <= slot.b.time) || m + horizon < now
    decreases |steps|
  {
    var n := |steps| - 1;
    if i == |steps| {
      assert steps[..i] == steps;
    } else {
      assert steps[..n][..i] == steps[..i];
      NewestOrExpired(steps[..n], i, now, horizon);
      if Run(steps[..n], horizon).Held? {
        HeldWasApplied(steps[..n], horizon);
      }
      assert steps[n] in steps;
    }
  }

  /**
   Over every run, in any arrival order and with sweeps anywhere: a claim a reader
   sees is never older than anything the slot held before, open or tombstone, even
   if that has been swept meanwhile.
   */
  lemma {:induction false} NoVisibleRollback(steps: seq<Step>, i: nat, now: int, horizon: int)
    requires i <= |steps| && Run(steps[..i], horizon).Held?
    requires SweptBy(steps, now)
    requires Visible(Run(steps, horizon), now) != {}
    ensures var was, b := Run(steps[..i], horizon).b, Run(steps, horizon).b;
            was.time <= b.time && Fact(b.time, true, b.claim) in Seen(steps)
  {
    HeldWasApplied(steps, horizon);
    NewestOrExpired(steps, i, now, horizon);
  }

  /** Hence an open older than a recorded close stays invisible for ever. */
  lemma {:induction false} ClosedStaysClosed(steps: seq<Step>, i: nat, now: int, horizon: int, older: Fact)
    requires i <= |steps| && Run(steps[..i], horizon).Held? && Run(steps[..i], horizon).b.closed
    requires older.opens && older.time < Run(steps[..i], horizon).b.time
    requires SweptBy(steps, now)
    ensures var slot := Run(steps, horizon);
            Visible(slot, now) != {} ==> Fact(slot.b.time, true, slot.b.claim) != older
  {
    if Visible(Run(steps, horizon), now) != {} {
      NoVisibleRollback(steps, i, now, horizon);
    }
  }

  // ---------------------------------------------------------------- agreement with the evidence

  /** Every applied fact is a replay, or is later than everything applied before. */
  predicate Orderly(steps: seq<Step>) {
    steps == [] ||
    var init, last := steps[..|steps| - 1], steps[|steps| - 1];
    && Orderly(init)
    && (last.Apply? ==> last.f in Seen(init) || forall x | x in Seen(init) :: x.time < last.f.time)
  }

  /** A log whose times strictly increase is orderly. */
  lemma {:induction false} StrictLogsAreOrderly(steps: seq<Step>)
    requires forall i, j | 0 <= i < j < |steps| && steps[i].Apply? && steps[j].Apply? ::
               steps[i].f.time < steps[j].f.time
    ensures Orderly(steps)
  {
    if steps != [] {
      StrictLogsAreOrderly(steps[..|steps| - 1]);
    }
  }

  ghost predicate DistinctTimes(facts: set<Fact>) {
    forall x, y | x in facts && y in facts && x.time == y.time :: x == y
  }

  predicate Closes(facts: set<Fact>, o: Fact, x: Fact) {
    x in facts && !x.opens && x.claim.entity == o.claim.entity && o.time <= x.time
  }

  /** The slot holds the latest open, or the latest close of its entity. */
  ghost predicate Tracks(seen: set<Fact>, o: Fact, slot: Slot, horizon: int) {
    if ClosedSince(seen, o)
    then exists x | Closes(seen, o, x) ::
           && (forall y | Closes(seen, o, y) :: y.time <= x.time)
           && slot == Held(Binding(x.claim, x.time, x.time + horizon, true))
    else slot == Held(Binding(o.claim, o.time, o.time + horizon, false))
  }

  /** Either nothing was ever opened, or the slot tracks the latest open, or that has expired. */
  ghost predicate InSync(seen: set<Fact>, slot: Slot, now: int, horizon: int) {
    || ((forall x | x in seen :: !x.opens) && slot == Vacant)
    || (exists o :: LatestOpen(seen, o) && Tracks(seen, o, slot, horizon))
    || (exists o :: LatestOpen(seen, o) && o.time + horizon < now && Visible(slot, now) == {})
  }

  /** A replayed fact moves a tracking slot nowhere. */
  lemma {:induction false} ReplayKeepsTracking(seen: set<Fact>, o: Fact, slot: Slot, f: Fact, horizon: int)
    requires DistinctTimes(seen) && LatestOpen(seen, o) && Tracks(seen, o, slot, horizon)
    requires f in seen
    ensures Fold(slot, f, horizon) == slot
  {
  }

  /** A strictly newer fact keeps the slot in sync with the larger evidence. */
  lemma {:induction false} FreshKeepsInSync(seen: set<Fact>, slot: Slot, f: Fact, now: int, horizon: int)
    requires InSync(seen, slot, now, horizon)
    requires slot.Held? ==> slot.b.time < f.time
    requires forall x | x in seen :: x.time < f.time
    ensures InSync(seen + {f}, Fold(slot, f, horizon), now, horizon)
  {
    var seen', slot' := seen + {f}, Fold(slot, f, horizon);
    if f.opens {
      assert LatestOpen(seen', f) && Tracks(seen', f, slot', horizon);
    } else if exists x :: x in seen && x.opens {
      if o :| LatestOpen(seen, o) && Tracks(seen, o, slot, horizon) {
        FreshCloseKeepsTracking(seen, o, slot, f, horizon);
        assert LatestOpen(seen', o) && Tracks(seen', o, slot', horizon);
      } else {
        var o :| LatestOpen(seen, o) && o.time + horizon < now && Visible(slot, now) == {};
        assert LatestOpen(seen', o) && Visible(slot', now) == {};
      }
    }
  }

  lemma {:induction false} FreshCloseKeepsTracking(seen: set<Fact>, o: Fact, slot: Slot, f: Fact, horizon: int)
    requires LatestOpen(seen, o) && Tracks(seen, o, slot, horizon)
    requires !f.opens && forall x | x in seen :: x.time < f.time
    ensures Tracks(seen + {f}, o, Fold(slot, f, horizon), horizon)
  {
    var seen' := seen + {f};
    if f.claim.entity == o.claim.entity {
      assert Closes(seen', o, f);
      assert slot.b.claim.entity == o.claim.entity && slot.b.time <= f.time;
    } else {
      assert forall x :: Closes(seen', o, x) <==> Closes(seen, o, x);
      assert ClosedSince(seen', o) <==> ClosedSince(seen, o) by {
        if ClosedSince(seen, o) {
          var x :| x in seen && Closes(seen, o, x);
          assert x in seen';
        }
      }
    }
  }

  lemma {:induction false} OrderlyTimesDiffer(steps: seq<Step>)
    requires Orderly(steps)
    ensures DistinctTimes(Seen(steps))
  {
    if steps != [] {
      var n := |steps| - 1;
      assert steps == steps[..n] + [steps[n]];
      SeenSnoc(steps[..n], steps[n]);
      OrderlyTimesDiffer(steps[..n]);
    }
  }

  /** The invariant of every orderly run, with replays and sweeps anywhere. */
  lemma {:induction false} OrderlyRunsStayInSync(steps: seq<Step>, now: int, horizon: int)
    requires Orderly(steps) && SweptBy(steps, now)
    ensures InSync(Seen(steps), Run(steps, horizon), now, horizon)
  {
    if steps != [] {
      var n := |steps| - 1;
      var init, last := steps[..n], steps[n];
      OrderlyRunsStayInSync(init, now, horizon);
      OrderlyTimesDiffer(init);
      if Run(init, horizon).Held? {
        HeldWasApplied(init, horizon);
      }
      assert last in steps;
      StepStaysInSync(Seen(init), Run(init, horizon), last, now, horizon);
      SeenSnoc(init, last);
      assert steps == init + [last];
    }
  }

  lemma {:induction false} StepStaysInSync(seen: set<Fact>, slot: Slot, step: Step, now: int, horizon: int)
    requires DistinctTimes(seen) && InSync(seen, slot, now, horizon)
    requires slot.Held? ==> Fact(slot.b.time, !slot.b.closed, slot.b.claim) in seen
    requires step.Sweep? ==> step.now <= now
    requires step.Apply? ==> step.f in seen || forall x | x in seen :: x.time < step.f.time
    ensures InSync(seen + if step.Apply? then {step.f} else {}, After(slot, step, horizon), now, horizon)
  {
    match step {
      case Apply(f) =>
        if f in seen {
          assert seen + {f} == seen;
          ReplayStaysInSync(seen, slot, f, now, horizon);
        } else {
          FreshKeepsInSync(seen, slot, f, now, horizon);
        }
      case Sweep(s) =>
        assert seen + {} == seen;
        SweepStaysInSync(seen, slot, s, now, horizon);
    }
  }

  lemma {:induction false} ReplayStaysInSync(seen: set<Fact>, slot: Slot, f: Fact, now: int, horizon: int)
    requires DistinctTimes(seen) && InSync(seen, slot, now, horizon) && f in seen
    ensures InSync(seen, Fold(slot, f, horizon), now, horizon)
  {
    if o :| LatestOpen(seen, o) && Tracks(seen, o, slot, horizon) {
      ReplayKeepsTracking(seen, o, slot, f, horizon);
    } else if o :| LatestOpen(seen, o) && o.time + horizon < now && Visible(slot, now) == {} {
      assert Visible(Fold(slot, f, horizon), now) == {};
    }
  }

  lemma {:induction false} SweepStaysInSync(seen: set<Fact>, slot: Slot, s: int, now: int, horizon: int)
    requires InSync(seen, slot, now, horizon) && s <= now
    ensures InSync(seen, After(slot, Sweep(s), horizon), now, horizon)
  {
  }

  /**
   In every orderly run, replays and sweeps included, a reader sees exactly the
   holders of the evidence applied so far.
   */
  lemma {:induction false} VisibleIsEvidence(steps: seq<Step>, now: int, horizon: int)
    requires Orderly(steps) && SweptBy(steps, now)
    requires forall f | f in Seen(steps) :: f.time <= now
    ensures Visible(Run(steps, horizon), now) == Holders(Seen(steps), now, horizon)
  {
    OrderlyTimesDiffer(steps);
    OrderlyRunsStayInSync(steps, now, horizon);
    assert UpTo(Seen(steps), now) == Seen(steps);
    InSyncShowsHolders(Seen(steps), Run(steps, horizon), now, horizon);
  }

  lemma {:induction false} InSyncShowsHolders(seen: set<Fact>, slot: Slot, now: int, horizon: int)
    requires DistinctTimes(seen) && InSync(seen, slot, now, horizon)
    ensures Visible(slot, now) ==
            set o | o in seen && LatestOpen(seen, o) && !ClosedSince(seen, o) && now <= o.time + horizon :: o.claim
  {
  }

  // ---------------------------------------------------------------- replays

  predicate ReplaysOf(more: seq<Step>, steps: seq<Step>) {
    forall s | s in more && s.Apply? :: s.f in Seen(steps)
  }

  lemma {:induction false} ReplayedRunIsOrderly(steps: seq<Step>, more: seq<Step>)
    requires Orderly(steps) && ReplaysOf(more, steps)
    ensures Orderly(steps + more) && Seen(steps + more) == Seen(steps)
  {
    if more == [] {
      assert steps + more == steps;
    } else {
      var n := |more| - 1;
      assert more[n] in more;
      ReplayedRunIsOrderly(steps, more[..n]);
      assert steps + more == (steps + more[..n]) + [more[n]];
      assert (steps + more)[..|steps + more| - 1] == steps + more[..n];
      SeenSnoc(steps + more[..n], more[n]);
    }
  }

  /** Replaying seen facts in any order, sweeping in between, changes nothing a reader sees. */
  lemma {:induction false} ReplayIsInvisible(steps: seq<Step>, more: seq<Step>, now: int, horizon: int)
    requires Orderly(steps) && ReplaysOf(more, steps)
    requires SweptBy(steps + more, now)
    ensures Visible(Run(steps + more, horizon), now) == Visible(Run(steps, horizon), now)
  {
    assert forall s | s in steps :: s in steps + more;
    ReplayedRunIsOrderly(steps, more);
    OrderlyTimesDiffer(steps);
    OrderlyRunsStayInSync(steps, now, horizon);
    OrderlyRunsStayInSync(steps + more, now, horizon);
    InSyncShowsHolders(Seen(steps), Run(steps, horizon), now, horizon);
    InSyncShowsHolders(Seen(steps), Run(steps + more, horizon), now, horizon);
  }

  /** Without sweeps even the slot itself, tombstone included, is left as it was. */
  lemma {:induction false} ReplayLeavesSlot(steps: seq<Step>, more: seq<Step>, horizon: int)
    requires Orderly(steps) && ReplaysOf(more, steps)
    requires forall s | s in steps + more :: s.Apply?
    ensures Run(steps + more, horizon) == Run(steps, horizon)
  {
    if more == [] {
      assert steps + more == steps;
    } else {
      var n := |more| - 1;
      assert more[n] in steps + more;
      assert forall s | s in steps + more[..n] :: s in steps + more;
      ReplayLeavesSlot(steps, more[..n], horizon);
      assert steps + more == (steps + more[..n]) + [more[n]];
      RunSnoc(steps + more[..n], more[n], horizon);
      UnsweptRunTracks(steps, horizon);
      if o :| LatestOpen(Seen(steps), o) && Tracks(Seen(steps), o, Run(steps, horizon), horizon) {
        ReplayKeepsTracking(Seen(steps), o, Run(steps, horizon), more[n].f, horizon);
      }
    }
  }

  lemma {:induction false} UnsweptRunTracks(steps: seq<Step>, horizon: int)
    requires Orderly(steps)
    requires forall s | s in steps :: s.Apply?
    ensures DistinctTimes(Seen(steps))
    ensures var seen, slot := Seen(steps), Run(steps, horizon);
            || ((forall x | x in seen :: !x.opens) && slot == Vacant)
            || (exists o :: LatestOpen(seen, o) && Tracks(seen, o, slot, horizon))
  {
    var now := if exists o :: LatestOpen(Seen(steps), o)
               then var o :| LatestOpen(Seen(steps), o); o.time + horizon else 0;
    OrderlyTimesDiffer(steps);
    OrderlyRunsStayInSync(steps, now, horizon);
  }
}
