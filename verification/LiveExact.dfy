/**
 The live slot against the evidence, exactly.  `LiveSlot` proves that they agree on
 orderly logs; here any arrival order, ties, replays, sweeps and future-dated events
 are allowed, the visible claim gets a closed form, and agreement an exact condition.
 */
module LiveExact {
  import opened Evidence
  import opened LiveSlot

  // ---------------------------------------------------------------- the visible claim in closed form

  /** The last step at which the slot accepts an open of time T, or -1. */
  function LastOpening(steps: seq<Step>, T: int, horizon: int): (j: int)
    ensures -1 <= j < |steps|
    ensures j >= 0 ==> steps[j].Apply? && steps[j].f.opens && steps[j].f.time == T
  {
    if steps == [] then -1
    else
      var n := |steps| - 1;
      if steps[n].Apply? && steps[n].f.opens && steps[n].f.time == T && !Refuses(Run(steps[..n], horizon), steps[n].f)
      then n
      else LastOpening(steps[..n], T, horizon)
  }

  /** A step after j closes what step j opened. */
  predicate ClosedAfter(steps: seq<Step>, j: nat)
    requires j < |steps| && steps[j].Apply?
  {
    exists i | j < i < |steps| :: IsCloseOf(steps[i], steps[j].f)
  }

  predicate IsCloseOf(step: Step, o: Fact) {
    step.Apply? && !step.f.opens && step.f.claim.entity == o.claim.entity && o.time <= step.f.time
  }

  lemma {:induction false} ClosedAfterSnoc(init: seq<Step>, step: Step, j: nat)
    requires j < |init| && init[j].Apply?
    ensures ClosedAfter(init + [step], j) <==> ClosedAfter(init, j) || IsCloseOf(step, init[j].f)
  {
    var steps := init + [step];
    assert steps[|init|] == step;
    if i :| j < i < |init| && IsCloseOf(init[i], init[j].f) {
      assert IsCloseOf(steps[i], steps[j].f);
    }
  }

  /** Where the slot stands once every open so far is no later than T. */
  ghost predicate Stands(steps: seq<Step>, T: int, slot: Slot, horizon: int) {
    var j := LastOpening(steps, T, horizon);
    if j < 0 then
      HasOpen(steps, T) ==> slot.Held? && slot.b.closed && T <= slot.b.time
    else if ClosedAfter(steps, j) then
      slot.Held? && slot.b.closed && T <= slot.b.time && slot.b.claim.entity == steps[j].f.claim.entity
    else
      slot == Held(Binding(steps[j].f.claim, T, T + horizon, false))
  }

  ghost predicate HasOpen(steps: seq<Step>, T: int) {
    exists x | x in Seen(steps) :: x.opens && x.time == T
  }

  ghost predicate NoOpenAfter(steps: seq<Step>, T: int) {
    forall x | x in Seen(steps) && x.opens :: x.time <= T
  }

  lemma {:induction false} RunStands(steps: seq<Step>, T: int, now: int, horizon: int)
    requires SweptBy(steps, now) && NoOpenAfter(steps, T) && now <= T + horizon
    ensures Stands(steps, T, Run(steps, horizon), horizon)
  {
    if steps != [] {
      var n := |steps| - 1;
      var init, last := steps[..n], steps[n];
      assert steps == init + [last];
      SeenSnoc(init, last);
      RunStands(init, T, now, horizon);
      if Run(init, horizon).Held? {
        HeldWasApplied(init, horizon);
      }
      assert last in steps;
      var j := LastOpening(init, T, horizon);
      if j >= 0 {
        ClosedAfterSnoc(init, last, j);
      }
      assert last.Apply? ==> last.f in Seen(steps);
      StepStands(init, last, T, now, horizon);
    }
  }

  lemma {:induction false} StepStands(init: seq<Step>, last: Step, T: int, now: int, horizon: int)
    requires now <= T + horizon
    requires Stands(init, T, Run(init, horizon), horizon)
    requires var slot := Run(init, horizon); slot.Held? ==>
               slot.b.deadline == slot.b.time + horizon && (slot.b.closed || slot.b.time <= T)
    requires last.Sweep? ==> last.now <= now
    requires last.Apply? && last.f.opens ==> last.f.time <= T
    requires LastOpening(init, T, horizon) >= 0 ==>
               (ClosedAfter(init + [last], LastOpening(init, T, horizon)) <==>
                ClosedAfter(init, LastOpening(init, T, horizon)) ||
                IsCloseOf(last, init[LastOpening(init, T, horizon)].f))
    requires HasOpen(init + [last], T) <==>
               HasOpen(init, T) || (last.Apply? && last.f.opens && last.f.time == T)
    ensures Stands(init + [last], T, Run(init + [last], horizon), horizon)
  {
    var steps := init + [last];
    assert steps[..|init|] == init;
    RunSnoc(init, last, horizon);
  }

  /** The claim of the last opening at the latest open time, unless closed since or expired. */
  ghost function Shown(steps: seq<Step>, now: int, horizon: int): set<Claim> {
    if o :| LatestOpen(Seen(steps), o) then
      var j := LastOpening(steps, o.time, horizon);
      if o.time + horizon < now || j < 0 || ClosedAfter(steps, j) then {} else {steps[j].f.claim}
    else {}
  }

  /** Over every run whatsoever, a reader sees exactly the closed form. */
  lemma {:induction false} VisibleIsShown(steps: seq<Step>, now: int, horizon: int)
    requires SweptBy(steps, now)
    ensures Visible(Run(steps, horizon), now) == Shown(steps, now, horizon)
  {
    var slot := Run(steps, horizon);
    if slot.Held? {
      HeldWasApplied(steps, horizon);
    }
    if o :| LatestOpen(Seen(steps), o) {
      if now <= o.time + horizon {
        RunStands(steps, o.time, now, horizon);
      }
    } else {
      NoLatestNoOpen(Seen(steps));
    }
  }

  /** A finite set of facts with an open has a latest open. */
  lemma {:induction false} NoLatestNoOpen(facts: set<Fact>)
    requires !exists o :: LatestOpen(facts, o)
    ensures forall x | x in facts :: !x.opens
    decreases facts
  {
    if x :| x in facts && x.opens {
      var rest := facts - {x};
      if o :| LatestOpen(rest, o) {
        assert LatestOpen(facts, if x.time <= o.time then o else x);
      } else {
        NoLatestNoOpen(rest);
        assert LatestOpen(facts, x);
      }
    }
  }

  // ---------------------------------------------------------------- agreement, exactly

  /** An open the slot accepted last must be closed afterwards if at all; any other must be closed. */
  predicate Kept(steps: seq<Step>, o: Fact, horizon: int) {
    var j := LastOpening(steps, o.time, horizon);
    if j >= 0 && steps[j].f.claim == o.claim then
      ClosedSince(Seen(steps), o) ==> ClosedAfter(steps, j)
    else
      ClosedSince(Seen(steps), o)
  }

  /**
   With nothing dated after `now`: the live claim is the evidence if and only if, of the
   unexpired latest opens, the one the slot accepted last has no close that arrived only
   before its acceptance, and every other one has a close.
   */
  lemma {:induction false} AgreesExactlyWhen(steps: seq<Step>, now: int, horizon: int)
    requires SweptBy(steps, now)
    requires forall x | x in Seen(steps) :: x.time <= now
    ensures Visible(Run(steps, horizon), now) == Holders(Seen(steps), now, horizon) <==>
            forall o | LatestOpen(Seen(steps), o) && now <= o.time + horizon :: Kept(steps, o, horizon)
  {
    var seen := Seen(steps);
    VisibleIsShown(steps, now, horizon);
    assert UpTo(seen, now) == seen;
    var shown, holders := Shown(steps, now, horizon), Holders(seen, now, horizon);
    forall o | LatestOpen(seen, o) && now <= o.time + horizon
      ensures Kept(steps, o, horizon) <==> (o.claim in shown <==> o.claim in holders)
    {
      KeptPointwise(steps, o, now, horizon);
    }
    forall c | c in shown ensures exists o :: LatestOpen(seen, o) && now <= o.time + horizon && o.claim == c {
      ShownWasOpened(steps, c, now, horizon);
    }
    assert forall c | c in holders :: exists o :: LatestOpen(seen, o) && now <= o.time + horizon && o.claim == c;
  }

  lemma {:induction false} ShownWasOpened(steps: seq<Step>, c: Claim, now: int, horizon: int)
    requires c in Shown(steps, now, horizon)
    ensures exists o :: LatestOpen(Seen(steps), o) && now <= o.time + horizon && o.claim == c
  {
    var o :| LatestOpen(Seen(steps), o);
    var j := LastOpening(steps, o.time, horizon);
    assert steps[j] in steps;
    assert LatestOpen(Seen(steps), steps[j].f);
  }

  lemma {:induction false} KeptPointwise(steps: seq<Step>, o: Fact, now: int, horizon: int)
    requires LatestOpen(Seen(steps), o) && now <= o.time + horizon
    requires UpTo(Seen(steps), now) == Seen(steps)
    ensures Kept(steps, o, horizon) <==>
            (o.claim in Shown(steps, now, horizon) <==> o.claim in Holders(Seen(steps), now, horizon))
  {
    var j := LastOpening(steps, o.time, horizon);
    if j >= 0 && steps[j].f.claim == o.claim && ClosedAfter(steps, j) {
      var i :| j < i < |steps| && IsCloseOf(steps[i], steps[j].f);
      assert steps[i] in steps;
      assert steps[i].f in Seen(steps);
      assert ClosedSince(Seen(steps), o);
    }
    assert o.claim in Holders(Seen(steps), now, horizon) <==> !ClosedSince(Seen(steps), o);
  }

  /** The slot still stands for c: it accepted c last at time T, and no close of it arrived after that. */
  predicate StandsFor(steps: seq<Step>, c: Claim, T: int, horizon: int) {
    var j := LastOpening(steps, T, horizon);
    j >= 0 && steps[j].f.claim == c && !ClosedAfter(steps, j)
  }

  /**
   On every log, events dated after `now` included, with o a latest open of all: the live
   claim is the evidence if and only if the latest opens up to `now` are closed by then
   exactly when the slot does not stand for them, and it stands for no other claim.
   */
  lemma {:induction false} AgreesOnEveryLogExactlyWhen(steps: seq<Step>, o: Fact, now: int, horizon: int)
    requires SweptBy(steps, now) && LatestOpen(Seen(steps), o) && now <= o.time + horizon
    ensures var past := UpTo(Seen(steps), now);
            Visible(Run(steps, horizon), now) == Holders(Seen(steps), now, horizon) <==>
            && (forall p | LatestOpen(past, p) && now <= p.time + horizon ::
                  ClosedSince(past, p) <==> !StandsFor(steps, p.claim, o.time, horizon))
            && (forall c | StandsFor(steps, c, o.time, horizon) ::
                  exists p :: LatestOpen(past, p) && now <= p.time + horizon && p.claim == c)
  {
    VisibleIsShown(steps, now, horizon);
    var past, shown, holders := UpTo(Seen(steps), now), Shown(steps, now, horizon), Holders(Seen(steps), now, horizon);
    assert forall c :: c in shown <==> StandsFor(steps, c, o.time, horizon);
    forall p | LatestOpen(past, p) && now <= p.time + horizon
      ensures p.claim in holders <==> !ClosedSince(past, p)
    {
      HeldUnlessClosed(past, p, Seen(steps), now, horizon);
    }
    assert forall c | c in holders :: exists p :: LatestOpen(past, p) && now <= p.time + horizon && p.claim == c;
  }

  lemma HeldUnlessClosed(past: set<Fact>, p: Fact, seen: set<Fact>, now: int, horizon: int)
    requires past == UpTo(seen, now) && LatestOpen(past, p) && now <= p.time + horizon
    ensures p.claim in Holders(seen, now, horizon) <==> !ClosedSince(past, p)
  {
  }

  // ---------------------------------------------------------------- agreement of the answers

  /** Every unexpired latest open is kept. */
  ghost predicate AllKept(steps: seq<Step>, now: int, horizon: int) {
    forall o | LatestOpen(Seen(steps), o) && now <= o.time + horizon :: Kept(steps, o, horizon)
  }

  /** An unexpired latest open over which slot and evidence differ. */
  predicate Misjudged(steps: seq<Step>, o: Fact, now: int, horizon: int) {
    LatestOpen(Seen(steps), o) && now <= o.time + horizon && !Kept(steps, o, horizon)
  }

  /** An unexpired latest open without a close. */
  predicate Open(steps: seq<Step>, o: Fact, now: int, horizon: int) {
    LatestOpen(Seen(steps), o) && now <= o.time + horizon && !ClosedSince(Seen(steps), o)
  }

  /**
   The tokens hide what is misjudged: no two claims are open, all misjudged ones name the
   same token, and if that is not "" there are two of them, the one shown and the one held.
   */
  ghost predicate Masked(steps: seq<Step>, now: int, horizon: int) {
    && (forall o, p | Open(steps, o, now, horizon) && Open(steps, p, now, horizon) :: o.claim == p.claim)
    && (forall o, p | Misjudged(steps, o, now, horizon) && Misjudged(steps, p, now, horizon) ::
          o.claim.token == p.claim.token)
    && (forall o | Misjudged(steps, o, now, horizon) && o.claim.token != "" ::
          exists p :: Misjudged(steps, p, now, horizon) && p.claim != o.claim)
  }

  function Difference(a: set<Claim>, b: set<Claim>): set<Claim> {
    (a - b) + (b - a)
  }

  /** The same, of the holders and the claims shown. */
  ghost predicate Hidden(holders: set<Claim>, shown: set<Claim>) {
    && (forall c, d | c in holders && d in holders :: c == d)
    && (forall c, d | c in Difference(holders, shown) && d in Difference(holders, shown) :: c.token == d.token)
    && (forall c | c in Difference(holders, shown) && c.token != "" ::
          exists d :: d in Difference(holders, shown) && d != c)
  }

  lemma VerdictsAgreeExactlyWhen(holders: set<Claim>, shown: set<Claim>)
    requires forall c, d | c in shown && d in shown :: c == d
    ensures Verdict(holders) == Verdict(shown) <==> holders == shown || Hidden(holders, shown)
  {
    if c :| c in shown {
      assert shown == {c};
    }
    if c, d :| c in holders && d in holders && c != d {
      VerdictOfMany(holders, c, d);
    } else if c :| c in holders {
      assert holders == {c};
    }
  }

  lemma {:induction false} HeldIsOpen(steps: seq<Step>, c: Claim, now: int, horizon: int)
    requires UpTo(Seen(steps), now) == Seen(steps)
    ensures c in Holders(Seen(steps), now, horizon) <==> exists o :: Open(steps, o, now, horizon) && o.claim == c
  {
    if c in Holders(Seen(steps), now, horizon) {
      var o :| LatestOpen(Seen(steps), o) && !ClosedSince(Seen(steps), o) && now <= o.time + horizon && o.claim == c;
      assert Open(steps, o, now, horizon);
    }
  }

  lemma {:induction false} DifferenceIsMisjudged(steps: seq<Step>, c: Claim, now: int, horizon: int)
    requires UpTo(Seen(steps), now) == Seen(steps)
    ensures c in Difference(Holders(Seen(steps), now, horizon), Shown(steps, now, horizon)) <==>
            exists o :: Misjudged(steps, o, now, horizon) && o.claim == c
  {
    if c in Shown(steps, now, horizon) {
      ShownWasOpened(steps, c, now, horizon);
    }
    HeldIsOpen(steps, c, now, horizon);
    forall o | LatestOpen(Seen(steps), o) && now <= o.time + horizon && o.claim == c
      ensures Misjudged(steps, o, now, horizon) <==>
              c in Difference(Holders(Seen(steps), now, horizon), Shown(steps, now, horizon))
    {
      KeptPointwise(steps, o, now, horizon);
    }
    if o :| Open(steps, o, now, horizon) && o.claim == c {
      assert LatestOpen(Seen(steps), o);
    }
  }

  lemma {:induction false} HiddenIsMasked(steps: seq<Step>, now: int, horizon: int)
    requires UpTo(Seen(steps), now) == Seen(steps)
    ensures Hidden(Holders(Seen(steps), now, horizon), Shown(steps, now, horizon)) <==> Masked(steps, now, horizon)
  {
    var holders, differ := Holders(Seen(steps), now, horizon),
                           Difference(Holders(Seen(steps), now, horizon), Shown(steps, now, horizon));
    forall c ensures c in holders <==> exists o :: Open(steps, o, now, horizon) && o.claim == c {
      HeldIsOpen(steps, c, now, horizon);
    }
    forall c ensures c in differ <==> exists o :: Misjudged(steps, o, now, horizon) && o.claim == c {
      DifferenceIsMisjudged(steps, c, now, horizon);
    }
    assert forall o | Open(steps, o, now, horizon) :: o.claim in holders;
    assert forall o | Misjudged(steps, o, now, horizon) :: o.claim in differ;
  }

  /**
   With nothing dated after `now`, ties and replays included: live and forensic answer are
   equal if and only if every unexpired latest open is kept, or what is not is masked.
   */
  lemma {:induction false} AnswersAgreeExactlyWhen(steps: seq<Step>, now: int, horizon: int)
    requires SweptBy(steps, now)
    requires forall x | x in Seen(steps) :: x.time <= now
    ensures Verdict(Holders(Seen(steps), now, horizon)) == Verdict(Visible(Run(steps, horizon), now)) <==>
            AllKept(steps, now, horizon) || Masked(steps, now, horizon)
  {
    assert UpTo(Seen(steps), now) == Seen(steps);
    AgreesExactlyWhen(steps, now, horizon);
    VisibleIsShown(steps, now, horizon);
    VerdictsAgreeExactlyWhen(Holders(Seen(steps), now, horizon), Shown(steps, now, horizon));
    HiddenIsMasked(steps, now, horizon);
  }

  /** Latest opens that name a user each name their own. */
  ghost predicate TokensTell(facts: set<Fact>) {
    && (forall o | LatestOpen(facts, o) :: o.claim.token != "")
    && (forall o, p | LatestOpen(facts, o) && LatestOpen(facts, p) && o.claim.token == p.claim.token ::
          o.claim == p.claim)
  }

  lemma NothingHidden(holders: set<Claim>, shown: set<Claim>)
    requires forall c | c in Difference(holders, shown) :: c.token != ""
    requires forall c, d | c in Difference(holders, shown) && d in Difference(holders, shown) && c.token == d.token ::
               c == d
    ensures Hidden(holders, shown) ==> holders == shown
  {
    if Difference(holders, shown) == {} {
      assert forall c :: c in holders <==> c in shown;
    } else {
      var c :| c in Difference(holders, shown);
    }
  }

  /** Then nothing is masked: with nothing dated after `now`, the answers agree if and only if all is kept. */
  lemma {:induction false} TellingTokensMaskNothing(steps: seq<Step>, now: int, horizon: int)
    requires SweptBy(steps, now) && TokensTell(Seen(steps))
    requires forall x | x in Seen(steps) :: x.time <= now
    ensures Masked(steps, now, horizon) ==> AllKept(steps, now, horizon)
  {
    assert UpTo(Seen(steps), now) == Seen(steps);
    var holders, shown := Holders(Seen(steps), now, horizon), Shown(steps, now, horizon);
    forall c | c in Difference(holders, shown) ensures exists o :: LatestOpen(Seen(steps), o) && o.claim == c {
      DifferenceIsMisjudged(steps, c, now, horizon);
    }
    NothingHidden(holders, shown);
    HiddenIsMasked(steps, now, horizon);
    AgreesExactlyWhen(steps, now, horizon);
    VisibleIsShown(steps, now, horizon);
  }

  // ---------------------------------------------------------------- when the latest open is unique

  ghost predicate SoleLatest(facts: set<Fact>, o: Fact) {
    LatestOpen(facts, o) && forall x | LatestOpen(facts, x) :: x == o
  }

  /** Step k is where o arrives for the first time. */
  ghost predicate FirstArrival(steps: seq<Step>, k: nat, o: Fact) {
    k < |steps| && steps[k] == Apply(o) && forall i | 0 <= i < k :: steps[i] != Apply(o)
  }

  ghost predicate CloseArrives(steps: seq<Step>, k: nat, o: Fact) {
    exists i | k < i < |steps| :: IsCloseOf(steps[i], o)
  }

  /** The only opens of time T are replays of o. */
  ghost predicate OnlyOpen(steps: seq<Step>, o: Fact) {
    o.opens && forall x | x in Seen(steps) && x.opens :: x == o || x.time < o.time
  }

  lemma {:induction false} OnlyOpenInit(steps: seq<Step>, o: Fact)
    requires steps != [] && OnlyOpen(steps, o)
    ensures var n := |steps| - 1;
            && OnlyOpen(steps[..n], o) && NoOpenAfter(steps[..n], o.time)
            && (steps[n].Apply? && steps[n].f.opens ==> steps[n].f == o || steps[n].f.time < o.time)
  {
    var n := |steps| - 1;
    assert steps == steps[..n] + [steps[n]];
    SeenSnoc(steps[..n], steps[n]);
    assert steps[n] in steps;
  }

  /** Before its first arrival nothing of its time was opened. */
  lemma {:induction false} NoneBeforeArrival(steps: seq<Step>, o: Fact, horizon: int)
    requires OnlyOpen(steps, o) && forall i | 0 <= i < |steps| :: steps[i] != Apply(o)
    ensures LastOpening(steps, o.time, horizon) == -1
  {
    if steps != [] {
      OnlyOpenInit(steps, o);
      NoneBeforeArrival(steps[..|steps| - 1], o, horizon);
    }
  }

  /** Refused on arrival, refused for as long as it could be seen. */
  lemma {:induction false} OnceRefused(steps: seq<Step>, k: nat, o: Fact, now: int, horizon: int)
    requires FirstArrival(steps, k, o) && OnlyOpen(steps, o)
    requires SweptBy(steps, now) && now <= o.time + horizon
    requires Refuses(Run(steps[..k], horizon), o)
    ensures LastOpening(steps, o.time, horizon) == -1 && Refuses(Run(steps, horizon), o)
  {
    var n := |steps| - 1;
    OnlyOpenInit(steps, o);
    assert steps == steps[..n] + [steps[n]] && steps[n] in steps;
    RunSnoc(steps[..n], steps[n], horizon);
    if k == n {
      NoneBeforeArrival(steps[..n], o, horizon);
    } else {
      assert steps[..n][..k] == steps[..k];
      OnceRefused(steps[..n], k, o, now, horizon);
      HeldWasApplied(steps[..n], horizon);
    }
  }

  /** Accepted on arrival, it is shown until a close of its entity arrives, and never after that. */
  lemma {:induction false} OnceAccepted(steps: seq<Step>, k: nat, o: Fact, now: int, horizon: int)
    requires FirstArrival(steps, k, o) && OnlyOpen(steps, o)
    requires SweptBy(steps, now) && now <= o.time + horizon
    requires !Refuses(Run(steps[..k], horizon), o)
    ensures var j := LastOpening(steps, o.time, horizon);
            j >= k && steps[j] == Apply(o) && (ClosedAfter(steps, j) <==> CloseArrives(steps, k, o))
  {
    var n := |steps| - 1;
    var init, last := steps[..n], steps[n];
    OnlyOpenInit(steps, o);
    assert steps == init + [last] && last in steps;
    if k < n {
      assert init[..k] == steps[..k];
      OnceAccepted(init, k, o, now, horizon);
      RunStands(init, o.time, now, horizon);
      var j := LastOpening(init, o.time, horizon);
      ClosedAfterSnoc(init, last, j);
      assert CloseArrives(steps, k, o) <==> CloseArrives(init, k, o) || IsCloseOf(last, o) by {
        if i :| k < i < |init| && IsCloseOf(init[i], o) {
          assert IsCloseOf(steps[i], o);
        }
      }
    }
  }

  /**
   With nothing dated after `now` and one unexpired latest open o, live and evidence
   agree if and only if o was refused on arrival and is closed, or was accepted and
   no close of it arrived only before it.
   */
  lemma {:induction false} SoleOpenAgreesExactlyWhen(steps: seq<Step>, k: nat, o: Fact, now: int, horizon: int)
    requires SweptBy(steps, now)
    requires forall x | x in Seen(steps) :: x.time <= now
    requires SoleLatest(Seen(steps), o) && now <= o.time + horizon
    requires FirstArrival(steps, k, o)
    ensures Visible(Run(steps, horizon), now) == Holders(Seen(steps), now, horizon) <==>
            if Refuses(Run(steps[..k], horizon), o)
            then ClosedSince(Seen(steps), o)
            else ClosedSince(Seen(steps), o) ==> CloseArrives(steps, k, o)
  {
    AgreesExactlyWhen(steps, now, horizon);
    assert OnlyOpen(steps, o) by {
      forall x | x in Seen(steps) && x.opens && x.time == o.time ensures x == o {
        assert LatestOpen(Seen(steps), x);
      }
    }
    if Refuses(Run(steps[..k], horizon), o) {
      OnceRefused(steps, k, o, now, horizon);
    } else {
      OnceAccepted(steps, k, o, now, horizon);
    }
  }

  // ---------------------------------------------------------------- where the two folds part

  /**
   Four inputs on which the live slot differs from the evidence: a same-second tie (a
   closed entity replayed behind another's open), a close that arrives before its open,
   an open that arrives behind another entity's newer tombstone, and an open dated after
   the instant asked about.
   */
  lemma {:induction false} LiveAndEvidenceCanDiffer(a: Claim, b: Claim, T: int, horizon: int)
    requires a.entity != b.entity && horizon >= 4
    ensures var tie := Arrivals([Fact(T, true, a), Fact(T, false, a), Fact(T, true, b), Fact(T, true, a)]);
            Visible(Run(tie, horizon), T) == {a} && Holders(Seen(tie), T, horizon) == {b}
    ensures var early := Arrivals([Fact(T, false, a), Fact(T - 1, true, a)]);
            Visible(Run(early, horizon), T) == {a} && Holders(Seen(early), T, horizon) == {}
    ensures var late := Arrivals([Fact(T - 4, true, a), Fact(T, false, a), Fact(T - 2, true, b)]);
            Visible(Run(late, horizon), T) == {} && Holders(Seen(late), T, horizon) == {b}
    ensures var future := Arrivals([Fact(T + 1, true, a)]);
            Visible(Run(future, horizon), T) == {a} && Holders(Seen(future), T, horizon) == {}
  {
    TieResurrects(a, b, T, horizon);
    CloseBeforeOpen(a, T, horizon);
    LateOpenIsRefused(a, b, T, horizon);
    FutureOpenIsShown(a, T, horizon);
  }

  /** Facts arriving one after the other, without sweeps. */
  function Arrivals(facts: seq<Fact>): (steps: seq<Step>)
    ensures |steps| == |facts| && forall i | 0 <= i < |facts| :: steps[i] == Apply(facts[i])
  {
    seq(|facts|, i requires 0 <= i < |facts| => Apply(facts[i]))
  }

  lemma {:induction false} ArrivalsSnoc(facts: seq<Fact>, f: Fact, horizon: int)
    ensures Run(Arrivals(facts + [f]), horizon) == Fold(Run(Arrivals(facts), horizon), f, horizon)
    ensures Seen(Arrivals(facts + [f])) == Seen(Arrivals(facts)) + {f}
  {
    assert Arrivals(facts + [f]) == Arrivals(facts) + [Apply(f)];
    RunSnoc(Arrivals(facts), Apply(f), horizon);
    SeenSnoc(Arrivals(facts), Apply(f));
  }

  lemma {:induction false} TwoArrivals(f: Fact, g: Fact, horizon: int)
    ensures Seen(Arrivals([f])) == {f} && Run(Arrivals([f]), horizon) == Fold(Vacant, f, horizon)
    ensures Seen(Arrivals([f, g])) == {f, g}
    ensures Run(Arrivals([f, g]), horizon) == Fold(Fold(Vacant, f, horizon), g, horizon)
  {
    ArrivalsSnoc([], f, horizon);
    ArrivalsSnoc([f], g, horizon);
    assert [] + [f] == [f] && [f] + [g] == [f, g];
    assert Arrivals([]) == [];
  }

  lemma {:induction false} ThreeArrivals(f: Fact, g: Fact, h: Fact, horizon: int)
    ensures Seen(Arrivals([f, g, h])) == {f, g, h}
    ensures Run(Arrivals([f, g, h]), horizon) == Fold(Fold(Fold(Vacant, f, horizon), g, horizon), h, horizon)
  {
    TwoArrivals(f, g, horizon);
    ArrivalsSnoc([f, g], h, horizon);
    assert [f, g] + [h] == [f, g, h];
  }

  lemma {:induction false} TieResurrects(a: Claim, b: Claim, T: int, horizon: nat)
    requires a.entity != b.entity
    ensures var tie := Arrivals([Fact(T, true, a), Fact(T, false, a), Fact(T, true, b), Fact(T, true, a)]);
            Visible(Run(tie, horizon), T) == {a} && Holders(Seen(tie), T, horizon) == {b}
  {
    var oa, ca, ob := Fact(T, true, a), Fact(T, false, a), Fact(T, true, b);
    ThreeArrivals(oa, ca, ob, horizon);
    ArrivalsSnoc([oa, ca, ob], oa, horizon);
    assert [oa, ca, ob] + [oa] == [oa, ca, ob, oa];
    var past := {oa, ca, ob, oa};
    assert UpTo(past, T) == past;
    assert LatestOpen(past, ob) && !ClosedSince(past, ob) && ClosedSince(past, oa);
  }

  lemma {:induction false} CloseBeforeOpen(a: Claim, T: int, horizon: nat)
    requires horizon >= 1
    ensures var early := Arrivals([Fact(T, false, a), Fact(T - 1, true, a)]);
            Visible(Run(early, horizon), T) == {a} && Holders(Seen(early), T, horizon) == {}
  {
    var c, o := Fact(T, false, a), Fact(T - 1, true, a);
    TwoArrivals(c, o, horizon);
    assert UpTo({c, o}, T) == {c, o} && ClosedSince({c, o}, o);
  }

  lemma {:induction false} LateOpenIsRefused(a: Claim, b: Claim, T: int, horizon: nat)
    requires a.entity != b.entity && horizon >= 4
    ensures var late := Arrivals([Fact(T - 4, true, a), Fact(T, false, a), Fact(T - 2, true, b)]);
            Visible(Run(late, horizon), T) == {} && Holders(Seen(late), T, horizon) == {b}
  {
    var oa, ca, ob := Fact(T - 4, true, a), Fact(T, false, a), Fact(T - 2, true, b);
    ThreeArrivals(oa, ca, ob, horizon);
    var past := {oa, ca, ob};
    assert UpTo(past, T) == past;
    assert LatestOpen(past, ob) && !ClosedSince(past, ob);
  }

  lemma {:induction false} FutureOpenIsShown(a: Claim, T: int, horizon: nat)
    ensures var future := Arrivals([Fact(T + 1, true, a)]);
            Visible(Run(future, horizon), T) == {a} && Holders(Seen(future), T, horizon) == {}
  {
    var o := Fact(T + 1, true, a);
    TwoArrivals(o, o, horizon);
    assert UpTo({o}, T) == {};
  }
}
