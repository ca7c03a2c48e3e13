/**
 `Lookup` against the forensic answers, exactly: the slot conditions of `LiveExact`
 composed over the device hop and the user hop of the identity store.
 */
module LookupExact {
  import opened Evidence
  import opened IdentityJoin
  import opened IdentityStore
  import opened LiveExact
  import opened LiveSlot

  /** Both answers of Lookup are the forensic ones, and neither of those is ambiguous. */
  ghost predicate LookupAgrees(actions: seq<Action>, h: Horizons, ip: string, now: int) {
    var leases, sessions := LeaseLog(actions), SessionLog(actions);
    var (mac, user) := Resolve(History(actions, h), ip, now);
    && DeviceAt(leases, ip, now, h.maxLease) == Answer(mac, false)
    && UserBehind(leases, sessions, ip, now, h.maxLease, h.maxSession) == Answer(user, false)
  }

  /** What one hop shows, and what the evidence behind it says. */
  ghost predicate HopAgrees(actions: seq<Action>, h: Horizons, hop: Hop, key: string, now: int) {
    Verdict(Holders(FactsFor(actions, hop, key), now, h.Of(hop))) ==
    Verdict(Visible(SlotAt(History(actions, h).Table(hop), key), now))
  }

  /** On a hop whose events are recorded by `now`: all kept, or what is not is masked by its tokens. */
  lemma {:induction false} HopAgreesExactlyWhen(actions: seq<Action>, h: Horizons, hop: Hop, key: string, now: int)
    requires SweptUpTo(actions, now) && RecordedAt(actions, hop, key, now)
    ensures var steps := StepsFor(actions, hop, key);
            HopAgrees(actions, h, hop, key, now) <==> AllKept(steps, now, h.Of(hop)) || Masked(steps, now, h.Of(hop))
    ensures TokensTell(FactsFor(actions, hop, key)) ==>
              (HopAgrees(actions, h, hop, key, now) <==> AllKept(StepsFor(actions, hop, key), now, h.Of(hop)))
  {
    HistoryIsRun(actions, h, hop, key);
    SeenIsLog(actions, hop, key);
    SweepsOfSlot(actions, hop, key, now);
    AnswersAgreeExactlyWhen(StepsFor(actions, hop, key), now, h.Of(hop));
    if TokensTell(FactsFor(actions, hop, key)) {
      TellingTokensMaskNothing(StepsFor(actions, hop, key), now, h.Of(hop));
    }
  }

  /** Leases always tell: a device is its own claim. */
  lemma DevicesTell(actions: seq<Action>, ip: string)
    ensures TokensTell(FactsFor(actions, DeviceHop, ip))
  {
  }

  lemma {:induction false} LookupAgreesHopByHop(actions: seq<Action>, h: Horizons, ip: string, now: int)
    ensures var mac := Resolve(History(actions, h), ip, now).0;
            LookupAgrees(actions, h, ip, now) <==>
            HopAgrees(actions, h, DeviceHop, ip, now) && (mac != "" ==> HopAgrees(actions, h, UserHop, mac, now))
  {
    var v := History(actions, h);
    if Visible(SlotAt(v.ips, ip), now) != {} {
      VisibleDeviceIsNamed(actions, h, ip);
    }
  }

  /**
   On every log in which the events about the address, and about the device it names, are
   recorded by `now`, in any arrival order, with ties, replays and sweeps: Lookup gives
   the forensic answers if and only if every unexpired latest lease of the address is
   kept, and so is every unexpired latest session of the device, or the user tokens mask
   those that are not.
   */
  lemma {:induction false} LookupAgreesExactlyWhen(actions: seq<Action>, h: Horizons, ip: string, now: int)
    requires SweptUpTo(actions, now) && RecordedAt(actions, DeviceHop, ip, now)
    requires var mac := Resolve(History(actions, h), ip, now).0; mac != "" ==> RecordedAt(actions, UserHop, mac, now)
    ensures var mac := Resolve(History(actions, h), ip, now).0;
            LookupAgrees(actions, h, ip, now) <==>
            && AllKept(StepsFor(actions, DeviceHop, ip), now, h.maxLease)
            && (mac != "" ==> AllKept(StepsFor(actions, UserHop, mac), now, h.maxSession) ||
                              Masked(StepsFor(actions, UserHop, mac), now, h.maxSession))
  {
    var mac := Resolve(History(actions, h), ip, now).0;
    LookupAgreesHopByHop(actions, h, ip, now);
    DevicesTell(actions, ip);
    HopAgreesExactlyWhen(actions, h, DeviceHop, ip, now);
    if mac != "" {
      HopAgreesExactlyWhen(actions, h, UserHop, mac, now);
    }
  }

  // ---------------------------------------------------------------- without ties between opens

  /** No two opens share the latest open time. */
  ghost predicate NoTie(facts: set<Fact>) {
    forall o, p | LatestOpen(facts, o) && LatestOpen(facts, p) :: o == p
  }

  /** The latest open, if unexpired, was refused on arrival and is closed, or no close of it came only before it. */
  ghost predicate Undisturbed(steps: seq<Step>, now: int, horizon: int) {
    forall o, k: nat | LatestOpen(Seen(steps), o) && now <= o.time + horizon && FirstArrival(steps, k, o) ::
      if Refuses(Run(steps[..k], horizon), o)
      then ClosedSince(Seen(steps), o)
      else ClosedSince(Seen(steps), o) ==> CloseArrives(steps, k, o)
  }

  /** The latest session names no user. */
  ghost predicate Nameless(steps: seq<Step>) {
    forall o | LatestOpen(Seen(steps), o) :: o.claim.token == ""
  }

  /** Without ties a slot shows the holders exactly when its latest open was undisturbed. */
  lemma {:induction false} SlotAgreesExactlyWhen(steps: seq<Step>, now: int, horizon: int)
    requires SweptBy(steps, now) && NoTie(Seen(steps))
    requires forall x | x in Seen(steps) :: x.time <= now
    ensures Visible(Run(steps, horizon), now) == Holders(Seen(steps), now, horizon) <==>
            Undisturbed(steps, now, horizon)
  {
    AgreesExactlyWhen(steps, now, horizon);
    if o :| LatestOpen(Seen(steps), o) && now <= o.time + horizon {
      var k := ArrivalOf(steps, o);
      SoleOpenAgreesExactlyWhen(steps, k, o, now, horizon);
      assert forall k': nat | FirstArrival(steps, k', o) :: k' == k;
      assert forall p | LatestOpen(Seen(steps), p) :: p == o;
    }
  }

  lemma {:induction false} ArrivalOf(steps: seq<Step>, o: Fact) returns (k: nat)
    requires o in Seen(steps)
    ensures FirstArrival(steps, k, o)
  {
    k := 0;
    while steps[k] != Apply(o)
      invariant k < |steps|
      invariant forall i | 0 <= i < k :: steps[i] != Apply(o)
      decreases |steps| - k
    {
      var i :| 0 <= i < |steps| && steps[i] == Apply(o);
      k := k + 1;
    }
  }

  /**
   Where neither the address nor the device it names has tied latest opens: Lookup gives
   the forensic answers if and only if the latest lease of the address was undisturbed
   and so was the latest session of the device, unless that session names no user.
   */
  lemma {:induction false} LookupAgreesWithoutTies(actions: seq<Action>, h: Horizons, ip: string, now: int)
    requires SweptUpTo(actions, now)
    requires RecordedAt(actions, DeviceHop, ip, now) && NoTie(FactsFor(actions, DeviceHop, ip))
    requires var mac := Resolve(History(actions, h), ip, now).0;
             mac != "" ==> RecordedAt(actions, UserHop, mac, now) && NoTie(FactsFor(actions, UserHop, mac))
    ensures var mac := Resolve(History(actions, h), ip, now).0;
            LookupAgrees(actions, h, ip, now) <==>
            && Undisturbed(StepsFor(actions, DeviceHop, ip), now, h.maxLease)
            && (mac != "" ==> Undisturbed(StepsFor(actions, UserHop, mac), now, h.maxSession) ||
                              Nameless(StepsFor(actions, UserHop, mac)))
  {
    var mac := Resolve(History(actions, h), ip, now).0;
    LookupAgreesHopByHop(actions, h, ip, now);
    HopWithoutTies(actions, h, DeviceHop, ip, now);
    if mac != "" {
      HopWithoutTies(actions, h, UserHop, mac, now);
    }
    SeenIsLog(actions, DeviceHop, ip);
    var leases := StepsFor(actions, DeviceHop, ip);
    assert Nameless(leases) ==> Undisturbed(leases, now, h.maxLease);
  }

  lemma {:induction false} HopWithoutTies(actions: seq<Action>, h: Horizons, hop: Hop, key: string, now: int)
    requires SweptUpTo(actions, now) && RecordedAt(actions, hop, key, now) && NoTie(FactsFor(actions, hop, key))
    ensures var steps := StepsFor(actions, hop, key);
            HopAgrees(actions, h, hop, key, now) <==> Undisturbed(steps, now, h.Of(hop)) || Nameless(steps)
  {
    var steps, horizon := StepsFor(actions, hop, key), h.Of(hop);
    HistoryIsRun(actions, h, hop, key);
    SeenIsLog(actions, hop, key);
    SweepsOfSlot(actions, hop, key, now);
    SlotAgreesExactlyWhen(steps, now, horizon);
    VisibleIsShown(steps, now, horizon);
    var visible, holders := Visible(Run(steps, horizon), now), Holders(Seen(steps), now, horizon);
    forall c | c in visible ensures exists o :: LatestOpen(Seen(steps), o) && o.claim == c {
      ShownWasOpened(steps, c, now, horizon);
    }
    assert UpTo(Seen(steps), now) == Seen(steps);
    assert forall c | c in holders :: exists o :: LatestOpen(Seen(steps), o) && o.claim == c;
    LoneVerdicts(Seen(steps), visible, holders);
  }

  /** Two sets of claims of a sole latest open have one verdict if and only if they are equal or it has no token. */
  lemma {:induction false} LoneVerdicts(facts: set<Fact>, a: set<Claim>, b: set<Claim>)
    requires NoTie(facts)
    requires forall c | c in a :: exists o :: LatestOpen(facts, o) && o.claim == c
    requires forall c | c in b :: exists o :: LatestOpen(facts, o) && o.claim == c
    ensures Verdict(a) == Verdict(b) <==> a == b || forall o | LatestOpen(facts, o) :: o.claim.token == ""
  {
    if o :| LatestOpen(facts, o) {
      assert forall p | LatestOpen(facts, p) :: p == o;
      assert a == {} || a == {o.claim};
      assert b == {} || b == {o.claim};
    } else {
      assert a == {} && b == {};
    }
  }
}
