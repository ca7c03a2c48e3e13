/**
 The identity answers in the fields of the log events: who holds an address or a
 device, read off the logs without facts, claims, folds or bindings.
 */
module EventAnswers {
  import opened Evidence
  import opened IdentityJoin
  import opened IdentityStore
  import opened LiveSlot
  import opened WhoJoin

  // ---------------------------------------------------------------- devices

  predicate Assigns(d: DhcpEvent, ip: string) {
    d.ip == ip && d.mac != "" && (d.eventId == 10 || d.eventId == 11)
  }

  /** e assigned the address last, no longer than the horizon ago, and its device has not released it since. */
  predicate HoldsAddress(events: seq<DhcpEvent>, e: DhcpEvent, ip: string, t: int, maxLease: int) {
    && e in events && Assigns(e, ip) && e.time <= t <= e.time + maxLease
    && (forall d | d in events && Assigns(d, ip) && d.time <= t :: d.time <= e.time)
    && (forall d | d in events && d.ip == ip && d.eventId == 12 && d.mac == e.mac && d.time <= t :: d.time < e.time)
  }

  lemma {:induction false} HolderIsEvidence(events: seq<DhcpEvent>, ip: string, t: int, maxLease: int, c: Claim)
    ensures c in Holders(LeaseFacts(events, ip), t, maxLease) <==>
            exists e :: HoldsAddress(events, e, ip, t, maxLease) && c == Claim(e.mac, e.mac)
  {
    var past := UpTo(LeaseFacts(events, ip), t);
    forall d | d in events && IsLease(d) && d.ip == ip && d.time <= t ensures LeaseFact(d) in past {
    }
    if c in Holders(LeaseFacts(events, ip), t, maxLease) {
      var o :| o in past && LatestOpen(past, o) && !ClosedSince(past, o) && t <= o.time + maxLease && o.claim == c;
      var e :| e in events && IsLease(e) && e.ip == ip && LeaseFact(e) == o;
      assert HoldsAddress(events, e, ip, t, maxLease);
    }
    if e :| HoldsAddress(events, e, ip, t, maxLease) && c == Claim(e.mac, e.mac) {
      assert LatestOpen(past, LeaseFact(e)) && !ClosedSince(past, LeaseFact(e));
    }
  }

  /**
   The device behind an address, for every log: none if no assignment holds it, the
   device if all that hold it name the same, ambiguous if two name different ones.
   */
  lemma {:induction false} DeviceExactly(events: seq<DhcpEvent>, ip: string, t: int, maxLease: int)
    ensures (forall e :: !HoldsAddress(events, e, ip, t, maxLease)) ==>
              DeviceAt(events, ip, t, maxLease) == Answer("", false)
    ensures forall e | HoldsAddress(events, e, ip, t, maxLease) ::
              (forall d | HoldsAddress(events, d, ip, t, maxLease) :: d.mac == e.mac) ==>
                DeviceAt(events, ip, t, maxLease) == Answer(e.mac, false)
    ensures forall d, e | HoldsAddress(events, d, ip, t, maxLease) && HoldsAddress(events, e, ip, t, maxLease) ::
              d.mac != e.mac ==> DeviceAt(events, ip, t, maxLease) == Answer("", true)
  {
    var holders := Holders(LeaseFacts(events, ip), t, maxLease);
    forall c
      ensures c in holders <==> exists e :: HoldsAddress(events, e, ip, t, maxLease) && c == Claim(e.mac, e.mac)
    {
      HolderIsEvidence(events, ip, t, maxLease, c);
    }
    forall e | HoldsAddress(events, e, ip, t, maxLease) ensures Claim(e.mac, e.mac) in holders {
      assert exists d :: HoldsAddress(events, d, ip, t, maxLease) && Claim(e.mac, e.mac) == Claim(d.mac, d.mac);
    }
    forall e | HoldsAddress(events, e, ip, t, maxLease)
      ensures (forall d | HoldsAddress(events, d, ip, t, maxLease) :: d.mac == e.mac) ==>
                holders == {Claim(e.mac, e.mac)}
    {
    }
    forall d, e | HoldsAddress(events, d, ip, t, maxLease) && HoldsAddress(events, e, ip, t, maxLease) && d.mac != e.mac
      ensures Verdict(holders) == Answer("", true)
    {
      VerdictOfMany(holders, Claim(d.mac, d.mac), Claim(e.mac, e.mac));
    }
  }

  // ---------------------------------------------------------------- users

  predicate Opens(r: RadiusEvent, mac: string) {
    r.mac == mac && r.mac != "" && (r.status == "Start" || r.status == "Interim-Update")
  }

  /** e opened a session of the device last, no longer than the horizon ago, and that session has not stopped since. */
  predicate HoldsDevice(events: seq<RadiusEvent>, e: RadiusEvent, mac: string, t: int, maxSession: int) {
    && e in events && Opens(e, mac) && e.time <= t <= e.time + maxSession
    && (forall r | r in events && Opens(r, mac) && r.time <= t :: r.time <= e.time)
    && (forall r | r in events && r.mac == mac && r.status == "Stop" && r.session == e.session && r.time <= t ::
          r.time < e.time)
  }

  lemma {:induction false} LatestSessionHolds(events: seq<RadiusEvent>, e: RadiusEvent, mac: string, t: int,
                                              maxSession: int)
    requires e in events && IsSession(e) && e.mac == mac && t <= e.time + maxSession
    requires var past := UpTo(SessionFacts(events, mac), t);
             LatestOpen(past, SessionFact(e)) && !ClosedSince(past, SessionFact(e))
    ensures HoldsDevice(events, e, mac, t, maxSession)
  {
    forall r | r in events && IsSession(r) && r.mac == mac && r.time <= t
      ensures SessionFact(r) in UpTo(SessionFacts(events, mac), t)
    {
    }
  }

  lemma {:induction false} HolderIsLatest(events: seq<RadiusEvent>, e: RadiusEvent, mac: string, t: int,
                                          maxSession: int)
    requires HoldsDevice(events, e, mac, t, maxSession)
    ensures Claim(e.session, e.user) in Holders(SessionFacts(events, mac), t, maxSession)
  {
    var past := UpTo(SessionFacts(events, mac), t);
    assert LatestOpen(past, SessionFact(e)) && !ClosedSince(past, SessionFact(e));
  }

  lemma {:induction false} SessionIsEvidence(events: seq<RadiusEvent>, mac: string, t: int, maxSession: int, c: Claim)
    ensures c in Holders(SessionFacts(events, mac), t, maxSession) <==>
            exists e :: HoldsDevice(events, e, mac, t, maxSession) && c == Claim(e.session, e.user)
  {
    var past := UpTo(SessionFacts(events, mac), t);
    if c in Holders(SessionFacts(events, mac), t, maxSession) {
      var o :| o in past && LatestOpen(past, o) && !ClosedSince(past, o) && t <= o.time + maxSession && o.claim == c;
      var e :| e in events && IsSession(e) && e.mac == mac && SessionFact(e) == o;
      LatestSessionHolds(events, e, mac, t, maxSession);
    }
    if e :| HoldsDevice(events, e, mac, t, maxSession) && c == Claim(e.session, e.user) {
      HolderIsLatest(events, e, mac, t, maxSession);
    }
  }

  predicate SameSession(r: RadiusEvent, s: RadiusEvent) {
    r.session == s.session && r.user == s.user
  }

  /**
   The user of a device, for every log: none if no session holds it, the user if all that
   hold it are one session of one user, ambiguous if two differ in session or user.
   */
  lemma {:induction false} UserExactly(events: seq<RadiusEvent>, mac: string, t: int, maxSession: int)
    ensures (forall e :: !HoldsDevice(events, e, mac, t, maxSession)) ==>
              UserAt(events, mac, t, maxSession) == Answer("", false)
    ensures forall e | HoldsDevice(events, e, mac, t, maxSession) ::
              (forall r | HoldsDevice(events, r, mac, t, maxSession) :: SameSession(r, e)) ==>
                UserAt(events, mac, t, maxSession) == Answer(e.user, false)
    ensures forall r, e | HoldsDevice(events, r, mac, t, maxSession) && HoldsDevice(events, e, mac, t, maxSession) ::
              !SameSession(r, e) ==> UserAt(events, mac, t, maxSession) == Answer("", true)
  {
    var holders := Holders(SessionFacts(events, mac), t, maxSession);
    forall c
      ensures c in holders <==>
              exists e :: HoldsDevice(events, e, mac, t, maxSession) && c == Claim(e.session, e.user)
    {
      SessionIsEvidence(events, mac, t, maxSession, c);
    }
    forall e | HoldsDevice(events, e, mac, t, maxSession) ensures Claim(e.session, e.user) in holders {
      assert exists r ::
          HoldsDevice(events, r, mac, t, maxSession) && Claim(e.session, e.user) == Claim(r.session, r.user);
    }
    forall e | HoldsDevice(events, e, mac, t, maxSession)
      ensures (forall r | HoldsDevice(events, r, mac, t, maxSession) :: SameSession(r, e)) ==>
                holders == {Claim(e.session, e.user)}
    {
    }
    forall r, e | HoldsDevice(events, r, mac, t, maxSession) && HoldsDevice(events, e, mac, t, maxSession)
                  && !SameSession(r, e)
      ensures Verdict(holders) == Answer("", true)
    {
      VerdictOfMany(holders, Claim(r.session, r.user), Claim(e.session, e.user));
    }
  }

  // ---------------------------------------------------------------- the joins

  /**
   A row of the who mode, for every log: asked as of the candidate's last sight, one device
   and one session give that device and that user; an ambiguous device gets no user.
   */
  lemma {:induction false} WhoRowNames(leases: seq<DhcpEvent>, sessions: seq<RadiusEvent>, c: Candidate,
                                       maxLease: int, maxSession: int, d: DhcpEvent)
    requires HoldsAddress(leases, d, c.clientIp, c.lastSeen, maxLease)
    ensures var row := Attribution(leases, sessions, c, maxLease, maxSession);
            && row.candidate == c
            && ((exists e :: HoldsAddress(leases, e, c.clientIp, c.lastSeen, maxLease) && e.mac != d.mac) ==>
                  row.device == Answer("", true) && row.user == Answer("", false))
            && ((forall e | HoldsAddress(leases, e, c.clientIp, c.lastSeen, maxLease) :: e.mac == d.mac) ==>
                  row.device == Answer(d.mac, false) && row.user == UserAt(sessions, d.mac, c.lastSeen, maxSession))
  {
    DeviceExactly(leases, c.clientIp, c.lastSeen, maxLease);
  }

  /** If no assignment holds the address, the row names neither device nor user. */
  lemma {:induction false} WhoRowUnknown(leases: seq<DhcpEvent>, sessions: seq<RadiusEvent>, c: Candidate,
                                         maxLease: int, maxSession: int)
    requires forall d :: !HoldsAddress(leases, d, c.clientIp, c.lastSeen, maxLease)
    ensures var row := Attribution(leases, sessions, c, maxLease, maxSession);
            row.candidate == c && row.device == Answer("", false) && row.user == Answer("", false)
  {
    DeviceExactly(leases, c.clientIp, c.lastSeen, maxLease);
  }

  /** The logs of the live store are the events it was given. */
  lemma {:induction false} LogsAreActions(actions: seq<Action>)
    ensures forall d :: d in LeaseLog(actions) <==> Leased(d) in actions
    ensures forall r :: r in SessionLog(actions) <==> Accounted(r) in actions
  {
    if actions != [] {
      LogsAreActions(actions[..|actions| - 1]);
    }
  }

  /**
   Live: where the events about the address and its device are orderly and recorded, and
   d holds the address and s the device among the events applied, Lookup names them.
   */
  lemma {:induction false} LookupNames(actions: seq<Action>, h: Horizons, ip: string, now: int,
                                       d: DhcpEvent, s: RadiusEvent)
    requires SweptUpTo(actions, now)
    requires Orderly(StepsFor(actions, DeviceHop, ip)) && RecordedAt(actions, DeviceHop, ip, now)
    requires Orderly(StepsFor(actions, UserHop, d.mac)) && RecordedAt(actions, UserHop, d.mac, now)
    requires HoldsAddress(LeaseLog(actions), d, ip, now, h.maxLease)
    requires HoldsDevice(SessionLog(actions), s, d.mac, now, h.maxSession)
    ensures Leased(d) in actions && Accounted(s) in actions
    ensures Resolve(History(actions, h), ip, now) == (d.mac, s.user)
  {
    LogsAreActions(actions);
    SlotAgrees(actions, h, DeviceHop, ip, now);
    SlotAgrees(actions, h, UserHop, d.mac, now);
    HolderIsEvidence(LeaseLog(actions), ip, now, h.maxLease, Claim(d.mac, d.mac));
    SessionIsEvidence(SessionLog(actions), d.mac, now, h.maxSession, Claim(s.session, s.user));
  }

  /** After a sweep no binding past its deadline is left, and no other binding is touched. */
  lemma SweepRemovesExactly(v: View, now: int, h: Horizons, hop: Hop, key: string)
    ensures var before, after := v.Table(hop), Perform(v, Swept(now), h).Table(hop);
            && (key in after <==> key in before && before[key].deadline >= now)
            && (key in after ==> after[key] == before[key])
  {
  }
}
