/**
 The forensic joins: which device held an address, and which user held a device,
 at an instant.  The loops filter, sort and fold batches of equal timestamp; the
 contracts state the verdict of the closed form in `Evidence`.
 */
module IdentityJoin {
  import opened Evidence

  /** An event id is 10 (assign), 11 (renew) or 12 (release); others carry no evidence. */
  datatype DhcpEvent = DhcpEvent(time: int, eventId: nat, ip: string, mac: string)

  /** A status is Start, Interim-Update or Stop; others carry no evidence. */
  datatype RadiusEvent = RadiusEvent(time: int, status: string, session: string, user: string, mac: string)

  predicate IsLease(e: DhcpEvent) {
    e.mac != "" && e.eventId in {10, 11, 12}
  }

  function LeaseFact(e: DhcpEvent): Fact {
    Fact(e.time, e.eventId != 12, Claim(e.mac, e.mac))
  }

  /** The evidence the lease log holds about one address. */
  function LeaseFacts(events: seq<DhcpEvent>, ip: string): set<Fact> {
    set e | e in events && IsLease(e) && e.ip == ip :: LeaseFact(e)
  }

  lemma LeaseFactsSnoc(events: seq<DhcpEvent>, e: DhcpEvent, ip: string)
    ensures LeaseFacts(events + [e], ip) ==
            LeaseFacts(events, ip) + if IsLease(e) && e.ip == ip then {LeaseFact(e)} else {}
  {
  }

  predicate IsSession(e: RadiusEvent) {
    e.mac != "" && e.status in {"Start", "Interim-Update", "Stop"}
  }

  function SessionFact(e: RadiusEvent): Fact {
    Fact(e.time, e.status != "Stop", Claim(e.session, e.user))
  }

  /** The evidence the accounting log holds about one device. */
  function SessionFacts(events: seq<RadiusEvent>, mac: string): set<Fact> {
    set e | e in events && IsSession(e) && e.mac == mac :: SessionFact(e)
  }

  lemma SessionFactsSnoc(events: seq<RadiusEvent>, e: RadiusEvent, mac: string)
    ensures SessionFacts(events + [e], mac) ==
            SessionFacts(events, mac) + if IsSession(e) && e.mac == mac then {SessionFact(e)} else {}
  {
  }

  // ---------------------------------------------------------------- the two-hop question

  ghost function DeviceAt(leases: seq<DhcpEvent>, ip: string, t: int, maxLease: int): Answer {
    Verdict(Holders(LeaseFacts(leases, ip), t, maxLease))
  }

  ghost function UserAt(sessions: seq<RadiusEvent>, mac: string, t: int, maxSession: int): Answer {
    Verdict(Holders(SessionFacts(sessions, mac), t, maxSession))
  }

  /** The user is asked only behind one known device. */
  ghost function UserBehind(leases: seq<DhcpEvent>, sessions: seq<RadiusEvent>, ip: string, t: int,
                            maxLease: int, maxSession: int): Answer {
    var device := DeviceAt(leases, ip, t, maxLease);
    if device.token == "" then UNKNOWN else UserAt(sessions, device.token, t, maxSession)
  }

  // ---------------------------------------------------------------- sorting

  predicate Sorted(f: seq<Fact>) {
    forall i, j | 0 <= i < j < |f| :: f[i].time <= f[j].time
  }

  function Elements(f: seq<Fact>): set<Fact> {
    set x | x in f
  }

  /** The facts of one instant, in order. */
  function AtTime(f: seq<Fact>, t: int): seq<Fact> {
    if f == [] then []
    else AtTime(f[..|f| - 1], t) + if f[|f| - 1].time == t then [f[|f| - 1]] else []
  }

  lemma {:induction false} AtTimeConcat(a: seq<Fact>, b: seq<Fact>, t: int)
    ensures AtTime(a + b, t) == AtTime(a, t) + AtTime(b, t)
  {
    if b == [] {
      assert a + b == a;
    } else {
      var n := |b| - 1;
      assert (a + b)[..|a + b| - 1] == a + b[..n];
      AtTimeConcat(a, b[..n], t);
    }
  }

  lemma {:induction false} NoneAtTime(f: seq<Fact>, t: int)
    requires forall i | 0 <= i < |f| :: f[i].time != t
    ensures AtTime(f, t) == []
  {
    if f != [] {
      NoneAtTime(f[..|f| - 1], t);
    }
  }

  /** Same facts at every instant, in the same order: a permutation that keeps ties as they were. */
  ghost predicate Stable(f: seq<Fact>, r: seq<Fact>) {
    forall t :: AtTime(r, t) == AtTime(f, t)
  }

  /** Puts e behind every fact that is not later, so that repeated insertion is stable. */
  method Insert(f: seq<Fact>, e: Fact) returns (r: seq<Fact>)
    requires Sorted(f)
    ensures Sorted(r)
    ensures Elements(r) == Elements(f) + {e} && multiset(r) == multiset(f) + multiset{e}
    ensures Stable(f + [e], r)
  {
    var k := |f|;
    while k > 0 && e.time < f[k - 1].time
      invariant 0 <= k <= |f|
      invariant k < |f| ==> e.time < f[k].time
    {
      k := k - 1;
    }
    Inserted(f, k, e);
    InsertedElements(f, k, e);
    InsertedStably(f, k, e);
    r := f[..k] + [e] + f[k..];
  }

  lemma Inserted(f: seq<Fact>, k: nat, e: Fact)
    requires Sorted(f) && k <= |f|
    requires k > 0 ==> f[k - 1].time <= e.time
    requires k < |f| ==> e.time <= f[k].time
    ensures Sorted(f[..k] + [e] + f[k..])
  {
  }

  lemma InsertedElements(f: seq<Fact>, k: nat, e: Fact)
    requires k <= |f|
    ensures Elements(f[..k] + [e] + f[k..]) == Elements(f) + {e}
  {
  }

  lemma InsertedStably(f: seq<Fact>, k: nat, e: Fact)
    requires Sorted(f) && k <= |f| && (k < |f| ==> e.time < f[k].time)
    ensures Stable(f + [e], f[..k] + [e] + f[k..])
    ensures multiset(f[..k] + [e] + f[k..]) == multiset(f) + multiset{e}
  {
    assert f == f[..k] + f[k..];
    assert forall i | k <= i < |f| :: e.time < f[i].time;
    forall t ensures AtTime(f[..k] + [e] + f[k..], t) == AtTime(f[..k] + f[k..] + [e], t) {
      MovedBehind(f[..k], e, f[k..], t);
    }
  }

  lemma MovedBehind(a: seq<Fact>, e: Fact, b: seq<Fact>, t: int)
    requires forall i | 0 <= i < |b| :: e.time < b[i].time
    ensures AtTime(a + [e] + b, t) == AtTime(a + b + [e], t)
  {
    AtTimeConcat(a + [e], b, t);
    AtTimeConcat(a, [e], t);
    AtTimeConcat(a + b, [e], t);
    AtTimeConcat(a, b, t);
    if t == e.time {
      NoneAtTime(b, t);
    } else {
      NoneAtTime([e], t);
    }
  }

  /** Sorts by time; facts of the same instant stay in their order. */
  method SortByTime(f: seq<Fact>) returns (r: seq<Fact>)
    ensures Sorted(r)
    ensures Elements(r) == Elements(f) && multiset(r) == multiset(f)
    ensures Stable(f, r)
  {
    r := [];
    for n := 0 to |f|
      invariant Sorted(r)
      invariant Elements(r) == Elements(f[..n]) && multiset(r) == multiset(f[..n])
      invariant Stable(f[..n], r)
    {
      assert f[..n + 1] == f[..n] + [f[n]];
      StableSnoc(f[..n], r, f[n]);
      r := Insert(r, f[n]);
    }
    assert f[..|f|] == f;
  }

  lemma StableSnoc(f: seq<Fact>, r: seq<Fact>, e: Fact)
    requires Stable(f, r)
    ensures Stable(f + [e], r + [e])
  {
    forall t ensures AtTime(r + [e], t) == AtTime(f + [e], t) {
      AtTimeConcat(f, [e], t);
      AtTimeConcat(r, [e], t);
    }
  }

  // ---------------------------------------------------------------- the batch fold

  /** Position i does not split a run of equal times. */
  ghost predicate Boundary(f: seq<Fact>, i: nat)
    requires i <= |f|
  {
    0 < i < |f| ==> f[i - 1].time < f[i].time
  }

  /** The end of the run of equal times that starts at i. */
  method BatchEnd(f: seq<Fact>, i: nat) returns (j: nat)
    requires i < |f|
    requires Sorted(f)
    ensures i < j <= |f|
    ensures Boundary(f, j)
    ensures forall x | x in f[i..j] :: x.time == f[i].time
  {
    j := i;
    while j < |f| && f[j].time == f[i].time
      invariant i <= j <= |f|
      invariant forall k | i <= k < j :: f[k].time == f[i].time
    {
      j := j + 1;
    }
  }

  /** Splits one batch into what it opens and what it closes. */
  method SplitBatch(batch: seq<Fact>) returns (open: set<Claim>, closes: set<string>)
    ensures open == Opened(Elements(batch))
    ensures closes == ClosedEntities(Elements(batch))
  {
    open, closes := {}, {};
    for k := 0 to |batch|
      invariant open == Opened(Elements(batch[..k]))
      invariant closes == ClosedEntities(Elements(batch[..k]))
    {
      var e := batch[k];
      assert batch[..k + 1] == batch[..k] + [e];
      assert Elements(batch[..k + 1]) == Elements(batch[..k]) + {e};
      if e.opens {
        open := open + {e.claim};
      } else {
        closes := closes + {e.claim.entity};
      }
    }
    assert batch[..|batch|] == batch;
  }

  /** Folds batches of equal time, carrying a candidate set and one deadline. */
  method FoldBatches(f: seq<Fact>, horizon: int) returns (cands: set<Claim>, deadline: int)
    requires Sorted(f)
    ensures cands == Survivors(Elements(f))
    ensures forall o :: LatestOpen(Elements(f), o) ==> deadline == o.time + horizon
  {
    cands, deadline := {}, 0;
    var i := 0;
    while i < |f|
      invariant 0 <= i <= |f| && Boundary(f, i)
      invariant cands == Survivors(Elements(f[..i]))
      invariant forall o :: LatestOpen(Elements(f[..i]), o) ==> deadline == o.time + horizon
    {
      var j := BatchEnd(f, i);
      var open, closes := SplitBatch(f[i..j]);
      BatchMoves(f, i, j);
      if open != {} {
        cands := open;
        deadline := f[i].time + horizon;
      }
      cands := set c | c in cands && c.entity !in closes;
      i := j;
    }
    assert f[..|f|] == f;
  }

  lemma BatchMoves(f: seq<Fact>, i: nat, j: nat)
    requires Sorted(f) && i < j <= |f| && Boundary(f, i)
    requires forall x | x in f[i..j] :: x.time == f[i].time
    ensures var before, batch, after := Elements(f[..i]), Elements(f[i..j]), Elements(f[..j]);
            && Survivors(after) == AfterBatch(Survivors(before), batch)
            && forall o :: LatestOpen(after, o) ==>
                 if Opened(batch) != {} then o.time == f[i].time else LatestOpen(before, o)
  {
    var before, batch, after := Elements(f[..i]), Elements(f[i..j]), Elements(f[..j]);
    assert f[..j] == f[..i] + f[i..j];
    assert after == before + batch;
    forall x | x in before ensures x.time < f[i].time {
      var k :| 0 <= k < i && f[..i][k] == x;
      assert f[k].time <= f[i - 1].time;
    }
    SurvivorsAfterBatch(before, batch, f[i].time);
    forall o | LatestOpen(after, o)
      ensures if Opened(batch) != {} then o.time == f[i].time else LatestOpen(before, o)
    {
      LatestAfterBatch(before, batch, f[i].time, o);
    }
  }

  /** The common deadline decides for all survivors at once. */
  lemma HoldersOfSurvivors(facts: set<Fact>, t: int, horizon: int, deadline: int)
    requires forall o :: LatestOpen(UpTo(facts, t), o) ==> deadline == o.time + horizon
    ensures Holders(facts, t, horizon) == if t <= deadline then Survivors(UpTo(facts, t)) else {}
  {
  }

  // ---------------------------------------------------------------- the device hop

  /** The lease evidence about `ip` that is no later than t. */
  method LeasesUpTo(events: seq<DhcpEvent>, ip: string, t: int) returns (f: seq<Fact>)
    ensures Elements(f) == UpTo(LeaseFacts(events, ip), t)
  {
    f := [];
    for n := 0 to |events|
      invariant Elements(f) == UpTo(LeaseFacts(events[..n], ip), t)
    {
      var e := events[n];
      assert events[..n + 1] == events[..n] + [e];
      LeaseFactsSnoc(events[..n], e, ip);
      if IsLease(e) && e.ip == ip && e.time <= t {
        assert Elements(f + [LeaseFact(e)]) == Elements(f) + {LeaseFact(e)};
        f := f + [LeaseFact(e)];
      }
    }
    assert events[..|events|] == events;
  }

  /** The device leased to `ip` at `t`: unknown is ("", false), ambiguous is ("", true). */
  method DhcpBindingAt(events: seq<DhcpEvent>, ip: string, t: int, maxLease: int)
      returns (mac: string, ambiguous: bool)
    ensures Answer(mac, ambiguous) == DeviceAt(events, ip, t, maxLease)
  {
    var f := LeasesUpTo(events, ip, t);
    f := SortByTime(f);
    var cands, deadline := FoldBatches(f, maxLease);

    HoldersOfSurvivors(LeaseFacts(events, ip), t, maxLease, deadline);
    if cands == {} {
      return "", false;
    } else if t > deadline {
      return "", false;
    } else if |cands| > 1 {
      return "", true;
    }
    var c :| c in cands;
    TheOnlyClaim(cands, c);
    return c.token, false;
  }

  lemma TheOnlyClaim(cands: set<Claim>, c: Claim)
    requires c in cands && |cands| <= 1
    ensures cands == {c}
  {
    if d :| d in cands && d != c {
      SubsetCardinality({c, d}, cands);
    }
  }

  // ---------------------------------------------------------------- the user hop

  /** The accounting evidence about `mac` that is no later than t. */
  method SessionsUpTo(events: seq<RadiusEvent>, mac: string, t: int) returns (f: seq<Fact>)
    ensures Elements(f) == UpTo(SessionFacts(events, mac), t)
  {
    f := [];
    for n := 0 to |events|
      invariant Elements(f) == UpTo(SessionFacts(events[..n], mac), t)
    {
      var e := events[n];
      assert events[..n + 1] == events[..n] + [e];
      SessionFactsSnoc(events[..n], e, mac);
      if IsSession(e) && e.mac == mac && e.time <= t {
        assert Elements(f + [SessionFact(e)]) == Elements(f) + {SessionFact(e)};
        f := f + [SessionFact(e)];
      }
    }
    assert events[..|events|] == events;
  }

  /** The user whose session owns `mac` at `t`; a session reported with two users is ambiguous. */
  method RadiusBindingAt(events: seq<RadiusEvent>, mac: string, t: int, maxSession: int)
      returns (user: string, ambiguous: bool)
    ensures Answer(user, ambiguous) == UserAt(events, mac, t, maxSession)
  {
    var f := SessionsUpTo(events, mac, t);
    f := SortByTime(f);
    var cands, deadline := FoldBatches(f, maxSession);

    HoldersOfSurvivors(SessionFacts(events, mac), t, maxSession, deadline);
    if cands == {} || t > deadline {
      return "", false;
    }
    user, ambiguous := SoleUser(cands);
  }

  /** Tells one (session, user) pair from several by counting sessions and users apart. */
  method SoleUser(cands: set<Claim>) returns (user: string, ambiguous: bool)
    requires cands != {}
    ensures Answer(user, ambiguous) == Verdict(cands)
  {
    var sessions, users, todo := {}, {}, cands;
    user := "";
    while todo != {}
      invariant todo <= cands
      invariant sessions == Entities(cands - todo)
      invariant users == Tokens(cands - todo)
      invariant todo != cands ==> user in users
    {
      var c :| c in todo;
      assert cands - (todo - {c}) == cands - todo + {c};
      AddClaim(cands - todo, c);
      todo := todo - {c};
      sessions, users, user := sessions + {c.entity}, users + {c.token}, c.token;
    }
    assert cands - todo == cands;
    SessionsAndUsers(cands);
    if |sessions| > 1 || |users| > 1 {
      return "", true;
    }
    return user, false;
  }

  function Entities(cands: set<Claim>): set<string> {
    set c | c in cands :: c.entity
  }

  function Tokens(cands: set<Claim>): set<string> {
    set c | c in cands :: c.token
  }

  lemma AddClaim(cands: set<Claim>, c: Claim)
    ensures Entities(cands + {c}) == Entities(cands) + {c.entity}
    ensures Tokens(cands + {c}) == Tokens(cands) + {c.token}
  {
  }

  /** Counting sessions and users apart finds exactly the sets with more than one pair. */
  lemma SessionsAndUsers(cands: set<Claim>)
    requires cands != {}
    ensures |Entities(cands)| > 1 || |Tokens(cands)| > 1 ==> Verdict(cands) == Answer("", true)
    ensures |Entities(cands)| <= 1 && |Tokens(cands)| <= 1 ==>
              forall u | u in Tokens(cands) :: Verdict(cands) == Answer(u, false)
  {
    var sessions, users := Entities(cands), Tokens(cands);
    var c :| c in cands;
    if |sessions| <= 1 && |users| <= 1 {
      forall d | d in cands ensures d == c {
        SubsetCardinality({c.entity, d.entity}, sessions);
        SubsetCardinality({c.token, d.token}, users);
      }
      assert cands == {c};
    } else {
      assert cands == {c} ==> sessions == {c.entity} && users == {c.token};
      var d :| d in cands && d != c;
      VerdictOfMany(cands, c, d);
    }
  }
}
