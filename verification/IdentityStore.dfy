/**
 The live identity store: address -> device and device -> user, folded in arrival
 order and swept of expired bindings.  Each key of each table is one slot of
 `LiveSlot`; the whole-run theorems are those of the slots, composed over two hops.
 */
module IdentityStore {
  import opened Evidence
  import opened IdentityJoin
  import opened LiveSlot

  /** What the poller does to the store. */
  datatype Action = Leased(d: DhcpEvent) | Accounted(r: RadiusEvent) | Swept(now: int)

  datatype Hop = DeviceHop | UserHop

  datatype Horizons = Horizons(maxLease: int, maxSession: int) {
    function Of(hop: Hop): int {
      if hop.DeviceHop? then maxLease else maxSession
    }
  }

  /** Address -> lease, and device -> session. */
  datatype View = View(ips: map<string, Binding>, macs: map<string, Binding>) {
    function Table(hop: Hop): map<string, Binding> {
      if hop.DeviceHop? then ips else macs
    }
  }

  function SlotAt(table: map<string, Binding>, key: string): Slot {
    if key in table then Held(table[key]) else Vacant
  }

  function Folded(table: map<string, Binding>, key: string, f: Fact, horizon: int): map<string, Binding> {
    match Fold(SlotAt(table, key), f, horizon)
    case Held(b) => table[key := b]
    case Vacant => table
  }

  function Evicted(table: map<string, Binding>, now: int): map<string, Binding> {
    map key | key in table && now <= table[key].deadline :: table[key]
  }

  function Perform(v: View, a: Action, h: Horizons): View {
    match a
    case Leased(d) =>
      if IsLease(d) then v.(ips := Folded(v.ips, d.ip, LeaseFact(d), h.maxLease)) else v
    case Accounted(r) =>
      if IsSession(r) then v.(macs := Folded(v.macs, r.mac, SessionFact(r), h.maxSession)) else v
    case Swept(now) =>
      View(Evicted(v.ips, now), Evicted(v.macs, now))
  }

  function History(actions: seq<Action>, h: Horizons): View {
    if actions == [] then View(map[], map[])
    else Perform(History(actions[..|actions| - 1], h), actions[|actions| - 1], h)
  }

  /** Device and user tokens, "" for absent. */
  function Resolve(v: View, ip: string, now: int): (string, string) {
    if Visible(SlotAt(v.ips, ip), now) == {} then ("", "")
    else
      var mac := v.ips[ip].claim.token;
      if Visible(SlotAt(v.macs, mac), now) == {} then (mac, "")
      else (mac, v.macs[mac].claim.token)
  }

  // ---------------------------------------------------------------- the store itself

  class Store {
    var ipState: map<string, Binding>
    var macState: map<string, Binding>
    const h: Horizons

    ghost function Model(): View
      reads this
    {
      View(ipState, macState)
    }

    constructor (h: Horizons)
      ensures this.h == h
      ensures Model() == History([], h)
    {
      this.h := h;
      ipState, macState := map[], map[];
    }

    method ApplyDhcp(e: DhcpEvent)
      modifies this
      ensures Model() == Perform(old(Model()), Leased(e), h)
    {
      if e.mac == "" {
        return;
      }
      if e.eventId == 10 || e.eventId == 11 {
        if e.ip in ipState {
          var b := ipState[e.ip];
          if b.closed && b.claim.entity == e.mac {
            if !(e.time > b.time) {
              return;
            }
          } else if e.time < b.time {
            return;
          }
        }
        ipState := ipState[e.ip := Binding(Claim(e.mac, e.mac), e.time, e.time + h.maxLease, false)];
      } else if e.eventId == 12 {
        if e.ip in ipState && ipState[e.ip].claim.entity == e.mac && !(e.time < ipState[e.ip].time) {
          ipState := ipState[e.ip := Binding(Claim(e.mac, e.mac), e.time, e.time + h.maxLease, true)];
        }
      }
    }

    method ApplyRadius(e: RadiusEvent)
      modifies this
      ensures Model() == Perform(old(Model()), Accounted(e), h)
    {
      if e.mac == "" {
        return;
      }
      if e.status == "Start" || e.status == "Interim-Update" {
        if e.mac in macState {
          var b := macState[e.mac];
          if b.closed && b.claim.entity == e.session {
            if !(e.time > b.time) {
              return;
            }
          } else if b.claim.entity == e.session {
            if e.time < b.time {
              return;
            }
          } else if e.time < b.time {
            return;
          }
        }
        macState := macState[e.mac := Binding(Claim(e.session, e.user), e.time, e.time + h.maxSession, false)];
      } else if e.status == "Stop" {
        if e.mac in macState && macState[e.mac].claim.entity == e.session && !(e.time < macState[e.mac].time) {
          macState := macState[e.mac := Binding(Claim(e.session, e.user), e.time, e.time + h.maxSession, true)];
        }
      }
    }

    method EvictExpired(now: int)
      modifies this
      ensures Model() == Perform(old(Model()), Swept(now), h)
    {
      ipState := Sweep(ipState, now);
      macState := Sweep(macState, now);
    }

    static method Sweep(table: map<string, Binding>, now: int) returns (r: map<string, Binding>)
      ensures r == Evicted(table, now)
    {
      r := table;
      var todo := table.Keys;
      while todo != {}
        invariant todo <= table.Keys
        invariant forall k :: k in r <==> k in table && (k in todo || now <= table[k].deadline)
        invariant forall k | k in r :: r[k] == table[k]
      {
        var k :| k in todo;
        todo := todo - {k};
        if now > table[k].deadline {
          r := r - {k};
        }
      }
    }

    method Lookup(ip: string, now: int) returns (mac: string, user: string)
      ensures (mac, user) == Resolve(Model(), ip, now)
    {
      if ip !in ipState || ipState[ip].closed || now > ipState[ip].deadline {
        return "", "";
      }
      mac := ipState[ip].claim.token;
      if mac !in macState || macState[mac].closed || now > macState[mac].deadline {
        return mac, "";
      }
      return mac, macState[mac].claim.token;
    }
  }

  // ---------------------------------------------------------------- every key is its own slot

  /** The step an action makes the slot of `key` take, if it concerns it. */
  function StepsOf(a: Action, hop: Hop, key: string): seq<Step> {
    match a
    case Leased(d) => if hop.DeviceHop? && IsLease(d) && d.ip == key then [Apply(LeaseFact(d))] else []
    case Accounted(r) => if hop.UserHop? && IsSession(r) && r.mac == key then [Apply(SessionFact(r))] else []
    case Swept(now) => [Step.Sweep(now)]
  }

  function StepsFor(actions: seq<Action>, hop: Hop, key: string): seq<Step> {
    if actions == [] then []
    else StepsFor(actions[..|actions| - 1], hop, key) + StepsOf(actions[|actions| - 1], hop, key)
  }

  lemma {:induction false} StepsForConcat(a: seq<Action>, b: seq<Action>, hop: Hop, key: string)
    ensures StepsFor(a + b, hop, key) == StepsFor(a, hop, key) + StepsFor(b, hop, key)
  {
    if b == [] {
      assert a + b == a;
    } else {
      var n := |b| - 1;
      var last := StepsOf(b[n], hop, key);
      assert (a + b)[..|a + b| - 1] == a + b[..n] && (a + b)[|a + b| - 1] == b[n];
      StepsForConcat(a, b[..n], hop, key);
      assert StepsFor(a, hop, key) + StepsFor(b[..n], hop, key) + last == StepsFor(a, hop, key) + StepsFor(b, hop, key);
    }
  }

  lemma {:induction false} PerformIsStep(v: View, a: Action, h: Horizons, hop: Hop, key: string)
    ensures var slot, steps := SlotAt(v.Table(hop), key), StepsOf(a, hop, key);
            SlotAt(Perform(v, a, h).Table(hop), key) == if steps == [] then slot else After(slot, steps[0], h.Of(hop))
  {
  }

  /** The store is the product of its slots. */
  lemma {:induction false} HistoryIsRun(actions: seq<Action>, h: Horizons, hop: Hop, key: string)
    ensures SlotAt(History(actions, h).Table(hop), key) == Run(StepsFor(actions, hop, key), h.Of(hop))
  {
    if actions != [] {
      var n := |actions| - 1;
      HistoryIsRun(actions[..n], h, hop, key);
      PerformIsStep(History(actions[..n], h), actions[n], h, hop, key);
      RunOneStep(StepsFor(actions[..n], hop, key), StepsOf(actions[n], hop, key), h.Of(hop));
    }
  }

  lemma {:induction false} RunOneStep(steps: seq<Step>, more: seq<Step>, horizon: int)
    requires |more| <= 1
    ensures Run(steps + more, horizon) ==
            if more == [] then Run(steps, horizon) else After(Run(steps, horizon), more[0], horizon)
  {
    if more == [] {
      assert steps + more == steps;
    } else {
      RunSnoc(steps, more[0], horizon);
    }
  }

  function LeaseLog(actions: seq<Action>): seq<DhcpEvent> {
    if actions == [] then []
    else LeaseLog(actions[..|actions| - 1]) +
         match actions[|actions| - 1] case Leased(d) => [d] case _ => []
  }

  function SessionLog(actions: seq<Action>): seq<RadiusEvent> {
    if actions == [] then []
    else SessionLog(actions[..|actions| - 1]) +
         match actions[|actions| - 1] case Accounted(r) => [r] case _ => []
  }

  function FactsFor(actions: seq<Action>, hop: Hop, key: string): set<Fact> {
    if hop.DeviceHop? then LeaseFacts(LeaseLog(actions), key) else SessionFacts(SessionLog(actions), key)
  }

  lemma {:induction false} SeenIsLog(actions: seq<Action>, hop: Hop, key: string)
    ensures Seen(StepsFor(actions, hop, key)) == FactsFor(actions, hop, key)
  {
    if actions != [] {
      var init, last := actions[..|actions| - 1], actions[|actions| - 1];
      SeenIsLog(init, hop, key);
      var steps, more := StepsFor(init, hop, key), StepsOf(last, hop, key);
      if more == [] {
        assert steps + more == steps;
      } else {
        SeenSnoc(steps, more[0]);
      }
      match last {
        case Leased(d) => LeaseFactsSnoc(LeaseLog(init), d, key); assert SessionLog(actions) == SessionLog(init);
        case Accounted(r) => SessionFactsSnoc(SessionLog(init), r, key); assert LeaseLog(actions) == LeaseLog(init);
        case Swept(_) => assert SessionLog(actions) == SessionLog(init) && LeaseLog(actions) == LeaseLog(init);
      }
    }
  }

  ghost predicate SweptUpTo(actions: seq<Action>, now: int) {
    forall a | a in actions && a.Swept? :: a.now <= now
  }

  lemma {:induction false} SweepsOfSlot(actions: seq<Action>, hop: Hop, key: string, now: int)
    requires SweptUpTo(actions, now)
    ensures SweptBy(StepsFor(actions, hop, key), now)
  {
    if actions != [] {
      assert actions[|actions| - 1] in actions;
      SweepsOfSlot(actions[..|actions| - 1], hop, key, now);
    }
  }

  // ---------------------------------------------------------------- agreement with the evidence path

  /** Per address and per device, every event is a replay or later than all before it. */
  ghost predicate OrderlyPerKey(actions: seq<Action>) {
    forall hop, key :: Orderly(StepsFor(actions, hop, key))
  }

  /** No event about the key is dated after `now`. */
  ghost predicate RecordedAt(actions: seq<Action>, hop: Hop, key: string, now: int) {
    forall f | f in FactsFor(actions, hop, key) :: f.time <= now
  }

  lemma {:induction false} SlotAgrees(actions: seq<Action>, h: Horizons, hop: Hop, key: string, now: int)
    requires Orderly(StepsFor(actions, hop, key)) && RecordedAt(actions, hop, key, now) && SweptUpTo(actions, now)
    ensures Visible(SlotAt(History(actions, h).Table(hop), key), now) ==
            Holders(FactsFor(actions, hop, key), now, h.Of(hop))
  {
    HistoryIsRun(actions, h, hop, key);
    SeenIsLog(actions, hop, key);
    SweepsOfSlot(actions, hop, key, now);
    VisibleIsEvidence(StepsFor(actions, hop, key), now, h.Of(hop));
  }

  /**
   Live and forensic answers agree, unambiguously, on every log in which the events about
   the address, and about the device it names, are orderly and recorded by `now`, with
   replays and sweeps anywhere.
   */
  lemma {:induction false} LiveAgreesWithEvidence(actions: seq<Action>, h: Horizons, ip: string, now: int)
    requires SweptUpTo(actions, now)
    requires Orderly(StepsFor(actions, DeviceHop, ip)) && RecordedAt(actions, DeviceHop, ip, now)
    requires var mac := Resolve(History(actions, h), ip, now).0;
             mac != "" ==> Orderly(StepsFor(actions, UserHop, mac)) && RecordedAt(actions, UserHop, mac, now)
    ensures var leases, sessions := LeaseLog(actions), SessionLog(actions);
            var (mac, user) := Resolve(History(actions, h), ip, now);
            && DeviceAt(leases, ip, now, h.maxLease) == Answer(mac, false)
            && UserBehind(leases, sessions, ip, now, h.maxLease, h.maxSession) == Answer(user, false)
  {
    var v := History(actions, h);
    SlotAgrees(actions, h, DeviceHop, ip, now);
    if Visible(SlotAt(v.ips, ip), now) != {} {
      var mac := v.ips[ip].claim.token;
      VisibleDeviceIsNamed(actions, h, ip);
      SlotAgrees(actions, h, UserHop, mac, now);
    }
  }

  lemma {:induction false} VisibleDeviceIsNamed(actions: seq<Action>, h: Horizons, ip: string)
    requires ip in History(actions, h).ips
    ensures History(actions, h).ips[ip].claim.token != ""
  {
    HistoryIsRun(actions, h, DeviceHop, ip);
    SeenIsLog(actions, DeviceHop, ip);
    HeldWasApplied(StepsFor(actions, DeviceHop, ip), h.maxLease);
  }

  // ---------------------------------------------------------------- no rollback, no effect of replays

  /** In any arrival order: what Lookup treats as live is never older than what the slot once held. */
  lemma {:induction false} LookupNeverRollsBack(actions: seq<Action>, i: nat, h: Horizons, hop: Hop, key: string,
                                                now: int)
    requires i <= |actions| && SweptUpTo(actions, now)
    requires key in History(actions[..i], h).Table(hop)
    requires Visible(SlotAt(History(actions, h).Table(hop), key), now) != {}
    ensures History(actions[..i], h).Table(hop)[key].time <= History(actions, h).Table(hop)[key].time
  {
    var early, all := StepsFor(actions[..i], hop, key), StepsFor(actions, hop, key);
    HistoryIsRun(actions[..i], h, hop, key);
    HistoryIsRun(actions, h, hop, key);
    SweepsOfSlot(actions, hop, key, now);
    EarlierSteps(actions, i, hop, key);
    assert all[..|early|] == early;
    NoVisibleRollback(all, |early|, now, h.Of(hop));
  }

  lemma {:induction false} EarlierSteps(actions: seq<Action>, i: nat, hop: Hop, key: string)
    requires i <= |actions|
    ensures StepsFor(actions[..i], hop, key) <= StepsFor(actions, hop, key)
  {
    assert actions == actions[..i] + actions[i..];
    StepsForConcat(actions[..i], actions[i..], hop, key);
  }

  ghost predicate Replays(more: seq<Action>, actions: seq<Action>) {
    forall a | a in more && !a.Swept? :: a in actions
  }

  lemma {:induction false} ReplayedSteps(more: seq<Action>, actions: seq<Action>, hop: Hop, key: string)
    requires Replays(more, actions)
    ensures ReplaysOf(StepsFor(more, hop, key), StepsFor(actions, hop, key))
  {
    if more != [] {
      var a := more[|more| - 1];
      assert a in more;
      ReplayedSteps(more[..|more| - 1], actions, hop, key);
      if !a.Swept? {
        AppliedIsSeen(a, actions, hop, key);
      }
    }
  }

  lemma {:induction false} AppliedIsSeen(a: Action, actions: seq<Action>, hop: Hop, key: string)
    requires a in actions
    ensures forall s | s in StepsOf(a, hop, key) && s.Apply? :: s.f in Seen(StepsFor(actions, hop, key))
  {
    var n := |actions| - 1;
    if a != actions[n] {
      AppliedIsSeen(a, actions[..n], hop, key);
    }
    forall s | s in StepsOf(a, hop, key) && s.Apply? ensures s.f in Seen(StepsFor(actions, hop, key)) {
      if a == actions[n] {
        assert s in StepsFor(actions, hop, key);
      }
    }
  }

  /**
   Re-reading the logs, in any order and with sweeps in between, changes no Lookup whose
   address and device have orderly events.
   */
  lemma {:induction false} ReplayChangesNoLookup(actions: seq<Action>, more: seq<Action>, h: Horizons,
                                                 ip: string, now: int)
    requires Orderly(StepsFor(actions, DeviceHop, ip))
    requires var mac := Resolve(History(actions, h), ip, now).0; mac != "" ==> Orderly(StepsFor(actions, UserHop, mac))
    requires Replays(more, actions) && SweptUpTo(actions + more, now)
    ensures Resolve(History(actions + more, h), ip, now) == Resolve(History(actions, h), ip, now)
  {
    SlotReplay(actions, more, h, DeviceHop, ip, now);
    var v := History(actions, h);
    if Visible(SlotAt(v.ips, ip), now) != {} {
      VisibleDeviceIsNamed(actions, h, ip);
      SlotReplay(actions, more, h, UserHop, v.ips[ip].claim.token, now);
    }
  }

  lemma {:induction false} SlotReplay(actions: seq<Action>, more: seq<Action>, h: Horizons, hop: Hop, key: string,
                                      now: int)
    requires Orderly(StepsFor(actions, hop, key)) && Replays(more, actions) && SweptUpTo(actions + more, now)
    ensures Visible(SlotAt(History(actions + more, h).Table(hop), key), now) ==
            Visible(SlotAt(History(actions, h).Table(hop), key), now)
  {
    HistoryIsRun(actions, h, hop, key);
    HistoryIsRun(actions + more, h, hop, key);
    StepsForConcat(actions, more, hop, key);
    SweepsOfSlot(actions + more, hop, key, now);
    ReplayedSteps(more, actions, hop, key);
    ReplayIsInvisible(StepsFor(actions, hop, key), StepsFor(more, hop, key), now, h.Of(hop));
  }

  /** Without sweeps the whole store, tombstones included, is left as it was. */
  lemma {:induction false} ReplayLeavesStore(actions: seq<Action>, more: seq<Action>, h: Horizons)
    requires OrderlyPerKey(actions) && Replays(more, actions)
    requires forall a | a in actions + more :: !a.Swept?
    ensures History(actions + more, h) == History(actions, h)
  {
    var v, w := History(actions, h), History(actions + more, h);
    forall hop, key ensures SlotAt(w.Table(hop), key) == SlotAt(v.Table(hop), key) {
      HistoryIsRun(actions, h, hop, key);
      HistoryIsRun(actions + more, h, hop, key);
      StepsForConcat(actions, more, hop, key);
      ReplayedSteps(more, actions, hop, key);
      NoSweepSteps(actions + more, hop, key);
      ReplayLeavesSlot(StepsFor(actions, hop, key), StepsFor(more, hop, key), h.Of(hop));
    }
    SameTables(v.Table(DeviceHop), w.Table(DeviceHop));
    SameTables(v.Table(UserHop), w.Table(UserHop));
  }

  lemma {:induction false} SameTables(a: map<string, Binding>, b: map<string, Binding>)
    requires forall key :: SlotAt(b, key) == SlotAt(a, key)
    ensures a == b
  {
    forall key ensures key in a <==> key in b {
      assert SlotAt(a, key) == SlotAt(b, key);
    }
    forall key | key in a ensures a[key] == b[key] {
      assert SlotAt(a, key) == SlotAt(b, key);
    }
  }

  lemma {:induction false} NoSweepSteps(actions: seq<Action>, hop: Hop, key: string)
    requires forall a | a in actions :: !a.Swept?
    ensures forall s | s in StepsFor(actions, hop, key) :: s.Apply?
  {
    if actions != [] {
      assert actions[|actions| - 1] in actions;
      NoSweepSteps(actions[..|actions| - 1], hop, key);
    }
  }
}
