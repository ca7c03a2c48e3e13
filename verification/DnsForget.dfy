/**
 What a cap eviction does to the promise that a hit is the newest answer: a run, for
 every cache size, in which a full cache forgets the newest answer before it runs out
 and takes in an older one.
 */
module DnsForget {
  import opened DnsEvents
  import opened DnsEviction
  import opened DnsExact
  import opened DnsStore
  import opened DnsTopUp
  import opened Text
  import opened VictimHeap

  lemma Extend(states: seq<Entries>, actions: seq<Action>, maxSize: int, a: Action, m: Entries)
    requires IsRun(states, actions, maxSize) && Step(states[|actions|], m, a, maxSize)
    ensures IsRun(states + [m], actions + [a], maxSize)
  {
    forall i | 0 <= i < |actions| + 1 ensures StepAt(states + [m], actions + [a], maxSize, i) {
      if i < |actions| {
        assert StepAt(states, actions, maxSize, i);
      }
    }
  }

  function Marks(n: nat): (s: string)
    ensures |s| == n
  {
    if n == 0 then "" else Marks(n - 1) + "x"
  }

  /** An answer for some other client, given when f was and trusted at least as long. */
  function Filler(f: DnsEvent, i: nat): (g: DnsEvent)
    ensures g.time == f.time && Deadline(f) <= Deadline(g)
  {
    DnsEvent(f.time, f.client + Marks(i + 1), 0, "x", "A", f.answer, 3600, false)
  }

  lemma FillersDiffer(f: DnsEvent, i: nat, j: nat)
    requires i != j
    ensures KeyOf(Filler(f, i)) != KeyOf(Filler(f, j)) && KeyOf(Filler(f, i)) != KeyOf(f)
  {
    assert |Filler(f, i).client| == |f.client| + i + 1;
    assert |Filler(f, j).client| == |f.client| + j + 1;
  }

  /** f and n fillers, and nothing else. */
  ghost predicate Filled(m: Entries, f: DnsEvent, n: nat) {
    && KeyOf(f) in m && m[KeyOf(f)] == BindingOf(f) && |m| == n + 1
    && (forall k | k in m :: Deadline(f) <= m[k].deadline)
    && (forall i: nat | i >= n :: KeyOf(Filler(f, i)) !in m)
  }

  /** Answers of f's time, all taken in at t; f came first, and nothing else was said about its key. */
  ghost predicate OnlyTold(actions: seq<Action>, f: DnsEvent, t: int) {
    && actions != [] && actions[0].Answered? && actions[0].e == f
    && forall j | 0 <= j < |actions| :: ToldAt(actions[j], f, t)
  }

  predicate ToldAt(a: Action, f: DnsEvent, t: int) {
    a.Answered? && a.now == t && a.e.time == f.time && (KeyOf(a.e) == KeyOf(f) ==> a.e == f)
  }

  lemma FillOne(m: Entries, f: DnsEvent, n: nat, t: int, maxSize: int)
    requires Tags(f) && Filled(m, f, n) && n + 1 < maxSize
    ensures var g := Filler(f, n); Step(m, Stored(m, g), Answered(g, t), maxSize) && Filled(Stored(m, g), f, n + 1)
  {
    var g := Filler(f, n);
    FillersDiffer(f, n, n + 1);
    assert KeyOf(g) !in m && Stored(m, g) == m[KeyOf(g) := BindingOf(g)];
    forall i: nat | i >= n + 1 ensures KeyOf(Filler(f, i)) !in Stored(m, g) {
      FillersDiffer(f, n, i);
    }
  }

  lemma {:induction false} FillRun(f: DnsEvent, n: nat, t: int, maxSize: int)
      returns (states: seq<Entries>, actions: seq<Action>)
    requires Tags(f) && n < maxSize
    ensures IsRun(states, actions, maxSize) && OnlyTold(actions, f, t) && Filled(states[|actions|], f, n)
  {
    if n == 0 {
      var m := map[KeyOf(f) := BindingOf(f)];
      states, actions := [map[], m], [Answered(f, t)];
      assert Stored(map[], f) == m;
      assert StepAt(states, actions, maxSize, 0);
      forall i: nat ensures KeyOf(Filler(f, i)) !in m {
        FillersDiffer(f, i, i + 1);
      }
    } else {
      states, actions := FillRun(f, n - 1, t, maxSize);
      var m, g := states[|actions|], Filler(f, n - 1);
      FillOne(m, f, n - 1, t, maxSize);
      FillersDiffer(f, n - 1, n);
      Extend(states, actions, maxSize, Answered(g, t), Stored(m, g));
      states, actions := states + [Stored(m, g)], actions + [Answered(g, t)];
    }
  }

  /** With nothing expired, the shed oldest entries are a valid choice. */
  lemma ChooseOldest(m: Entries, now: int, maxSize: int) returns (victims: set<DnsKey>)
    requires forall k | k in m :: now <= m[k].deadline
    ensures ValidChoice(m, maxSize, now, victims) && IsOldest(m, m.Keys, Shed(maxSize), victims)
  {
    victims := OldestExists(m, m.Keys, Shed(maxSize));
    ChoiceIsValid(m, now, maxSize, victims);
  }

  lemma ChoiceIsValid(m: Entries, now: int, maxSize: int, victims: set<DnsKey>)
    requires forall k | k in m :: now <= m[k].deadline
    requires IsOldest(m, m.Keys, Shed(maxSize), victims)
    ensures ValidChoice(m, maxSize, now, victims)
  {
    assert Expired(m, now) == {} && Fresh(m, now) == m.Keys;
    assert Sheds(m.Keys, {}, victims, Shed(maxSize), victims);
  }

  /** An entry none is earlier than is in some choice of the oldest. */
  lemma ChooseWith(m: Entries, k: DnsKey, n: int) returns (oldest: set<DnsKey>)
    requires k in m && n >= 1 && forall j | j in m :: m[k].deadline <= m[j].deadline
    ensures IsOldest(m, m.Keys, n, oldest) && k in oldest
  {
    oldest := OldestExists(m, m.Keys, n);
    if k !in oldest {
      assert m.Keys == {k} + (m.Keys - {k});
      assert |oldest| >= 1;
      var o :| o in oldest;
      TradeForEarliest(m, k, o, n, oldest);
      oldest := oldest - {o} + {k};
    }
  }

  lemma TradeForEarliest(m: Entries, k: DnsKey, o: DnsKey, n: int, oldest: set<DnsKey>)
    requires k in m && forall j | j in m :: m[k].deadline <= m[j].deadline
    requires IsOldest(m, m.Keys, n, oldest) && k !in oldest && o in oldest
    ensures IsOldest(m, m.Keys, n, oldest - {o} + {k})
  {
  }

  lemma StepWithVictims(m: Entries, e: DnsEvent, t: int, maxSize: int, victims: set<DnsKey>)
    requires Tags(e) && NeedsRoom(m, e, maxSize) && ValidChoice(m, maxSize, t, victims)
    ensures Step(m, Stored(m - victims, e), Answered(e, t), maxSize)
  {
  }

  /** Taking in an answer for a key that is not there, evicting first if need be. */
  lemma TakeIn(m: Entries, e: DnsEvent, t: int, maxSize: int) returns (m': Entries)
    requires Tags(e) && KeyOf(e) !in m && forall k | k in m :: t <= m[k].deadline
    ensures Step(m, m', Answered(e, t), maxSize)
    ensures KeyOf(e) in m' && m'[KeyOf(e)] == BindingOf(e)
  {
    if NeedsRoom(m, e, maxSize) {
      var victims := ChooseOldest(m, t, maxSize);
      StepWithVictims(m, e, t, maxSize, victims);
      m' := Stored(m - victims, e);
    } else {
      m' := Stored(m, e);
    }
  }

  lemma LeavesUnexpired(m: Entries, k: DnsKey, victims: set<DnsKey>, e: DnsEvent, t: int)
    requires k in victims && KeyOf(e) != k && t <= Deadline(e)
    requires forall j | j in m :: t <= m[j].deadline
    ensures var m' := Stored(m - victims, e); k !in m' && forall j | j in m' :: t <= m'[j].deadline
  {
  }

  /** A full cache takes in one more answer and forgets f. */
  lemma ForgetFirst(m: Entries, f: DnsEvent, g: DnsEvent, t: int, maxSize: int) returns (m': Entries)
    requires maxSize >= 1 && Filled(m, f, maxSize - 1) && Tags(g) && KeyOf(g) !in m
    requires t <= Deadline(f) <= Deadline(g)
    ensures Step(m, m', Answered(g, t), maxSize)
    ensures KeyOf(f) !in m' && forall k | k in m' :: t <= m'[k].deadline
  {
    var victims := ChooseWith(m, KeyOf(f), Shed(maxSize));
    ChoiceIsValid(m, t, maxSize, victims);
    StepWithVictims(m, g, t, maxSize, victims);
    LeavesUnexpired(m, KeyOf(f), victims, g, t);
    m' := Stored(m - victims, g);
  }

  /** f is answered, the cache fills up, and one answer more evicts f unexpired. */
  lemma ForgetRun(f: DnsEvent, t: int, maxSize: int) returns (states: seq<Entries>, actions: seq<Action>)
    requires Tags(f) && maxSize >= 1 && t <= Deadline(f)
    ensures IsRun(states, actions, maxSize) && OnlyTold(actions, f, t) && KeyOf(f) !in states[|actions|]
    ensures forall k | k in states[|actions|] :: t <= states[|actions|][k].deadline
  {
    states, actions := FillRun(f, maxSize - 1, t, maxSize);
    var g := Filler(f, maxSize - 1);
    FillersDiffer(f, maxSize - 1, maxSize);
    var m := ForgetFirst(states[|actions|], f, g, t, maxSize);
    Extend(states, actions, maxSize, Answered(g, t), m);
    StillOnlyTold(actions, f, g, t);
    states, actions := states + [m], actions + [Answered(g, t)];
  }

  lemma StillOnlyTold(actions: seq<Action>, f: DnsEvent, g: DnsEvent, t: int)
    requires OnlyTold(actions, f, t) && KeyOf(g) != KeyOf(f) && g.time == f.time
    ensures OnlyTold(actions + [Answered(g, t)], f, t)
  {
  }

  /**
   For every cache size, at one reading t of the clock: f is answered, the cache fills up
   with answers of f's time, one more evicts f unexpired, the older e arrives, and the
   hit is e.  With t at f's time nothing is dated after the clock; an e that has expired
   by then takes an f from the future.
   */
  lemma CapEvictionForgets(e: DnsEvent, f: DnsEvent, t: int, maxSize: int)
      returns (states: seq<Entries>, actions: seq<Action>)
    requires Tags(e) && Tags(f) && KeyOf(e) == KeyOf(f) && e.client != "" && Older(e, f) && maxSize >= 1
    requires t <= Deadline(e) && t <= Deadline(f)
    ensures IsRun(states, actions, maxSize) && SweptBy(actions, t) && AskedLast(actions, t)
    ensures f.time <= t ==> Recorded(actions)
    ensures forall h | AnsweredFor(actions, |actions|, KeyOf(f), h) :: h == e || h == f
    ensures !HitIsNewest(states[|actions|], actions, KeyOf(e), t)
  {
    var states', actions' := ForgetRun(f, t, maxSize);
    states, actions := ThenOlder(states', actions', e, f, t, maxSize);
    forall j | 0 <= j < |actions| ensures actions[j].Answered? && actions[j].now == t {
      assert j < |actions'| ==> actions[j] == actions'[j] && ToldAt(actions'[j], f, t);
    }
    forall h | AnsweredFor(actions, |actions|, KeyOf(f), h) ensures h == e || h == f {
      OnlyTheTwo(actions', e, f, t, h);
    }
    if f.time <= t {
      ToldIsRecorded(actions', e, f, t);
    }
  }

  lemma OnlyTheTwo(actions: seq<Action>, e: DnsEvent, f: DnsEvent, t: int, h: DnsEvent)
    requires OnlyTold(actions, f, t)
    requires var more := actions + [Answered(e, t)]; AnsweredFor(more, |more|, KeyOf(f), h)
    ensures h == e || h == f
  {
    var more := actions + [Answered(e, t)];
    var j :| 0 <= j < |more| && more[j].Answered? && more[j].e == h && Tags(h) && KeyOf(h) == KeyOf(f);
    assert j < |actions| ==> ToldAt(actions[j], f, t);
  }

  lemma ToldIsRecorded(actions: seq<Action>, e: DnsEvent, f: DnsEvent, t: int)
    requires OnlyTold(actions, f, t) && f.time <= t && e.time <= t
    ensures Recorded(actions + [Answered(e, t)])
  {
    assert forall j | 0 <= j < |actions| :: ToldAt(actions[j], f, t);
  }

  lemma ThenOlder(states: seq<Entries>, actions: seq<Action>, e: DnsEvent, f: DnsEvent, t: int, maxSize: int)
      returns (states': seq<Entries>, actions': seq<Action>)
    requires Tags(e) && Tags(f) && KeyOf(e) == KeyOf(f) && e.client != "" && Older(e, f) && t <= Deadline(e)
    requires IsRun(states, actions, maxSize) && OnlyTold(actions, f, t) && KeyOf(f) !in states[|actions|]
    requires forall k | k in states[|actions|] :: t <= states[|actions|][k].deadline
    ensures IsRun(states', actions', maxSize) && actions' == actions + [Answered(e, t)]
    ensures !HitIsNewest(states'[|actions'|], actions', KeyOf(e), t)
  {
    var m := TakeIn(states[|actions|], e, t, maxSize);
    Extend(states, actions, maxSize, Answered(e, t), m);
    states', actions' := states + [m], actions + [Answered(e, t)];
    HitIsOlder(m, actions', e, f, t);
  }

  /**
   Every run fed from `answers`, cap evictions included, asked no earlier than its
   sweeps, hits the newest only; with `recorded`, only recorded runs asked last.
   */
  ghost predicate NewestDespiteEvictions(answers: set<DnsEvent>, k: DnsKey, maxSize: int, recorded: bool) {
    forall states, actions, now |
      && IsRun(states, actions, maxSize) && SweptBy(actions, now) && FedFrom(actions, k, answers)
      && (recorded ==> Recorded(actions) && AskedLast(actions, now)) ::
      HitIsNewest(states[|actions|], actions, k, now)
  }

  /**
   With cap evictions, on recorded runs, a hit always is the newest answer if and only if
   every older answer has run out by the time of every newer one.
   */
  lemma NewestDespiteEvictionsExactlyWhen(answers: set<DnsEvent>, k: DnsKey, maxSize: int)
    requires maxSize >= 1 && k.client != ""
    requires forall e | e in answers :: Tags(e) && KeyOf(e) == k
    ensures NewestDespiteEvictions(answers, k, maxSize, true) <==>
            forall e, f | e in answers && f in answers && Older(e, f) :: Deadline(e) < f.time
  {
    if e, f :| e in answers && f in answers && Older(e, f) && f.time <= Deadline(e) {
      var states, actions := CapEvictionForgets(e, f, f.time, maxSize);
      assert FedFrom(actions, k, answers);
    } else {
      forall states, actions, now |
        IsRun(states, actions, maxSize) && FedFrom(actions, k, answers) && Recorded(actions) && AskedLast(actions, now)
        ensures HitIsNewest(states[|actions|], actions, k, now)
      {
        RecordedHitIsNewest(states, actions, answers, k, maxSize, now);
      }
    }
  }

  lemma RecordedHitIsNewest(states: seq<Entries>, actions: seq<Action>, answers: set<DnsEvent>, k: DnsKey,
                            maxSize: int, now: int)
    requires IsRun(states, actions, maxSize) && FedFrom(actions, k, answers)
    requires Recorded(actions) && AskedLast(actions, now)
    requires forall e, f | e in answers && f in answers && Older(e, f) :: Deadline(e) < f.time
    ensures HitIsNewest(states[|actions|], actions, k, now)
  {
    if Hostname(states[|actions|], k.client, k.answer, now) != "" {
      var h := HeldAnswer(states, actions, maxSize, |actions|, k);
      forall f | AnsweredFor(actions, |actions|, k, f) ensures NotNewer(f.time, f.qname, h.time, h.qname) {
        var j :| 0 <= j < |actions| && actions[j].Answered? && actions[j].e == f;
        assert actions[j] in actions && f.time <= now <= Deadline(h);
      }
    }
  }

  /**
   On all runs, those with answers dated after the clock included, if and only if no
   answer is newer than another: an f of the future is forgotten while e still lives.
   */
  lemma NewestWithFutureAnswersExactlyWhen(answers: set<DnsEvent>, k: DnsKey, maxSize: int)
    requires maxSize >= 1 && k.client != ""
    requires forall e | e in answers :: Tags(e) && KeyOf(e) == k
    ensures NewestDespiteEvictions(answers, k, maxSize, false) <==>
            forall e, f | e in answers && f in answers :: !Older(e, f)
  {
    if e, f :| e in answers && f in answers && Older(e, f) {
      var states, actions := CapEvictionForgets(e, f, e.time, maxSize);
      assert FedFrom(actions, k, answers);
    } else {
      forall states, actions, now |
        IsRun(states, actions, maxSize) && SweptBy(actions, now) && FedFrom(actions, k, answers)
        ensures HitIsNewest(states[|actions|], actions, k, now)
      {
        if k in states[|actions|] {
          var h := HeldAnswer(states, actions, maxSize, |actions|, k);
          forall f | AnsweredFor(actions, |actions|, k, f) ensures NotNewer(f.time, f.qname, h.time, h.qname) {
            assert !Older(h, f);
          }
        }
      }
    }
  }
}
