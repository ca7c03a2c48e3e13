/**
 Where the DNS cache depends on arrival order, exactly: the deadline a key ends up
 with, and whether a hit is the newest answer once entries are swept.
 */
module DnsExact {
  import opened DnsEvents
  import opened DnsEviction
  import opened DnsStore
  import opened Text
  import opened VictimHeap

  function Deadline(e: DnsEvent): int {
    e.time + Horizon(e)
  }

  /** A clock that does not go backwards, and nothing dated after the reading at which it arrives. */
  ghost predicate Recorded(actions: seq<Action>) {
    && (forall i, j | 0 <= i < j < |actions| :: actions[i].now <= actions[j].now)
    && (forall i | 0 <= i < |actions| && actions[i].Answered? :: actions[i].e.time <= actions[i].now)
  }

  // ---------------------------------------------------------------- deadlines

  /** The runs were told the same about k, in whatever order and however often. */
  ghost predicate SameAnswers(actions: seq<Action>, actions': seq<Action>, k: DnsKey) {
    forall e :: AnsweredFor(actions, |actions|, k, e) <==> AnsweredFor(actions', |actions'|, k, e)
  }

  /** Every answer for k that ties with b, in time and name, carries b's deadline. */
  ghost predicate TiesShareDeadline(actions: seq<Action>, k: DnsKey, b: DnsBinding) {
    forall e | AnsweredFor(actions, |actions|, k, e) && e.time == b.time && e.qname == b.hostname ::
      Deadline(e) == b.deadline
  }

  lemma BindingWasAnswered(states: seq<Entries>, actions: seq<Action>, maxSize: int, k: DnsKey) returns (e: DnsEvent)
    requires IsRun(states, actions, maxSize) && k in states[|actions|]
    ensures AnsweredFor(actions, |actions|, k, e) && BindingOf(e) == states[|actions|][k]
  {
    EntriesWereAnswered(states, actions, maxSize, |actions|, k);
    var j :| 0 <= j < |actions| && actions[j].Answered? && Tags(actions[j].e) && KeyOf(actions[j].e) == k
             && BindingOf(actions[j].e) == states[|actions|][k];
    e := actions[j].e;
  }

  /** If the newest answers for k agree on the deadline, eviction-free runs over them agree on the whole binding. */
  lemma WholeBindingsAgree(states: seq<Entries>, actions: seq<Action>, states': seq<Entries>, actions': seq<Action>,
                           maxSize: int, k: DnsKey)
    requires Roomy(states, actions, maxSize) && Roomy(states', actions', maxSize)
    requires SameAnswers(actions, actions', k) && k in states[|actions|]
    requires TiesShareDeadline(actions, k, states[|actions|][k])
    ensures k in states'[|actions'|] && states'[|actions'|][k] == states[|actions|][k]
  {
    ArrivalOrderIsIrrelevant(states, actions, states', actions', maxSize, k);
    var e := BindingWasAnswered(states', actions', maxSize, k);
  }

  /** The same run, told e first. */
  ghost function ToldFirst(states: seq<Entries>, e: DnsEvent): (r: seq<Entries>)
    ensures |r| == |states| + 1 && r[0] == map[]
    ensures forall i | 0 <= i < |states| :: r[i + 1] == states[i][KeyOf(e) := BindingOf(e)]
  {
    [map[]] + seq(|states|, i requires 0 <= i < |states| => states[i][KeyOf(e) := BindingOf(e)])
  }

  lemma {:induction false} KeysStay(states: seq<Entries>, actions: seq<Action>, maxSize: int, i: nat, j: nat)
    requires Roomy(states, actions, maxSize) && i <= j < |states|
    ensures states[i].Keys <= states[j].Keys
    decreases j
  {
    if i < j {
      KeysStay(states, actions, maxSize, i, j - 1);
      assert StepAt(states, actions, maxSize, j - 1);
    }
  }

  lemma StoringCommutes(m: Entries, f: DnsEvent, e: DnsEvent)
    requires KeyOf(f) == KeyOf(e) ==> NotNewer(f.time, f.qname, e.time, e.qname)
    ensures Stored(m[KeyOf(e) := BindingOf(e)], f) == Stored(m, f)[KeyOf(e) := BindingOf(e)]
  {
  }

  lemma RoomBesides(m: Entries, k: DnsKey, b: DnsBinding, added: DnsKey, maxSize: int, all: set<DnsKey>)
    requires m.Keys + {k, added} <= all && |all| <= maxSize
    ensures added in m[k := b] || |m[k := b]| < maxSize
  {
    var keys := m[k := b].Keys;
    assert |m[k := b]| == |keys|;
    if added !in keys {
      assert keys + {added} <= all;
      Fewer(keys, added, all);
    }
  }

  lemma Fewer(some: set<DnsKey>, added: DnsKey, all: set<DnsKey>)
    requires added !in some && some + {added} <= all
    ensures |some| < |all|
  {
    assert |some + {added}| == |some| + 1;
    assert all == (some + {added}) + (all - (some + {added}));
  }

  /** Having been told e first changes no later step but for k itself, which stays e's. */
  lemma ToldFirstStep(states: seq<Entries>, actions: seq<Action>, maxSize: int, e: DnsEvent, i: nat)
    requires Roomy(states, actions, maxSize) && i < |actions| && maxSize >= 1
    requires forall f | AnsweredFor(actions, |actions|, KeyOf(e), f) :: NotNewer(f.time, f.qname, e.time, e.qname)
    requires KeyOf(e) in states[|actions|]
    ensures var m, m' := states[i][KeyOf(e) := BindingOf(e)], states[i + 1][KeyOf(e) := BindingOf(e)];
            && (Tags(actions[i].e) ==> !NeedsRoom(m, actions[i].e, maxSize))
            && m' == if Tags(actions[i].e) then Stored(m, actions[i].e) else m
  {
    var f := actions[i].e;
    assert StepAt(states, actions, maxSize, i);
    if Tags(f) {
      if KeyOf(f) == KeyOf(e) {
        assert AnsweredFor(actions, |actions|, KeyOf(e), f);
      }
      StoringCommutes(states[i], f, e);
      HardCap(states, actions, maxSize, |actions|);
      KeysStay(states, actions, maxSize, i, |actions|);
      KeysStay(states, actions, maxSize, i + 1, |actions|);
      RoomBesides(states[i], KeyOf(e), BindingOf(e), KeyOf(f), maxSize, states[|actions|].Keys);
    }
  }

  /** A reading of the clock by which all these answers were given. */
  function Reading(actions: seq<Action>): int {
    if actions == [] then 0
    else
      var t, last := Reading(actions[..|actions| - 1]), actions[|actions| - 1];
      if last.Answered? && last.e.time > t then last.e.time else t
  }

  lemma {:induction false} ReadingIsLate(actions: seq<Action>, i: nat)
    requires i < |actions| && actions[i].Answered?
    ensures actions[i].e.time <= Reading(actions)
  {
    if i < |actions| - 1 {
      ReadingIsLate(actions[..|actions| - 1], i);
    }
  }

  /** e and then the same answers, all arriving at one late reading of the clock. */
  function TellFirst(actions: seq<Action>, e: DnsEvent): (more: seq<Action>)
    requires forall i | 0 <= i < |actions| :: actions[i].Answered?
    ensures |more| == |actions| + 1 && more[0] == Answered(e, Reading(actions))
    ensures forall i | 0 <= i < |actions| :: more[i + 1] == Answered(actions[i].e, Reading(actions))
  {
    [Answered(e, Reading(actions))] +
    seq(|actions|, i requires 0 <= i < |actions| => Answered(actions[i].e, Reading(actions)))
  }

  lemma ToldFirstAt(states: seq<Entries>, actions: seq<Action>, maxSize: int, e: DnsEvent, i: nat)
    requires Roomy(states, actions, maxSize) && maxSize >= 1 && i <= |actions|
    requires AnsweredFor(actions, |actions|, KeyOf(e), e) && KeyOf(e) in states[|actions|]
    requires forall f | AnsweredFor(actions, |actions|, KeyOf(e), f) :: NotNewer(f.time, f.qname, e.time, e.qname)
    ensures var told, more := ToldFirst(states, e), TellFirst(actions, e);
            && StepAt(told, more, maxSize, i)
            && more[i].Answered? && (Tags(more[i].e) ==> !NeedsRoom(told[i], more[i].e, maxSize))
  {
    if i > 0 {
      ToldFirstStep(states, actions, maxSize, e, i - 1);
    } else {
      assert ToldFirst(states, e)[1] == states[0][KeyOf(e) := BindingOf(e)];
    }
  }

  lemma ToldFirstIsRoomy(states: seq<Entries>, actions: seq<Action>, maxSize: int, e: DnsEvent)
    requires Roomy(states, actions, maxSize) && maxSize >= 1
    requires AnsweredFor(actions, |actions|, KeyOf(e), e) && KeyOf(e) in states[|actions|]
    requires forall f | AnsweredFor(actions, |actions|, KeyOf(e), f) :: NotNewer(f.time, f.qname, e.time, e.qname)
    ensures Roomy(ToldFirst(states, e), TellFirst(actions, e), maxSize)
  {
    forall i | 0 <= i < |TellFirst(actions, e)|
      ensures var told, more := ToldFirst(states, e), TellFirst(actions, e);
              && StepAt(told, more, maxSize, i)
              && more[i].Answered? && (Tags(more[i].e) ==> !NeedsRoom(told[i], more[i].e, maxSize))
    {
      ToldFirstAt(states, actions, maxSize, e, i);
    }
  }

  lemma ToldFirstIsTheSame(actions: seq<Action>, e: DnsEvent)
    requires forall i | 0 <= i < |actions| :: actions[i].Answered?
    requires AnsweredFor(actions, |actions|, KeyOf(e), e)
    ensures SameAnswers(actions, TellFirst(actions, e), KeyOf(e)) && Recorded(TellFirst(actions, e))
  {
    var more := TellFirst(actions, e);
    forall f ensures AnsweredFor(actions, |actions|, KeyOf(e), f) <==> AnsweredFor(more, |more|, KeyOf(e), f) {
      if j :| 0 <= j < |actions| && actions[j].Answered? && actions[j].e == f && Tags(f) && KeyOf(f) == KeyOf(e) {
        assert more[j + 1].e == f;
      }
      if AnsweredFor(more, |more|, KeyOf(e), f) && f != e {
        var j :| 0 <= j < |more| && more[j].Answered? && more[j].e == f && Tags(f) && KeyOf(f) == KeyOf(e);
        assert actions[j - 1].e == f;
      }
    }
    ToldFirstIsRecorded(actions, e);
  }

  lemma ToldFirstIsRecorded(actions: seq<Action>, e: DnsEvent)
    requires forall i | 0 <= i < |actions| :: actions[i].Answered?
    requires AnsweredFor(actions, |actions|, KeyOf(e), e)
    ensures Recorded(TellFirst(actions, e))
  {
    forall i | 0 <= i < |actions| ensures actions[i].e.time <= Reading(actions) {
      ReadingIsLate(actions, i);
    }
  }

  /**
   Every eviction-free run that was told the same about k ends with the same binding for
   it; with `recorded`, only runs of a forward clock and no answer from the future.
   */
  ghost predicate OrderIsIrrelevant(states: seq<Entries>, actions: seq<Action>, maxSize: int, k: DnsKey,
                                    recorded: bool)
    requires |states| == |actions| + 1 && k in states[|actions|]
  {
    forall states', actions' |
      Roomy(states', actions', maxSize) && SameAnswers(actions, actions', k) && (recorded ==> Recorded(actions')) ::
      k in states'[|actions'|] && states'[|actions'|][k] == states[|actions|][k]
  }

  /** An answer that ties with the binding but carries another deadline shows up if it arrives first. */
  lemma OtherDeadlineShows(states: seq<Entries>, actions: seq<Action>, maxSize: int, k: DnsKey, e: DnsEvent,
                           recorded: bool)
    requires Roomy(states, actions, maxSize) && maxSize >= 1 && k in states[|actions|]
    requires AnsweredFor(actions, |actions|, k, e)
    requires e.time == states[|actions|][k].time && e.qname == states[|actions|][k].hostname
    requires Deadline(e) != states[|actions|][k].deadline
    ensures !OrderIsIrrelevant(states, actions, maxSize, k, recorded)
  {
    forall f | AnsweredFor(actions, |actions|, k, f) ensures NotNewer(f.time, f.qname, e.time, e.qname) {
      NewestAnswerWins(states, actions, maxSize, |actions|, k, f);
    }
    var states', actions' := RunToldFirst(states, actions, maxSize, e);
    assert states'[|actions'|][k] != states[|actions|][k];
  }

  lemma RunToldFirst(states: seq<Entries>, actions: seq<Action>, maxSize: int, e: DnsEvent)
      returns (states': seq<Entries>, actions': seq<Action>)
    requires Roomy(states, actions, maxSize) && maxSize >= 1
    requires AnsweredFor(actions, |actions|, KeyOf(e), e) && KeyOf(e) in states[|actions|]
    requires forall f | AnsweredFor(actions, |actions|, KeyOf(e), f) :: NotNewer(f.time, f.qname, e.time, e.qname)
    ensures Roomy(states', actions', maxSize) && SameAnswers(actions, actions', KeyOf(e)) && Recorded(actions')
    ensures KeyOf(e) in states'[|actions'|] && states'[|actions'|][KeyOf(e)] == BindingOf(e)
  {
    ToldFirstIsRoomy(states, actions, maxSize, e);
    ToldFirstIsTheSame(actions, e);
    states', actions' := ToldFirst(states, e), TellFirst(actions, e);
    assert states'[|actions'|] == states[|actions|][KeyOf(e) := BindingOf(e)];
  }

  /**
   The order of arrival cannot decide the binding of k, deadline included, if and only
   if all answers that tie with it carry the same deadline; on recorded runs or on all.
   */
  lemma OrderIsIrrelevantExactlyWhen(states: seq<Entries>, actions: seq<Action>, maxSize: int, k: DnsKey,
                                     recorded: bool)
    requires Roomy(states, actions, maxSize) && maxSize >= 1 && k in states[|actions|]
    ensures OrderIsIrrelevant(states, actions, maxSize, k, recorded) <==>
            TiesShareDeadline(actions, k, states[|actions|][k])
  {
    var b := states[|actions|][k];
    if TiesShareDeadline(actions, k, b) {
      forall states', actions' | Roomy(states', actions', maxSize) && SameAnswers(actions, actions', k)
        ensures k in states'[|actions'|] && states'[|actions'|][k] == b
      {
        WholeBindingsAgree(states, actions, states', actions', maxSize, k);
      }
    } else {
      var e :| AnsweredFor(actions, |actions|, k, e) && e.time == b.time && e.qname == b.hostname
               && Deadline(e) != b.deadline;
      OtherDeadlineShows(states, actions, maxSize, k, e, recorded);
    }
  }

  /** One answer seen with two TTLs, on two eviction-free runs: the first to arrive decides the deadline. */
  lemma DeadlineDependsOnOrder(e: DnsEvent, maxSize: int)
    requires Tags(e) && !e.ttlUnknown && e.ttl == 60 && maxSize >= 1
    ensures var f := e.(ttl := 3600);
            var k, short, long := KeyOf(e), map[KeyOf(e) := BindingOf(e)], map[KeyOf(e) := BindingOf(f)];
            && Roomy([map[], short, short], [Answered(e, e.time), Answered(f, e.time)], maxSize)
            && Roomy([map[], long, long], [Answered(f, e.time), Answered(e, e.time)], maxSize)
            && short[k].deadline + 3540 * SECOND == long[k].deadline
  {
    var f := e.(ttl := 3600);
    StringLeTotal(e.qname, e.qname);
    TwoTolds(e, f, maxSize);
    TwoTolds(f, e, maxSize);
  }

  /** Of two answers that tie the first to arrive is kept. */
  lemma TwoTolds(e: DnsEvent, f: DnsEvent, maxSize: int)
    requires Tags(e) && Tags(f) && KeyOf(e) == KeyOf(f) && maxSize >= 1
    requires f.time == e.time && StringLe(f.qname, e.qname)
    ensures var m := map[KeyOf(e) := BindingOf(e)];
            Roomy([map[], m, m], [Answered(e, e.time), Answered(f, e.time)], maxSize)
  {
    var m := map[KeyOf(e) := BindingOf(e)];
    var states, actions := [map[], m, m], [Answered(e, e.time), Answered(f, e.time)];
    assert Stored(map[], e) == m && Stored(m, f) == m;
    assert StepAt(states, actions, maxSize, 0) && StepAt(states, actions, maxSize, 1);
  }

  // ---------------------------------------------------------------- hits

  /** Sweeps anywhere, but no answer that had to make room. */
  ghost predicate Uncapped(states: seq<Entries>, actions: seq<Action>, maxSize: int) {
    && IsRun(states, actions, maxSize)
    && forall i | 0 <= i < |actions| && actions[i].Answered? && Tags(actions[i].e) ::
         !NeedsRoom(states[i], actions[i].e, maxSize)
  }

  ghost predicate SweptBy(actions: seq<Action>, now: int) {
    forall a | a in actions && a.Swept? :: a.now <= now
  }

  /** A hit on k is no older than any answer for k. */
  ghost predicate HitIsNewest(m: Entries, actions: seq<Action>, k: DnsKey, now: int) {
    Hostname(m, k.client, k.answer, now) != "" ==>
      forall e | AnsweredFor(actions, |actions|, k, e) :: NotNewer(e.time, e.qname, m[k].time, m[k].hostname)
  }

  predicate Older(e: DnsEvent, f: DnsEvent) {
    !NotNewer(f.time, f.qname, e.time, e.qname)
  }

  /** No older answer is trusted longer than a newer one. */
  ghost predicate NoneOutlives(actions: seq<Action>, k: DnsKey) {
    forall e, f | AnsweredFor(actions, |actions|, k, e) && AnsweredFor(actions, |actions|, k, f) && Older(e, f) ::
      Deadline(e) <= Deadline(f)
  }

  /** An answer as new as f was stored and has run out. */
  ghost predicate RanOut(actions: seq<Action>, i: nat, k: DnsKey, f: DnsEvent, now: int)
    requires i <= |actions|
  {
    exists g :: AnsweredFor(actions, i, k, g) && NotNewer(f.time, f.qname, g.time, g.qname) && Deadline(g) < now
  }

  /** What a step does when it need not make room. */
  function Moved(m: Entries, a: Action): Entries {
    match a
    case Swept(now) => m - Expired(m, now)
    case Answered(e, _) => if Tags(e) then Stored(m, e) else m
  }

  lemma UncappedStep(states: seq<Entries>, actions: seq<Action>, maxSize: int, i: nat)
    requires Uncapped(states, actions, maxSize) && i < |actions|
    ensures states[i + 1] == Moved(states[i], actions[i])
  {
    assert StepAt(states, actions, maxSize, i);
  }

  ghost predicate HeldNewer(m: Entries, k: DnsKey, f: DnsEvent) {
    k in m && NotNewer(f.time, f.qname, m[k].time, m[k].hostname)
  }

  /** k holds something as new as f, or something as new as f has run out. */
  lemma {:induction false} KeptOrRanOut(states: seq<Entries>, actions: seq<Action>, maxSize: int, i: nat, k: DnsKey,
                                        f: DnsEvent, now: int)
    requires Uncapped(states, actions, maxSize) && SweptBy(actions, now)
    requires i <= |actions| && AnsweredFor(actions, i, k, f)
    ensures HeldNewer(states[i], k, f) || RanOut(actions, i, k, f, now)
  {
    var a := actions[i - 1];
    UncappedStep(states, actions, maxSize, i - 1);
    if a.Answered? && a.e == f {
      StringLeTotal(f.qname, f.qname);
    } else {
      var j :| 0 <= j < i && actions[j].Answered? && actions[j].e == f && Tags(f) && KeyOf(f) == k;
      assert AnsweredFor(actions, i - 1, k, f);
      KeptOrRanOut(states, actions, maxSize, i - 1, k, f, now);
      if RanOut(actions, i - 1, k, f, now) {
        var g :| AnsweredFor(actions, i - 1, k, g) && NotNewer(f.time, f.qname, g.time, g.qname) && Deadline(g) < now;
        assert AnsweredFor(actions, i, k, g);
      } else {
        StillKept(states, actions, maxSize, i - 1, k, f, now);
      }
    }
  }

  lemma StillKept(states: seq<Entries>, actions: seq<Action>, maxSize: int, i: nat, k: DnsKey, f: DnsEvent, now: int)
    requires Uncapped(states, actions, maxSize) && SweptBy(actions, now) && i < |actions|
    requires HeldNewer(states[i], k, f)
    ensures HeldNewer(Moved(states[i], actions[i]), k, f) || RanOut(actions, i + 1, k, f, now)
  {
    var m, a := states[i], actions[i];
    match a {
      case Answered(e, _) =>
        KeptByAnswer(m, e, k, f);
      case Swept(s) =>
        assert a in actions;
        if s > m[k].deadline {
          var g := HeldAnswer(states, actions, maxSize, i, k);
          assert AnsweredFor(actions, i + 1, k, g);
        }
    }
  }

  lemma KeptByAnswer(m: Entries, e: DnsEvent, k: DnsKey, f: DnsEvent)
    requires HeldNewer(m, k, f)
    ensures HeldNewer(Stored(m, e), k, f)
  {
    StoringNeverAges(m, e, k);
    NotNewerTransitive(f, DnsEvent(m[k].time, "", 0, m[k].hostname, "", "", 0, false), Stored(m, e)[k]);
  }

  lemma HeldAnswer(states: seq<Entries>, actions: seq<Action>, maxSize: int, i: nat, k: DnsKey) returns (e: DnsEvent)
    requires IsRun(states, actions, maxSize) && i <= |actions| && k in states[i]
    ensures AnsweredFor(actions, i, k, e) && BindingOf(e) == states[i][k]
  {
    EntriesWereAnswered(states, actions, maxSize, i, k);
    var j :| 0 <= j < i && actions[j].Answered? && Tags(actions[j].e) && KeyOf(actions[j].e) == k
             && BindingOf(actions[j].e) == states[i][k];
    e := actions[j].e;
  }

  /** Without cap evictions, and if no older answer outlives a newer one, every hit is the newest answer. */
  lemma HitsAreNewest(states: seq<Entries>, actions: seq<Action>, maxSize: int, k: DnsKey, now: int)
    requires Uncapped(states, actions, maxSize) && SweptBy(actions, now)
    requires NoneOutlives(actions, k)
    ensures HitIsNewest(states[|actions|], actions, k, now)
  {
    var m := states[|actions|];
    if Hostname(m, k.client, k.answer, now) != "" {
      var h := HeldAnswer(states, actions, maxSize, |actions|, k);
      forall f | AnsweredFor(actions, |actions|, k, f) ensures NotNewer(f.time, f.qname, h.time, h.qname) {
        KeptOrRanOut(states, actions, maxSize, |actions|, k, f, now);
        if RanOut(actions, |actions|, k, f, now) {
          var g :| AnsweredFor(actions, |actions|, k, g) && NotNewer(f.time, f.qname, g.time, g.qname)
                   && Deadline(g) < now;
          assert !Older(h, g);
          NotNewerTransitive(f, g, BindingOf(h));
        }
      }
    }
  }

  /** A newer answer is swept, then an older one that lives longer arrives: the hit is the older one. */
  lemma OlderAnswerReturns(e: DnsEvent, f: DnsEvent, maxSize: int)
      returns (states: seq<Entries>, actions: seq<Action>)
    requires Tags(e) && Tags(f) && KeyOf(e) == KeyOf(f) && e.client != "" && maxSize >= 1
    requires Older(e, f) && Deadline(f) < Deadline(e)
    ensures var now := Deadline(f) + 1;
            && actions == [Answered(f, f.time), Swept(now), Answered(e, now)]
            && Uncapped(states, actions, maxSize) && Recorded(actions)
            && !HitIsNewest(states[|actions|], actions, KeyOf(e), now)
  {
    var k, now := KeyOf(e), Deadline(f) + 1;
    states := [map[], map[k := BindingOf(f)], map[], map[k := BindingOf(e)]];
    actions := [Answered(f, f.time), Swept(now), Answered(e, now)];
    assert Stored(map[], f) == states[1] && Stored(map[], e) == states[3];
    assert Expired(states[1], now) == {k};
    assert StepAt(states, actions, maxSize, 0) && StepAt(states, actions, maxSize, 1);
    assert StepAt(states, actions, maxSize, 2);
    HitIsOlder(states[3], actions, e, f, now);
  }

  /** Asked no earlier than anything happened. */
  ghost predicate AskedLast(actions: seq<Action>, now: int) {
    forall a | a in actions :: a.now <= now
  }

  /**
   Every run fed from `answers` without cap evictions, asked no earlier than its sweeps,
   hits the newest only; with `recorded`, only recorded runs asked last.
   */
  ghost predicate AlwaysNewest(answers: set<DnsEvent>, k: DnsKey, maxSize: int, recorded: bool) {
    forall states, actions, now |
      && Uncapped(states, actions, maxSize) && SweptBy(actions, now) && FedFrom(actions, k, answers)
      && (recorded ==> Recorded(actions) && AskedLast(actions, now)) ::
      HitIsNewest(states[|actions|], actions, k, now)
  }

  ghost predicate FedFrom(actions: seq<Action>, k: DnsKey, answers: set<DnsEvent>) {
    forall e | AnsweredFor(actions, |actions|, k, e) :: e in answers
  }

  /** A hit always is the newest answer if and only if no older answer outlives a newer one. */
  lemma HitsAreNewestExactlyWhen(answers: set<DnsEvent>, k: DnsKey, maxSize: int, recorded: bool)
    requires maxSize >= 1 && k.client != ""
    requires forall e | e in answers :: Tags(e) && KeyOf(e) == k
    ensures AlwaysNewest(answers, k, maxSize, recorded) <==>
            forall e, f | e in answers && f in answers && Older(e, f) :: Deadline(e) <= Deadline(f)
  {
    if e, f :| e in answers && f in answers && Older(e, f) && Deadline(f) < Deadline(e) {
      var states, actions := OlderAnswerReturns(e, f, maxSize);
      forall g | AnsweredFor(actions, |actions|, k, g) ensures g in answers {
        var j :| 0 <= j < |actions| && actions[j].Answered? && actions[j].e == g;
      }
      assert FedFrom(actions, k, answers) && AskedLast(actions, Deadline(f) + 1);
    } else {
      forall states, actions, now |
        Uncapped(states, actions, maxSize) && SweptBy(actions, now) && FedFrom(actions, k, answers)
        ensures HitIsNewest(states[|actions|], actions, k, now)
      {
        HitsAreNewest(states, actions, maxSize, k, now);
      }
    }
  }

  lemma HitIsOlder(m: Entries, actions: seq<Action>, e: DnsEvent, f: DnsEvent, now: int)
    requires Tags(e) && Tags(f) && KeyOf(e) == KeyOf(f) && e.client != "" && Older(e, f)
    requires KeyOf(e) in m && m[KeyOf(e)] == BindingOf(e) && now <= Deadline(e)
    requires actions != [] && actions[0].Answered? && actions[0].e == f
    ensures !HitIsNewest(m, actions, KeyOf(e), now)
  {
    assert AnsweredFor(actions, |actions|, KeyOf(e), f);
  }
}
