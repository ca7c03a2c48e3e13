/**
 The live DNS cache: (client, answered address) -> hostname, newest answer first,
 trusted for a clamped TTL, and hard-capped in size.
 */
module DnsStore {
  import opened DnsEvents
  import opened DnsEviction
  import opened Text
  import opened VictimHeap

  const MIN_TTL := 60 * SECOND
  const MAX_TTL := 3600 * SECOND
  const UNKNOWN_TTL := 600 * SECOND

  function Horizon(e: DnsEvent): (ttl: int)
    ensures MIN_TTL <= ttl <= MAX_TTL
    ensures e.ttlUnknown ==> ttl == UNKNOWN_TTL
    ensures !e.ttlUnknown && MIN_TTL <= e.ttl * SECOND <= MAX_TTL ==> ttl == e.ttl * SECOND
  {
    var ttl := if e.ttlUnknown then UNKNOWN_TTL else e.ttl * SECOND;
    if ttl > MAX_TTL then MAX_TTL else if ttl < MIN_TTL then MIN_TTL else ttl
  }

  function KeyOf(e: DnsEvent): DnsKey {
    DnsKey(e.client, e.answer)
  }

  function BindingOf(e: DnsEvent): DnsBinding {
    DnsBinding(e.qname, e.time, e.time + Horizon(e))
  }

  /** A query without an answer, or an answer without a name, cannot key a live tag. */
  predicate Tags(e: DnsEvent) {
    e.answer != "" && e.qname != ""
  }

  /** Later, or as late with a hostname that does not sort after. */
  predicate NotNewer(time: int, name: string, time': int, name': string) {
    time < time' || (time == time' && StringLe(name, name'))
  }

  function Stored(m: Entries, e: DnsEvent): Entries {
    var k := KeyOf(e);
    if k in m && NotNewer(e.time, e.qname, m[k].time, m[k].hostname) then m else m[k := BindingOf(e)]
  }

  function Hostname(m: Entries, client: string, answer: string, now: int): string {
    var k := DnsKey(client, answer);
    if client == "" || answer == "" || k !in m || now > m[k].deadline then "" else m[k].hostname
  }

  // ---------------------------------------------------------------- what one step may do

  datatype Action = Answered(e: DnsEvent, now: int) | Swept(now: int)

  predicate NeedsRoom(m: Entries, e: DnsEvent, maxSize: int) {
    KeyOf(e) !in m && |m| >= maxSize
  }

  ghost predicate Step(m: Entries, m': Entries, a: Action, maxSize: int) {
    match a
    case Swept(now) => m' == m - Expired(m, now)
    case Answered(e, now) =>
      if !Tags(e) then m' == m
      else if !NeedsRoom(m, e, maxSize) then m' == Stored(m, e)
      else exists victims :: ValidChoice(m, maxSize, now, victims) && m' == Stored(m - victims, e)
  }

  /** Every entry of `part` is an entry of `whole`. */
  ghost predicate Submap(part: Entries, whole: Entries) {
    forall k | k in part :: k in whole && part[k] == whole[k]
  }

  /** m' is m without a valid choice of victims. */
  ghost predicate AfterEviction(m: Entries, m': Entries, maxSize: int, now: int) {
    exists victims :: ValidChoice(m, maxSize, now, victims) && m' == m - victims
  }

  class Store {
    var entries: Entries
    const maxSize: int

    ghost predicate Valid()
      reads this
    {
      maxSize >= 1 && |entries| <= maxSize
    }

    constructor (maxSize: int)
      requires maxSize >= 1
      ensures Valid() && this.maxSize == maxSize && entries == map[]
    {
      this.maxSize := maxSize;
      entries := map[];
    }

    /**
     Folds one answer in.  `released` lists what a concurrent reader may see, one map
     for each time the lock is let go.
     */
    method ApplyDns(e: DnsEvent, now: int) returns (ghost released: seq<Entries>)
      requires Valid()
      modifies this
      ensures Valid()
      ensures Step(old(entries), entries, Answered(e, now), maxSize)
      ensures forall m | m in released :: |m| <= maxSize && (m == entries || Submap(m, old(entries)))
      ensures Tags(e) ==> released != [] && released[|released| - 1] == entries
    {
      released := [];
      if e.answer == "" || e.qname == "" {
        return;
      }
      released := MakeRoom(KeyOf(e), now);
      StoreAnswer(e);
      released := released + [entries];
    }

    /** The first two critical sections: look whether the key is new at the cap, choose victims, delete them. */
    method MakeRoom(k: DnsKey, now: int) returns (ghost released: seq<Entries>)
      requires Valid()
      modifies this
      ensures if k !in old(entries) && |old(entries)| >= maxSize
              then AfterEviction(old(entries), entries, maxSize, now)
              else entries == old(entries)
      ensures |entries| <= maxSize && (k !in entries ==> |entries| < maxSize)
      ensures Submap(entries, old(entries))
      ensures released == [old(entries)] || released == [old(entries), entries]
    {
      var atCap := k !in entries && |entries| >= maxSize;
      released := [entries];
      if atCap {
        Evict(now);
        released := released + [entries];
      }
    }

    /** Chooses victims under the read lock and deletes them under the write lock. */
    method Evict(now: int)
      requires Valid()
      modifies this
      ensures AfterEviction(old(entries), entries, maxSize, now)
      ensures |entries| < maxSize && Submap(entries, old(entries))
    {
      var victims, _, _, _ := SelectEvictions(entries, maxSize, now);
      RoomAfter(entries, maxSize, now, Keys(victims));
      if |victims| > 0 {
        DeleteAll(victims);
      }
    }

    /** The last critical section: newest answer wins, ties go to the greater hostname. */
    method StoreAnswer(e: DnsEvent)
      modifies this
      ensures entries == Stored(old(entries), e)
    {
      var k := KeyOf(e);
      if k in entries {
        if e.time < entries[k].time {
          return;
        }
        if e.time == entries[k].time && StringLe(e.qname, entries[k].hostname) {
          return;
        }
      }
      entries := entries[k := BindingOf(e)];
    }

    method DeleteAll(victims: seq<DnsKey>)
      modifies this
      ensures entries == old(entries) - Keys(victims)
    {
      for i := 0 to |victims|
        invariant entries == old(entries) - Keys(victims[..i])
      {
        assert victims[..i + 1] == victims[..i] + [victims[i]];
        KeysSnoc(victims[..i], victims[i]);
        entries := entries - {victims[i]};
      }
      assert victims[..|victims|] == victims;
    }

    method EvictExpired(now: int)
      requires Valid()
      modifies this
      ensures Valid()
      ensures Step(old(entries), entries, Swept(now), maxSize)
    {
      RemovalShrinks(entries, Expired(entries, now));
      entries := Unexpired(entries, now);
    }

    static method Unexpired(m: Entries, now: int) returns (r: Entries)
      ensures r == m - Expired(m, now)
    {
      r := m;
      var todo := m.Keys;
      while todo != {}
        invariant todo <= m.Keys
        invariant forall k :: k in r <==> k in m && (k in todo || now <= m[k].deadline)
        invariant forall k | k in r :: r[k] == m[k]
      {
        var k :| k in todo;
        todo := todo - {k};
        if now > m[k].deadline {
          r := r - {k};
        }
      }
    }

    method Lookup(client: string, answer: string, now: int) returns (hostname: string)
      ensures hostname == Hostname(entries, client, answer, now)
    {
      if client == "" || answer == "" {
        return "";
      }
      var k := DnsKey(client, answer);
      if k !in entries || now > entries[k].deadline {
        return "";
      }
      return entries[k].hostname;
    }
  }

  lemma RemovalShrinks(m: Entries, gone: set<DnsKey>)
    ensures |m - gone| <= |m|
  {
  }

  /** A valid choice leaves room for one more entry. */
  lemma RoomAfter(m: Entries, maxSize: int, now: int, victims: set<DnsKey>)
    requires maxSize >= 1 && |m| <= maxSize
    requires ValidChoice(m, maxSize, now, victims)
    ensures |m - victims| < maxSize
  {
  }

  // ---------------------------------------------------------------- what one step promises

  const MINUTE := 60_000_000_000

  /** An answer with a name and an address is in the cache after its step, in place of anything older. */
  lemma AnswerIsStored(m: Entries, m': Entries, e: DnsEvent, now: int, maxSize: int)
    requires Step(m, m', Answered(e, now), maxSize) && e.answer != "" && e.qname != ""
    ensures var k := DnsKey(e.client, e.answer);
            && k in m' && m'[k].time >= e.time
            && (k in m && m[k].time > e.time ==> m'[k] == m[k])
            && (k !in m || m[k].time < e.time ==>
                  && m'[k].hostname == e.qname && m'[k].time == e.time
                  && e.time + MINUTE <= m'[k].deadline <= e.time + 60 * MINUTE
                  && (e.ttlUnknown ==> m'[k].deadline == e.time + 10 * MINUTE)
                  && (!e.ttlUnknown && 60 <= e.ttl <= 3600 ==> m'[k].deadline == e.time + e.ttl * 1_000_000_000))
  {
  }

  /** Of one time, the hostname that sorts last stays. */
  lemma TieGoesToTheGreater(m: Entries, m': Entries, e: DnsEvent, now: int, maxSize: int)
    requires Step(m, m', Answered(e, now), maxSize) && e.answer != "" && e.qname != ""
    requires var k := DnsKey(e.client, e.answer); k in m && m[k].time == e.time
    ensures var k := DnsKey(e.client, e.answer);
            m'[k].hostname == (if StringLe(e.qname, m[k].hostname) then m[k].hostname else e.qname)
  {
  }

  /** No other key gains anything, and none is lost but to make room for a new key at the cap. */
  lemma OthersStay(m: Entries, m': Entries, e: DnsEvent, now: int, maxSize: int, k: DnsKey)
    requires Step(m, m', Answered(e, now), maxSize) && k != DnsKey(e.client, e.answer)
    ensures k in m' ==> k in m && m'[k] == m[k]
    ensures DnsKey(e.client, e.answer) in m || |m| < maxSize || e.answer == "" || e.qname == "" ==> (k in m ==> k in m')
  {
  }

  /** A query without an answer, or an answer without a name, changes nothing. */
  lemma NothingToStore(m: Entries, m': Entries, e: DnsEvent, now: int, maxSize: int)
    requires Step(m, m', Answered(e, now), maxSize) && (e.answer == "" || e.qname == "")
    ensures m' == m
  {
  }

  /** What a client was told is what it is shown, for at least a minute and at most an hour. */
  lemma AnswerIsShown(m: Entries, m': Entries, e: DnsEvent, now: int, maxSize: int, t: int)
    requires Step(m, m', Answered(e, now), maxSize) && e.answer != "" && e.qname != "" && e.client != ""
    requires DnsKey(e.client, e.answer) !in m || m[DnsKey(e.client, e.answer)].time < e.time
    ensures t <= e.time + MINUTE ==> Hostname(m', e.client, e.answer, t) == e.qname
    ensures t > e.time + 60 * MINUTE ==> Hostname(m', e.client, e.answer, t) == ""
    ensures e.ttlUnknown ==> (Hostname(m', e.client, e.answer, t) == e.qname <==> t <= e.time + 10 * MINUTE)
  {
    AnswerIsStored(m, m', e, now, maxSize);
  }

  /** A sweep leaves exactly the entries that have not run out. */
  lemma SweepRemovesExactly(m: Entries, m': Entries, now: int, maxSize: int, k: DnsKey)
    requires Step(m, m', Swept(now), maxSize)
    ensures k in m' <==> k in m && m[k].deadline >= now
    ensures k in m' ==> m'[k] == m[k]
  {
  }

  /** An eviction sheds every expired entry and otherwise no more than a sixteenth of the cap. */
  lemma EvictionShedsExpired(m: Entries, maxSize: int, now: int, victims: set<DnsKey>, k: DnsKey)
    requires ValidChoice(m, maxSize, now, victims)
    ensures k in m && m[k].deadline < now ==> k in victims
    ensures k in victims ==> k in m
    ensures |victims| <= |Expired(m, now)| || |victims| <= Shed(maxSize)
  {
  }

  // ---------------------------------------------------------------- whole runs

  ghost predicate StepAt(states: seq<Entries>, actions: seq<Action>, maxSize: int, i: nat)
    requires |states| == |actions| + 1 && i < |actions|
  {
    Step(states[i], states[i + 1], actions[i], maxSize)
  }

  ghost predicate IsRun(states: seq<Entries>, actions: seq<Action>, maxSize: int) {
    && |states| == |actions| + 1
    && states[0] == map[]
    && forall i | 0 <= i < |actions| :: StepAt(states, actions, maxSize, i)
  }

  /** The cap holds in every state of every run. */
  lemma {:induction false} HardCap(states: seq<Entries>, actions: seq<Action>, maxSize: int, i: nat)
    requires IsRun(states, actions, maxSize) && maxSize >= 1 && i < |states|
    ensures |states[i]| <= maxSize
  {
    if i > 0 {
      HardCap(states, actions, maxSize, i - 1);
      assert StepAt(states, actions, maxSize, i - 1);
      StepKeepsCap(states[i - 1], states[i], actions[i - 1], maxSize);
    }
  }

  lemma StepKeepsCap(m: Entries, m': Entries, a: Action, maxSize: int)
    requires Step(m, m', a, maxSize) && |m| <= maxSize && maxSize >= 1
    ensures |m'| <= maxSize
  {
    match a {
      case Swept(now) => RemovalShrinks(m, Expired(m, now));
      case Answered(e, now) =>
        if Tags(e) {
          if NeedsRoom(m, e, maxSize) {
            var victims :| ValidChoice(m, maxSize, now, victims) && m' == Stored(m - victims, e);
            RoomAfter(m, maxSize, now, victims);
            StoringAddsOne(m - victims, e);
          } else {
            StoringAddsOne(m, e);
          }
        }
    }
  }

  lemma StoringAddsOne(m: Entries, e: DnsEvent)
    ensures |Stored(m, e)| <= |m| + if KeyOf(e) in m then 0 else 1
  {
  }

  /** Some answer among the first n actions stored this binding under this key. */
  ghost predicate StoredBy(actions: seq<Action>, n: nat, k: DnsKey, b: DnsBinding)
    requires n <= |actions|
  {
    exists j | 0 <= j < n ::
      actions[j].Answered? && Tags(actions[j].e) && KeyOf(actions[j].e) == k && BindingOf(actions[j].e) == b
  }

  /** Every entry of every state is some earlier answer, key, name, time and horizon alike. */
  lemma {:induction false} EntriesWereAnswered(states: seq<Entries>, actions: seq<Action>, maxSize: int, i: nat,
                                               k: DnsKey)
    requires IsRun(states, actions, maxSize) && i < |states| && k in states[i]
    ensures StoredBy(actions, i, k, states[i][k])
  {
    if i > 0 {
      assert StepAt(states, actions, maxSize, i - 1);
      StepOrigin(states[i - 1], states[i], actions[i - 1], maxSize, k);
      if k in states[i - 1] && states[i - 1][k] == states[i][k] {
        EntriesWereAnswered(states, actions, maxSize, i - 1, k);
      }
    }
  }

  /** An entry after a step was there before, or is the answer of the step. */
  lemma StepOrigin(m: Entries, m': Entries, a: Action, maxSize: int, k: DnsKey)
    requires Step(m, m', a, maxSize) && k in m'
    ensures || (k in m && m[k] == m'[k])
            || (a.Answered? && Tags(a.e) && KeyOf(a.e) == k && BindingOf(a.e) == m'[k])
  {
  }

  /** A hit names what that client was told about that address, within the answer's own horizon. */
  lemma HitsWereAnswered(states: seq<Entries>, actions: seq<Action>, maxSize: int, client: string, answer: string,
                         now: int)
    requires IsRun(states, actions, maxSize)
    requires Hostname(states[|actions|], client, answer, now) != ""
    ensures exists j | 0 <= j < |actions| ::
              && actions[j].Answered?
              && actions[j].e.client == client && actions[j].e.answer == answer
              && actions[j].e.qname == Hostname(states[|actions|], client, answer, now)
              && now <= actions[j].e.time + Horizon(actions[j].e) <= actions[j].e.time + MAX_TTL
  {
    var k := DnsKey(client, answer);
    EntriesWereAnswered(states, actions, maxSize, |actions|, k);
  }

  // ---------------------------------------------------------------- without evictions: a maximum

  /** No sweep, and no answer that had to make room. */
  ghost predicate Roomy(states: seq<Entries>, actions: seq<Action>, maxSize: int) {
    && IsRun(states, actions, maxSize)
    && forall i | 0 <= i < |actions| ::
         actions[i].Answered? && (Tags(actions[i].e) ==> !NeedsRoom(states[i], actions[i].e, maxSize))
  }

  ghost predicate AnsweredFor(actions: seq<Action>, n: nat, k: DnsKey, e: DnsEvent)
    requires n <= |actions|
  {
    exists j | 0 <= j < n :: actions[j].Answered? && actions[j].e == e && Tags(e) && KeyOf(e) == k
  }

  lemma NotNewerTransitive(e: DnsEvent, f: DnsEvent, b: DnsBinding)
    requires NotNewer(e.time, e.qname, f.time, f.qname)
    requires NotNewer(f.time, f.qname, b.time, b.hostname)
    ensures NotNewer(e.time, e.qname, b.time, b.hostname)
  {
    if e.time == f.time == b.time {
      StringLeTransitive(e.qname, f.qname, b.hostname);
    }
  }

  /** Each key holds the newest of its answers so far, ties going to the greatest hostname. */
  lemma {:induction false} NewestAnswerWins(states: seq<Entries>, actions: seq<Action>, maxSize: int, i: nat,
                                            k: DnsKey, e: DnsEvent)
    requires Roomy(states, actions, maxSize) && i < |states|
    requires AnsweredFor(actions, i, k, e)
    ensures k in states[i] && NotNewer(e.time, e.qname, states[i][k].time, states[i][k].hostname)
  {
    var m, m', a := states[i - 1], states[i], actions[i - 1];
    assert StepAt(states, actions, maxSize, i - 1);
    var j :| 0 <= j < i && actions[j].Answered? && actions[j].e == e && Tags(e) && KeyOf(e) == k;
    if j == i - 1 {
      StringLeTotal(e.qname, e.qname);
    } else {
      assert AnsweredFor(actions, i - 1, k, e);
      NewestAnswerWins(states, actions, maxSize, i - 1, k, e);
      StoringNeverAges(m, a.e, k);
      var f := DnsEvent(m[k].time, "", 0, m[k].hostname, "", "", 0, false);
      if Tags(a.e) {
        NotNewerTransitive(e, f, m'[k]);
      } else {
        assert m' == m;
      }
    }
  }

  lemma StoringNeverAges(m: Entries, e: DnsEvent, k: DnsKey)
    requires k in m
    ensures var m' := Stored(m, e); k in m' && NotNewer(m[k].time, m[k].hostname, m'[k].time, m'[k].hostname)
  {
    StringLeTotal(m[k].hostname, m[k].hostname);
    StringLeTotal(m[k].hostname, e.qname);
  }

  /** Two eviction-free runs over the same answers, in whatever order, agree on every key, time and hostname. */
  lemma ArrivalOrderIsIrrelevant(states: seq<Entries>, actions: seq<Action>, states': seq<Entries>,
                                 actions': seq<Action>,
                                 maxSize: int, k: DnsKey)
    requires Roomy(states, actions, maxSize) && Roomy(states', actions', maxSize)
    requires forall e :: AnsweredFor(actions, |actions|, k, e) <==> AnsweredFor(actions', |actions'|, k, e)
    ensures var m, m' := states[|actions|], states'[|actions'|];
            && (k in m <==> k in m')
            && (k in m ==> m[k].time == m'[k].time && m[k].hostname == m'[k].hostname)
  {
    var m, m' := states[|actions|], states'[|actions'|];
    if k in m {
      HeldIsNewest(states, actions, states', actions', maxSize, k);
    }
    if k in m' {
      HeldIsNewest(states', actions', states, actions, maxSize, k);
    }
    if k in m && k in m' && m[k].time == m'[k].time {
      StringLeAntisymmetric(m[k].hostname, m'[k].hostname);
    }
  }

  lemma HeldIsNewest(states: seq<Entries>, actions: seq<Action>, states': seq<Entries>, actions': seq<Action>,
                     maxSize: int, k: DnsKey)
    requires Roomy(states, actions, maxSize) && Roomy(states', actions', maxSize)
    requires forall e :: AnsweredFor(actions, |actions|, k, e) ==> AnsweredFor(actions', |actions'|, k, e)
    requires k in states[|actions|]
    ensures var b := states[|actions|][k]; var m' := states'[|actions'|];
            k in m' && NotNewer(b.time, b.hostname, m'[k].time, m'[k].hostname)
  {
    EntriesWereAnswered(states, actions, maxSize, |actions|, k);
    var j :| 0 <= j < |actions| && actions[j].Answered? && Tags(actions[j].e) && KeyOf(actions[j].e) == k
             && BindingOf(actions[j].e) == states[|actions|][k];
    assert AnsweredFor(actions, |actions|, k, actions[j].e);
    NewestAnswerWins(states', actions', maxSize, |actions'|, k, actions[j].e);
  }
}
