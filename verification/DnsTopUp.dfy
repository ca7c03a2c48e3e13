/**
 The top-up of an eviction against its promise.  `SelectEvictions` fills what expired
 keys leave of its budget from the front of a max-heap, whose root is the latest of the
 oldest; here is when that front is, all the same, the oldest of the unexpired entries.
 */
module DnsTopUp {
  import opened DnsEviction
  import opened VictimHeap

  lemma FrontPosition(h: seq<Victim>, entries: Entries, oldest: set<DnsKey>, n: nat, j: nat)
    requires oldest <= entries.Keys && Lists(h, entries, oldest) && n <= |h| && j < |h|
    ensures h[j].key in oldest && h[j] == Victim(h[j].key, entries[h[j].key].deadline)
    ensures h[j].key in Front(h, n) <==> j < n
  {
    ListsSize(h, entries, oldest);
    ListedKeys(h, entries, oldest);
    assert h[j] in h;
    assert KeysOf(h[..n]) == KeysOf(h)[..n];
    if j < n {
      assert KeysOf(h)[..n][j] == h[j].key;
    }
    if h[j].key in Front(h, n) {
      var i :| 0 <= i < n && KeysOf(h)[..n][i] == h[j].key;
      assert KeysOf(h)[i] == KeysOf(h)[j];
    }
  }

  lemma PositionOf(h: seq<Victim>, entries: Entries, oldest: set<DnsKey>, k: DnsKey) returns (j: nat)
    requires oldest <= entries.Keys && Lists(h, entries, oldest) && k in oldest
    ensures j < |h| && h[j].key == k
  {
    ListsSize(h, entries, oldest);
    assert Victim(k, entries[k].deadline) in h;
    j :| 0 <= j < |h| && h[j] == Victim(k, entries[k].deadline);
  }

  /** A proper front of the heap is a choice of the oldest if and only if all behind it tie with the root. */
  lemma FrontIsOldestExactlyWhen(entries: Entries, live: set<DnsKey>, shed: int, h: seq<Victim>, oldest: set<DnsKey>,
                                 need: nat)
    requires live <= entries.Keys && IsOldest(entries, live, shed, oldest)
    requires MaxHeap(h) && Lists(h, entries, oldest)
    requires 0 < need < |h|
    ensures IsOldest(entries, live, need, Front(h, need)) <==> TiedFrom(h, need)
  {
    ListsSize(h, entries, oldest);
    FrontOfHeap(h, entries, oldest, need);
    RootBounds(h, entries, oldest);
    if IsOldest(entries, live, need, Front(h, need)) {
      FrontPosition(h, entries, oldest, need, 0);
      forall j | 0 <= j < |h| && need <= j ensures h[j].deadline == h[0].deadline {
        FrontPosition(h, entries, oldest, need, j);
      }
    }
    if TiedFrom(h, need) {
      forall k, o | o in Front(h, need) && k in live && k !in Front(h, need)
        ensures entries[o].deadline <= entries[k].deadline
      {
        if k in oldest {
          var j := PositionOf(h, entries, oldest, k);
          FrontPosition(h, entries, oldest, need, j);
        }
      }
    }
  }

  /**
   Of what is selected, the unexpired part is the oldest of the unexpired entries if and
   only if nothing, or the whole heap, or one of several equals is taken.
   */
  lemma TopUpIsOldestExactlyWhen(entries: Entries, maxSize: int, now: int, victims: seq<DnsKey>, h: seq<Victim>,
                                 oldest: set<DnsKey>)
    requires Selects(entries, maxSize, now, victims, h, oldest)
    ensures var need := Shed(maxSize) - |Expired(entries, now)|;
            IsOldest(entries, Fresh(entries, now), Max(0, need), Keys(victims) * Fresh(entries, now)) <==>
            need <= 0 || need >= |h| || TiedFrom(h, need)
  {
    var need := Shed(maxSize) - |Expired(entries, now)|;
    ListsSize(h, entries, oldest);
    FrontOfHeap(h, entries, oldest, need);
    UnexpiredPart(Keys(victims), Expired(entries, now), Fresh(entries, now), Front(h, need));
    if 0 < need < |h| {
      FrontIsOldestExactlyWhen(entries, Fresh(entries, now), Shed(maxSize), h, oldest, need);
    }
  }

  lemma UnexpiredPart(victims: set<DnsKey>, dead: set<DnsKey>, live: set<DnsKey>, front: set<DnsKey>)
    requires victims == dead + front && dead !! live && front <= live
    ensures victims * live == front
  {
  }

  /** With room for one more victim the code sheds the latest of the oldest entries. */
  lemma OneSlotShedsTheLatest(entries: Entries, h: seq<Victim>, oldest: set<DnsKey>)
    requires oldest <= entries.Keys && MaxHeap(h) && h != [] && Lists(h, entries, oldest)
    ensures exists k | k in oldest ::
              Front(h, 1) == {k} && forall o | o in oldest :: entries[o].deadline <= entries[k].deadline
  {
    RootBounds(h, entries, oldest);
    assert h[..1] == [h[0]];
    assert KeysOf(h[..1]) == [h[0].key];
  }

  /** No two of the keys share a deadline. */
  ghost predicate DeadlinesDiffer(entries: Entries, keys: set<DnsKey>)
    requires keys <= entries.Keys
  {
    forall j, k | j in keys && k in keys && j != k :: entries[j].deadline != entries[k].deadline
  }

  /**
   In every full cache, with room for one more victim than expired entries, at least two
   chosen, and no two unexpired entries equally old: the one taken is not the oldest.
   */
  lemma TopUpMissesTheOldest(entries: Entries, maxSize: int, now: int, victims: seq<DnsKey>, h: seq<Victim>,
                             oldest: set<DnsKey>)
    requires |entries| == maxSize && Shed(maxSize) >= 2 && |Expired(entries, now)| == Shed(maxSize) - 1
    requires DeadlinesDiffer(entries, Fresh(entries, now))
    requires Selects(entries, maxSize, now, victims, h, oldest)
    ensures !IsOldest(entries, Fresh(entries, now), 1, Keys(victims) * Fresh(entries, now))
  {
    var live := Fresh(entries, now);
    TopUpIsOldestExactlyWhen(entries, maxSize, now, victims, h, oldest);
    ListsSize(h, entries, oldest);
    ExpiredOrFresh(entries, now);
    assert |entries.Keys| == |Expired(entries, now)| + |live|;
    assert |h| >= 2;
    FrontPosition(h, entries, oldest, 0, 0);
    FrontPosition(h, entries, oldest, 0, 1);
    ListedKeys(h, entries, oldest);
    assert KeysOf(h)[0] != KeysOf(h)[1];
  }

  // ---------------------------------------------------------------- the condition on the entries alone

  /** The keys none of `live` is earlier than. */
  function Earliest(entries: Entries, live: set<DnsKey>): set<DnsKey>
    requires live <= entries.Keys
  {
    set k | k in live && forall j | j in live :: entries[k].deadline <= entries[j].deadline
  }

  /** With enough ties every choice of the oldest is made of earliest keys only. */
  lemma TiesFillTheChoice(entries: Entries, live: set<DnsKey>, n: int, oldest: set<DnsKey>)
    requires live <= entries.Keys && IsOldest(entries, live, n, oldest)
    requires |Earliest(entries, live)| >= |oldest|
    ensures oldest <= Earliest(entries, live)
  {
    if o :| o in oldest && o !in Earliest(entries, live) {
      var j :| j in live && entries[j].deadline < entries[o].deadline;
      forall e | e in Earliest(entries, live) ensures e in oldest {
        assert entries[e].deadline <= entries[j].deadline;
      }
      assert |Earliest(entries, live) + {o}| == |Earliest(entries, live)| + 1;
      SubsetOfSameSize(Earliest(entries, live) + {o}, oldest);
    }
  }

  lemma LatestOf(entries: Entries, keys: set<DnsKey>) returns (k: DnsKey)
    requires keys <= entries.Keys && keys != {}
    ensures k in keys && forall j | j in keys :: entries[j].deadline <= entries[k].deadline
  {
    k :| k in keys;
    if keys != {k} {
      var l := LatestOf(entries, keys - {k});
      k := if entries[k].deadline < entries[l].deadline then l else k;
    }
  }

  /** The layout a descending iteration leaves in the heap slice. */
  lemma Descending(entries: Entries, keys: set<DnsKey>) returns (h: seq<Victim>)
    requires keys <= entries.Keys
    ensures Lists(h, entries, keys)
    ensures Descends(h)
  {
    if keys == {} {
      h := [];
    } else {
      var k := LatestOf(entries, keys);
      var rest := Descending(entries, keys - {k});
      ListsSize(rest, entries, keys - {k});
      h := [Victim(k, entries[k].deadline)] + rest;
      PushLists(rest, h, entries, keys - {k}, k);
      assert keys - {k} + {k} == keys;
      forall i, j | 0 <= i < j < |h| ensures h[j].deadline <= h[i].deadline {
        assert h[j] == rest[j - 1] && rest[j - 1] in rest;
      }
    }
  }

  lemma OldestExists(entries: Entries, live: set<DnsKey>, n: int) returns (oldest: set<DnsKey>)
    requires live <= entries.Keys && n >= 1
    ensures IsOldest(entries, live, n, oldest)
  {
    if live == {} {
      oldest := {};
    } else {
      var k :| k in live;
      var rest := live - {k};
      var old' := OldestExists(entries, rest, n);
      assert rest + {k} == live;
      if |old'| < n {
        GrowOldest(entries, rest, n, old', k);
        oldest := old' + {k};
      } else {
        var out := LatestOf(entries, old');
        if entries[k].deadline < entries[out].deadline {
          ReplaceLatest(entries, rest, n, old', out, k);
          oldest := old' - {out} + {k};
        } else {
          SkipLater(entries, rest, n, old', k);
          oldest := old';
        }
      }
    }
  }

  lemma Listing(keys: set<DnsKey>) returns (s: seq<DnsKey>)
    ensures Keys(s) == keys && |s| == |keys|
  {
    if keys == {} {
      s := [];
    } else {
      var k :| k in keys;
      var rest := Listing(keys - {k});
      KeysSnoc(rest, k);
      s := rest + [k];
    }
  }

  /** The unexpired keys an iteration in this order tops up with. */
  function ToppedUp(entries: Entries, maxSize: int, now: int, order: seq<DnsKey>): set<DnsKey>
    requires Iterates(order, entries)
  {
    Front(HeapOf(entries, order, Shed(maxSize), now), Shed(maxSize) - |Expired(entries, now)|)
  }

  /** In whatever order the entries are visited, the top-up is the oldest of the unexpired ones. */
  ghost predicate AlwaysOldest(entries: Entries, maxSize: int, now: int) {
    forall order | Iterates(order, entries) ::
      IsOldest(entries, Fresh(entries, now), Max(0, Shed(maxSize) - |Expired(entries, now)|),
               ToppedUp(entries, maxSize, now, order))
  }

  /**
   It always is if and only if nothing is topped up, or all that may be listed is taken,
   or enough of the unexpired entries share the earliest deadline to fill the heap.
   */
  lemma AlwaysOldestExactlyWhen(entries: Entries, maxSize: int, now: int)
    ensures var live, need := Fresh(entries, now), Shed(maxSize) - |Expired(entries, now)|;
            var room := Min(Shed(maxSize), |live|);
            AlwaysOldest(entries, maxSize, now) <==>
            need <= 0 || need >= room || |Earliest(entries, live)| >= room
  {
    var live, need := Fresh(entries, now), Shed(maxSize) - |Expired(entries, now)|;
    var room := Min(Shed(maxSize), |live|);
    if need <= 0 || need >= room || |Earliest(entries, live)| >= room {
      forall order | Iterates(order, entries)
        ensures IsOldest(entries, live, Max(0, need), ToppedUp(entries, maxSize, now, order))
      {
        OldestInThisOrder(entries, maxSize, now, order);
      }
    } else {
      var order := LatestFirst(entries, maxSize, now);
      assert !IsOldest(entries, live, need, ToppedUp(entries, maxSize, now, order));
    }
  }

  lemma OldestInThisOrder(entries: Entries, maxSize: int, now: int, order: seq<DnsKey>)
    requires Iterates(order, entries)
    requires var live, need := Fresh(entries, now), Shed(maxSize) - |Expired(entries, now)|;
             var room := Min(Shed(maxSize), |live|);
             need <= 0 || need >= room || |Earliest(entries, live)| >= room
    ensures IsOldest(entries, Fresh(entries, now), Max(0, Shed(maxSize) - |Expired(entries, now)|),
                     ToppedUp(entries, maxSize, now, order))
  {
    var live, need := Fresh(entries, now), Shed(maxSize) - |Expired(entries, now)|;
    var h := HeapOf(entries, order, Shed(maxSize), now);
    var oldest := IterationIsRight(entries, order, Shed(maxSize), now);
    ListsSize(h, entries, oldest);
    FrontOfHeap(h, entries, oldest, need);
    if 0 < need < |h| {
      TiesFillTheChoice(entries, live, Shed(maxSize), oldest);
      TiedThroughout(entries, live, h, oldest, need);
      FrontIsOldestExactlyWhen(entries, live, Shed(maxSize), h, oldest, need);
    }
  }

  lemma TiedThroughout(entries: Entries, live: set<DnsKey>, h: seq<Victim>, oldest: set<DnsKey>, need: nat)
    requires live <= entries.Keys && oldest <= Earliest(entries, live) && Lists(h, entries, oldest)
    ensures TiedFrom(h, need)
  {
    forall j | 0 <= j < |h| && need <= j ensures h[j].deadline == h[0].deadline {
      FrontPosition(h, entries, oldest, 0, j);
      FrontPosition(h, entries, oldest, 0, 0);
    }
  }

  /** With too few ties, visiting the oldest latest first tops up with others than the oldest. */
  lemma LatestFirst(entries: Entries, maxSize: int, now: int) returns (order: seq<DnsKey>)
    requires var live, need := Fresh(entries, now), Shed(maxSize) - |Expired(entries, now)|;
             var room := Min(Shed(maxSize), |live|);
             0 < need < room && |Earliest(entries, live)| < room
    ensures Iterates(order, entries)
    ensures var need := Shed(maxSize) - |Expired(entries, now)|;
            !IsOldest(entries, Fresh(entries, now), need, ToppedUp(entries, maxSize, now, order))
  {
    var live, need := Fresh(entries, now), Shed(maxSize) - |Expired(entries, now)|;
    var h, oldest := UntiedHeap(entries, live, Shed(maxSize), need);
    order := OrderOf(entries, h, oldest, Shed(maxSize), now);
    FrontIsOldestExactlyWhen(entries, live, Shed(maxSize), h, oldest, need);
  }

  /** Every descending list of a choice of the oldest is the heap of some iteration. */
  lemma OrderOf(entries: Entries, h: seq<Victim>, oldest: set<DnsKey>, shed: int, now: int) returns (order: seq<DnsKey>)
    requires shed >= 1 && IsOldest(entries, Fresh(entries, now), shed, oldest) && Lists(h, entries, oldest)
    requires Descends(h)
    ensures Iterates(order, entries) && HeapOf(entries, order, shed, now) == h
  {
    ListsSize(h, entries, oldest);
    ListedKeys(h, entries, oldest);
    var rest := Listing(entries.Keys - oldest);
    order := KeysOf(h) + rest;
    KeysConcat(KeysOf(h), rest);
    assert oldest + (entries.Keys - oldest) == entries.Keys;
    forall i | 0 <= i < |h| ensures h[i].key in oldest && h[i].deadline == entries[h[i].key].deadline {
      FrontPosition(h, entries, oldest, 0, i);
    }
    PushesOnly(entries, h, oldest, shed, now);
    SkipsTheRest(entries, h, KeysOf(h), rest, oldest, shed, now);
  }

  ghost predicate Descends(h: seq<Victim>) {
    forall i, j | 0 <= i < j < |h| :: h[j].deadline <= h[i].deadline
  }

  /** Visited latest first, the chosen keys are pushed and stay where they are. */
  lemma {:induction false} PushesOnly(entries: Entries, h: seq<Victim>, oldest: set<DnsKey>, shed: int, now: int)
    requires oldest <= Fresh(entries, now) && Descends(h) && |h| <= shed
    requires forall i | 0 <= i < |h| :: h[i].key in oldest && h[i].deadline == entries[h[i].key].deadline
    ensures Keys(KeysOf(h)) <= entries.Keys && HeapOf(entries, KeysOf(h), shed, now) == h
  {
    if h != [] {
      var n := |h| - 1;
      PushesOnly(entries, h[..n], oldest, shed, now);
      assert KeysOf(h)[..n] == KeysOf(h[..n]) && KeysOf(h)[n] == h[n].key;
      KeysSnoc(KeysOf(h[..n]), h[n].key);
      assert KeysOf(h) == KeysOf(h[..n]) + [h[n].key];
      StaysWhereItIs(h);
    }
  }

  lemma StaysWhereItIs(h: seq<Victim>)
    requires h != [] && Descends(h)
    ensures Pushed(h[..|h| - 1], h[|h| - 1]) == h
  {
    assert h[..|h| - 1] + [h[|h| - 1]] == h;
  }

  /** Once the oldest are listed, no other entry gets in. */
  lemma {:induction false} SkipsTheRest(entries: Entries, h: seq<Victim>, first: seq<DnsKey>, rest: seq<DnsKey>,
                                        oldest: set<DnsKey>, shed: int, now: int)
    requires shed >= 1 && IsOldest(entries, Fresh(entries, now), shed, oldest) && Lists(h, entries, oldest)
    requires Keys(first) <= entries.Keys && HeapOf(entries, first, shed, now) == h
    requires Keys(rest) <= entries.Keys - oldest
    ensures Keys(first + rest) <= entries.Keys && HeapOf(entries, first + rest, shed, now) == h
  {
    KeysConcat(first, rest);
    if rest == [] {
      assert first + rest == first;
    } else {
      var n := |rest| - 1;
      assert (first + rest)[..|first + rest| - 1] == first + rest[..n];
      assert rest[n] in Keys(rest) && Keys(rest[..n]) <= Keys(rest);
      SkipsTheRest(entries, h, first, rest[..n], oldest, shed, now);
      SkipsOne(entries, h, rest[n], oldest, shed, now);
    }
  }

  lemma SkipsOne(entries: Entries, h: seq<Victim>, k: DnsKey, oldest: set<DnsKey>, shed: int, now: int)
    requires shed >= 1 && IsOldest(entries, Fresh(entries, now), shed, oldest) && Lists(h, entries, oldest)
    requires k in entries && k !in oldest
    ensures now <= entries[k].deadline ==> Offered(h, entries, k, shed) == h
  {
    ListsSize(h, entries, oldest);
    if k in Fresh(entries, now) {
      if |h| < shed {
        SubsetOfSameSize(oldest, Fresh(entries, now));
      } else {
        FrontPosition(h, entries, oldest, 0, 0);
      }
    }
  }

  lemma UntiedHeap(entries: Entries, live: set<DnsKey>, shed: int, need: nat)
      returns (h: seq<Victim>, oldest: set<DnsKey>)
    requires live <= entries.Keys && shed >= 1
    requires need < Min(shed, |live|) && |Earliest(entries, live)| < Min(shed, |live|)
    ensures IsOldest(entries, live, shed, oldest) && MaxHeap(h) && Lists(h, entries, oldest)
    ensures Descends(h) && need < |h| && !TiedFrom(h, need)
  {
    oldest := OldestExists(entries, live, shed);
    h := Descending(entries, oldest);
    ListsSize(h, entries, oldest);
    assert MaxHeap(h) by {
      assert forall i | 0 < i < |h| :: OrderedAt(h, i);
    }
    if TiedFrom(h, need) {
      AllTied(entries, live, shed, h, oldest, need);
    }
  }

  /** A descending heap that ends in a tie with its root lists earliest keys only. */
  lemma AllTied(entries: Entries, live: set<DnsKey>, n: int, h: seq<Victim>, oldest: set<DnsKey>, need: nat)
    requires live <= entries.Keys && IsOldest(entries, live, n, oldest) && Lists(h, entries, oldest)
    requires Descends(h) && need < |h| && TiedFrom(h, need)
    ensures |oldest| <= |Earliest(entries, live)|
  {
    var last := |h| - 1;
    forall o | o in oldest ensures entries[o].deadline == h[last].deadline {
      var i := PositionOf(h, entries, oldest, o);
      FrontPosition(h, entries, oldest, 0, i);
    }
    assert Earliest(entries, live) == oldest + (Earliest(entries, live) - oldest);
  }
}
