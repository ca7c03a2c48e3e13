/**
 Choosing what to evict when the DNS cache is full: one pass over the entries in
 any order, a list of the expired keys, and a bounded max-heap of the earliest deadlines.
 */
module DnsEviction {
  import opened VictimHeap

  datatype DnsBinding = DnsBinding(hostname: string, time: int, deadline: int)

  type Entries = map<DnsKey, DnsBinding>

  function Shed(maxSize: int): int {
    if maxSize / 16 < 1 then 1 else maxSize / 16
  }

  /** A sixteenth of the cap, and at least one. */
  lemma ShedIsASixteenth(maxSize: int)
    ensures var n := Shed(maxSize); n >= 1 && maxSize < 16 * (n + 1) && (n == 1 || 16 * n <= maxSize)
  {
  }

  function Expired(entries: Entries, now: int): set<DnsKey> {
    set k | k in entries && now > entries[k].deadline
  }

  function Fresh(entries: Entries, now: int): set<DnsKey> {
    set k | k in entries && now <= entries[k].deadline
  }

  /** `oldest` is a choice of n keys of `among`, all of them if there are fewer, with the earliest deadlines. */
  ghost predicate IsOldest(entries: Entries, among: set<DnsKey>, n: int, oldest: set<DnsKey>)
    requires among <= entries.Keys
  {
    && oldest <= among
    && |oldest| == Min(n, |among|)
    && forall k, o {:trigger entries[o].deadline, entries[k].deadline} |
         o in oldest && k in among && k !in oldest :: entries[o].deadline <= entries[k].deadline
  }

  function Victims(entries: Entries, keys: set<DnsKey>): set<Victim>
    requires keys <= entries.Keys
  {
    set k | k in keys :: Victim(k, entries[k].deadline)
  }

  /** The heap slice lists each of `keys` once, with its deadline. */
  ghost predicate Lists(h: seq<Victim>, entries: Entries, keys: set<DnsKey>)
    requires keys <= entries.Keys
  {
    multiset(h) == multiset(Victims(entries, keys))
  }

  lemma VictimsSize(entries: Entries, keys: set<DnsKey>)
    requires keys <= entries.Keys
    ensures |Victims(entries, keys)| == |keys|
  {
    if keys == {} {
      assert Victims(entries, keys) == {};
    } else {
      var k :| k in keys;
      VictimsSize(entries, keys - {k});
      assert Victims(entries, keys) == Victims(entries, keys - {k}) + {Victim(k, entries[k].deadline)};
    }
  }

  lemma ListsSize(h: seq<Victim>, entries: Entries, keys: set<DnsKey>)
    requires keys <= entries.Keys && Lists(h, entries, keys)
    ensures |h| == |keys|
    ensures forall v :: v in h <==> v in Victims(entries, keys)
  {
    VictimsSize(entries, keys);
    assert |multiset(h)| == |multiset(Victims(entries, keys))|;
    assert forall v :: v in h <==> v in multiset(h);
  }

  lemma SubsetOfSameSize<T>(small: set<T>, large: set<T>)
    requires small <= large && |small| >= |large|
    ensures small == large
  {
    assert large == small + (large - small);
  }

  lemma GrowOldest(entries: Entries, seen: set<DnsKey>, n: int, oldest: set<DnsKey>, k: DnsKey)
    requires seen <= entries.Keys && k in entries && k !in seen
    requires IsOldest(entries, seen, n, oldest) && |oldest| < n
    ensures IsOldest(entries, seen + {k}, n, oldest + {k})
  {
    SubsetOfSameSize(oldest, seen);
  }

  lemma ReplaceLatest(entries: Entries, seen: set<DnsKey>, n: int, oldest: set<DnsKey>, out: DnsKey, k: DnsKey)
    requires seen <= entries.Keys && k in entries && k !in seen && out in oldest
    requires IsOldest(entries, seen, n, oldest) && |oldest| >= n
    requires forall o | o in oldest :: entries[o].deadline <= entries[out].deadline
    requires entries[k].deadline < entries[out].deadline
    ensures IsOldest(entries, seen + {k}, n, oldest - {out} + {k})
  {
  }

  lemma SkipLater(entries: Entries, seen: set<DnsKey>, n: int, oldest: set<DnsKey>, k: DnsKey)
    requires seen <= entries.Keys && k in entries && k !in seen
    requires IsOldest(entries, seen, n, oldest) && |oldest| >= n
    requires forall o | o in oldest :: entries[o].deadline <= entries[k].deadline
    ensures IsOldest(entries, seen + {k}, n, oldest)
  {
  }

  /** The root bounds every key the heap lists. */
  lemma RootBounds(h: seq<Victim>, entries: Entries, oldest: set<DnsKey>)
    requires oldest <= entries.Keys && MaxHeap(h) && h != [] && Lists(h, entries, oldest)
    ensures h[0].key in oldest && h[0] == Victim(h[0].key, entries[h[0].key].deadline)
    ensures forall o | o in oldest :: entries[o].deadline <= h[0].deadline
  {
    ListsSize(h, entries, oldest);
    assert h[0] in h;
    forall o | o in oldest ensures entries[o].deadline <= h[0].deadline {
      assert Victim(o, entries[o].deadline) in h;
      var i :| 0 <= i < |h| && h[i] == Victim(o, entries[o].deadline);
      RootIsLatest(h, i);
    }
  }

  lemma PushLists(h: seq<Victim>, r: seq<Victim>, entries: Entries, oldest: set<DnsKey>, k: DnsKey)
    requires oldest <= entries.Keys && k in entries && k !in oldest && Lists(h, entries, oldest)
    requires multiset(r) == multiset(h) + multiset{Victim(k, entries[k].deadline)}
    ensures Lists(r, entries, oldest + {k})
  {
  }

  lemma ReplaceLists(h: seq<Victim>, r: seq<Victim>, entries: Entries, oldest: set<DnsKey>, out: DnsKey, k: DnsKey)
    requires oldest <= entries.Keys && k in entries && k !in oldest && out in oldest && Lists(h, entries, oldest)
    requires multiset(r) ==
             multiset(h) - multiset{Victim(out, entries[out].deadline)} + multiset{Victim(k, entries[k].deadline)}
    ensures Lists(r, entries, oldest - {out} + {k})
  {
  }

  /** The heap after one unexpired entry was offered. */
  function Offered(h: seq<Victim>, entries: Entries, k: DnsKey, shed: int): seq<Victim>
    requires k in entries
  {
    var v := Victim(k, entries[k].deadline);
    if |h| < shed then Pushed(h, v)
    else if |h| > 0 && v.deadline < h[0].deadline then Replaced(h, v)
    else h
  }

  /** Offering one more entry keeps the heap a choice of the oldest seen. */
  lemma OfferedIsRight(h: seq<Victim>, entries: Entries, k: DnsKey, shed: int, seen: set<DnsKey>, oldest: set<DnsKey>)
      returns (oldest': set<DnsKey>)
    requires shed >= 1 && seen <= entries.Keys && k in entries && k !in seen
    requires MaxHeap(h) && IsOldest(entries, seen, shed, oldest) && Lists(h, entries, oldest)
    ensures IsOldest(entries, seen + {k}, shed, oldest')
    ensures MaxHeap(Offered(h, entries, k, shed)) && Lists(Offered(h, entries, k, shed), entries, oldest')
  {
    ListsSize(h, entries, oldest);
    var v := Victim(k, entries[k].deadline);
    if |h| < shed {
      GrowOldest(entries, seen, shed, oldest, k);
      oldest' := oldest + {k};
      PushedIsHeap(h, v);
      PushLists(h, Pushed(h, v), entries, oldest, k);
    } else {
      RootBounds(h, entries, oldest);
      if v.deadline < h[0].deadline {
        ReplaceLatest(entries, seen, shed, oldest, h[0].key, k);
        oldest' := oldest - {h[0].key} + {k};
        ReplacedIsHeap(h, v);
        ReplaceLists(h, Replaced(h, v), entries, oldest, h[0].key, k);
      } else {
        SkipLater(entries, seen, shed, oldest, k);
        oldest' := oldest;
      }
    }
  }

  /** The heap step for one unexpired entry. */
  method Offer(h: seq<Victim>, entries: Entries, k: DnsKey, shed: int) returns (r: seq<Victim>)
    requires k in entries && MaxHeap(h)
    ensures r == Offered(h, entries, k, shed) && MaxHeap(r)
  {
    var v := Victim(k, entries[k].deadline);
    r := h;
    if |h| < shed {
      r := Push(h, v);
    } else if |h| > 0 && v.deadline < h[0].deadline {
      r := ReplaceRoot(h, v);
    }
  }

  /** The order is one in which an iteration may visit the entries: each once. */
  ghost predicate Iterates(order: seq<DnsKey>, entries: Entries) {
    Keys(order) == entries.Keys && |order| == |entries.Keys|
  }

  /** The heap an iteration in this order leaves. */
  function HeapOf(entries: Entries, order: seq<DnsKey>, shed: int, now: int): seq<Victim>
    requires Keys(order) <= entries.Keys
  {
    if order == [] then []
    else
      var init, k := order[..|order| - 1], order[|order| - 1];
      assert k in Keys(order) && Keys(init) <= Keys(order);
      var h := HeapOf(entries, init, shed, now);
      if now > entries[k].deadline then h else Offered(h, entries, k, shed)
  }

  /** The unexpired keys visited so far. */
  function FreshOf(entries: Entries, order: seq<DnsKey>, now: int): set<DnsKey>
    requires Keys(order) <= entries.Keys
  {
    set k | k in Keys(order) && now <= entries[k].deadline
  }

  /** Whatever the order, the heap lists a choice of the oldest unexpired keys visited. */
  lemma {:induction false} HeapOfIsRight(entries: Entries, order: seq<DnsKey>, shed: int, now: int)
      returns (oldest: set<DnsKey>)
    requires shed >= 1 && Keys(order) <= entries.Keys && |Keys(order)| == |order|
    ensures IsOldest(entries, FreshOf(entries, order, now), shed, oldest)
    ensures var h := HeapOf(entries, order, shed, now); MaxHeap(h) && Lists(h, entries, oldest)
  {
    if order == [] {
      oldest := {};
    } else {
      var n := |order| - 1;
      var init, k := order[..n], order[n];
      assert order == init + [k];
      KeysSnoc(init, k);
      KeysBound(init);
      oldest := HeapOfIsRight(entries, init, shed, now);
      if now > entries[k].deadline {
        assert FreshOf(entries, order, now) == FreshOf(entries, init, now);
      } else {
        assert FreshOf(entries, order, now) == FreshOf(entries, init, now) + {k};
        var h := HeapOf(entries, init, shed, now);
        oldest := OfferedIsRight(h, entries, k, shed, FreshOf(entries, init, now), oldest);
      }
    }
  }

  /** And so, once every entry was visited, of all unexpired ones. */
  lemma IterationIsRight(entries: Entries, order: seq<DnsKey>, shed: int, now: int) returns (oldest: set<DnsKey>)
    requires shed >= 1 && Iterates(order, entries)
    ensures IsOldest(entries, Fresh(entries, now), shed, oldest)
    ensures var h := HeapOf(entries, order, shed, now); MaxHeap(h) && Lists(h, entries, oldest)
  {
    assert FreshOf(entries, order, now) == Fresh(entries, now);
    oldest := HeapOfIsRight(entries, order, shed, now);
  }

  /** One pass over the entries: the expired keys, and the heap this order of visits leaves. */
  method SelectOldest(entries: Entries, shed: int, now: int)
      returns (expired: seq<DnsKey>, h: seq<Victim>, ghost order: seq<DnsKey>, ghost oldest: set<DnsKey>)
    requires shed >= 1
    ensures Iterates(order, entries) && h == HeapOf(entries, order, shed, now)
    ensures multiset(expired) == multiset(Expired(entries, now))
    ensures IsOldest(entries, Fresh(entries, now), shed, oldest)
    ensures MaxHeap(h) && Lists(h, entries, oldest)
  {
    expired, h, order := [], [], [];
    ghost var dead: set<DnsKey> := {};
    var todo := entries.Keys;
    while todo != {}
      invariant Visited(entries, now, todo, dead, order)
      invariant multiset(expired) == multiset(dead)
      invariant MaxHeap(h) && h == HeapOf(entries, order, shed, now)
    {
      var k :| k in todo;
      VisitOne(entries, now, todo, dead, order, k, shed);
      todo := todo - {k};
      order := order + [k];
      if now > entries[k].deadline {
        ListedOnce(expired, dead, k);
        expired := expired + [k];
        dead := dead + {k};
      } else {
        h := Offer(h, entries, k, shed);
      }
    }
    assert dead == Expired(entries, now);
    oldest := IterationIsRight(entries, order, shed, now);
  }

  /** The order lists the keys not in `todo` once each, and dead are the expired ones of them. */
  ghost predicate Visited(entries: Entries, now: int, todo: set<DnsKey>, dead: set<DnsKey>, order: seq<DnsKey>) {
    && todo <= entries.Keys
    && Keys(order) == entries.Keys - todo && |order| == |entries.Keys - todo|
    && (forall k :: k in dead <==> k in entries && k !in todo && now > entries[k].deadline)
  }

  lemma ListedOnce(expired: seq<DnsKey>, dead: set<DnsKey>, k: DnsKey)
    requires multiset(expired) == multiset(dead) && k !in dead
    ensures multiset(expired + [k]) == multiset(dead + {k})
  {
  }

  lemma VisitOne(entries: Entries, now: int, todo: set<DnsKey>, dead: set<DnsKey>, order: seq<DnsKey>, k: DnsKey,
                 shed: int)
    requires Visited(entries, now, todo, dead, order) && k in todo
    ensures Visited(entries, now, todo - {k}, if now > entries[k].deadline then dead + {k} else dead, order + [k])
    ensures HeapOf(entries, order + [k], shed, now) ==
            if now > entries[k].deadline then HeapOf(entries, order, shed, now)
            else Offered(HeapOf(entries, order, shed, now), entries, k, shed)
  {
    KeysSnoc(order, k);
    assert entries.Keys - (todo - {k}) == entries.Keys - todo + {k};
    assert (order + [k])[..|order|] == order;
  }

  function Keys(victims: seq<DnsKey>): set<DnsKey> {
    set k | k in victims
  }

  function Min(a: int, b: int): int {
    if a < b then a else b
  }

  function Max(a: int, b: int): int {
    if a < b then b else a
  }

  /** What the victims promise the cache, given the n oldest unexpired keys. */
  ghost predicate Sheds(all: set<DnsKey>, dead: set<DnsKey>, oldest: set<DnsKey>, n: int, victims: set<DnsKey>) {
    && dead <= victims <= dead + oldest
    && |victims| == Max(|dead|, Min(n, |all|))
    && (dead == {} ==> victims == oldest)
    && (|dead| >= n ==> victims == dead)
  }

  ghost predicate ValidChoice(entries: Entries, maxSize: int, now: int, victims: set<DnsKey>) {
    exists oldest ::
      && IsOldest(entries, Fresh(entries, now), Shed(maxSize), oldest)
      && Sheds(entries.Keys, Expired(entries, now), oldest, Shed(maxSize), victims)
  }

  /** The n keys in front of the heap slice, none for n < 0, all of them if there are fewer. */
  function Front(h: seq<Victim>, n: int): set<DnsKey> {
    Keys(KeysOf(h[..Max(0, Min(n, |h|))]))
  }

  /** Everything from position n on is as late as the root. */
  predicate TiedFrom(h: seq<Victim>, n: int) {
    forall j | 0 <= j < |h| && n <= j :: h[j].deadline == h[0].deadline
  }

  /** Appends keys from the front of the heap slice while more are needed. */
  method TopUp(expired: seq<DnsKey>, h: seq<Victim>, wanted: int) returns (victims: seq<DnsKey>)
    ensures victims == expired + KeysOf(h[..Max(0, Min(wanted, |h|))])
  {
    victims := expired;
    var need := wanted;
    var i := 0;
    while i < |h| && need > 0
      invariant 0 <= i <= |h| && need == wanted - i && (i == 0 || need >= 0)
      invariant victims == expired + KeysOf(h[..i])
    {
      assert h[..i + 1] == h[..i] + [h[i]];
      victims := victims + [h[i].key];
      need := need - 1;
      i := i + 1;
    }
  }

  /** The victims are the expired keys and the front of a heap of the oldest others, each key once. */
  ghost predicate Selects(entries: Entries, maxSize: int, now: int, victims: seq<DnsKey>, h: seq<Victim>,
                          oldest: set<DnsKey>) {
    && IsOldest(entries, Fresh(entries, now), Shed(maxSize), oldest)
    && MaxHeap(h) && Lists(h, entries, oldest)
    && Keys(victims) == Expired(entries, now) + Front(h, Shed(maxSize) - |Expired(entries, now)|)
    && |victims| == |Keys(victims)|
  }

  /** The keys to shed: every expired one, topped up from the oldest others. */
  method SelectEvictions(entries: Entries, maxSize: int, now: int)
      returns (victims: seq<DnsKey>, ghost order: seq<DnsKey>, ghost h: seq<Victim>, ghost oldest: set<DnsKey>)
    ensures Iterates(order, entries) && h == HeapOf(entries, order, Shed(maxSize), now)
    ensures Selects(entries, maxSize, now, victims, h, oldest)
    ensures ValidChoice(entries, maxSize, now, Keys(victims))
  {
    var shed := Shed(maxSize);
    var expired, heap;
    expired, heap, order, oldest := SelectOldest(entries, shed, now);
    h := heap;
    victims := TopUp(expired, heap, shed - |expired|);
    ExpiredListed(entries, now, expired);
    SelectionIsRight(entries, maxSize, now, expired, victims, h, oldest);
    SelectionIsValid(entries, maxSize, now, victims, h, oldest);
  }

  lemma SelectionIsRight(entries: Entries, maxSize: int, now: int, expired: seq<DnsKey>, victims: seq<DnsKey>,
                         h: seq<Victim>, oldest: set<DnsKey>)
    requires Keys(expired) == Expired(entries, now) && |expired| == |Expired(entries, now)|
    requires IsOldest(entries, Fresh(entries, now), Shed(maxSize), oldest)
    requires MaxHeap(h) && Lists(h, entries, oldest)
    requires victims == expired + KeysOf(h[..Max(0, Min(Shed(maxSize) - |expired|, |h|))])
    ensures Selects(entries, maxSize, now, victims, h, oldest)
  {
    FrontOfHeap(h, entries, oldest, Shed(maxSize) - |expired|);
    ExpiredOrFresh(entries, now);
    EachKeyOnce(expired, victims, Expired(entries, now), h, Shed(maxSize) - |Expired(entries, now)|,
                Fresh(entries, now));
    assert Keys(victims) == Expired(entries, now) + Front(h, Shed(maxSize) - |Expired(entries, now)|);
  }

  lemma EachKeyOnce(expired: seq<DnsKey>, victims: seq<DnsKey>, dead: set<DnsKey>, h: seq<Victim>, need: int,
                    live: set<DnsKey>)
    requires Keys(expired) == dead && |expired| == |dead| && dead !! live
    requires Front(h, need) <= live && |Front(h, need)| == Max(0, Min(need, |h|))
    requires victims == expired + KeysOf(h[..Max(0, Min(need, |h|))])
    ensures Keys(victims) == dead + Front(h, need) && |victims| == |Keys(victims)|
  {
    KeysConcat(expired, KeysOf(h[..Max(0, Min(need, |h|))]));
    assert |dead + Front(h, need)| == |dead| + |Front(h, need)|;
  }

  lemma SelectionIsValid(entries: Entries, maxSize: int, now: int, victims: seq<DnsKey>, h: seq<Victim>,
                         oldest: set<DnsKey>)
    requires Selects(entries, maxSize, now, victims, h, oldest)
    ensures ValidChoice(entries, maxSize, now, Keys(victims))
  {
    var need := Shed(maxSize) - |Expired(entries, now)|;
    ListsSize(h, entries, oldest);
    FrontOfHeap(h, entries, oldest, need);
    TopUpIsValid(entries, maxSize, now, Expired(entries, now), Front(h, need), oldest);
  }

  function KeysOf(h: seq<Victim>): seq<DnsKey> {
    seq(|h|, i requires 0 <= i < |h| => h[i].key)
  }

  lemma ListedKeys(h: seq<Victim>, entries: Entries, keys: set<DnsKey>)
    requires keys <= entries.Keys && Lists(h, entries, keys)
    ensures Keys(KeysOf(h)) == keys && Distinct(KeysOf(h))
  {
    ListsSize(h, entries, keys);
    forall k ensures k in KeysOf(h) <==> k in keys {
      if k in keys {
        assert Victim(k, entries[k].deadline) in h;
        var i :| 0 <= i < |h| && h[i] == Victim(k, entries[k].deadline);
        assert KeysOf(h)[i] == k;
      }
      if k in KeysOf(h) {
        var i :| 0 <= i < |h| && KeysOf(h)[i] == k;
        assert h[i] in h;
      }
    }
    assert Keys(KeysOf(h)) == keys;
    CountedOnce(KeysOf(h));
  }

  ghost predicate Distinct(s: seq<DnsKey>) {
    forall i, j | 0 <= i < j < |s| :: s[i] != s[j]
  }

  /** As many members as positions: no key is listed twice. */
  lemma CountedOnce(s: seq<DnsKey>)
    requires |Keys(s)| == |s|
    ensures Distinct(s)
  {
    if s != [] {
      var n := |s| - 1;
      assert s == s[..n] + [s[n]];
      KeysSnoc(s[..n], s[n]);
      KeysBound(s[..n]);
      CountedOnce(s[..n]);
    }
  }

  lemma KeysBound(s: seq<DnsKey>)
    ensures |Keys(s)| <= |s|
  {
    if s != [] {
      var n := |s| - 1;
      assert s == s[..n] + [s[n]];
      KeysSnoc(s[..n], s[n]);
      KeysBound(s[..n]);
    }
  }

  lemma DistinctSize(s: seq<DnsKey>)
    requires Distinct(s)
    ensures |Keys(s)| == |s|
  {
    if s != [] {
      var n := |s| - 1;
      assert s == s[..n] + [s[n]];
      KeysSnoc(s[..n], s[n]);
      DistinctSize(s[..n]);
    }
  }

  lemma ExpiredListed(entries: Entries, now: int, expired: seq<DnsKey>)
    requires multiset(expired) == multiset(Expired(entries, now))
    ensures Keys(expired) == Expired(entries, now) && |expired| == |Expired(entries, now)|
  {
    assert |multiset(expired)| == |multiset(Expired(entries, now))|;
    assert forall k :: k in expired <==> k in multiset(expired);
  }

  /** The first i keys of the heap slice: i of the oldest, and all of them when i is the whole length. */
  lemma HeapPrefix(h: seq<Victim>, entries: Entries, oldest: set<DnsKey>, i: nat)
    requires oldest <= entries.Keys && Lists(h, entries, oldest) && i <= |h|
    ensures Keys(KeysOf(h[..i])) <= oldest && |Keys(KeysOf(h[..i]))| == i
    ensures i == |h| ==> Keys(KeysOf(h[..i])) == oldest
  {
    ListedKeys(h, entries, oldest);
    assert KeysOf(h[..i]) == KeysOf(h)[..i];
    assert Keys(KeysOf(h)[..i]) <= Keys(KeysOf(h));
    DistinctSize(KeysOf(h)[..i]);
    assert KeysOf(h)[..|h|] == KeysOf(h);
  }

  lemma FrontOfHeap(h: seq<Victim>, entries: Entries, oldest: set<DnsKey>, n: int)
    requires oldest <= entries.Keys && Lists(h, entries, oldest)
    ensures Front(h, n) <= oldest && |Front(h, n)| == Max(0, Min(n, |h|))
    ensures n >= |h| ==> Front(h, n) == oldest
  {
    HeapPrefix(h, entries, oldest, Max(0, Min(n, |h|)));
  }

  lemma ExpiredOrFresh(entries: Entries, now: int)
    ensures Expired(entries, now) !! Fresh(entries, now)
    ensures Expired(entries, now) + Fresh(entries, now) == entries.Keys
  {
  }

  lemma TopUpIsValid(entries: Entries, maxSize: int, now: int, dead: set<DnsKey>, tops: set<DnsKey>,
                     oldest: set<DnsKey>)
    requires dead == Expired(entries, now)
    requires IsOldest(entries, Fresh(entries, now), Shed(maxSize), oldest)
    requires tops <= oldest
    requires |tops| == |oldest| || |tops| + |dead| >= Shed(maxSize)
    requires |tops| == 0 || |tops| + |dead| <= Shed(maxSize)
    ensures ValidChoice(entries, maxSize, now, dead + tops) && |dead + tops| == |dead| + |tops|
  {
    ExpiredOrFresh(entries, now);
    TopUpSheds(entries.Keys, dead, Fresh(entries, now), oldest, Shed(maxSize), tops);
  }

  lemma KeysSnoc(s: seq<DnsKey>, k: DnsKey)
    ensures Keys(s + [k]) == Keys(s) + {k}
  {
  }

  lemma KeysConcat(a: seq<DnsKey>, b: seq<DnsKey>)
    ensures Keys(a + b) == Keys(a) + Keys(b)
  {
  }

  lemma TopUpSheds(all: set<DnsKey>, dead: set<DnsKey>, live: set<DnsKey>, oldest: set<DnsKey>, n: int,
                   tops: set<DnsKey>)
    requires dead !! live && dead + live == all && n >= 1
    requires oldest <= live && |oldest| == Min(n, |live|)
    requires tops <= oldest && (|tops| == |oldest| || |tops| + |dead| >= n)
    requires |tops| == 0 || |tops| + |dead| <= n
    ensures Sheds(all, dead, oldest, n, dead + tops)
    ensures |dead + tops| == |dead| + |tops|
  {
    assert |all| == |dead| + |live|;
    assert |dead + tops| == |dead| + |tops|;
    assert |tops| <= |oldest| by {
      assert oldest == tops + (oldest - tops);
    }
    if |tops| == |oldest| {
      SubsetOfSameSize(tops, oldest);
    }
    assert dead == {} ==> dead + tops == tops;
  }
}
