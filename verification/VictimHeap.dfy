/**
 The bounded max-heap of eviction victims: a slice ordered so that the root has the
 latest deadline, kept by sifting a pushed element up and a replaced root down.
 */
module VictimHeap {

  datatype DnsKey = DnsKey(client: string, answer: string)

  datatype Victim = Victim(key: DnsKey, deadline: int)

  function Parent(i: nat): nat
    requires i > 0
  {
    (i - 1) / 2
  }

  /** The parent of i is not earlier than i. */
  predicate OrderedAt(h: seq<Victim>, i: nat)
    requires 0 < i < |h|
  {
    h[Parent(i)].deadline >= h[i].deadline
  }

  predicate MaxHeap(h: seq<Victim>) {
    forall i | 0 < i < |h| :: OrderedAt(h, i)
  }

  lemma {:induction false} RootIsLatest(h: seq<Victim>, i: nat)
    requires MaxHeap(h) && i < |h|
    ensures h[i].deadline <= h[0].deadline
  {
    if i > 0 {
      assert OrderedAt(h, i);
      RootIsLatest(h, Parent(i));
    }
  }

  function Swap(h: seq<Victim>, i: nat, j: nat): (r: seq<Victim>)
    requires i < |h| && j < |h|
    ensures |r| == |h| && r[i] == h[j] && r[j] == h[i]
    ensures forall k | 0 <= k < |h| && k != i && k != j :: r[k] == h[k]
    ensures multiset(r) == multiset(h)
  {
    h[i := h[j]][j := h[i]]
  }

  /** Heap order holds everywhere but between j and its parent. */
  ghost predicate HeapAbove(h: seq<Victim>, j: nat) {
    && (forall i | 0 < i < |h| && i != j :: OrderedAt(h, i))
    && (forall i | 0 < i < |h| && Parent(i) == j && j > 0 :: h[Parent(j)].deadline >= h[i].deadline)
  }

  /** The heap after the element at j has risen past every earlier parent. */
  function SiftedUp(h: seq<Victim>, j: nat): seq<Victim>
    requires j < |h|
    decreases j
  {
    if j > 0 && h[j].deadline > h[Parent(j)].deadline then SiftedUp(Swap(h, Parent(j), j), Parent(j)) else h
  }

  lemma {:induction false} SiftedUpIsHeap(h: seq<Victim>, j: nat)
    requires j < |h| && HeapAbove(h, j)
    ensures var r := SiftedUp(h, j); MaxHeap(r) && multiset(r) == multiset(h) && |r| == |h|
    decreases j
  {
    if j > 0 && h[j].deadline > h[Parent(j)].deadline {
      SiftUpStep(h, j);
      SiftedUpIsHeap(Swap(h, Parent(j), j), Parent(j));
    }
  }

  /** Moves the element at j up to where it belongs. */
  method Up(h: seq<Victim>, j: nat) returns (r: seq<Victim>)
    requires j < |h| && HeapAbove(h, j)
    ensures r == SiftedUp(h, j)
    ensures MaxHeap(r) && multiset(r) == multiset(h) && |r| == |h|
  {
    r := h;
    var at := j;
    while at > 0 && r[at].deadline > r[Parent(at)].deadline
      invariant 0 <= at < |r| == |h|
      invariant SiftedUp(r, at) == SiftedUp(h, j)
    {
      r := Swap(r, Parent(at), at);
      at := Parent(at);
    }
    SiftedUpIsHeap(h, j);
  }

  lemma SiftUpStep(h: seq<Victim>, at: nat)
    requires 0 < at < |h| && HeapAbove(h, at)
    requires h[at].deadline > h[Parent(at)].deadline
    ensures HeapAbove(Swap(h, Parent(at), at), Parent(at))
  {
    var p := Parent(at);
    var r := Swap(h, p, at);
    forall i | 0 < i < |r| && i != p ensures OrderedAt(r, i) {
      if i != at {
        assert OrderedAt(h, i);
      }
    }
    forall i | 0 < i < |r| && Parent(i) == p && p > 0 ensures r[Parent(p)].deadline >= r[i].deadline {
      assert OrderedAt(h, p);
      if i != at {
        assert OrderedAt(h, i);
      }
    }
  }

  function Pushed(h: seq<Victim>, v: Victim): seq<Victim> {
    SiftedUp(h + [v], |h|)
  }

  lemma PushedIsHeap(h: seq<Victim>, v: Victim)
    requires MaxHeap(h)
    ensures var r := Pushed(h, v); MaxHeap(r) && multiset(r) == multiset(h) + multiset{v} && |r| == |h| + 1
  {
    GrownIsHeapAbove(h, v);
    SiftedUpIsHeap(h + [v], |h|);
  }

  lemma GrownIsHeapAbove(h: seq<Victim>, v: Victim)
    requires MaxHeap(h)
    ensures HeapAbove(h + [v], |h|)
  {
    assert forall i | 0 < i < |h| :: OrderedAt(h, i) ==> OrderedAt(h + [v], i);
  }

  method Push(h: seq<Victim>, v: Victim) returns (r: seq<Victim>)
    requires MaxHeap(h)
    ensures r == Pushed(h, v)
    ensures MaxHeap(r) && multiset(r) == multiset(h) + multiset{v} && |r| == |h| + 1
  {
    GrownIsHeapAbove(h, v);
    r := Up(h + [v], |h|);
  }

  /** Heap order holds everywhere but between at and its children. */
  ghost predicate HeapBelow(h: seq<Victim>, at: nat) {
    && (forall i | 0 < i < |h| && Parent(i) != at :: OrderedAt(h, i))
    && (forall i | 0 < i < |h| && Parent(i) == at && at > 0 :: h[Parent(at)].deadline >= h[i].deadline)
  }

  /** The child of `at` with the later deadline, the left one if they tie. */
  function LaterChild(h: seq<Victim>, at: nat): (child: nat)
    requires 2 * at + 1 < |h|
    ensures 0 < child < |h| && Parent(child) == at && at < child
    ensures forall i | 0 < i < |h| && Parent(i) == at :: h[i].deadline <= h[child].deadline
  {
    var left := 2 * at + 1;
    assert forall i | 0 < i < |h| && Parent(i) == at :: i == left || i == left + 1;
    if left + 1 < |h| && h[left + 1].deadline > h[left].deadline then left + 1 else left
  }

  lemma Settled(h: seq<Victim>, at: nat)
    requires HeapBelow(h, at)
    requires forall i | 0 < i < |h| && Parent(i) == at :: OrderedAt(h, i)
    ensures MaxHeap(h)
  {
  }

  /** The heap after the element at `at` has sunk past every later child. */
  function SiftedDown(h: seq<Victim>, at: nat): seq<Victim>
    requires at < |h|
    decreases |h| - at
  {
    if 2 * at + 1 < |h| && h[LaterChild(h, at)].deadline > h[at].deadline
    then SiftedDown(Swap(h, at, LaterChild(h, at)), LaterChild(h, at))
    else h
  }

  lemma {:induction false} SiftedDownIsHeap(h: seq<Victim>, at: nat)
    requires at < |h| && HeapBelow(h, at)
    ensures var r := SiftedDown(h, at); MaxHeap(r) && multiset(r) == multiset(h) && |r| == |h|
    decreases |h| - at
  {
    if 2 * at + 1 < |h| && h[LaterChild(h, at)].deadline > h[at].deadline {
      SiftDownStep(h, at, LaterChild(h, at));
      SiftedDownIsHeap(Swap(h, at, LaterChild(h, at)), LaterChild(h, at));
    } else {
      Settled(h, at);
    }
  }

  /** Moves the root down to where it belongs. */
  method DownFromRoot(h: seq<Victim>) returns (r: seq<Victim>)
    requires |h| > 0 && HeapBelow(h, 0)
    ensures r == SiftedDown(h, 0)
    ensures MaxHeap(r) && multiset(r) == multiset(h) && |r| == |h|
  {
    SiftedDownIsHeap(h, 0);
    r := h;
    var at: nat := 0;
    while 2 * at + 1 < |r|
      invariant at < |r| == |h|
      invariant SiftedDown(r, at) == SiftedDown(h, 0)
    {
      var child := LaterChild(r, at);
      if !(r[child].deadline > r[at].deadline) {
        return;
      }
      r := Swap(r, at, child);
      at := child;
    }
  }

  lemma SiftDownStep(h: seq<Victim>, at: nat, child: nat)
    requires HeapBelow(h, at) && 0 < child < |h| && Parent(child) == at
    requires forall i | 0 < i < |h| && Parent(i) == at :: h[i].deadline <= h[child].deadline
    requires h[child].deadline > h[at].deadline
    ensures HeapBelow(Swap(h, at, child), child)
  {
  }

  function Replaced(h: seq<Victim>, v: Victim): seq<Victim>
    requires |h| > 0
  {
    SiftedDown(h[0 := v], 0)
  }

  lemma ReplacedIsHeap(h: seq<Victim>, v: Victim)
    requires MaxHeap(h) && |h| > 0
    ensures var r := Replaced(h, v);
            MaxHeap(r) && multiset(r) == multiset(h) - multiset{h[0]} + multiset{v} && |r| == |h|
  {
    ChangedIsHeapBelow(h, v);
    SiftedDownIsHeap(h[0 := v], 0);
  }

  lemma ChangedIsHeapBelow(h: seq<Victim>, v: Victim)
    requires MaxHeap(h) && |h| > 0
    ensures HeapBelow(h[0 := v], 0)
  {
    assert forall i | 0 < i < |h| && Parent(i) != 0 :: OrderedAt(h, i) ==> OrderedAt(h[0 := v], i);
  }

  /** Replaces the root and restores the order. */
  method ReplaceRoot(h: seq<Victim>, v: Victim) returns (r: seq<Victim>)
    requires MaxHeap(h) && |h| > 0
    ensures r == Replaced(h, v)
    ensures MaxHeap(r) && multiset(r) == multiset(h) - multiset{h[0]} + multiset{v} && |r| == |h|
  {
    ChangedIsHeapBelow(h, v);
    ReplacedIsHeap(h, v);
    r := DownFromRoot(h[0 := v]);
  }
}
