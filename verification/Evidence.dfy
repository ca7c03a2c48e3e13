/**
 The evidence calculus behind "who held this key at instant t".

 A lease event or an accounting event about one key (an IP address, or a device)
 is a `Fact`: at `time` it opens or closes `claim.entity` for that key.  The claim
 of a lease is the device twice, `Claim(mac, mac)`; the claim of a session is
 `Claim(sessionId, userToken)`: a close names only the entity, an answer only the token.

 `Holders` is the closed form of the batch fold: it mentions neither batches nor
 sorting nor a carried deadline.
 */
module Evidence {

  datatype Claim = Claim(entity: string, token: string)

  datatype Fact = Fact(time: int, opens: bool, claim: Claim)

  /** A token and the ambiguity flag; unknown is `Answer("", false)`. */
  datatype Answer = Answer(token: string, ambiguous: bool)

  const UNKNOWN := Answer("", false)

  // ---------------------------------------------------------------- closed form

  predicate LatestOpen(facts: set<Fact>, o: Fact) {
    && o in facts
    && o.opens
    && forall x | x in facts && x.opens :: x.time <= o.time
  }

  predicate ClosedSince(facts: set<Fact>, o: Fact) {
    exists x | x in facts :: !x.opens && x.claim.entity == o.claim.entity && o.time <= x.time
  }

  /** The claims opened at the latest open time whose entity nothing has closed since. */
  function Survivors(facts: set<Fact>): set<Claim> {
    set o | o in facts && LatestOpen(facts, o) && !ClosedSince(facts, o) :: o.claim
  }

  function UpTo(facts: set<Fact>, t: int): set<Fact> {
    set x | x in facts && x.time <= t
  }

  function Between(facts: set<Fact>, lo: int, hi: int): set<Fact> {
    set x | x in facts && lo <= x.time <= hi
  }

  /** The claims the evidence supports at t: survivors whose open is no older than the horizon. */
  function Holders(facts: set<Fact>, t: int, horizon: int): set<Claim> {
    var past := UpTo(facts, t);
    set o | o in past && LatestOpen(past, o) && !ClosedSince(past, o) && t <= o.time + horizon :: o.claim
  }

  ghost function Verdict(holders: set<Claim>): Answer {
    if holders == {} then UNKNOWN
    else if |holders| > 1 then Answer("", true)
    else var c :| c in holders; Answer(c.token, false)
  }

  /** Two members make the verdict ambiguous. */
  lemma VerdictOfMany(holders: set<Claim>, a: Claim, b: Claim)
    requires a in holders && b in holders && a != b
    ensures Verdict(holders) == Answer("", true)
  {
    assert {a, b} <= holders;
    SubsetCardinality({a, b}, holders);
  }

  lemma SubsetCardinality<T>(small: set<T>, large: set<T>)
    requires small <= large
    ensures |small| <= |large|
  {
    assert large == small + (large - small);
  }

  // ---------------------------------------------------------------- the fold, one batch at a time

  function Opened(batch: set<Fact>): set<Claim> {
    set x | x in batch && x.opens :: x.claim
  }

  function ClosedEntities(batch: set<Fact>): set<string> {
    set x | x in batch && !x.opens :: x.claim.entity
  }

  /** What one batch of same-time facts does to the survivors of everything earlier. */
  function AfterBatch(survivors: set<Claim>, batch: set<Fact>): set<Claim> {
    set c | c in (if Opened(batch) != {} then Opened(batch) else survivors) && c.entity !in ClosedEntities(batch)
  }

  lemma LatestAfterBatch(before: set<Fact>, batch: set<Fact>, T: int, o: Fact)
    requires forall x | x in before :: x.time < T
    requires forall x | x in batch :: x.time == T
    ensures LatestOpen(before + batch, o) <==>
            if Opened(batch) != {} then o in batch && o.opens else LatestOpen(before, o)
  {
    if Opened(batch) != {} {
      var c :| c in Opened(batch);
      var w :| w in batch && w.opens && w.claim == c;
      assert w in before + batch;
    } else {
      assert forall x | x in batch && x.opens :: x.claim in Opened(batch);
    }
  }

  /** The carried candidate set is exactly the closed form, batch after batch. */
  lemma SurvivorsAfterBatch(before: set<Fact>, batch: set<Fact>, T: int)
    requires forall x | x in before :: x.time < T
    requires forall x | x in batch :: x.time == T
    ensures Survivors(before + batch) == AfterBatch(Survivors(before), batch)
  {
    var all := before + batch;
    forall o: Fact
      ensures LatestOpen(all, o) <==> if Opened(batch) != {} then o in batch && o.opens else LatestOpen(before, o)
    {
      LatestAfterBatch(before, batch, T, o);
    }
    forall o | LatestOpen(all, o)
      ensures ClosedSince(all, o) <==>
              o.claim.entity in ClosedEntities(batch) || (Opened(batch) == {} && ClosedSince(before, o))
    {
      ClosedAfterBatch(before, batch, T, o);
    }
    forall c ensures c in Survivors(all) <==> c in AfterBatch(Survivors(before), batch) {
      if c in AfterBatch(Survivors(before), batch) {
        if Opened(batch) != {} {
          var o :| o in batch && o.opens && o.claim == c;
          assert LatestOpen(all, o);
        } else {
          var o :| o in before && LatestOpen(before, o) && !ClosedSince(before, o) && o.claim == c;
          assert LatestOpen(all, o);
        }
      }
      if c in Survivors(all) {
        var o :| o in all && LatestOpen(all, o) && !ClosedSince(all, o) && o.claim == c;
      }
    }
  }

  lemma ClosedAfterBatch(before: set<Fact>, batch: set<Fact>, T: int, o: Fact)
    requires forall x | x in before :: x.time < T
    requires forall x | x in batch :: x.time == T
    requires LatestOpen(before + batch, o)
    ensures ClosedSince(before + batch, o) <==>
            o.claim.entity in ClosedEntities(batch) || (Opened(batch) == {} && ClosedSince(before, o))
  {
  }

  // ---------------------------------------------------------------- what a window may forget

  /** Facts outside [from - horizon, to] cannot change the holders at any instant of [from, to]. */
  lemma WindowLosesNothing(facts: set<Fact>, t: int, horizon: int, from: int, to: int)
    requires from <= t <= to
    ensures Holders(Between(facts, from - horizon, to), t, horizon) == Holders(facts, t, horizon)
  {
  }
}
