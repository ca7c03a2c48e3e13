/**
 Rebuilding dates from times of day: when the dates the tcpdump parser assigns to
 a capture are the true ones.
 */
module TcpdumpDates {
  import opened Tcpdump
  import opened Text

  /** A line of a capture: a packet header with its true day and time, or any line that is no header. */
  datatype Item = Captured(day: int, us: nat, rest: string) | Other(line: string)

  function LineOf(i: Item): string {
    match i
    case Captured(_, us, rest) => PrintTod(us) + " " + rest
    case Other(line) => line
  }

  predicate WellFormed(i: Item) {
    match i
    case Captured(_, us, _) => us < DAY_MICROS
    case Other(line) => line == "" || IsBlank(line[0]) || Tod(Before(line, ' ')).None?
  }

  function TrueTime(midnight: int, i: Item): int
    requires i.Captured?
  {
    midnight + i.day * DAY + i.us * 1000
  }

  function Start(midnight: int): State {
    State(midnight, false, 0, false, 0)
  }

  function FeedItems(midnight: int, items: seq<Item>, env: Env): State {
    if items == [] then Start(midnight)
    else Feed(FeedItems(midnight, items[..|items| - 1], env), LineOf(items[|items| - 1]), env).0
  }

  function LastPacket(items: seq<Item>): Option<Item> {
    if items == [] then None
    else if items[|items| - 1].Captured? then Some(items[|items| - 1])
    else LastPacket(items[..|items| - 1])
  }

  // ---------------------------------------------------------------- when a date can be told

  /** Same day and at most half a day back, or the next day and less than half a day later. */
  predicate Follows(previous: Item, next: Item)
    requires previous.Captured? && next.Captured?
  {
    || (next.day == previous.day && previous.us - next.us <= DAY_MICROS / 2)
    || (next.day == previous.day + 1 && next.us + DAY_MICROS - previous.us < DAY_MICROS / 2)
  }

  /** The capture starts on the base date and every packet follows the one before it. */
  predicate Plausible(items: seq<Item>) {
    items == [] ||
    var init, last := items[..|items| - 1], items[|items| - 1];
    && Plausible(init)
    && (last.Captured? ==>
          var previous := LastPacket(init);
          if previous.None? then last.day == 0 else previous.value.Captured? && Follows(previous.value, last))
  }

  /** The parser has put every packet so far on its true date. */
  predicate DatesRight(midnight: int, items: seq<Item>, env: Env) {
    items == [] ||
    var init, last := items[..|items| - 1], items[|items| - 1];
    && DatesRight(midnight, init, env)
    && (last.Captured? ==> FeedItems(midnight, items, env).baseDate == midnight + last.day * DAY)
  }

  lemma {:induction false} LastIsCaptured(items: seq<Item>)
    ensures LastPacket(items).Some? ==> LastPacket(items).value.Captured?
    ensures LastPacket(items).Some? ==> LastPacket(items).value in items
  {
    if items != [] && !items[|items| - 1].Captured? {
      LastIsCaptured(items[..|items| - 1]);
    }
  }

  lemma HeaderToken(us: nat, rest: string)
    requires us < DAY_MICROS
    ensures var line := PrintTod(us) + " " + rest;
            line != "" && !IsBlank(line[0]) && Before(line, ' ') == PrintTod(us)
  {
    var tok := PrintTod(us);
    var line := tok + " " + rest;
    NoSpaceInTod(us);
    IndexIs(line, ' ', |tok|);
    assert line[..|tok|] == tok;
  }

  lemma NoSpaceInTod(us: nat)
    requires us < DAY_MICROS
    ensures PrintTod(us) != "" && forall i | 0 <= i < |PrintTod(us)| :: !IsBlank(PrintTod(us)[i])
  {
  }

  /** Feeding a packet's header is one clock step at its time of day. */
  lemma FeedsHeader(s: State, i: Item, env: Env)
    requires i.Captured? && WellFormed(i)
    ensures Feed(s, LineOf(i), env).0 == Header(s, i.us * 1000, IsUdp(LineOf(i)))
  {
    HeaderToken(i.us, i.rest);
    TodRoundTrip(i.us);
  }

  /** A packet header announces a payload, at the time it prints, exactly if it names UDP. */
  lemma PendingExactlyWhen(s: State, us: nat, rest: string, env: Env)
    requires us < DAY_MICROS
    ensures var line := PrintTod(us) + " " + rest;
            var s' := Feed(s, line, env).0;
            && (s'.pending <==> Occurs("proto UDP", line) || Occurs("next-header UDP", line))
            && (s'.pending ==> s'.pendingTime == s'.baseDate + us * 1000)
  {
    var line := PrintTod(us) + " " + rest;
    FeedsHeader(s, Captured(0, us, rest), env);
    ContainsExactly(line, "proto UDP");
    ContainsExactly(line, "next-header UDP");
  }

  lemma OtherKeepsClock(s: State, i: Item, env: Env)
    requires i.Other? && WellFormed(i)
    ensures var s' := Feed(s, LineOf(i), env).0;
            s'.baseDate == s.baseDate && s'.havePrev == s.havePrev && s'.prevTod == s.prevTod
  {
  }

  /** The clock remembers the last packet, and only packets move it. */
  lemma {:induction false} ClockFollowsPackets(midnight: int, items: seq<Item>, env: Env)
    requires forall i | i in items :: WellFormed(i)
    ensures var s, last := FeedItems(midnight, items, env), LastPacket(items);
            && s.havePrev == last.Some?
            && (last.Some? ==> last.value.Captured? && s.prevTod == last.value.us * 1000)
            && (last.None? ==> s.baseDate == midnight)
    ensures DatesRight(midnight, items, env) && LastPacket(items).Some? ==>
              LastPacket(items).value.Captured? &&
              FeedItems(midnight, items, env).baseDate == midnight + LastPacket(items).value.day * DAY
  {
    if items != [] {
      var n := |items| - 1;
      assert WellFormed(items[n]);
      ClockFollowsPackets(midnight, items[..n], env);
      var s := FeedItems(midnight, items[..n], env);
      if items[n].Captured? {
        FeedsHeader(s, items[n], env);
      } else {
        OtherKeepsClock(s, items[n], env);
      }
    }
  }

  /** One step from a right date is right exactly if the packet follows the one before it. */
  lemma StepIsRight(s: State, previous: Item, next: Item, midnight: int)
    requires previous.Captured? && next.Captured? && WellFormed(previous) && WellFormed(next)
    requires s.havePrev && s.prevTod == previous.us * 1000 && s.baseDate == midnight + previous.day * DAY
    ensures Header(s, next.us * 1000, true).baseDate == midnight + next.day * DAY <==> Follows(previous, next)
  {
  }

  /** The dates are right for a whole capture exactly if it is plausible. */
  lemma {:induction false} DatesAreRebuilt(midnight: int, items: seq<Item>, env: Env)
    requires forall i | i in items :: WellFormed(i)
    ensures DatesRight(midnight, items, env) <==> Plausible(items)
  {
    if items != [] {
      var n := |items| - 1;
      var init, last := items[..n], items[n];
      assert WellFormed(last);
      DatesAreRebuilt(midnight, init, env);
      if last.Captured? && DatesRight(midnight, init, env) {
        ClockFollowsPackets(midnight, init, env);
        LastIsCaptured(init);
        var s := FeedItems(midnight, init, env);
        FeedsHeader(s, last, env);
        if LastPacket(init).Some? {
          assert WellFormed(LastPacket(init).value);
          StepIsRight(s, LastPacket(init).value, last, midnight);
        }
      }
    }
  }

  /** Hence the payload of a UDP packet in a plausible capture is stamped with the true time. */
  lemma PayloadsCarryTrueTime(midnight: int, items: seq<Item>, last: Item, env: Env)
    requires forall i | i in items + [last] :: WellFormed(i)
    requires Plausible(items + [last]) && last.Captured? && IsUdp(LineOf(last))
    ensures var s := FeedItems(midnight, items + [last], env);
            s.pending && s.pendingTime == TrueTime(midnight, last)
  {
    var all := items + [last];
    assert all[..|all| - 1] == items && last in all;
    assert WellFormed(last);
    DatesAreRebuilt(midnight, all, env);
    FeedsHeader(FeedItems(midnight, items, env), last, env);
  }
}
