/**
 The re-queueing batch writer.  Adders and overlapping drains interleave under a
 mutex that is released while a chunk is on the wire, so the writer is a step system:
 add a row, take the whole buffer, hear back about one chunk of one drain.
 `added`, `stored` and `dropped` are the books the conservation law is about.
 */
module BatchWriter {

  /** A malformed row is one the batch refuses to append. */
  datatype Row = Row(payload: int, malformed: bool)

  /** What the database answers to one chunk. */
  datatype Outcome = Sent | PrepareFailed | SendFailed

  datatype Reply = Reply(outcome: Outcome, at: int)

  datatype Config = Config(maxSize: nat, maxBuffer: nat, maxAge: int)

  datatype State = State(buffer: seq<Row>, retryAfter: int, flights: seq<seq<Row>>,
                         added: seq<Row>, stored: seq<Row>, dropped: multiset<Row>)

  const INIT := State([], 0, [], [], [], multiset{})

  function Good(rows: seq<Row>): seq<Row> {
    if rows == [] then []
    else Good(rows[..|rows| - 1]) + if rows[|rows| - 1].malformed then [] else [rows[|rows| - 1]]
  }

  function Bad(rows: seq<Row>): multiset<Row> {
    multiset(rows) - multiset(Good(rows))
  }

  function Retryable(chunk: seq<Row>, outcome: Outcome): seq<Row> {
    match outcome
    case Sent => []
    case PrepareFailed => chunk
    case SendFailed => Good(chunk)
  }

  // ---------------------------------------------------------------- the steps

  function AddStep(s: State, row: Row): State {
    s.(buffer := s.buffer + [row], added := s.added + [row])
  }

  predicate MayTake(s: State, force: bool, now: int) {
    s.buffer != [] && (force || now >= s.retryAfter)
  }

  function TakeStep(s: State, force: bool, now: int): State {
    if MayTake(s, force, now) then s.(buffer := [], flights := s.flights + [s.buffer]) else s
  }

  function Chunk(rows: seq<Row>, cfg: Config): seq<Row> {
    if |rows| <= cfg.maxSize then rows else rows[..cfg.maxSize]
  }

  function Rest(rows: seq<Row>, cfg: Config): seq<Row> {
    if |rows| <= cfg.maxSize then [] else rows[cfg.maxSize..]
  }

  function Over(rows: seq<Row>, cfg: Config): nat {
    if |rows| > cfg.maxBuffer then |rows| - cfg.maxBuffer else 0
  }

  /** The re-queued sequence before the cap: unsent rows ahead of newer arrivals. */
  function Requeued(s: State, id: nat, outcome: Outcome, cfg: Config): seq<Row>
    requires id < |s.flights|
  {
    Retryable(Chunk(s.flights[id], cfg), outcome) + Rest(s.flights[id], cfg) + s.buffer
  }

  function SendStep(s: State, id: nat, reply: Reply, cfg: Config): State
    requires id < |s.flights|
  {
    var chunk := Chunk(s.flights[id], cfg);
    match reply.outcome
    case Sent =>
      s.(flights := s.flights[id := Rest(s.flights[id], cfg)],
         stored := s.stored + Good(chunk),
         dropped := s.dropped + Bad(chunk))
    case _ =>
      var queue := Requeued(s, id, reply.outcome, cfg);
      var over := Over(queue, cfg);
      var refused := multiset(chunk) - multiset(Retryable(chunk, reply.outcome));
      s.(buffer := queue[over..],
         retryAfter := reply.at + cfg.maxAge,
         flights := s.flights[id := []],
         dropped := s.dropped + refused + multiset(queue[..over]))
  }

  datatype Step = Add(row: Row) | Take(force: bool, now: int) | Hear(id: nat, reply: Reply)

  function Perform(s: State, step: Step, cfg: Config): State {
    match step
    case Add(row) => AddStep(s, row)
    case Take(force, now) => TakeStep(s, force, now)
    case Hear(id, reply) => if id < |s.flights| && s.flights[id] != [] then SendStep(s, id, reply, cfg) else s
  }

  function Run(s: State, steps: seq<Step>, cfg: Config): State {
    if steps == [] then s else Perform(Run(s, steps[..|steps| - 1], cfg), steps[|steps| - 1], cfg)
  }

  // ---------------------------------------------------------------- conservation

  function InFlight(flights: seq<seq<Row>>): multiset<Row> {
    if flights == [] then multiset{}
    else InFlight(flights[..|flights| - 1]) + multiset(flights[|flights| - 1])
  }

  ghost predicate Conserved(s: State) {
    multiset(s.added) == multiset(s.buffer) + InFlight(s.flights) + multiset(s.stored) + s.dropped
  }

  lemma {:induction false} GoodIsPart(rows: seq<Row>)
    ensures multiset(Good(rows)) <= multiset(rows)
    ensures forall r | r in Good(rows) :: !r.malformed
    ensures (forall r | r in rows :: !r.malformed) ==> Good(rows) == rows
  {
    if rows != [] {
      var n := |rows| - 1;
      assert rows == rows[..n] + [rows[n]];
      GoodIsPart(rows[..n]);
      assert rows[n] in rows;
    }
  }

  lemma ChunkAndRest(rows: seq<Row>, cfg: Config)
    ensures rows == Chunk(rows, cfg) + Rest(rows, cfg)
    ensures multiset(rows) == multiset(Chunk(rows, cfg)) + multiset(Rest(rows, cfg))
  {
  }

  lemma {:induction false} InFlightUpdate(flights: seq<seq<Row>>, id: nat, rows: seq<Row>)
    requires id < |flights|
    ensures InFlight(flights[id := rows]) + multiset(flights[id]) == InFlight(flights) + multiset(rows)
  {
    var n := |flights| - 1;
    if id == n {
      assert flights[id := rows][..n] == flights[..n];
    } else {
      assert flights[id := rows][..n] == flights[..n][id := rows];
      InFlightUpdate(flights[..n], id, rows);
      var last := multiset(flights[n]);
      calc {
        InFlight(flights[id := rows]) + multiset(flights[id]);
        (InFlight(flights[..n][id := rows]) + multiset(flights[id])) + last;
        (InFlight(flights[..n]) + multiset(rows)) + last;
        InFlight(flights) + multiset(rows);
      }
    }
  }

  /** A chunk leaves its flight: `kept` of it goes on, the rest is refused. */
  lemma ChunkLeaves(added: multiset<Row>, elsewhere: multiset<Row>, flying: multiset<Row>, flying': multiset<Row>,
                    rows: multiset<Row>, chunk: multiset<Row>, rest: multiset<Row>, kept: multiset<Row>)
    requires added == elsewhere + flying
    requires rows == chunk + rest && kept <= chunk
    requires flying' + rows == flying + rest
    ensures added == elsewhere + flying' + kept + (chunk - kept)
  {
    forall r: Row ensures added[r] == (elsewhere + flying' + kept + (chunk - kept))[r] {
      assert (flying' + rows)[r] == (flying + rest)[r];
    }
  }

  lemma SentConserves(s: State, id: nat, cfg: Config, at: int)
    requires Conserved(s) && id < |s.flights|
    ensures Conserved(SendStep(s, id, Reply(Sent, at), cfg))
  {
    var rows := s.flights[id];
    var chunk, rest := Chunk(rows, cfg), Rest(rows, cfg);
    ChunkAndRest(rows, cfg);
    GoodIsPart(chunk);
    InFlightUpdate(s.flights, id, rest);
    var elsewhere := multiset(s.buffer) + multiset(s.stored) + s.dropped;
    assert multiset(s.added) == elsewhere + InFlight(s.flights);
    ChunkLeaves(multiset(s.added), elsewhere, InFlight(s.flights), InFlight(s.flights[id := rest]),
                multiset(rows), multiset(chunk), multiset(rest), multiset(Good(chunk)));
  }

  lemma CutQueue(kept: seq<Row>, rest: seq<Row>, buffer: seq<Row>, over: nat)
    requires over <= |kept + rest + buffer|
    ensures var queue := kept + rest + buffer;
            multiset(queue[..over]) + multiset(queue[over..]) == multiset(kept) + multiset(rest) + multiset(buffer)
  {
    var queue := kept + rest + buffer;
    assert queue == queue[..over] + queue[over..];
    assert multiset(queue) == multiset(kept) + multiset(rest) + multiset(buffer);
  }

  lemma FailureConserves(s: State, id: nat, reply: Reply, cfg: Config)
    requires Conserved(s) && id < |s.flights| && reply.outcome != Sent
    ensures Conserved(SendStep(s, id, reply, cfg))
  {
    var rows := s.flights[id];
    var chunk, rest := Chunk(rows, cfg), Rest(rows, cfg);
    var kept := Retryable(chunk, reply.outcome);
    var queue := Requeued(s, id, reply.outcome, cfg);
    var over := Over(queue, cfg);
    ChunkAndRest(rows, cfg);
    GoodIsPart(chunk);
    InFlightUpdate(s.flights, id, []);
    CutQueue(kept, rest, s.buffer, over);
    RequeueBalance(multiset(s.added), multiset(s.buffer), multiset(s.stored) + s.dropped, InFlight(s.flights),
                   InFlight(s.flights[id := []]), multiset(rows), multiset(chunk), multiset(rest), multiset(kept),
                   multiset(queue[..over]), multiset(queue[over..]));
    var s' := SendStep(s, id, reply, cfg);
    assert multiset(s'.added) == multiset(s'.buffer) + InFlight(s'.flights) + (multiset(s.stored) + s.dropped)
                                 + (multiset(chunk) - multiset(kept)) + multiset(queue[..over]);
  }

  lemma RequeueBalance(added: multiset<Row>, buffer: multiset<Row>, elsewhere: multiset<Row>, flying: multiset<Row>,
                       flying': multiset<Row>, rows: multiset<Row>, chunk: multiset<Row>, rest: multiset<Row>,
                       kept: multiset<Row>, cut: multiset<Row>, left: multiset<Row>)
    requires added == buffer + flying + elsewhere
    requires flying' + rows == flying && rows == chunk + rest && kept <= chunk
    requires cut + left == kept + rest + buffer
    ensures added == left + flying' + elsewhere + (chunk - kept) + cut
  {
    forall r: Row ensures added[r] == (left + flying' + elsewhere + (chunk - kept) + cut)[r] {
      assert (flying' + rows)[r] == flying[r];
      assert (cut + left)[r] == (kept + rest + buffer)[r];
    }
  }

  lemma TakeConserves(s: State, force: bool, now: int)
    requires Conserved(s)
    ensures Conserved(TakeStep(s, force, now))
  {
  }

  lemma StepConserves(s: State, step: Step, cfg: Config)
    requires Conserved(s)
    ensures Conserved(Perform(s, step, cfg))
  {
    match step {
      case Add(row) =>
      case Take(force, now) =>
        TakeConserves(s, force, now);
      case Hear(id, reply) =>
        if id < |s.flights| {
          if reply.outcome == Sent {
            SentConserves(s, id, cfg, reply.at);
          } else {
            FailureConserves(s, id, reply, cfg);
          }
        }
    }
  }

  /** The rows that arrived, in order. */
  function Arrivals(steps: seq<Step>): seq<Row> {
    if steps == [] then []
    else
      var last := steps[|steps| - 1];
      Arrivals(steps[..|steps| - 1]) + if last.Add? then [last.row] else []
  }

  lemma {:induction false} ArrivalsAreAdded(s: State, steps: seq<Step>, cfg: Config)
    ensures Run(s, steps, cfg).added == s.added + Arrivals(steps)
  {
    if steps != [] {
      ArrivalsAreAdded(s, steps[..|steps| - 1], cfg);
    }
  }

  /** In every interleaving, every row that arrived is in exactly one place. */
  lemma {:induction false} RowsAreConserved(steps: seq<Step>, cfg: Config)
    ensures Conserved(Run(INIT, steps, cfg)) && Run(INIT, steps, cfg).added == Arrivals(steps)
  {
    if steps != [] {
      ArrivalsAreAdded(INIT, steps, cfg);
      RowsAreConserved(steps[..|steps| - 1], cfg);
      StepConserves(Run(INIT, steps[..|steps| - 1], cfg), steps[|steps| - 1], cfg);
    }
  }

  /** A failure leaves at most maxBuffer rows, and what the cap cuts is the oldest end of the queue. */
  lemma FailureKeepsTheNewest(s: State, id: nat, reply: Reply, cfg: Config)
    requires id < |s.flights| && reply.outcome != Sent
    ensures var s', queue := SendStep(s, id, reply, cfg), Requeued(s, id, reply.outcome, cfg);
            && |s'.buffer| <= cfg.maxBuffer
            && exists cut :: queue == cut + s'.buffer && (cut == [] || |s'.buffer| == cfg.maxBuffer)
  {
    var queue := Requeued(s, id, reply.outcome, cfg);
    var over := Over(queue, cfg);
    assert queue == queue[..over] + queue[over..];
  }

  // ---------------------------------------------------------------- what each reply does to the rows

  /** The rows the batch accepts, in order: each row that is not malformed. */
  lemma {:induction false} GoodConcat(a: seq<Row>, b: seq<Row>)
    ensures Good(a + b) == Good(a) + Good(b)
  {
    if b == [] {
      assert a + b == a;
    } else {
      var n := |b| - 1;
      assert (a + b)[..|a + b| - 1] == a + b[..n];
      GoodConcat(a, b[..n]);
      assert Good(a) + Good(b[..n]) + Good(b)[|Good(b[..n])|..] == Good(a) + Good(b);
    }
  }

  lemma StoredSoFar(rows: seq<Row>, i: nat, end: nat)
    requires i <= end <= |rows|
    ensures Good(rows[..end]) == Good(rows[..i]) + Good(rows[i..end])
  {
    assert rows[..end] == rows[..i] + rows[i..end];
    GoodConcat(rows[..i], rows[i..end]);
  }

  lemma GoodOfOne(r: Row)
    ensures Good([r]) == if r.malformed then [] else [r]
  {
    assert [r][..0] == [];
  }

  lemma {:induction false} GoodCounts(rows: seq<Row>, r: Row)
    ensures multiset(Good(rows))[r] == if r.malformed then 0 else multiset(rows)[r]
    ensures Bad(rows)[r] == if r.malformed then multiset(rows)[r] else 0
  {
    if rows != [] {
      var n := |rows| - 1;
      assert rows == rows[..n] + [rows[n]];
      GoodCounts(rows[..n], r);
    }
  }

  /** The end of the first chunk. */
  function ChunkEnd(rows: seq<Row>, cfg: Config): (n: nat)
    ensures n <= |rows| && n <= cfg.maxSize && (n == |rows| || n == cfg.maxSize)
  {
    if |rows| < cfg.maxSize then |rows| else cfg.maxSize
  }

  lemma ChunkIsFront(rows: seq<Row>, cfg: Config)
    ensures Chunk(rows, cfg) == rows[..ChunkEnd(rows, cfg)] && Rest(rows, cfg) == rows[ChunkEnd(rows, cfg)..]
  {
  }

  /** A chunk that was sent is stored but for its malformed rows; the rest of the flight goes on. */
  lemma SentStoresTheChunk(s: State, id: nat, at: int, cfg: Config)
    requires id < |s.flights|
    ensures var rows, s' := s.flights[id], SendStep(s, id, Reply(Sent, at), cfg);
            var n := ChunkEnd(rows, cfg);
            && s'.stored == s.stored + Good(rows[..n]) && s'.buffer == s.buffer
            && s'.flights == s.flights[id := rows[n..]]
  {
    ChunkIsFront(s.flights[id], cfg);
  }

  /** What it drops is its malformed rows. */
  lemma SentDrops(s: State, id: nat, at: int, r: Row, cfg: Config)
    requires id < |s.flights|
    ensures var rows := s.flights[id];
            SendStep(s, id, Reply(Sent, at), cfg).dropped[r] ==
            s.dropped[r] + if r.malformed then multiset(rows[..ChunkEnd(rows, cfg)])[r] else 0
  {
    ChunkIsFront(s.flights[id], cfg);
    GoodCounts(Chunk(s.flights[id], cfg), r);
  }

  /** What a failure puts back in front of the buffer: the flight, without malformed rows the batch has refused. */
  function PutBack(rows: seq<Row>, outcome: Outcome, cfg: Config): seq<Row> {
    var n := ChunkEnd(rows, cfg);
    (if outcome == PrepareFailed then rows[..n] else Good(rows[..n])) + rows[n..]
  }

  lemma RequeuedIs(s: State, id: nat, outcome: Outcome, cfg: Config)
    requires id < |s.flights| && outcome != Sent
    ensures Requeued(s, id, outcome, cfg) == PutBack(s.flights[id], outcome, cfg) + s.buffer
  {
    ChunkIsFront(s.flights[id], cfg);
  }

  lemma RefusedAreMalformed(chunk: seq<Row>, outcome: Outcome, r: Row)
    requires outcome != Sent
    ensures (multiset(chunk) - multiset(Retryable(chunk, outcome)))[r] ==
            if outcome == SendFailed && r.malformed then multiset(chunk)[r] else 0
  {
    GoodCounts(chunk, r);
  }

  /** A failure puts the flight back in front of the buffer, cuts the oldest above the cap, and stores nothing. */
  lemma FailureRequeues(s: State, id: nat, reply: Reply, cfg: Config)
    requires id < |s.flights| && reply.outcome != Sent
    ensures var s' := SendStep(s, id, reply, cfg);
            var queue := PutBack(s.flights[id], reply.outcome, cfg) + s.buffer;
            && s'.buffer == queue[if |queue| > cfg.maxBuffer then |queue| - cfg.maxBuffer else 0..]
            && s'.stored == s.stored && s'.flights == s.flights[id := []] && s'.retryAfter == reply.at + cfg.maxAge
  {
    RequeuedIs(s, id, reply.outcome, cfg);
  }

  /** What a failure drops is the malformed rows of a chunk that had been filled, and the front that the cap cuts. */
  lemma FailureDrops(s: State, id: nat, reply: Reply, r: Row, cfg: Config)
    requires id < |s.flights| && reply.outcome != Sent
    ensures var rows := s.flights[id];
            var queue := PutBack(rows, reply.outcome, cfg) + s.buffer;
            var cut := queue[..if |queue| > cfg.maxBuffer then |queue| - cfg.maxBuffer else 0];
            SendStep(s, id, reply, cfg).dropped[r] == s.dropped[r] + multiset(cut)[r] +
            if reply.outcome == SendFailed && r.malformed then multiset(rows[..ChunkEnd(rows, cfg)])[r] else 0
  {
    var chunk, queue := Chunk(s.flights[id], cfg), Requeued(s, id, reply.outcome, cfg);
    var refused := multiset(chunk) - multiset(Retryable(chunk, reply.outcome));
    var cut := multiset(queue[..Over(queue, cfg)]);
    assert SendStep(s, id, reply, cfg).dropped[r] == s.dropped[r] + refused[r] + cut[r];
    assert refused[r] == if reply.outcome == SendFailed && r.malformed then multiset(chunk)[r] else 0 by {
      RefusedAreMalformed(chunk, reply.outcome, r);
    }
    RequeuedIs(s, id, reply.outcome, cfg);
    ChunkIsFront(s.flights[id], cfg);
  }

  /** So well-formed rows that fit the buffer all come back, and nothing is dropped. */
  lemma FailureLosesNothing(s: State, id: nat, reply: Reply, cfg: Config)
    requires id < |s.flights| && reply.outcome != Sent
    requires forall r | r in s.flights[id] :: !r.malformed
    requires |s.flights[id]| + |s.buffer| <= cfg.maxBuffer
    ensures var s' := SendStep(s, id, reply, cfg);
            s'.buffer == s.flights[id] + s.buffer && s'.dropped == s.dropped && s'.stored == s.stored
  {
    var chunk := Chunk(s.flights[id], cfg);
    ChunkAndRest(s.flights[id], cfg);
    GoodIsPart(chunk);
  }

  /** Unless it backs off, a drain takes the whole buffer into flight. */
  lemma TakeEmptiesTheBuffer(s: State, force: bool, now: int)
    ensures var s' := TakeStep(s, force, now);
            if s.buffer != [] && (force || s.retryAfter <= now)
            then s'.buffer == [] && s'.flights == s.flights + [s.buffer] && s'.stored == s.stored
            else s' == s
  {
  }

  // ---------------------------------------------------------------- first in, first out

  ghost predicate AllLanded(flights: seq<seq<Row>>) {
    forall i | 0 <= i < |flights| :: flights[i] == []
  }

  ghost predicate Idle(s: State) {
    AllLanded(s.flights)
  }

  /** Only the latest drain may still have rows. */
  ghost predicate OneAtATime(s: State) {
    forall i | 0 <= i < |s.flights| - 1 :: s.flights[i] == []
  }

  function Flying(s: State): seq<Row> {
    if s.flights == [] then [] else s.flights[|s.flights| - 1]
  }

  ghost predicate Ordered(s: State) {
    OneAtATime(s) && s.stored + Flying(s) + s.buffer == s.added
  }

  lemma {:induction false} NothingRefused(rows: seq<Row>)
    requires Bad(rows) == multiset{}
    ensures Good(rows) == rows
  {
    GoodIsPart(rows);
    assert multiset(Good(rows)) == multiset(rows);
    forall r | r in rows ensures !r.malformed {
      assert r in multiset(rows);
      assert r in Good(rows);
    }
  }

  /** If a reply loses nothing, the whole chunk was stored or the whole flight goes back in front. */
  lemma NothingLost(s: State, id: nat, reply: Reply, cfg: Config)
    requires id < |s.flights| && SendStep(s, id, reply, cfg).dropped == multiset{}
    ensures reply.outcome == Sent ==> Good(Chunk(s.flights[id], cfg)) == Chunk(s.flights[id], cfg)
    ensures reply.outcome != Sent ==> SendStep(s, id, reply, cfg).buffer == s.flights[id] + s.buffer
  {
    var chunk := Chunk(s.flights[id], cfg);
    ChunkAndRest(s.flights[id], cfg);
    if reply.outcome != PrepareFailed {
      NothingRefused(chunk);
    }
    if reply.outcome != Sent {
      var queue := Requeued(s, id, reply.outcome, cfg);
      assert |multiset(queue[..Over(queue, cfg)])| == 0;
    }
  }

  lemma SendKeepsOrder(s: State, id: nat, reply: Reply, cfg: Config)
    requires Ordered(s) && id < |s.flights| && s.flights[id] != []
    requires SendStep(s, id, reply, cfg).dropped == multiset{}
    ensures Ordered(SendStep(s, id, reply, cfg))
  {
    var rows := s.flights[id];
    ChunkAndRest(rows, cfg);
    NothingLost(s, id, reply, cfg);
    assert id == |s.flights| - 1;
    Regroup(s.stored, Chunk(rows, cfg), Rest(rows, cfg), s.buffer);
  }

  lemma Regroup(a: seq<Row>, b: seq<Row>, c: seq<Row>, d: seq<Row>)
    ensures a + (b + c) + d == (a + b) + c + d
    ensures a + (b + c) + d == a + [] + ((b + c) + d)
  {
  }

  lemma StepKeepsOrder(s: State, step: Step, cfg: Config)
    requires Ordered(s)
    requires step.Take? && MayTake(s, step.force, step.now) ==> Idle(s)
    requires Perform(s, step, cfg).dropped == multiset{}
    ensures Ordered(Perform(s, step, cfg))
  {
    match step {
      case Add(row) =>
        assert s.stored + Flying(s) + (s.buffer + [row]) == s.stored + Flying(s) + s.buffer + [row];
      case Take(force, now) =>
      case Hear(id, reply) =>
        if id < |s.flights| && s.flights[id] != [] {
          SendKeepsOrder(s, id, reply, cfg);
        }
    }
  }

  /** Every drain starts only when the previous one is over. */
  ghost predicate NoOverlap(steps: seq<Step>, cfg: Config) {
    steps == [] ||
    var init, last := steps[..|steps| - 1], steps[|steps| - 1];
    && NoOverlap(init, cfg)
    && (last.Take? && MayTake(Run(INIT, init, cfg), last.force, last.now) ==> Idle(Run(INIT, init, cfg)))
  }

  lemma DroppedGrows(s: State, step: Step, cfg: Config)
    ensures s.dropped <= Perform(s, step, cfg).dropped
  {
  }

  /** Without overlap and without loss, rows are stored in the order they were added, whatever fails. */
  lemma {:induction false} FirstInFirstOut(steps: seq<Step>, cfg: Config)
    requires NoOverlap(steps, cfg) && Run(INIT, steps, cfg).dropped == multiset{}
    ensures Ordered(Run(INIT, steps, cfg)) && Run(INIT, steps, cfg).added == Arrivals(steps)
  {
    ArrivalsAreAdded(INIT, steps, cfg);
    if steps != [] {
      var init, last := steps[..|steps| - 1], steps[|steps| - 1];
      DroppedGrows(Run(INIT, init, cfg), last, cfg);
      FirstInFirstOut(init, cfg);
      StepKeepsOrder(Run(INIT, init, cfg), last, cfg);
    }
  }

  // ---------------------------------------------------------------- when the database is up

  ghost predicate Healthy(server: nat -> Reply) {
    forall k :: server(k).outcome == Sent
  }

  ghost predicate AllSent(hears: seq<Step>) {
    forall h | h in hears && h.Hear? :: h.reply.outcome == Sent
  }

  lemma StoreTheNext(rows: seq<Row>, i: nat, n: nat, rest: seq<Row>, stored: seq<Row>)
    requires i <= |rows| && rest == rows[i..] && n <= |rest|
    ensures i + n <= |rows| && rest[n..] == rows[i + n..]
    ensures stored + Good(rows[..i]) + Good(rest[..n]) == stored + Good(rows[..i + n])
  {
    assert rest[..n] == rows[i..i + n];
    StoredSoFar(rows, i, i + n);
    ConcatAssociates(stored, Good(rows[..i]), Good(rest[..n]));
  }

  lemma HearMoves(s: State, id: nat, at: int, rows: seq<Row>, i: nat, rest: seq<Row>, stored: seq<Row>, cfg: Config)
      returns (j: nat)
    requires id < |s.flights| && i <= |rows| && rest == rows[i..] && s.flights[id] == rest
    requires s.stored == stored + Good(rows[..i])
    ensures var s' := Perform(s, Hear(id, Reply(Sent, at)), cfg);
            && j <= |rows| && |s'.flights| == |s.flights| && s'.flights[id] == rows[j..]
            && s'.buffer == s.buffer && s'.stored == stored + Good(rows[..j])
  {
    if rest == [] {
      j := i;
    } else {
      var n := ChunkEnd(rest, cfg);
      var s' := Perform(s, Hear(id, Reply(Sent, at)), cfg);
      assert s'.stored == s.stored + Good(rest[..n]) && s'.buffer == s.buffer
             && s'.flights == s.flights[id := rest[n..]] by {
        SentStoresTheChunk(s, id, at, cfg);
      }
      StoreTheNext(rows, i, n, rest, stored);
      j := i + n;
    }
  }

  lemma ConcatAssociates(a: seq<Row>, b: seq<Row>, c: seq<Row>)
    ensures (a + b) + c == a + (b + c)
  {
  }

  /** A flight all of whose chunks get through moves into the store, in order and without its malformed rows. */
  lemma {:induction false} SentFlightMoves(s: State, hears: seq<Step>, id: nat, rows: seq<Row>, cfg: Config)
      returns (i: nat)
    requires id < |s.flights| && s.flights[id] == rows && AllSent(hears)
    requires forall h | h in hears :: h.Hear? && h.id == id
    ensures var s' := Run(s, hears, cfg);
            && i <= |rows| && |s'.flights| == |s.flights| && s'.flights[id] == rows[i..]
            && s'.buffer == s.buffer && s'.stored == s.stored + Good(rows[..i])
  {
    if hears == [] {
      i := 0;
    } else {
      var n := |hears| - 1;
      var last := hears[n];
      assert last in hears;
      i := SentFlightMoves(s, hears[..n], id, rows, cfg);
      i := HearMoves(Run(s, hears[..n], cfg), id, last.reply.at, rows, i, rows[i..], s.stored, cfg);
      assert last == Hear(id, Reply(Sent, last.reply.at));
    }
  }

  lemma SentFlightIsStored(s: State, hears: seq<Step>, id: nat, rows: seq<Row>, cfg: Config)
    requires id < |s.flights| && s.flights[id] == rows && AllSent(hears)
    requires forall h | h in hears :: h.Hear? && h.id == id
    requires id < |Run(s, hears, cfg).flights| && Run(s, hears, cfg).flights[id] == []
    ensures Run(s, hears, cfg).buffer == s.buffer && Run(s, hears, cfg).stored == s.stored + Good(rows)
  {
    var i := SentFlightMoves(s, hears, id, rows, cfg);
    assert rows[..i] == rows;
  }

  // ---------------------------------------------------------------- the writer

  /** One drain: take the buffer, then hear about its chunks only. */
  ghost predicate IsDrain(s: State, steps: seq<Step>, force: bool, now: int) {
    && steps != []
    && steps[0] == Take(force, now)
    && forall i | 0 < i < |steps| :: steps[i].Hear? && steps[i].id == |s.flights|
  }

  lemma RunSnoc(s: State, steps: seq<Step>, step: Step, cfg: Config)
    ensures Run(s, steps + [step], cfg) == Perform(Run(s, steps, cfg), step, cfg)
  {
  }

  /** How often the buffer was taken past any back-off. */
  function ForcedTakes(steps: seq<Step>): nat {
    if steps == [] then 0
    else
      var last := steps[|steps| - 1];
      ForcedTakes(steps[..|steps| - 1]) + if last.Take? && last.force then 1 else 0
  }

  lemma {:induction false} ForcedTakesConcat(a: seq<Step>, b: seq<Step>)
    ensures ForcedTakes(a + b) == ForcedTakes(a) + ForcedTakes(b)
  {
    if b == [] {
      assert a + b == a;
    } else {
      assert (a + b)[..|a + b| - 1] == a + b[..|b| - 1];
      ForcedTakesConcat(a, b[..|b| - 1]);
    }
  }

  lemma {:induction false} DrainTakesOnce(s: State, steps: seq<Step>, force: bool, now: int)
    requires IsDrain(s, steps, force, now)
    ensures ForcedTakes(steps) == if force then 1 else 0
  {
    if |steps| > 1 {
      DrainTakesOnce(s, steps[..|steps| - 1], force, now);
    }
  }

  lemma {:induction false} DrainAddsNothing(s: State, steps: seq<Step>, force: bool, now: int, cfg: Config)
    requires IsDrain(s, steps, force, now)
    ensures Run(s, steps, cfg).added == s.added
  {
    if |steps| > 1 {
      DrainAddsNothing(s, steps[..|steps| - 1], force, now, cfg);
    }
  }

  lemma ChunkSlice(rows: seq<Row>, i: nat, end: nat, cfg: Config)
    requires i < |rows| && end == if i + cfg.maxSize < |rows| then i + cfg.maxSize else |rows|
    ensures rows[i..end] == Chunk(rows[i..], cfg) && rows[end..] == Rest(rows[i..], cfg)
  {
  }

  lemma {:induction false} RunConcat(s: State, a: seq<Step>, b: seq<Step>, cfg: Config)
    ensures Run(s, a + b, cfg) == Run(Run(s, a, cfg), b, cfg)
  {
    if b == [] {
      assert a + b == a;
    } else {
      var n := |b| - 1;
      assert (a + b)[..|a + b| - 1] == a + b[..n];
      RunConcat(s, a, b[..n], cfg);
    }
  }

  /** A drain that starts idle, as every drain of a single-threaded writer does, overlaps nothing. */
  lemma {:induction false} DrainDoesNotOverlap(past: seq<Step>, steps: seq<Step>, force: bool, now: int, cfg: Config)
    requires NoOverlap(past, cfg) && Idle(Run(INIT, past, cfg))
    requires IsDrain(Run(INIT, past, cfg), steps, force, now)
    ensures NoOverlap(past + steps, cfg)
  {
    var n := |steps| - 1;
    assert (past + steps)[..|past + steps| - 1] == past + steps[..n];
    if n == 0 {
      assert past + steps[..n] == past;
    } else {
      DrainDoesNotOverlap(past, steps[..n], force, now, cfg);
    }
  }

  class Writer {
    var buffer: seq<Row>
    var retryAfter: int
    const cfg: Config
    ghost var books: State

    ghost predicate Valid()
      reads this
    {
      cfg.maxSize >= 1 && buffer == books.buffer && retryAfter == books.retryAfter
    }

    constructor (cfg: Config)
      requires cfg.maxSize >= 1
      ensures Valid() && this.cfg == cfg && books == INIT
    {
      this.cfg := cfg;
      buffer, retryAfter, books := [], 0, INIT;
    }

    /** One chunk on the wire: the rows to re-queue, and whether the write failed. */
    static method Send(rows: seq<Row>, outcome: Outcome) returns (retryable: seq<Row>, failed: bool)
      ensures failed == (outcome != Sent)
      ensures retryable == Retryable(rows, outcome)
    {
      if outcome == PrepareFailed {
        return rows, true;
      }
      var appended := [];
      for i := 0 to |rows|
        invariant appended == Good(rows[..i])
      {
        assert rows[..i + 1][..i] == rows[..i];
        if !rows[i].malformed {
          appended := appended + [rows[i]];
        }
      }
      assert rows[..|rows|] == rows;
      if outcome == SendFailed {
        return appended, true;
      }
      return [], false;
    }

    /** Puts unsent rows ahead of newer arrivals, cutting the oldest above the cap. */
    method Requeue(unsent: seq<Row>, at: int)
      modifies this`buffer, this`retryAfter
      ensures buffer == (unsent + old(buffer))[Over(unsent + old(buffer), cfg)..]
      ensures retryAfter == at + cfg.maxAge
    {
      buffer := unsent + buffer;
      retryAfter := at + cfg.maxAge;
      var over := |buffer| - cfg.maxBuffer;
      if over > 0 {
        buffer := buffer[over..];
      }
    }

    /** Sends the next chunk rows[i..end] of drain `id` and books the reply. */
    method SendChunk(rows: seq<Row>, i: nat, reply: Reply, ghost id: nat) returns (end: nat, failed: bool)
      requires Valid() && id < |books.flights| && i < |rows| && books.flights[id] == rows[i..]
      modifies this
      ensures Valid() && books == Perform(old(books), Hear(id, reply), cfg)
      ensures i < end <= |rows|
      ensures books.flights == old(books).flights[id := if failed then [] else rows[end..]]
    {
      end := if i + cfg.maxSize < |rows| then i + cfg.maxSize else |rows|;
      ChunkSlice(rows, i, end, cfg);
      var retryable;
      retryable, failed := Send(rows[i..end], reply.outcome);
      ghost var next := SendStep(books, id, reply, cfg);
      if failed {
        ghost var queue := Requeued(books, id, reply.outcome, cfg);
        assert queue == retryable + rows[end..] + buffer;
        Requeue(retryable + rows[end..], reply.at);
        assert buffer == queue[Over(queue, cfg)..];
      }
      books := next;
    }

    /**
     Takes the buffer and sends it chunk by chunk, as a run of the step system; if every
     chunk gets through, all its well-formed rows are stored.
     */
    method Drain(force: bool, now: int, server: nat -> Reply) returns (ghost steps: seq<Step>)
      requires Valid()
      modifies this
      ensures Healthy(server) && (force || old(retryAfter) <= now) ==>
                buffer == [] && books.stored == old(books.stored) + Good(old(buffer))
      ensures Valid() && books == Run(old(books), steps, cfg)
      ensures IsDrain(old(books), steps, force, now)
      ensures old(Idle(books)) ==> Idle(books)
    {
      steps := [Take(force, now)];
      RunSnoc(books, [], Take(force, now), cfg);
      if buffer == [] || (!force && now < retryAfter) {
        return;
      }
      var rows := buffer;
      buffer := [];
      books := TakeStep(books, force, now);
      ghost var taken := books;
      ghost var hears := SendAll(rows, |old(books).flights|, server);
      if Healthy(server) {
        SentFlightIsStored(taken, hears, |old(books).flights|, rows, cfg);
      }
      RunConcat(old(books), steps, hears, cfg);
      steps := steps + hears;
    }

    /** The chunk loop of one drain: ends when everything was sent or one chunk failed. */
    method SendAll(rows: seq<Row>, ghost id: nat, server: nat -> Reply) returns (ghost hears: seq<Step>)
      requires Valid() && id < |books.flights| && books.flights[id] == rows
      modifies this
      ensures Healthy(server) ==> AllSent(hears)
      ensures Valid() && books == Run(old(books), hears, cfg)
      ensures forall h | h in hears :: h.Hear? && h.id == id
      ensures books.flights == old(books).flights[id := []]
    {
      hears := [];
      var i, k := 0, 0;
      while i < |rows|
        invariant 0 <= i <= |rows| && 0 <= k && Valid()
        invariant books.flights == old(books).flights[id := rows[i..]]
        invariant books == Run(old(books), hears, cfg)
        invariant forall h | h in hears :: h.Hear? && h.id == id
        invariant Healthy(server) ==> AllSent(hears)
      {
        RunSnoc(old(books), hears, Hear(id, server(k)), cfg);
        hears := hears + [Hear(id, server(k))];
        assert books.flights[id] == rows[i..];
        var end, failed := SendChunk(rows, i, server(k), id);
        assert books == Run(old(books), hears, cfg);
        if failed {
          assert books.flights == old(books).flights[id := []];
          return;
        }
        i, k := end, k + 1;
      }
      assert rows[i..] == [];
    }

    method Add(row: Row, now: int, server: nat -> Reply) returns (ghost steps: seq<Step>)
      requires Valid()
      modifies this
      ensures Valid() && books == Run(old(books), steps, cfg)
      ensures steps != [] && steps[0] == Step.Add(row)
      ensures if |old(buffer)| + 1 >= cfg.maxSize then IsDrain(AddStep(old(books), row), steps[1..], false, now)
              else |steps| == 1 && buffer == old(buffer) + [row]
      ensures old(Idle(books)) ==> Idle(books)
    {
      steps := [Step.Add(row)];
      RunSnoc(books, [], Step.Add(row), cfg);
      buffer := buffer + [row];
      books := AddStep(books, row);
      var shouldFlush := |buffer| >= cfg.maxSize;
      if shouldFlush {
        ghost var more := Drain(false, now, server);
        RunConcat(old(books), steps, more, cfg);
        steps := steps + more;
      }
    }

    /** One drain past any back-off. */
    method ForcedDrain(server: nat -> Reply) returns (ghost steps: seq<Step>)
      requires Valid()
      modifies this
      ensures books.added == old(books.added)
      ensures Valid() && books == Run(old(books), steps, cfg) && ForcedTakes(steps) == 1
      ensures old(Idle(books)) ==> Idle(books)
    {
      ghost var before := books;
      steps := Drain(true, 0, server);
      DrainTakesOnce(before, steps, true, 0);
      DrainAddsNothing(before, steps, true, 0, cfg);
    }

    /** Shutdown: drains past any back-off until nothing is left or the attempts are spent. */
    method FinalDrain(attempts: int, servers: nat -> nat -> Reply)
        returns (remaining: nat, drains: nat, ghost steps: seq<Step>)
      requires Valid()
      modifies this
      ensures Valid() && books == Run(old(books), steps, cfg)
      ensures remaining == |buffer| && books.added == old(books.added)
      ensures drains == ForcedTakes(steps) && 1 <= drains <= (if attempts < 1 then 1 else attempts)
      ensures remaining == 0 || drains == (if attempts < 1 then 1 else attempts)
      ensures old(Idle(books)) ==> Idle(books)
    {
      drains, steps := 0, [];
      while true
        invariant Valid() && 0 <= drains && (drains == 0 || drains < attempts)
        invariant books.added == old(books.added)
        invariant books == Run(old(books), steps, cfg) && drains == ForcedTakes(steps)
        invariant old(Idle(books)) ==> Idle(books)
        decreases attempts - drains
      {
        ghost var more := ForcedDrain(servers(drains));
        RunConcat(old(books), steps, more, cfg);
        ForcedTakesConcat(steps, more);
        steps := steps + more;
        drains := drains + 1;
        remaining := |buffer|;
        if remaining == 0 || drains - 1 >= attempts - 1 {
          return;
        }
      }
    }
  }
}
