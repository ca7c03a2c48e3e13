# Network enricher: a verified model

The enricher annotates network flows with the device, the user and the hostname behind an
address. It builds those views from logs, and a separate forensic tool answers the same
questions for an instant in the past. This project models the logic that decides the
answers, and proves what it promises over every input and every run. Dafny 4.11 checks it
with `dafny verify dfyconfig.toml`.

| file | part of the system |
|---|---|
| `Evidence.dfy` | the closed form of "which claims does the evidence support at t" |
| `IdentityJoin.dfy` | the forensic joins: filter, sort, fold batches of equal time, three-way answer |
| `WhoJoin.dfy` | the who-mode join over truncated windows, against the join over all history |
| `LiveSlot.dfy` | one slot of the live identity store: newest wins, tombstones, sweeps, replays |
| `LiveExact.dfy` | what a slot shows after any run, and exactly when that is what the evidence says |
| `IdentityStore.dfy` | the live store as a class, and its runs as the product of its slots |
| `EventAnswers.dfy` | the forensic answers, the who rows, lookups and sweeps said in the fields of the events themselves |
| `LookupExact.dfy` | exactly when both hops of a live lookup give the forensic answers |
| `VictimHeap.dfy`, `DnsEviction.dfy` | the bounded max-heap and the choice of eviction victims |
| `DnsTopUp.dfy` | exactly when the topped-up victims are the oldest entries |
| `DnsStore.dfy` | the hard-capped DNS cache and its runs |
| `DnsExact.dfy` | exactly when arrival order cannot change a binding, and when a hit is the newest answer |
| `DnsForget.dfy` | the same promise under cap evictions, and the run that breaks it for every cache size |
| `Tailer.dfy` | the incremental file tailer under any schedule of appends and polls |
| `Rotation.dfy` | the tailer when files are also replaced: what each generation delivers and loses |
| `Dnstap.dfy`, `DnstapLog.dfy` | the dnstap line parser, its printer, the round trip through a tailed file |
| `DnsIngest.dfy` | one parser per file, and what a truncation does to it |
| `Tcpdump.dfy`, `TcpdumpDates.dfy` | the two-line tcpdump parser and the dates it rebuilds |
| `TcpdumpPrint.dfy` | the printer that parser inverts, up to whole captures |
| `DnsScan.dfy`, `ScanCounts.dfy` | the capture scanner that runs in lockstep with that parser, and its report of a printed capture |
| `BatchWriter.dfy` | the re-queueing batch writer as a step system with a conservation law |
| `Text.dfy`, `DnsEvents.dfy` | strings as Go sees them, and the common DNS event |

How to read the model:

- Times are unbounded integers: any unit for identities, nanoseconds for DNS. The clock is a
  parameter of the operations that read it. A run only has to be asked no earlier than its
  sweeps, which a clock that never runs backwards guarantees.
- A lease event and an accounting event are both a `Fact` about one key. The two bindings of
  the live store have the same rules, so one slot machine stands for both; likewise the two
  batch folds of the forensic tool share one loop. The claim of a lease is the device twice,
  that of a session is its id and its user.
- Class methods are proved equal to transition functions, and the theorems about whole runs
  are proved of those functions.
- Iteration over a Go map is an arbitrary choice of the next key, so results hold for every
  iteration order.
- Where a mutex is released in the middle of an operation, either the contract lists every
  map a reader may see (`DnsStore.Store.ApplyDns`) or the operation is cut into steps that
  interleave freely (`BatchWriter.Run`).
- The three queries of the who mode are answered by the database. What their answers are is
  specified (`WhoJoin.AreCandidates`, `AnswersLeases`, `AnswersSessions`); the join is proved
  for every answer that meets the specification.
- A DNS run is `Recorded` when its clock never goes backwards and no answer is dated after the
  reading at which it arrives. Where such a restriction matters, both cases are stated.
- RFC 3339 timestamps and IP literals are answered by functions passed in, so every statement
  holds for all of them.

Findings, where the code is narrower than its documentation:

- `README.md` of the repository still calls the forensic fold identical to the live store; the
  code says otherwise and the code is modelled. `LiveExact.LiveAndEvidenceCanDiffer` gives four
  inputs on which they part: a same-second tie, a close that arrives before its open, an open
  that arrives behind another entity's newer tombstone, an event dated after the instant asked
  about. With nothing dated later they agree if and only if, of the unexpired latest opens, the
  one the slot accepted last has no close, or one that arrived after it, and every other has a
  close (`LiveExact.AgreesExactlyWhen`; `LiveExact.AgreesOnEveryLogExactlyWhen` for logs with
  later events). `LookupExact.LookupAgreesExactlyWhen` composes this over the two hops of a
  lookup: the answers can then also be equal because user tokens are empty or shared.
- The top-up of an eviction starts at the root of a max-heap, so with room for one more victim
  it sheds the latest of the oldest entries (`DnsTopUp.OneSlotShedsTheLatest`), and in a full
  cache without equal deadlines never the oldest (`DnsTopUp.TopUpMissesTheOldest`). In every
  iteration order it sheds the oldest if and only if nothing is topped up, all that may be is, or the earliest deadline
  is shared by enough entries (`DnsTopUp.AlwaysOldestExactlyWhen`).
- Arrival order cannot decide the name of a DNS binding, but it can decide its deadline, exactly
  when answers that tie as the newest, in time and name, run out at different times
  (`DnsExact.OrderIsIrrelevantExactlyWhen`).
- A DNS hit can be older than another answer for the same key: through sweeps, exactly when an
  older answer outlives a newer one (`DnsExact.HitsAreNewestExactlyWhen`); through cap
  evictions, for every cache size, exactly when an older answer is still trusted at the time
  of a newer one (`DnsForget.NewestDespiteEvictionsExactlyWhen`). If answers may be dated after
  the clock, one being newer than another is enough
  (`DnsForget.NewestWithFutureAnswersExactlyWhen`).
- After a truncation the tailer starts over only if the first read of the new content holds a
  complete line; otherwise the old offset stays stored (`Tailer.TruncationStartsOver`).
- A complete line longer than the read limit stops the tailer for good
  (`Tailer.ReachesTheEnd`).
- A new file that has outgrown the stale offset by the first fruitful read is delivered from that
  offset on; what it holds before is lost (`Rotation.FirstFruitfulPollDecides`,
  `Rotation.LossIsWhatWasSkipped`).
- The root zone has an empty normalised name. A dnstap client message is lost to the error count
  if and only if it asks for the root, has no address, or has a stamp that is unreadable or the
  zero time (`DnstapLog.LostExactlyWhen`); a tcpdump question for the root is an error as well, and a
  reply whose first record is owned by the root yields nothing (`TcpdumpPrint.PacketRoundTrip`).

## Model

| member | source | states |
|---|---|---|
| Evidence.SurvivorsAfterBatch | cmd/trace/identity_join.go:87-111 | the carried candidate set equals, batch after batch, the claims opened at the latest open time whose entity nothing closed since |
| Evidence.WindowLosesNothing | cmd/trace/main.go:546-549 | for any instant in [from, to], facts outside [from - horizon, to] change no holder |
| IdentityJoin.SortByTime | cmd/trace/identity_join.go:77 | the result is ordered by time, a permutation, and stable: facts of one instant keep their order |
| IdentityJoin.FoldBatches | cmd/trace/identity_join.go:79-112 | the batch loop with one carried deadline computes the closed-form survivors, and the deadline is the latest open time plus the horizon |
| IdentityJoin.DhcpBindingAt | cmd/trace/identity_join.go:70-126 | for every event list, address, instant and horizon: unknown, ambiguous or the one device, as the closed form says |
| IdentityJoin.RadiusBindingAt | cmd/trace/identity_join.go:132-190 | the same for the user of a device, where the candidate is the (session, user) pair and a Stop closes the session |
| IdentityJoin.SoleUser | cmd/trace/identity_join.go:178-189 | counting sessions and users apart reports ambiguity exactly when there is more than one pair |
| EventAnswers.DeviceExactly | cmd/trace/identity_join.go:70-126 | in the fields of the events: an assignment (10 or 11) holds an address at t if it is not after t, not older than the lease, with no later assignment up to t and no release (12) of its device since; none held: unknown, one device: that device, two: ambiguous |
| EventAnswers.UserExactly | cmd/trace/identity_join.go:132-190 | the same in accounting fields: Start and Interim-Update open, Stop closes a session; the answer is the user of the one session that holds the device, ambiguous if two differ in session or user |
| WhoJoin.LimitKeepsGroups | cmd/trace/main.go:180-202 | the rows of query 1 are distinct groups of the wanted rows, each with its count and its first and last sight inside the window, and all the groups unless the limit cut |
| WhoJoin.TruncatedLeases | cmd/trace/main.go:546-549 | selecting addresses and cutting at from - maxLease leaves the holders of every selected address unchanged |
| WhoJoin.TruncatedSessions | cmd/trace/main.go:580-583 | selecting devices and cutting at from - maxSession leaves the holders of every selected device unchanged |
| WhoJoin.EvidenceIsASet | cmd/trace/identity_join.go:23-28 | any permutation or duplication of rows gives the same device and user answers |
| WhoJoin.ResolveDevices | cmd/trace/main.go:570-578 | each candidate gets the device verdict of the whole lease history, and every device found is selected for the next query |
| WhoJoin.Attribute | cmd/trace/main.go:546-613 | every candidate inside the window gets the attribution of the join over the full history; an ambiguous device never gets a user |
| WhoJoin.RunWho | cmd/trace/main.go:518-616 | the whole mode: given the groups of the wanted rows and the selected leases and sessions, each candidate is attributed as the full history says, an ambiguous device to no user |
| EventAnswers.WhoRowNames | cmd/trace/main.go:546-613 | a row names the device whose assignment holds its address when last seen and the user of that device then; two such devices make it ambiguous and leave it without a user |
| EventAnswers.WhoRowUnknown | cmd/trace/main.go:570-578 | if no assignment holds the address then, the row names neither device nor user |
| LiveSlot.HeldWasApplied | identity.go:165-174 | a held binding is one applied event with the deadline it earns |
| LiveSlot.NoVisibleRollback | identity.go:133-176 | over every run in any arrival order, a visible binding is never older than anything the slot held before, tombstones and swept ones included |
| LiveSlot.ClosedStaysClosed | identity.go:168-175 | an open older than a recorded close is never visible again |
| LiveSlot.OrderlyRunsStayInSync | identity.go:154-176 | invariant of every orderly run: the slot tracks the latest open or the latest close of its entity, or that open has expired |
| LiveSlot.VisibleIsEvidence | identity.go:109-123 | in every orderly run with replays and sweeps anywhere, a reader sees exactly the evidence holders |
| LiveSlot.StrictLogsAreOrderly | identity.go:133-136 | logs with strictly increasing times are orderly |
| LiveSlot.ReplayIsInvisible | identity.go:133-138 | replaying seen events in any order, with sweeps between, changes nothing visible |
| LiveSlot.ReplayLeavesSlot | identity.go:154-176 | without sweeps a replay leaves the slot itself unchanged |
| LiveExact.VisibleIsShown | identity.go:109-176 | after any run, ties, replays, future events and sweeps included, a reader sees the claim of the last accepted open of the latest open time unless a close of it arrived later or it expired, else nothing |
| LiveExact.AgreesExactlyWhen | identity.go:154-176 | with nothing dated after now, live equals evidence if and only if the last accepted latest open has no close at all or one that arrived after it, and every other latest open is closed |
| LiveExact.SoleOpenAgreesExactlyWhen | identity.go:154-163 | with one latest open: agreement if and only if it was refused on arrival and is closed, or was accepted and a close of it, if any, arrived later |
| LiveExact.AgreesOnEveryLogExactlyWhen | identity.go:154-176 | later-dated events included: the live claim is the evidence if and only if the latest opens up to now are closed by then exactly when the slot does not stand for them, and it stands for no other claim |
| LiveExact.AnswersAgreeExactlyWhen | identity.go:109-123 | with nothing dated after now, ties included, the two answers are equal if and only if every unexpired latest open is kept, or what is not is masked: no two claims open, and the misjudged ones name no user or share one |
| LiveExact.TellingTokensMaskNothing | identity.go:109-123 | where latest opens name each their own user, nothing is masked |
| LiveExact.LiveAndEvidenceCanDiffer | knowledge_domain.md:73-75 | a tie, a close before its open, an open behind another entity's newer tombstone, and a future event each make live and forensic answers differ |
| IdentityStore.Store.ApplyDhcp | identity.go:147-177 | folds one lease event into the slot of its address and touches nothing else |
| IdentityStore.Store.ApplyRadius | identity.go:208-253 | folds one accounting event into the slot of its device and touches nothing else |
| IdentityStore.Store.EvictExpired | identity.go:258-272 | removes exactly the bindings past their deadline from both tables |
| IdentityStore.Store.Lookup | identity.go:109-123 | the two-hop answer over visible bindings |
| IdentityStore.HistoryIsRun | identity.go:147-272 | after any sequence of events and sweeps, each key holds what its own slot machine holds |
| IdentityStore.LiveAgreesWithEvidence | identity.go:109-123 | if the events about the address and about the device it names are orderly and recorded by now, Lookup equals the forensic device and user answers, unambiguously |
| EventAnswers.LookupNames | identity.go:109-123 | in the same runs Lookup names the device of the assignment that holds the address and the user of the session that holds the device, both read off the events applied |
| EventAnswers.LogsAreActions | identity.go:147-253 | the logs compared with are exactly the lease and accounting events applied |
| EventAnswers.SweepRemovesExactly | identity.go:258-272 | after a sweep at now a key has a binding exactly if it had one with a deadline not before now, and then the same one |
| LookupExact.LookupAgreesExactlyWhen | identity.go:109-123 | where the events about the address and its device are recorded by now, ties included: both answers of Lookup are the forensic ones if and only if every unexpired latest lease is kept, and every unexpired latest session is, or user tokens mask those that are not |
| LookupExact.LookupAgreesWithoutTies | identity.go:109-123 | where neither the address nor its device has tied latest opens: if and only if the latest lease and the latest session were undisturbed on arrival, or that session names no user |
| IdentityStore.LookupNeverRollsBack | identity.go:154-176 | in any arrival order, what Lookup treats as live is never older than what that key held at any earlier point |
| IdentityStore.ReplayChangesNoLookup | identity.go:133-144 | re-reading the logs in any order, with sweeps between, changes no Lookup whose address and device have orderly events |
| IdentityStore.ReplayLeavesStore | identity.go:154-252 | without sweeps a replay leaves both tables unchanged |
| VictimHeap.Push | dnsstore.go:256-257 | keeps the max-heap order and adds exactly the new victim |
| VictimHeap.ReplaceRoot | dnsstore.go:258-261 | keeps the max-heap order and exchanges exactly the root |
| VictimHeap.RootIsLatest | dnsstore.go:280-283 | the root has the latest deadline |
| DnsEviction.OfferedIsRight | dnsstore.go:256-261 | one heap step keeps the heap a choice of the shed earliest deadlines seen so far |
| DnsEviction.HeapOfIsRight | dnsstore.go:249-262 | in whatever order the entries are visited, the heap lists a choice of the shed earliest unexpired deadlines visited |
| DnsEviction.SelectOldest | dnsstore.go:249-262 | one pass visits every entry once in some order, lists every expired key once, and leaves the heap of that order, a choice of the shed earliest other deadlines |
| DnsEviction.SelectEvictions | dnsstore.go:239-272 | victims are distinct, contain every expired key, come otherwise from the shed oldest, number max(expired, min(shed, entries)), and are exactly a shed-oldest choice when nothing expired |
| DnsEviction.ShedIsASixteenth | dnsstore.go:241-244 | an eviction sheds a sixteenth of the cap, rounded down, but at least one entry |
| DnsTopUp.OneSlotShedsTheLatest | dnsstore.go:264-270 | with room for one more victim the one taken is the latest of the shed oldest |
| DnsTopUp.TopUpMissesTheOldest | dnsstore.go:233-237 | in every full cache with one more victim wanted than entries expired, a shed of at least two and no equal deadlines, the one taken is not the oldest |
| DnsTopUp.TopUpIsOldestExactlyWhen | dnsstore.go:264-271 | the topped-up victims are the oldest unexpired entries if and only if none are needed, the whole heap is, or all heap elements left over tie with its root |
| DnsTopUp.AlwaysOldestExactlyWhen | dnsstore.go:233-237 | they are in every iteration order if and only if none are needed, all that may be listed are, or enough unexpired entries share the earliest deadline |
| DnsStore.Horizon | dnsstore.go:184-195 | the trusted TTL lies in [60s, 1h]; a known TTL inside the band passes unchanged, an unknown one gets ten minutes |
| DnsStore.Store.MakeRoom | dnsstore.go:198-214 | only a new key at the cap evicts; afterwards there is room, and readers saw only submaps of the old entries |
| DnsStore.Store.StoreAnswer | dnsstore.go:216-230 | newest answer wins, a tie goes to the greater hostname |
| DnsStore.Store.ApplyDns | dnsstore.go:175-231 | one step of the cache; at every lock release the cap holds and a reader sees the result or a submap of the old entries |
| DnsStore.AnswerIsStored | dnsstore.go:175-231 | after an answer with name and address its key is present, no older than it; a key that was absent carries its name, time and a deadline 60 s to 1 h later, ten minutes for an unknown TTL |
| DnsStore.AnswerIsShown | dnsstore.go:147-159 | such an answer is the hit for a minute and never after an hour; one of unknown TTL for exactly ten minutes |
| DnsStore.TieGoesToTheGreater | dnsstore.go:216-224 | against a stored answer of the same time the lexicographically greater name stays |
| DnsStore.OthersStay | dnsstore.go:198-214 | other keys keep their bindings, and lose them only to an answer for a new key in a full cache |
| DnsStore.NothingToStore | dnsstore.go:176-178 | an event without name or without address changes nothing |
| Text.StringLeExactly | dnsstore.go:216-224 | the order of names: a prefix comes first, else the first difference decides |
| DnsStore.Store.EvictExpired | dnsstore.go:297-306 | removes exactly the expired entries |
| DnsStore.SweepRemovesExactly | dnsstore.go:297-306 | after a sweep at now exactly the entries with a deadline not before now are left, unchanged |
| DnsStore.Store.Lookup | dnsstore.go:147-159 | the hostname of a present, unexpired entry, else "" |
| DnsStore.HardCap | dnsstore.go:27-31 | for maxSize >= 1 every state of every run holds at most maxSize entries |
| DnsStore.HitsWereAnswered | dnsstore.go:143-159 | every hit is an earlier answer for that client and address, within that answer's own horizon |
| DnsStore.NewestAnswerWins | dnsstore.go:171-174 | without evictions each key holds the lexicographic maximum of (time, hostname) over its answers |
| DnsStore.ArrivalOrderIsIrrelevant | dnsstore.go:171-174 | two eviction-free runs over the same answers agree on keys, times and hostnames |
| DnsExact.WholeBindingsAgree | dnsstore.go:171-174 | if the newest answers for a key share a deadline, eviction-free runs over the same answers agree on the whole binding |
| DnsExact.OrderIsIrrelevantExactlyWhen | dnsstore.go:171-174 | arrival order cannot decide a binding, deadline included, if and only if all answers that tie with it in time and name carry its deadline; over all runs, and over recorded ones |
| DnsExact.DeadlineDependsOnOrder | dnsstore.go:171-174 | one answer seen with TTL 60 and 3600 leaves deadlines 3540 seconds apart in the two orders |
| DnsExact.HitsAreNewestExactlyWhen | dnsstore.go:143-159 | over all runs without cap evictions, sweeps anywhere, every hit is the newest answer if and only if no older answer outlives a newer one; likewise over recorded runs asked last |
| DnsExact.OlderAnswerReturns | dnsstore.go:297-306 | a recorded run in which a newer answer is swept, an older one with a longer life arrives, and is the hit |
| DnsForget.CapEvictionForgets | dnsstore.go:198-214 | for every cache size a run, at one clock reading, in which the full cache evicts the newer answer unexpired and the late older one is hit; recorded if the reading is not before the newer answer |
| DnsForget.NewestDespiteEvictionsExactlyWhen | dnsstore.go:143-159 | over all recorded runs asked last, cap evictions included, every hit is the newest answer if and only if every older answer has run out by the time of every newer one |
| DnsForget.NewestWithFutureAnswersExactlyWhen | dnsstore.go:143-159 | over all runs, answers dated after the clock included, if and only if no answer is newer than another |
| Tailer.Poller.ReadAppended | filepoller.go:54-99 | offset, lines and truncation notice of one scan, error paths included; other files untouched |
| Tailer.Poller.HandOver | filepoller.go:92-98 | splitting, trimming and skipping yields exactly the complete non-blank lines |
| Tailer.PollReadsOn | filepoller.go:54-99 | by positions in the file: from the offset, or from 0 if the file has shrunk, to the last newline within the limit; the offset moves behind it and the lines between are handed over |
| Tailer.PollFindsNothing | filepoller.go:54-90 | a missing, unreadable or unchanged file, or no newline within the limit, leaves offset and lines alone; the truncation is noticed all the same |
| Tailer.LinesOfLast | filepoller.go:92-98 | a line is handed over without its carriage returns, and not at all if nothing else is on it |
| Tailer.TailerIsExact | filepoller.go:47-53 | under any schedule of appends and bounded polls the lines handed over are exactly those of the consumed prefix, which ends just past a newline |
| Tailer.ReachesTheEnd | filepoller.go:77-90 | polling reaches the last newline, having delivered every line, if and only if every remaining line has its newline within the read limit |
| Tailer.TruncationStartsOver | filepoller.go:61-90 | after a truncation, offset and lines are a fresh reader's if and only if a newline stands within the first `limit` bytes |
| Rotation.GenerationsAreFaithful | filepoller.go:47-53 | under any schedule of appends, polls and file replacements, also between the two looks of one poll, the present generation has delivered nothing, or exactly the lines from its starting point to the offset |
| Rotation.RotationLeavesOffset | filepoller.go:61-66 | a replacement keeps the old offset; the new generation has no starting point yet unless that is 0 |
| Rotation.FirstFruitfulPollDecides | filepoller.go:61-66 | after a replacement the first read with a complete line fixes the starting point: 0 if the size seen was below the stale offset, else that offset |
| Rotation.LossIsWhatWasSkipped | filepoller.go:47-53 | the delivered text falls short of the consumed file by exactly the text before the starting point |
| Dnstap.Reader.Flush | dnstaplog.go:237-295 | the three-way outcome of a block and the reset that follows |
| Dnstap.Reader.FeedLine | dnstaplog.go:105-181 | one line moves the parser as the transition function says |
| Dnstap.Reader.ParseAnswer | dnstaplog.go:209-233 | keeps exactly the A and AAAA records with a valid TTL and a literal of the right family |
| Dnstap.Reader.ParseQuestion | dnstaplog.go:195-202 | takes the normalised first word and the last word |
| DnstapLog.BlockRoundTrip | dnstaplog.go:18-38 | a printed message fed to a parser in any state emits what was pending, then exactly its meaning, and leaves the parser idle |
| DnstapLog.LogRoundTrip | dnstaplog.go:96-104 | printing and feeding any list of messages, with any literal bodies and foreign sections, emits each message's one outcome in order |
| DnstapLog.QuestionIsRecorded | dnstaplog.go:237-281 | a client query, or a client response without answers, is one event with its time, client, port, name and type; other kinds of message are silent |
| DnstapLog.AnswerIsRecorded | dnstaplog.go:209-233 | every A record with an IPv4 literal and every AAAA record with another literal of a client response is among the events, with its own TTL |
| DnstapLog.RecordedWasAnswered | dnstaplog.go:209-233 | and every address recorded stood in such a record |
| Text.NormalFormIs | dnstaplog.go:195-202 | a name with a final dot normalises as without it, to its own characters with ASCII capitals lowered |
| DnstapLog.LostExactlyWhen | dnstaplog.go:249-293 | a client message counts as malformed if and only if its stamp is unreadable or the zero time, its address is empty, or it asks for the root zone; otherwise it yields at least one event |
| DnstapLog.RootQueryIsLost | dnstaplog.go:249-255 | a printed client query for the root zone yields one error and no event |
| DnstapLog.Resynchronises | dnstaplog.go:121-129 | after a column-0 `type:` line every parser is in the same state |
| DnstapLog.PastIsForgotten | dnstaplog.go:121-129 | from such a line on, what comes out does not depend on what came before |
| DnstapLog.ScansMaySplitAnywhere | dnstaplog.go:44-48 | however appends and polls cut the stream, the parser saw exactly the consumed lines |
| DnstapLog.FileRoundTrip | dnstaplog.go:44-48 | once the tailer has caught up with a file of printed messages, the emitted events and errors are those the messages mean |
| DnsIngest.Ingester.ScanFile | dnsstore.go:344-374 | offset, parser, events and errors of one file after a scan; other files' parsers and offsets untouched |
| DnsIngest.ScansFeedTheFile | dnsstore.go:344-374 | for every sequence of scans of a growing file, events, errors and retained parser are those of feeding the lines of the consumed part at once |
| DnsIngest.ScannedFileRoundTrip | dnsstore.go:344-374 | once the scans have caught up with a file of printed messages they have emitted exactly what the messages mean, however they split the blocks |
| DnsIngest.RotationStartsOver | dnsstore.go:340-346 | after a truncation everything equals a fresh reader's if and only if the first read holds a complete line |
| DnsIngest.OldBlockIsDropped | dnsstore.go:340-346 | from a scan that notices a truncation on, through any number of scans, nothing depends on what any history of scans before it left pending |
| DnsIngest.RotationStartsAfresh | dnsstore.go:340-346 | if the first read after a truncation holds a complete line, that scan and all later ones are a fresh reader's |
| Tcpdump.ParseTod | tcpdumplog.go:333-354 | the digit-by-digit scaling computes the time of day, or rejects the token |
| Tcpdump.TodRange | tcpdumplog.go:331-354 | a time of day lies in [0, 24h) |
| Tcpdump.TodRoundTrip | tcpdumplog.go:331-354 | the parser inverts the microsecond printer |
| Tcpdump.ParsePayload | tcpdumplog.go:135-190 | direction by port, client by direction, upstream leg skipped |
| TcpdumpPrint.QuestionRoundTrip | tcpdumplog.go:204-232 | a printed question parses to its one event, whatever flags stand before the type; only the root zone is an error |
| TcpdumpPrint.ReplyRoundTrip | tcpdumplog.go:234-315 | a printed reply, with any status words, counts, records and length, parses to one event per address record, to one fallback if there is none, to nothing for zero answers |
| TcpdumpPrint.PacketRoundTrip | tcpdumplog.go:135-190 | a printed packet line yields exactly what the packet means: endpoints, direction and client read back, the upstream leg skipped |
| TcpdumpPrint.CaptureRoundTrip | tcpdumplog.go:74-131 | the events of a plausible capture are exactly those its packets mean, in order, each at its true date and time |
| Tcpdump.Reader.FeedLine | tcpdumplog.go:74-131 | one line moves header, rollover and pending state as the transition function says |
| TcpdumpDates.DatesAreRebuilt | tcpdumplog.go:105-118 | in a fixed-offset zone every packet gets its true date if and only if each one follows its predecessor by the half-day rule |
| TcpdumpDates.PayloadsCarryTrueTime | tcpdumplog.go:120-126 | then the pending timestamp of a UDP packet is its true time |
| TcpdumpDates.PendingExactlyWhen | tcpdumplog.go:120-131 | a packet header leaves a payload pending, at the time it prints, if and only if `proto UDP` or `next-header UDP` occurs in it |
| DnsScan.Lockstep | cmd/dnsscan/main.go:135-163 | the scanner's UDP gate equals the parser's pending flag before every line |
| DnsScan.EventsNeedAHeader | cmd/dnsscan/main.go:432-469 | an event or error comes only from an indented line whose last non-blank predecessor is a UDP header |
| DnsScan.EventsFitKind | cmd/dnsscan/main.go:147-150 | the parser's events always fit the direction the scanner decided for the line |
| DnsScan.ClientQueriesAreParsed | cmd/dnsscan/main.go:238-249 | the client queries are exactly the query lines from which the parser yields an event or an error |
| DnsScan.Report.ClassifyPayload | cmd/dnsscan/main.go:205-264 | the scanner's direction is the parser's; replies and client queries are tallied, the upstream leg is not a client query |
| DnsScan.Report.ClassifyEvents | cmd/dnsscan/main.go:270-293 | every event lands in exactly one bucket: queries in query-only, a lone event without address in fallback, other replies under their own type |
| DnsScan.Scan | cmd/dnsscan/main.go:121-198 | the report balances, and each of its ten tallies is the sum over the lines of what that line adds, in the parser state and direction it has |
| ScanCounts.CaptureIsCounted | cmd/dnsscan/main.go:205-293 | for a printed capture: packets, replies, client queries, A and AAAA addresses, query-only, fallbacks, errors, silent lines and total events, each counted from the packets themselves |
| BatchWriter.RowsAreConserved | batchwriter.go:365-425 | in every interleaving of adds and overlapping drains, the rows that arrived equal buffered + in flight + stored + dropped, as multisets |
| BatchWriter.FailureKeepsTheNewest | batchwriter.go:402-417 | a failure leaves at most maxBuffer rows, and what is cut is the oldest end of the re-queued sequence |
| BatchWriter.SentStoresTheChunk | batchwriter.go:398-424 | a chunk that went through is stored without its malformed rows, and the rest of the flight goes on |
| BatchWriter.FailureRequeues | batchwriter.go:393-417 | a failure puts the flight back in front of the buffer, without malformed rows of a filled chunk, cuts the oldest above the cap, and starts the back-off |
| BatchWriter.FailureDrops | batchwriter.go:402-417 | what a failure drops is exactly those malformed rows and the front cut by the cap |
| BatchWriter.FailureLosesNothing | batchwriter.go:449-492 | well-formed rows that fit the buffer all come back, in order, whatever failed |
| BatchWriter.TakeEmptiesTheBuffer | batchwriter.go:384-396 | a drain takes the whole buffer unless it is empty or backs off |
| BatchWriter.FirstInFirstOut | batchwriter.go:398-424 | without overlap and without loss, stored + in flight + buffered is the sequence of arrivals, over any failures and chunk sizes |
| BatchWriter.DrainDoesNotOverlap | batchwriter.go:384-425 | a drain that starts idle overlaps nothing |
| BatchWriter.Writer.Send | batchwriter.go:449-492 | which rows are retryable and whether the write failed |
| BatchWriter.Writer.Drain | batchwriter.go:384-425 | a run of the step system: one take, then chunks of that take only; idle again at the end; if the database takes every chunk and no back-off applies, the buffer is empty and its well-formed rows are stored in order |
| BatchWriter.Writer.Add | batchwriter.go:365-373 | appends the row, and drains when the buffer is full |
| BatchWriter.Writer.FinalDrain | batchwriter.go:431-442 | between one and max(attempts, 1) forced drains, all of them if rows remain, adding no row, and returns exactly the rows left |

## Left out

- ClickHouse beyond the specified query answers, Kafka, HTTP, metrics, logging, flags and rendering: input and output only.
- The BIND, NPS and DHCP line parsers: field extraction by regular expression, XML and CSV; their events are inputs here.
- Tokens, tenants, GeoIP, threat feeds, the flow deduplicator: keyed hashing and lookups in library structures.
- The two event writers of the identity and DNS stores: a simpler form of the batch writer.
- Time zones with daylight saving: a day is 24 hours in the date reconstruction.
- Recovery from a panic inside a line handler: handlers return normally.
- Unicode in trimming and lower-casing: ASCII white space and letters only.
- The scanner's per-name and per-type maps, its status-word counts and its time span: counters without influence on the buckets.
- DnsStore.ArrivalOrderIsIrrelevant: says nothing about deadlines; `DnsExact.OrderIsIrrelevantExactlyWhen` gives the condition under which they agree too.
- DnsStore.HitsWereAnswered: not that a hit is the newest answer; `DnsExact.HitsAreNewestExactlyWhen` and `DnsForget.NewestDespiteEvictionsExactlyWhen` give the conditions.
