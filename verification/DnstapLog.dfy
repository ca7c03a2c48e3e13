/**
 Whole dnstap logs: the printer the parser inverts, resynchronisation, and the
 stream as the tailer delivers it.
 */
module DnstapLog {
  import opened DnsEvents
  import opened Dnstap
  import opened Tailer
  import opened Text

  // ---------------------------------------------------------------- feeding many lines

  datatype Fed = Fed(parser: Parser, events: seq<DnsEvent>, errors: nat)

  /** Adds one outcome to what was emitted so far. */
  function Emit(f: Fed, p: Parser, o: Outcome): Fed {
    match o
    case Events(events) => Fed(p, f.events + events, f.errors)
    case Malformed => Fed(p, f.events, f.errors + 1)
  }

  function FeedOne(f: Fed, line: string, env: Env): Fed {
    var (p, o) := Feed(f.parser, line, env);
    Emit(f, p, o)
  }

  function FeedAll(f: Fed, lines: seq<string>, env: Env): Fed {
    if lines == [] then f else FeedOne(FeedAll(f, lines[..|lines| - 1], env), lines[|lines| - 1], env)
  }

  lemma {:induction false} FeedAllConcat(f: Fed, a: seq<string>, b: seq<string>, env: Env)
    ensures FeedAll(f, a + b, env) == FeedAll(FeedAll(f, a, env), b, env)
  {
    if b == [] {
      assert a + b == a;
    } else {
      var n := |b| - 1;
      assert (a + b)[..|a + b| - 1] == a + b[..n];
      FeedAllConcat(f, a, b[..n], env);
    }
  }

  lemma FeedSingle(f: Fed, line: string, env: Env)
    ensures FeedAll(f, [line], env) == FeedOne(f, line, env)
  {
  }

  // ---------------------------------------------------------------- messages and their layout

  /** A resource record in presentation form; rdata is one or more words. */
  datatype Record = Record(owner: string, ttl: nat, rtype: string, rdata: seq<string>)

  /**
   One logged message.  `boilerplate` are column-0 lines; `early`, `server`, `middle` and
   `late` are indented lines the parser has no use for (sizes, the response address,
   flags, other sections with their items); `digest` is the body of the literal
   duplicate, if there is one.
   */
  datatype Message = Message(boilerplate: seq<string>, kind: string, isResponse: bool, stamp: string,
                             early: seq<string>, address: string, server: seq<string>, port: nat,
                             middle: seq<string>, qname: string, qtype: string, answers: seq<Record>,
                             late: seq<string>, digest: Option<seq<string>>)

  function FieldLine(indent: string, key: string, val: string): string {
    indent + (key + ": " + val)
  }

  function HeaderLine(indent: string, key: string): string {
    indent + (key + ":")
  }

  function Quoted(words: seq<string>): string {
    "'" + Join(words) + "'"
  }

  function Item(words: seq<string>): string {
    "      " + ("- " + Quoted(words))
  }

  function RecordWords(r: Record): seq<string> {
    [r.owner, Decimal(r.ttl), "IN", r.rtype] + r.rdata
  }

  function RecordLines(rs: seq<Record>): seq<string> {
    if rs == [] then [] else RecordLines(rs[..|rs| - 1]) + [Item(RecordWords(rs[|rs| - 1]))]
  }

  function KindLine(m: Message): string {
    FieldLine("  ", "type", m.kind)
  }

  function TimeLine(m: Message): string {
    FieldLine("  ", if m.isResponse then "response_time" else "query_time", "!!timestamp " + m.stamp)
  }

  function AddressLine(m: Message): string {
    FieldLine("  ", "query_address", "\"" + m.address + "\"")
  }

  function PortLine(m: Message): string {
    FieldLine("  ", "query_port", Decimal(m.port))
  }

  function QuestionLines(m: Message): seq<string> {
    [HeaderLine("    ", "QUESTION_SECTION")] + [Item([m.qname, "IN", m.qtype])]
  }

  function AnswerLines(m: Message): seq<string> {
    if m.answers == [] then [] else [HeaderLine("    ", "ANSWER_SECTION")] + RecordLines(m.answers)
  }

  function DigestLines(m: Message): seq<string> {
    match m.digest
    case None => []
    case Some(body) => [FieldLine("  ", if m.isResponse then "response_message" else "query_message", "|")] + body
  }

  /** The block between its `type:` line and its terminator. */
  function Body(m: Message): seq<string> {
    m.boilerplate + [KindLine(m)] + [TimeLine(m)] + m.early + [AddressLine(m)] + m.server + [PortLine(m)] + m.middle
    + QuestionLines(m) + AnswerLines(m) + m.late + DigestLines(m)
  }

  function Print(m: Message): seq<string> {
    ["type: MESSAGE"] + Body(m) + ["---"]
  }

  function PrintAll(ms: seq<Message>): seq<string> {
    if ms == [] then [] else PrintAll(ms[..|ms| - 1]) + Print(ms[|ms| - 1])
  }

  // ---------------------------------------------------------------- what may be printed

  predicate Boilerplate(line: string) {
    line != "" && !IsBlank(line[0]) && line != "---" && !HasPrefix(line, "type:")
  }

  const KEYS := {"type", "query_time", "response_time", "query_address", "query_port",
                 "query_message", "response_message", "QUESTION_SECTION", "ANSWER_SECTION"}

  /** A field under a key of its own, or an item of no list of ours. */
  predicate Noise(line: string) {
    IsIndented(line) && (HasPrefix(TrimIndent(line), "- ") || SplitField(TrimIndent(line)).0 !in KEYS)
  }

  predicate Unquoted(w: string) {
    IsWord(w) && w[0] != '\'' && w[|w| - 1] != '\''
  }

  predicate WellFormedRecord(r: Record) {
    && Unquoted(r.owner) && IsWord(r.rtype) && r.ttl < 0x1_0000_0000
    && r.rdata != [] && (forall w | w in r.rdata :: IsWord(w)) && Unquoted(r.rdata[|r.rdata| - 1])
  }

  predicate WellFormed(m: Message) {
    && (forall l | l in m.boilerplate :: Boilerplate(l))
    && Tight(m.kind) && Tight(m.stamp) && m.stamp != ""
    && (forall l | l in m.early :: Noise(l))
    && (m.address != "" ==> m.address[0] != '"' && m.address[|m.address| - 1] != '"') && m.port < 0x1_0000
    && (forall l | l in m.server :: Noise(l))
    && (forall l | l in m.middle :: Noise(l))
    && Unquoted(m.qname) && Unquoted(m.qtype)
    && (forall r | r in m.answers :: WellFormedRecord(r))
    && (forall l | l in m.late :: Noise(l))
    && (m.late != [] ==> !HasPrefix(TrimIndent(m.late[0]), "- "))
    && (m.digest.Some? ==> forall l | l in m.digest.value :: l == "" || IsIndented(l))
  }

  // ---------------------------------------------------------------- what a message means

  /** One event for every address record of the right family, in order. */
  function AddressEvents(m: Message, rs: seq<Record>, time: int, env: Env): seq<DnsEvent>
    requires forall r | r in rs :: WellFormedRecord(r)
  {
    if rs == [] then []
    else
      var r := rs[|rs| - 1];
      assert WellFormedRecord(r);
      AddressEvents(m, rs[..|rs| - 1], time, env) +
      if Matches(r.rtype, env.family(r.rdata[0]))
      then [DnsEvent(time, m.address, m.port, NormalizeHost(m.qname), r.rtype, r.rdata[0], r.ttl, false)]
      else []
  }

  /** A stamp that cannot be read counts as the zero time, the start of year 1. */
  function TimeOf(m: Message, env: Env): int {
    match env.time(m.stamp)
    case Some(t) => t
    case None => -62_135_596_800 * SECOND
  }

  /** One outcome per message: silence, an error, the question alone, or one event per address. */
  function Meaning(m: Message, env: Env): Outcome
    requires WellFormed(m)
  {
    var time, host := TimeOf(m, env), NormalizeHost(m.qname);
    if !IsClientKind(m.kind) then NOTHING
    else if time == ZERO_TIME || m.address == "" || host == "" then Malformed
    else
      var events := AddressEvents(m, m.answers, time, env);
      if m.kind == "CLIENT_QUERY" || events == []
      then Events([DnsEvent(time, m.address, m.port, host, m.qtype, "", 0, false)])
      else Events(events)
  }

  /** What a client asked for is recorded under the client's address; other kinds of message are not. */
  lemma QuestionIsRecorded(m: Message, env: Env)
    requires WellFormed(m) && m.address != "" && m.qname != "."
    requires TimeOf(m, env) != -62_135_596_800 * SECOND
    ensures m.kind != "CLIENT_QUERY" && m.kind != "CLIENT_RESPONSE" ==> Meaning(m, env) == Events([])
    ensures m.kind == "CLIENT_QUERY" || (m.kind == "CLIENT_RESPONSE" && m.answers == []) ==>
              Meaning(m, env) == Events([DnsEvent(TimeOf(m, env), m.address, m.port,
                                                  NormalizeHost(m.qname), m.qtype, "", 0, false)])
  {
    OnlyRootIsNameless(m.qname);
  }

  /** Every address a client was told is recorded: an A record with an IPv4 literal, an AAAA record with another. */
  lemma AnswerIsRecorded(m: Message, i: nat, env: Env)
    requires WellFormed(m) && m.address != "" && m.qname != "."
    requires TimeOf(m, env) != -62_135_596_800 * SECOND
    requires m.kind == "CLIENT_RESPONSE" && i < |m.answers|
    requires var r := m.answers[i];
             && r.rdata != []
             && ((r.rtype == "A" && env.family(r.rdata[0]) == Some(V4)) ||
                 (r.rtype == "AAAA" && env.family(r.rdata[0]) == Some(V6)))
    ensures var r := m.answers[i];
            && Meaning(m, env).Events?
            && DnsEvent(TimeOf(m, env), m.address, m.port, NormalizeHost(m.qname),
                        r.rtype, r.rdata[0], r.ttl, false) in Meaning(m, env).events
  {
    OnlyRootIsNameless(m.qname);
    RecordsAreRecorded(m, m.answers, i, TimeOf(m, env), env);
  }

  lemma {:induction false} RecordsAreRecorded(m: Message, rs: seq<Record>, i: nat, time: int, env: Env)
    requires (forall r | r in rs :: WellFormedRecord(r)) && i < |rs|
    requires rs[i].rdata != [] && Matches(rs[i].rtype, env.family(rs[i].rdata[0]))
    ensures var r := rs[i];
            DnsEvent(time, m.address, m.port, NormalizeHost(m.qname), r.rtype, r.rdata[0], r.ttl, false)
            in AddressEvents(m, rs, time, env)
  {
    var n := |rs| - 1;
    if i < n {
      RecordsAreRecorded(m, rs[..n], i, time, env);
    }
  }

  /** And an address that is recorded stood in such a record. */
  lemma {:induction false} RecordedWasAnswered(m: Message, rs: seq<Record>, e: DnsEvent, time: int, env: Env)
      returns (i: nat)
    requires forall r | r in rs :: WellFormedRecord(r)
    requires e in AddressEvents(m, rs, time, env)
    ensures i < |rs| && WellFormedRecord(rs[i]) && e.qtype == rs[i].rtype && e.answer == rs[i].rdata[0]
    ensures (e.qtype == "A" && env.family(e.answer) == Some(V4)) ||
            (e.qtype == "AAAA" && env.family(e.answer) == Some(V6))
  {
    var n := |rs| - 1;
    assert WellFormedRecord(rs[n]);
    if e in AddressEvents(m, rs[..n], time, env) {
      i := RecordedWasAnswered(m, rs[..n], e, time, env);
    } else {
      i := n;
    }
  }

  // ---------------------------------------------------------------- lines that emit nothing

  predicate Quiet(line: string) {
    line == "" || IsBlank(line[0]) || (line != "---" && !HasPrefix(line, "type:"))
  }

  /** The parser after lines none of which can end a block. */
  function Walk(p: Parser, lines: seq<string>, env: Env): Parser {
    if lines == [] then p else Feed(Walk(p, lines[..|lines| - 1], env), lines[|lines| - 1], env).0
  }

  lemma {:induction false} WalkConcat(p: Parser, a: seq<string>, b: seq<string>, env: Env)
    ensures Walk(p, a + b, env) == Walk(Walk(p, a, env), b, env)
  {
    if b == [] {
      assert a + b == a;
    } else {
      var n := |b| - 1;
      assert (a + b)[..|a + b| - 1] == a + b[..n];
      WalkConcat(p, a, b[..n], env);
    }
  }

  lemma WalkOne(p: Parser, line: string, env: Env)
    ensures Walk(p, [line], env) == Feed(p, line, env).0
  {
  }

  lemma {:induction false} QuietLinesEmitNothing(f: Fed, lines: seq<string>, env: Env)
    requires forall l | l in lines :: Quiet(l)
    ensures FeedAll(f, lines, env) == f.(parser := Walk(f.parser, lines, env))
  {
    if lines != [] {
      var n := |lines| - 1;
      assert Quiet(lines[n]);
      QuietLinesEmitNothing(f, lines[..n], env);
      assert f.events + [] == f.events;
    }
  }

  // ---------------------------------------------------------------- one printed line at a time

  predicate Reading(p: Parser) {
    p.inBlock && !p.inLiteral
  }

  predicate IsKey(key: string) {
    key != "" && !IsBlank(key[0]) && key[0] != '-' && forall i | 0 <= i < |key| :: key[i] != ':'
  }

  /** `key: value` reads back as the pair; a bare `key:` has the empty value. */
  lemma FieldReadsBack(key: string, val: string)
    requires IsKey(key) && Tight(val)
    ensures SplitField(key + ": " + val) == (key, val)
    ensures SplitField(key + ":") == (key, "")
  {
    var s := key + ": " + val;
    IndexIs(s, ':', |key|);
    assert s[..|key|] == key && s[|key| + 1..] == " " + val;
    TrimTight(val);
    var t := key + ":";
    IndexIs(t, ':', |key|);
    assert t[..|key|] == key && t[|key| + 1..] == "";
  }

  predicate Indent(indent: string) {
    indent != "" && forall i | 0 <= i < |indent| :: IsBlank(indent[i])
  }

  lemma WalksField(p: Parser, indent: string, key: string, val: string, env: Env)
    requires Reading(p) && IsKey(key) && Tight(val) && Indent(indent)
    ensures Walk(p, [FieldLine(indent, key, val)], env) == WithKey(p.(section := NoSection), key, val, env)
  {
    TrimsIndent(indent, key + ": " + val);
    FieldReadsBack(key, val);
    WalkOne(p, FieldLine(indent, key, val), env);
  }

  lemma WalksHeader(p: Parser, indent: string, key: string, env: Env)
    requires Reading(p) && IsKey(key) && Indent(indent)
    ensures Walk(p, [HeaderLine(indent, key)], env) == WithKey(p.(section := NoSection), key, "", env)
  {
    TrimsIndent(indent, key + ":");
    FieldReadsBack(key, "");
    WalkOne(p, HeaderLine(indent, key), env);
  }

  /** The words of a printed item come back in order. */
  lemma ItemReadsBack(words: seq<string>)
    requires words != [] && (forall w | w in words :: IsWord(w))
    requires Unquoted(words[0]) && Unquoted(words[|words| - 1])
    ensures Trim(Quoted(words), '\'') == Join(words) && Fields(Join(words)) == words
  {
    JoinEnds(words);
    Unquote(Join(words), '\'');
    assert Quoted(words) == ['\''] + Join(words) + ['\''];
    FieldsOfJoin(words);
  }

  /** A quoted list item hands its words to the open section. */
  lemma WalksItem(p: Parser, words: seq<string>, env: Env)
    requires Reading(p) && words != [] && (forall w | w in words :: IsWord(w))
    requires Unquoted(words[0]) && Unquoted(words[|words| - 1])
    ensures Walk(p, [Item(words)], env) ==
            match p.section
            case QuestionSection => WithQuestion(p, Join(words))
            case AnswerSection => WithAnswer(p, Join(words), env)
            case NoSection => p
  {
    var content := "- " + Quoted(words);
    TrimsIndent("      ", content);
    assert TrimPrefix(content, "- ") == Quoted(words);
    ItemReadsBack(words);
    WalkOne(p, Item(words), env);
  }

  lemma {:induction false} JoinEnds(words: seq<string>)
    requires words != [] && forall w | w in words :: IsWord(w)
    ensures IsWord(words[0]) && IsWord(words[|words| - 1])
    ensures var s, last := Join(words), words[|words| - 1];
            s != "" && s[0] == words[0][0] && s[|s| - 1] == last[|last| - 1]
  {
    assert words[0] in words;
    if |words| > 1 {
      assert forall w | w in words[1..] :: w in words;
      JoinEnds(words[1..]);
    }
  }

  // ---------------------------------------------------------------- one part of a block at a time

  lemma {:induction false} WalkBoilerplate(p: Parser, lines: seq<string>, env: Env)
    requires Reading(p) && forall l | l in lines :: Boilerplate(l)
    ensures Walk(p, lines, env) == p
  {
    if lines != [] {
      var n := |lines| - 1;
      assert Boilerplate(lines[n]);
      WalkBoilerplate(p, lines[..n], env);
    }
  }

  lemma {:induction false} WalkNoise(p: Parser, lines: seq<string>, env: Env)
    requires Reading(p) && forall l | l in lines :: Noise(l)
    requires p.section == NoSection || (lines != [] ==> !HasPrefix(TrimIndent(lines[0]), "- "))
    ensures Walk(p, lines, env) == if lines == [] then p else p.(section := NoSection)
  {
    if lines != [] {
      var n := |lines| - 1;
      assert Noise(lines[n]);
      WalkNoise(p, lines[..n], env);
      NoiseIsIgnored(Walk(p, lines[..n], env), lines[n], env);
    }
  }

  lemma NoiseIsIgnored(p: Parser, line: string, env: Env)
    requires Reading(p) && Noise(line)
    requires p.section == NoSection || !HasPrefix(TrimIndent(line), "- ")
    ensures Feed(p, line, env).0 == p.(section := NoSection)
  {
    var content := TrimIndent(line);
    if !HasPrefix(content, "- ") {
      ForeignKey(p.(section := NoSection), SplitField(content).0, SplitField(content).1, env);
    }
  }

  lemma ForeignKey(q: Parser, key: string, val: string, env: Env)
    requires key !in KEYS
    ensures WithKey(q, key, val, env) == q
  {
  }

  lemma WalkKind(p: Parser, m: Message, env: Env)
    requires Reading(p) && p.section == NoSection && WellFormed(m)
    ensures Walk(p, [KindLine(m)], env) == p.(kind := m.kind)
  {
    WalksField(p, "  ", "type", m.kind, env);
  }

  lemma StampReadsBack(stamp: string)
    requires Tight(stamp) && stamp != ""
    ensures TrimSpace(TrimPrefix("!!timestamp " + stamp, "!!timestamp")) == stamp
    ensures Tight("!!timestamp " + stamp)
  {
    assert ("!!timestamp " + stamp)[|"!!timestamp"|..] == " " + stamp;
    TrimTight(stamp);
  }

  lemma WalkTime(p: Parser, m: Message, env: Env)
    requires Reading(p) && p.section == NoSection && WellFormed(m) && p.time == ZERO_TIME
    ensures Walk(p, [TimeLine(m)], env) == p.(time := TimeOf(m, env))
  {
    var val := "!!timestamp " + m.stamp;
    StampReadsBack(m.stamp);
    if m.isResponse {
      WalksField(p, "  ", "response_time", val, env);
    } else {
      WalksField(p, "  ", "query_time", val, env);
    }
    assert WithTime(p, val, env) == p.(time := TimeOf(m, env));
  }

  lemma WalkAddress(p: Parser, m: Message, env: Env)
    requires Reading(p) && p.section == NoSection && WellFormed(m)
    ensures Walk(p, [AddressLine(m)], env) == p.(client := m.address)
  {
    if m.address == "" {
      assert Trim("\"\"", '"') == "";
    } else {
      Unquote(m.address, '"');
    }
    WalksField(p, "  ", "query_address", "\"" + m.address + "\"", env);
  }

  lemma DigitsAreTight(s: string)
    requires s != "" && AllDigits(s)
    ensures Tight(s) && IsWord(s)
  {
  }

  lemma WalkPort(p: Parser, m: Message, env: Env)
    requires Reading(p) && p.section == NoSection && WellFormed(m)
    ensures Walk(p, [PortLine(m)], env) == p.(port := m.port)
  {
    DecimalRoundTrip(m.port);
    DigitsAreTight(Decimal(m.port));
    WalksField(p, "  ", "query_port", Decimal(m.port), env);
  }

  lemma WalkQuestion(p: Parser, m: Message, env: Env)
    requires Reading(p) && WellFormed(m)
    ensures Walk(p, QuestionLines(m), env) ==
            p.(section := QuestionSection, qname := NormalizeHost(m.qname), qtype := m.qtype)
  {
    WalksHeader(p, "    ", "QUESTION_SECTION", env);
    var q, words := p.(section := QuestionSection), [m.qname, "IN", m.qtype];
    WalksItem(q, words, env);
    ItemReadsBack(words);
    WalkConcat(p, [HeaderLine("    ", "QUESTION_SECTION")], [Item(words)], env);
  }

  /** The answer the parser keeps of a record, if any. */
  function KeptOne(r: Record, env: Env): seq<Answer>
    requires WellFormedRecord(r)
  {
    if Matches(r.rtype, env.family(r.rdata[0])) then [Answer(r.rtype, r.rdata[0], r.ttl)] else []
  }

  function Kept(rs: seq<Record>, env: Env): seq<Answer>
    requires forall r | r in rs :: WellFormedRecord(r)
  {
    if rs == [] then []
    else
      assert WellFormedRecord(rs[|rs| - 1]);
      Kept(rs[..|rs| - 1], env) + KeptOne(rs[|rs| - 1], env)
  }

  lemma WalkRecord(p: Parser, r: Record, env: Env)
    requires Reading(p) && p.section == AnswerSection && WellFormedRecord(r)
    ensures Walk(p, [Item(RecordWords(r))], env) == p.(answers := p.answers + KeptOne(r, env))
  {
    var words := RecordWords(r);
    DecimalRoundTrip(r.ttl);
    DigitsAreTight(Decimal(r.ttl));
    assert words[|words| - 1] == r.rdata[|r.rdata| - 1];
    WalksItem(p, words, env);
    ItemReadsBack(words);
    assert words[1] == Decimal(r.ttl) && words[3] == r.rtype && words[4] == r.rdata[0];
    assert p.answers + [] == p.answers;
  }

  lemma {:induction false} WalkRecords(p: Parser, rs: seq<Record>, env: Env)
    requires Reading(p) && p.section == AnswerSection && forall r | r in rs :: WellFormedRecord(r)
    ensures Walk(p, RecordLines(rs), env) == p.(answers := p.answers + Kept(rs, env))
  {
    if rs == [] {
      assert p.answers + [] == p.answers;
    } else {
      var n := |rs| - 1;
      assert WellFormedRecord(rs[n]);
      WalkRecords(p, rs[..n], env);
      var q := p.(answers := p.answers + Kept(rs[..n], env));
      WalkRecord(q, rs[n], env);
      WalkConcat(p, RecordLines(rs[..n]), [Item(RecordWords(rs[n]))], env);
      KeptSnoc(p.answers, rs, env);
    }
  }

  lemma KeptSnoc(base: seq<Answer>, rs: seq<Record>, env: Env)
    requires rs != [] && forall r | r in rs :: WellFormedRecord(r)
    ensures WellFormedRecord(rs[|rs| - 1])
    ensures base + Kept(rs, env) == base + Kept(rs[..|rs| - 1], env) + KeptOne(rs[|rs| - 1], env)
  {
  }

  lemma WalkAnswers(p: Parser, m: Message, env: Env)
    requires Reading(p) && WellFormed(m) && p.answers == []
    ensures exists s :: Walk(p, AnswerLines(m), env) == p.(section := s, answers := Kept(m.answers, env))
  {
    if m.answers == [] {
      assert Walk(p, AnswerLines(m), env) == p.(section := p.section, answers := Kept(m.answers, env));
    } else {
      var q := p.(section := AnswerSection);
      WalksHeader(p, "    ", "ANSWER_SECTION", env);
      WalkRecords(q, m.answers, env);
      WalkConcat(p, [HeaderLine("    ", "ANSWER_SECTION")], RecordLines(m.answers), env);
      assert Walk(p, AnswerLines(m), env) == p.(section := AnswerSection, answers := Kept(m.answers, env));
    }
  }

  lemma {:induction false} WalkLiteral(p: Parser, body: seq<string>, env: Env)
    requires p.inLiteral && forall l | l in body :: l == "" || IsIndented(l)
    ensures Walk(p, body, env) == p
  {
    if body != [] {
      var n := |body| - 1;
      assert body[n] in body;
      WalkLiteral(p, body[..n], env);
    }
  }

  lemma WalkDigest(p: Parser, m: Message, env: Env)
    requires Reading(p) && WellFormed(m)
    ensures exists s :: Walk(p, DigestLines(m), env) == p.(section := s, inLiteral := m.digest.Some?)
  {
    if m.digest.None? {
      assert Walk(p, DigestLines(m), env) == p.(section := p.section, inLiteral := false);
    } else {
      var key := if m.isResponse then "response_message" else "query_message";
      var q := p.(section := NoSection, inLiteral := true);
      WalksField(p, "  ", key, "|", env);
      WalkLiteral(q, m.digest.value, env);
      WalkConcat(p, [FieldLine("  ", key, "|")], m.digest.value, env);
      assert Walk(p, DigestLines(m), env) == p.(section := NoSection, inLiteral := true);
    }
  }

  // ---------------------------------------------------------------- one block

  /** All that a block leaves in the parser, but for which list is open. */
  function Filled(m: Message, env: Env, s: Section): Parser
    requires WellFormed(m)
  {
    Parser(true, m.digest.Some?, m.kind, s, TimeOf(m, env), m.address, m.port,
           NormalizeHost(m.qname), m.qtype, Kept(m.answers, env))
  }

  function FrontLines(m: Message): seq<string> {
    m.boilerplate + [KindLine(m)] + [TimeLine(m)] + m.early + [AddressLine(m)] + m.server + [PortLine(m)] + m.middle
  }

  lemma WalkFront(m: Message, env: Env)
    requires WellFormed(m)
    ensures Walk(BEGUN, FrontLines(m), env) ==
            BEGUN.(kind := m.kind, time := TimeOf(m, env), client := m.address, port := m.port)
  {
    var b := m.boilerplate;
    WalkBoilerplate(BEGUN, b, env);
    var p1 := BEGUN.(kind := m.kind);
    WalkKind(BEGUN, m, env);
    WalkConcat(BEGUN, b, [KindLine(m)], env);
    var p2 := p1.(time := TimeOf(m, env));
    WalkTime(p1, m, env);
    WalkConcat(BEGUN, b + [KindLine(m)], [TimeLine(m)], env);
    WalkNoise(p2, m.early, env);
    WalkConcat(BEGUN, b + [KindLine(m)] + [TimeLine(m)], m.early, env);
    WalkFrontEnd(b + [KindLine(m)] + [TimeLine(m)] + m.early, p2, m, env);
  }

  lemma WalkFrontEnd(lines: seq<string>, p2: Parser, m: Message, env: Env)
    requires WellFormed(m) && Reading(p2) && p2.section == NoSection
    requires Walk(BEGUN, lines, env) == p2
    ensures Walk(BEGUN, lines + [AddressLine(m)] + m.server + [PortLine(m)] + m.middle, env) ==
            p2.(client := m.address, port := m.port)
  {
    var p3 := p2.(client := m.address);
    WalkAddress(p2, m, env);
    WalkConcat(BEGUN, lines, [AddressLine(m)], env);
    WalkNoise(p3, m.server, env);
    WalkConcat(BEGUN, lines + [AddressLine(m)], m.server, env);
    var p4 := p3.(port := m.port);
    WalkPort(p3, m, env);
    WalkConcat(BEGUN, lines + [AddressLine(m)] + m.server, [PortLine(m)], env);
    WalkNoise(p4, m.middle, env);
    WalkConcat(BEGUN, lines + [AddressLine(m)] + m.server + [PortLine(m)], m.middle, env);
  }

  lemma WalkBody(m: Message, env: Env)
    requires WellFormed(m)
    ensures exists s :: Walk(BEGUN, Body(m), env) == Filled(m, env, s)
  {
    var front := FrontLines(m);
    WalkFront(m, env);
    var p5 := Walk(BEGUN, front, env);
    WalkQuestion(p5, m, env);
    WalkConcat(BEGUN, front, QuestionLines(m), env);
    var p6 := Walk(BEGUN, front + QuestionLines(m), env);
    WalkAnswers(p6, m, env);
    WalkConcat(BEGUN, front + QuestionLines(m), AnswerLines(m), env);
    var p7 := Walk(BEGUN, front + QuestionLines(m) + AnswerLines(m), env);
    WalkNoise(p7, m.late, env);
    WalkConcat(BEGUN, front + QuestionLines(m) + AnswerLines(m), m.late, env);
    var p8 := Walk(BEGUN, front + QuestionLines(m) + AnswerLines(m) + m.late, env);
    WalkDigest(p8, m, env);
    WalkConcat(BEGUN, front + QuestionLines(m) + AnswerLines(m) + m.late, DigestLines(m), env);
    assert Body(m) == front + QuestionLines(m) + AnswerLines(m) + m.late + DigestLines(m);
    var p9 := Walk(BEGUN, Body(m), env);
    assert p9 == Filled(m, env, p9.section);
  }

  lemma {:induction false} KeptBecomeEvents(m: Message, rs: seq<Record>, env: Env, p: Parser)
    requires WellFormed(m) && forall r | r in rs :: WellFormedRecord(r)
    requires p.time == TimeOf(m, env) && p.client == m.address && p.port == m.port
    requires p.qname == NormalizeHost(m.qname)
    ensures AnsweredAll(p, Kept(rs, env)) == AddressEvents(m, rs, p.time, env)
    ensures |AddressEvents(m, rs, p.time, env)| == |Kept(rs, env)|
  {
    if rs != [] {
      var n := |rs| - 1;
      assert WellFormedRecord(rs[n]);
      KeptBecomeEvents(m, rs[..n], env, p);
      var kept := Kept(rs[..n], env);
      if Matches(rs[n].rtype, env.family(rs[n].rdata[0])) {
        var a := Answer(rs[n].rtype, rs[n].rdata[0], rs[n].ttl);
        assert (kept + [a])[..|kept|] == kept;
      } else {
        assert kept + [] == kept;
      }
    }
  }

  /** What the terminator emits for a filled block is what the message means. */
  lemma FilledMeans(m: Message, env: Env, s: Section)
    requires WellFormed(m)
    ensures Flushed(Filled(m, env, s).(inLiteral := false)) == Meaning(m, env)
  {
    KeptBecomeEvents(m, m.answers, env, Filled(m, env, s).(inLiteral := false));
  }

  lemma FrontIsQuiet(m: Message, env: Env)
    requires WellFormed(m)
    ensures forall l | l in FrontLines(m) :: Quiet(l)
  {
  }

  lemma BackIsQuiet(m: Message, env: Env)
    requires WellFormed(m)
    ensures forall l | l in QuestionLines(m) + AnswerLines(m) + m.late + DigestLines(m) :: Quiet(l)
  {
    RecordLinesAreQuiet(m.answers);
    forall l | l in m.late ensures Quiet(l) {
      assert Noise(l);
    }
  }

  lemma BodyIsQuiet(m: Message, env: Env)
    requires WellFormed(m)
    ensures forall l | l in Body(m) :: Quiet(l)
  {
    FrontIsQuiet(m, env);
    BackIsQuiet(m, env);
    assert Body(m) == FrontLines(m) + (QuestionLines(m) + AnswerLines(m) + m.late + DigestLines(m));
  }

  lemma {:induction false} RecordLinesAreQuiet(rs: seq<Record>)
    ensures forall l | l in RecordLines(rs) :: Quiet(l)
  {
    if rs != [] {
      RecordLinesAreQuiet(rs[..|rs| - 1]);
    }
  }

  /** A column-0 `type:` line ends the past: it emits what was pending, and every parser is the same after it. */
  lemma Resynchronises(f: Fed, line: string, env: Env)
    requires HasPrefix(line, "type:")
    ensures FeedOne(f, line, env) == Emit(f, BEGUN, Flushed(f.parser.(inLiteral := false)))
  {
  }

  /** Output after output. */
  function Append(f: Fed, g: Fed): Fed {
    Fed(g.parser, f.events + g.events, f.errors + g.errors)
  }

  /** What was emitted before has no influence on what is emitted next. */
  lemma {:induction false} FeedFrame(f: Fed, lines: seq<string>, env: Env)
    ensures FeedAll(f, lines, env) == Append(f, FeedAll(Fed(f.parser, [], 0), lines, env))
  {
    if lines == [] {
      assert f.events + [] == f.events;
    } else {
      var n := |lines| - 1;
      FeedFrame(f, lines[..n], env);
      EmitFrame(f, FeedAll(Fed(f.parser, [], 0), lines[..n], env), lines[n], env);
    }
  }

  lemma EmitFrame(f: Fed, g: Fed, line: string, env: Env)
    ensures FeedOne(Append(f, g), line, env) == Append(f, FeedOne(g, line, env))
  {
  }

  /** From a `type:` line on, everything that comes out is the same whatever came before. */
  lemma PastIsForgotten(f: Fed, line: string, rest: seq<string>, env: Env)
    requires HasPrefix(line, "type:")
    ensures FeedAll(f, [line] + rest, env) ==
            Append(Emit(f, BEGUN, Flushed(f.parser.(inLiteral := false))), FeedAll(Fed(BEGUN, [], 0), rest, env))
  {
    Resynchronises(f, line, env);
    FeedSingle(f, line, env);
    FeedAllConcat(f, [line], rest, env);
    FeedFrame(FeedOne(f, line, env), rest, env);
  }

  /** One printed block, fed to a parser in any state: first what was pending, then exactly its meaning. */
  lemma BlockRoundTrip(f: Fed, m: Message, env: Env)
    requires WellFormed(m)
    ensures FeedAll(f, Print(m), env) ==
            Emit(Emit(f, BEGUN, Flushed(f.parser.(inLiteral := false))), IDLE, Meaning(m, env))
  {
    var f1 := Emit(f, BEGUN, Flushed(f.parser.(inLiteral := false)));
    Resynchronises(f, "type: MESSAGE", env);
    FeedSingle(f, "type: MESSAGE", env);
    FeedAllConcat(f, ["type: MESSAGE"], Body(m), env);
    BodyIsQuiet(m, env);
    QuietLinesEmitNothing(f1, Body(m), env);
    WalkBody(m, env);
    var s :| Walk(BEGUN, Body(m), env) == Filled(m, env, s);
    FeedAllConcat(f, ["type: MESSAGE"] + Body(m), ["---"], env);
    BlockEnds(f1, m, s, env);
  }

  lemma BlockEnds(f: Fed, m: Message, s: Section, env: Env)
    requires WellFormed(m)
    ensures FeedAll(f.(parser := Filled(m, env, s)), ["---"], env) == Emit(f, IDLE, Meaning(m, env))
  {
    FilledMeans(m, env, s);
    FeedSingle(f.(parser := Filled(m, env, s)), "---", env);
  }

  lemma BlockAfterBlock(f: Fed, m: Message, env: Env)
    requires WellFormed(m) && f.parser == IDLE
    ensures FeedAll(f, Print(m), env) == Emit(f, IDLE, Meaning(m, env))
  {
    BlockRoundTrip(f, m, env);
    assert Emit(f, BEGUN, NOTHING).events == f.events;
  }

  /** What a list of messages is worth. */
  function EmitAll(f: Fed, ms: seq<Message>, env: Env): Fed
    requires forall m | m in ms :: WellFormed(m)
  {
    if ms == [] then f
    else
      var m := ms[|ms| - 1];
      assert WellFormed(m);
      Emit(EmitAll(f, ms[..|ms| - 1], env), IDLE, Meaning(m, env))
  }

  /** Printing and parsing any list of messages gives exactly the meaning of each, in order. */
  lemma {:induction false} LogRoundTrip(events: seq<DnsEvent>, errors: nat, ms: seq<Message>, env: Env)
    requires forall m | m in ms :: WellFormed(m)
    ensures FeedAll(Fed(IDLE, events, errors), PrintAll(ms), env) == EmitAll(Fed(IDLE, events, errors), ms, env)
    ensures EmitAll(Fed(IDLE, events, errors), ms, env).parser == IDLE
  {
    var f := Fed(IDLE, events, errors);
    if ms != [] {
      var n := |ms| - 1;
      assert WellFormed(ms[n]);
      LogRoundTrip(events, errors, ms[..n], env);
      var g := EmitAll(f, ms[..n], env);
      BlockAfterBlock(g, ms[n], env);
      FeedAllConcat(f, PrintAll(ms[..n]), Print(ms[n]), env);
    }
  }

  // ---------------------------------------------------------------- what is lost

  /**
   A client message is recorded, as its question at least, unless its stamp is unreadable
   or the zero time, it has no address, or it asks for the root zone: then the block
   counts as malformed.
   */
  lemma LostExactlyWhen(m: Message, env: Env)
    requires WellFormed(m) && IsClientKind(m.kind)
    ensures Meaning(m, env).Malformed? <==>
              TimeOf(m, env) == -62_135_596_800 * SECOND || m.address == "" || m.qname == "."
    ensures Meaning(m, env).Events? ==> Meaning(m, env).events != []
  {
    OnlyRootIsNameless(m.qname);
  }

  /** A client asking for the name servers of the root. */
  function RootQuery(stamp: string): Message {
    Message([], "CLIENT_QUERY", false, stamp, [], "h", [], 53, [], ".", "NS", [], [], None)
  }

  lemma RootQueryIsLost(stamp: string, env: Env)
    requires Tight(stamp) && stamp != ""
    ensures WellFormed(RootQuery(stamp))
    ensures FeedAll(Fed(IDLE, [], 0), Print(RootQuery(stamp)), env) == Fed(IDLE, [], 1)
  {
    LostExactlyWhen(RootQuery(stamp), env);
    BlockRoundTrip(Fed(IDLE, [], 0), RootQuery(stamp), env);
  }

  // ---------------------------------------------------------------- the stream as the tailer delivers it

  const START := Fed(IDLE, [], 0)

  datatype Live = Live(tail: Tail, fed: Fed)

  /** A poll feeds the lines it found to the file's parser, which is kept from poll to poll. */
  function Ingest(v: Live, tick: Tick, limit: nat, env: Env): Live {
    var tail := After(v.tail, tick, limit);
    Live(tail, FeedAll(v.fed, tail.delivered[|v.tail.delivered|..], env))
  }

  function Follow(ticks: seq<Tick>, limit: nat, env: Env): Live {
    if ticks == [] then Live(Tail("", 0, []), START)
    else Ingest(Follow(ticks[..|ticks| - 1], limit, env), ticks[|ticks| - 1], limit, env)
  }

  lemma {:induction false} FollowIsWatch(ticks: seq<Tick>, limit: nat, env: Env)
    ensures Follow(ticks, limit, env).tail == Watch(ticks, limit)
    ensures Follow(ticks, limit, env).fed == FeedAll(START, Watch(ticks, limit).delivered, env)
  {
    if ticks != [] {
      var n := |ticks| - 1;
      FollowIsWatch(ticks[..n], limit, env);
      var before, after := Watch(ticks[..n], limit).delivered, Watch(ticks, limit).delivered;
      assert after == before + after[|before|..];
      FeedAllConcat(START, before, after[|before|..], env);
    }
  }

  /** However appends and bounded polls cut the stream, the parser saw exactly the consumed lines. */
  lemma ScansMaySplitAnywhere(ticks: seq<Tick>, limit: nat, env: Env)
    ensures Exact(Watch(ticks, limit))
    ensures var t := Watch(ticks, limit);
            Follow(ticks, limit, env) == Live(t, FeedAll(START, Lines(t.file[..t.offset]), env))
  {
    FollowIsWatch(ticks, limit, env);
    TailerIsExact(ticks, limit);
  }

  function NonEmpty(lines: seq<string>): seq<string> {
    if lines == [] then []
    else NonEmpty(lines[..|lines| - 1]) + if lines[|lines| - 1] == "" then [] else [lines[|lines| - 1]]
  }

  lemma {:induction false} BlankLinesDoNotMatter(f: Fed, lines: seq<string>, env: Env)
    ensures FeedAll(f, NonEmpty(lines), env) == FeedAll(f, lines, env)
  {
    if lines != [] {
      var n := |lines| - 1;
      BlankLinesDoNotMatter(f, lines[..n], env);
      var rest := NonEmpty(lines[..n]);
      if lines[n] == "" {
        assert rest + [] == rest;
        var g := FeedAll(f, lines[..n], env);
        assert g.events + [] == g.events;
      } else {
        assert (rest + [lines[n]])[..|rest|] == rest;
      }
    }
  }

  /** The file that holds these lines. */
  function FileOf(lines: seq<string>): string {
    if lines == [] then "" else FileOf(lines[..|lines| - 1]) + lines[|lines| - 1] + "\n"
  }

  predicate OneLine(l: string) {
    (forall i | 0 <= i < |l| :: l[i] != '\n') && (l == "" || l[|l| - 1] != '\r')
  }

  lemma {:induction false} LinesOfFile(lines: seq<string>)
    requires forall l | l in lines :: OneLine(l)
    ensures Lines(FileOf(lines)) == NonEmpty(lines)
    ensures FileOf(lines) == "" || FileOf(lines)[|FileOf(lines)| - 1] == '\n'
  {
    if lines != [] {
      var n := |lines| - 1;
      assert OneLine(lines[n]);
      LinesOfFile(lines[..n]);
      LinesOfLast(FileOf(lines[..n]), lines[n], "");
      assert FileOf(lines) == FileOf(lines[..n]) + (lines[n] + "" + "\n");
    }
  }

  /**
   End to end: once the tailer has caught up with a file of printed messages, however it
   was written and polled, the parser has emitted exactly the meaning of every message.
   */
  lemma FileRoundTrip(ticks: seq<Tick>, limit: nat, ms: seq<Message>, env: Env)
    requires forall m | m in ms :: WellFormed(m)
    requires forall l | l in PrintAll(ms) :: OneLine(l)
    requires Watch(ticks, limit).file == FileOf(PrintAll(ms)) && CaughtUp(Watch(ticks, limit))
    ensures Follow(ticks, limit, env).fed == EmitAll(START, ms, env)
  {
    var t := Watch(ticks, limit);
    ScansMaySplitAnywhere(ticks, limit, env);
    TailerIsExact(ticks, limit);
    AllLines(t.file, t.offset);
    LinesOfFile(PrintAll(ms));
    BlankLinesDoNotMatter(START, PrintAll(ms), env);
    LogRoundTrip([], 0, ms, env);
  }
}
