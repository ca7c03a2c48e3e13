/**
 The capture scanner: its own cheap classification of every line runs beside the
 parser, and its tallies must never disagree with the parser's events.
 */
module DnsScan {
  import opened DnsEvents
  import opened Tcpdump
  import opened Text

  datatype Kind = QueryLine | ResponseLine | OtherLine

  /** What the parser's own rules make of a payload line. */
  function KindOf(payload: string): Kind {
    match SplitPacket(payload)
    case None => OtherLine
    case Some(p) => if !IsDns(p) then OtherLine else if IsQuery(p) then QueryLine else ResponseLine
  }

  // ---------------------------------------------------------------- what each kind of line can emit

  predicate IsAddressAnswer(e: DnsEvent) {
    e.answer != "" && (e.qtype == "A" || e.qtype == "AAAA")
  }

  predicate AllAnswers(events: seq<DnsEvent>) {
    forall i | 0 <= i < |events| :: IsAddressAnswer(events[i])
  }

  /** The one event of a reply that names no address. */
  predicate IsFallback(events: seq<DnsEvent>) {
    |events| == 1 && events[0].answer == ""
  }

  /** The events fit the kind: one query, one fallback, or address answers only. */
  predicate Fits(kind: Kind, events: seq<DnsEvent>) {
    match kind
    case QueryLine => |events| <= 1
    case ResponseLine => AllAnswers(events) || IsFallback(events)
    case OtherLine => events == []
  }

  lemma {:induction false} FieldsAreWords(word: string, s: string)
    ensures forall f | f in FieldsFrom(word, s) :: f != ""
    decreases |s|
  {
    if s != "" {
      if IsSpace(s[0]) {
        FieldsAreWords("", s[1..]);
      } else {
        FieldsAreWords(word + [s[0]], s[1..]);
      }
    }
  }

  lemma {:induction false} RecordsAreAnswers(rrs: seq<string>, qname: string, time: int, client: Endpoint, env: Env)
    ensures AllAnswers(RecordEvents(rrs, qname, time, client, env))
  {
    if rrs != [] {
      var n := |rrs| - 1;
      RecordsAreAnswers(rrs[..n], qname, time, client, env);
      FieldsAreWords("", rrs[n]);
      var f := Fields(rrs[n]);
      assert |f| >= 3 ==> f[2] in f;
    }
  }

  lemma ResponseFits(payload: string, time: int, client: Endpoint, env: Env)
    ensures Fits(ResponseLine, ResponseEvents(payload, time, client, env))
  {
    var counts := FindCounts(StripLength(payload));
    if counts.Some? {
      SectionFits(TrimSpace(counts.value.rest), time, client, env);
    }
  }

  lemma SectionFits(section: string, time: int, client: Endpoint, env: Env)
    ensures Fits(ResponseLine, SectionEvents(section, time, client, env))
  {
    var rrs := SplitAt(section, ", ");
    var first := Fields(rrs[0]);
    if |first| > 0 {
      RecordsAreAnswers(rrs, NormalizeHost(first[0]), time, client, env);
    }
  }

  /** The parser's events always fit the kind the scanner gave the line. */
  lemma EventsFitKind(payload: string, time: int, env: Env)
    ensures PayloadEvents(payload, time, env).Events? ==>
              Fits(KindOf(payload), PayloadEvents(payload, time, env).events)
  {
    match SplitPacket(payload) {
      case None =>
      case Some(p) => ResponseFits(p.payload, time, ClientOf(p), env);
    }
  }

  /** A query line whose client is not the resolver itself. */
  predicate IsClientQuery(payload: string, env: Env) {
    match SplitPacket(payload)
    case None => false
    case Some(p) => IsDns(p) && IsQuery(p) && (env.resolver == "" || ClientOf(p).ip != env.resolver)
  }

  /** The client queries the scanner counts are the query lines the parser does not skip. */
  lemma ClientQueriesAreParsed(payload: string, time: int, env: Env)
    ensures IsClientQuery(payload, env) <==>
            KindOf(payload) == QueryLine && PayloadEvents(payload, time, env) != NOTHING
  {
  }

  /** The address answers of one type. */
  function OfType(events: seq<DnsEvent>, qtype: string): nat {
    if events == [] then 0
    else OfType(events[..|events| - 1], qtype) + if events[|events| - 1].qtype == qtype then 1 else 0
  }

  // ---------------------------------------------------------------- lockstep

  predicate IsUdpHeader(line: string) {
    line != "" && !IsIndented(line) && Tod(Before(line, ' ')).Some? && IsUdp(line)
  }

  /** The scanner's own UDP gate after these lines. */
  function UdpPending(lines: seq<string>): bool {
    if lines == [] then false
    else
      var init, line := lines[..|lines| - 1], lines[|lines| - 1];
      if line == "" then UdpPending(init) else IsUdpHeader(line)
  }

  function ParserAfter(midnight: int, lines: seq<string>, env: Env): State {
    if lines == [] then State(midnight, false, 0, false, 0)
    else Feed(ParserAfter(midnight, lines[..|lines| - 1], env), lines[|lines| - 1], env).0
  }

  /** The gate mirrors the parser's pending flag before every line. */
  lemma {:induction false} Lockstep(midnight: int, lines: seq<string>, env: Env)
    ensures UdpPending(lines) == ParserAfter(midnight, lines, env).pending
  {
    if lines != [] {
      Lockstep(midnight, lines[..|lines| - 1], env);
    }
  }

  /** The last line that is not blank, or -1. */
  function LastNonBlank(lines: seq<string>): (i: int)
    ensures -1 <= i < |lines| && (i >= 0 ==> lines[i] != "")
    ensures forall k | i < k < |lines| :: lines[k] == ""
  {
    if lines == [] then -1
    else if lines[|lines| - 1] != "" then |lines| - 1
    else LastNonBlank(lines[..|lines| - 1])
  }

  lemma {:induction false} GateIsLastHeader(lines: seq<string>)
    ensures UdpPending(lines) <==> LastNonBlank(lines) >= 0 && IsUdpHeader(lines[LastNonBlank(lines)])
  {
    if lines != [] && lines[|lines| - 1] == "" {
      GateIsLastHeader(lines[..|lines| - 1]);
    }
  }

  /** An event or an error comes only from a payload that immediately follows its UDP header, blank lines aside. */
  lemma EventsNeedAHeader(midnight: int, lines: seq<string>, line: string, env: Env)
    requires Feed(ParserAfter(midnight, lines, env), line, env).1 != NOTHING
    ensures IsIndented(line) && LastNonBlank(lines) >= 0 && IsUdpHeader(lines[LastNonBlank(lines)])
  {
    Lockstep(midnight, lines, env);
    GateIsLastHeader(lines);
  }

  // ---------------------------------------------------------------- what a line adds to the report

  datatype Tallies = Tallies(packets: nat, responses: nat, clientQueries: nat, answerA: nat, answerAAAA: nat,
                             queryOnly: nat, fallback: nat, silentSkip: nat, parseErr: nat, totalEvents: nat)
  {
    function Plus(t: Tallies): Tallies {
      Tallies(packets + t.packets, responses + t.responses, clientQueries + t.clientQueries, answerA + t.answerA,
              answerAAAA + t.answerAAAA, queryOnly + t.queryOnly, fallback + t.fallback,
              silentSkip + t.silentSkip, parseErr + t.parseErr, totalEvents + t.totalEvents)
    }
  }

  const ZERO := Tallies(0, 0, 0, 0, 0, 0, 0, 0, 0, 0)

  function One(b: bool): nat {
    if b then 1 else 0
  }

  /** What an outcome adds, given the direction of its line. */
  function OutcomeTallies(kind: Kind, outcome: Outcome, indented: bool): Tallies {
    match outcome
    case Malformed => ZERO.(parseErr := 1)
    case Events(events) =>
      var answers := if kind == ResponseLine && !IsFallback(events) then events else [];
      ZERO.(answerA := OfType(answers, "A"), answerAAAA := OfType(answers, "AAAA"),
            queryOnly := if kind == QueryLine then |events| else 0,
            fallback := One(kind == ResponseLine && IsFallback(events)),
            silentSkip := One(events == [] && indented), totalEvents := |events|)
  }

  /** The direction the scanner gives a line: only a payload under a UDP header has one. */
  function LineKind(pending: bool, line: string): Kind {
    if IsIndented(line) && pending then KindOf(TrimIndent(line)) else OtherLine
  }

  /** What a line adds before it is fed to the parser. */
  function RawTallies(pending: bool, line: string, env: Env): Tallies {
    if !IsIndented(line) then ZERO.(packets := One(Tod(Before(line, ' ')).Some?))
    else
      ZERO.(responses := One(LineKind(pending, line) == ResponseLine),
            clientQueries := One(pending && IsClientQuery(TrimIndent(line), env)))
  }

  function LineTallies(s: State, line: string, env: Env): Tallies {
    if line == "" then ZERO
    else
      RawTallies(s.pending, line, env).Plus(
        OutcomeTallies(LineKind(s.pending, line), Feed(s, line, env).1, IsIndented(line)))
  }

  function TalliesOf(midnight: int, lines: seq<string>, env: Env): Tallies {
    if lines == [] then ZERO
    else
      var init := lines[..|lines| - 1];
      TalliesOf(midnight, init, env).Plus(LineTallies(ParserAfter(midnight, init, env), lines[|lines| - 1], env))
  }

  // ---------------------------------------------------------------- the scanner

  class Report {
    var totalLines: nat
    var packets: nat
    var responses: nat
    var clientQueries: nat
    var answerA: nat
    var answerAAAA: nat
    var queryOnly: nat
    var fallback: nat
    var silentSkip: nat
    var parseErr: nat
    var totalEvents: nat

    /** Every event is in exactly one bucket. */
    ghost predicate Balanced()
      reads this
    {
      totalEvents == answerA + answerAAAA + queryOnly + fallback
    }

    ghost function Counts(): Tallies
      reads this
    {
      Tallies(packets, responses, clientQueries, answerA, answerAAAA, queryOnly, fallback, silentSkip, parseErr,
              totalEvents)
    }

    constructor ()
      ensures Balanced() && Counts() == ZERO && totalLines == 0
    {
      totalLines, packets, responses, clientQueries := 0, 0, 0, 0;
      answerA, answerAAAA, queryOnly, fallback := 0, 0, 0, 0;
      silentSkip, parseErr, totalEvents := 0, 0, 0;
    }

    /** The scanner's own reading of a payload line. */
    method ClassifyPayload(payload: string, env: Env) returns (kind: Kind)
      modifies this`clientQueries, this`responses
      ensures kind == KindOf(payload)
      ensures responses == old(responses) + if kind == ResponseLine then 1 else 0
      ensures clientQueries == old(clientQueries) + if IsClientQuery(payload, env) then 1 else 0
    {
      var gt := Find(payload, " > ");
      if gt < 0 {
        return OtherLine;
      }
      var rest := payload[gt + 3..];
      var colon := Find(rest, ": ");
      if colon < 0 {
        return OtherLine;
      }
      var src, dst := SplitIpPort(payload[..gt]), SplitIpPort(rest[..colon]);
      if src.None? || dst.None? {
        return OtherLine;
      }
      assert SplitPacket(payload) == Some(Packet(src.value, dst.value, rest[colon + 2..]));
      kind := ClassifyDirection(src.value, dst.value, rest[colon + 2..], env);
    }

    method ClassifyDirection(src: Endpoint, dst: Endpoint, body: string, env: Env) returns (kind: Kind)
      modifies this`clientQueries, this`responses
      ensures var p := Packet(src, dst, body);
              kind == if !IsDns(p) then OtherLine else if IsQuery(p) then QueryLine else ResponseLine
      ensures responses == old(responses) + if kind == ResponseLine then 1 else 0
      ensures var p := Packet(src, dst, body);
              clientQueries == old(clientQueries) +
              if IsDns(p) && IsQuery(p) && (env.resolver == "" || ClientOf(p).ip != env.resolver) then 1 else 0
    {
      var isQuery, clientIp := false, "";
      if dst.port == 53 && src.port == 53 {
        isQuery := HasQueryMarker(body);
        clientIp := if isQuery then src.ip else dst.ip;
      } else if dst.port == 53 {
        isQuery, clientIp := true, src.ip;
      } else if src.port == 53 {
        clientIp := dst.ip;
      } else {
        return OtherLine;
      }
      if isQuery {
        if env.resolver == "" || clientIp != env.resolver {
          clientQueries := clientQueries + 1;
        }
        return QueryLine;
      }
      responses := responses + 1;
      return ResponseLine;
    }

    /** Counts the outcome of one line. */
    method Tally(kind: Kind, outcome: Outcome, indented: bool)
      requires Balanced() && (outcome.Events? ==> Fits(kind, outcome.events))
      modifies this
      ensures Balanced() && totalLines == old(totalLines)
      ensures Counts() == old(Counts()).Plus(OutcomeTallies(kind, outcome, indented))
    {
      if outcome.Malformed? {
        parseErr := parseErr + 1;
        return;
      }
      if |outcome.events| == 0 {
        if indented {
          silentSkip := silentSkip + 1;
        }
        return;
      }
      totalEvents := totalEvents + |outcome.events|;
      ClassifyEvents(kind, outcome.events);
    }

    /** Buckets the events of one line by the direction already decided. */
    method ClassifyEvents(kind: Kind, events: seq<DnsEvent>)
      requires Fits(kind, events)
      modifies this`answerA, this`answerAAAA, this`queryOnly, this`fallback
      ensures answerA + answerAAAA + queryOnly + fallback ==
              old(answerA + answerAAAA + queryOnly + fallback) + |events|
      ensures queryOnly == old(queryOnly) + if kind == QueryLine then |events| else 0
      ensures fallback == old(fallback) + if kind == ResponseLine && IsFallback(events) then 1 else 0
      ensures var answers := if kind == ResponseLine && !IsFallback(events) then events else [];
              && answerA == old(answerA) + OfType(answers, "A")
              && answerAAAA == old(answerAAAA) + OfType(answers, "AAAA")
    {
      match kind {
        case QueryLine =>
          for i := 0 to |events|
            invariant queryOnly == old(queryOnly) + i
            invariant answerA == old(answerA) && answerAAAA == old(answerAAAA) && fallback == old(fallback)
          {
            queryOnly := queryOnly + 1;
          }
        case ResponseLine =>
          if |events| == 1 && events[0].answer == "" {
            fallback := fallback + 1;
            return;
          }
          for i := 0 to |events|
            invariant answerA + answerAAAA == old(answerA + answerAAAA) + i
            invariant answerA == old(answerA) + OfType(events[..i], "A")
            invariant answerAAAA == old(answerAAAA) + OfType(events[..i], "AAAA")
            invariant queryOnly == old(queryOnly) && fallback == old(fallback)
          {
            assert IsAddressAnswer(events[i]);
            assert events[..i + 1][..i] == events[..i];
            if events[i].qtype == "A" {
              answerA := answerA + 1;
            } else if events[i].qtype == "AAAA" {
              answerAAAA := answerAAAA + 1;
            }
          }
          assert events[..|events|] == events;
        case OtherLine =>
      }
    }
  }

  /** Scans a capture; the report balances after every line. */
  method Scan(raw: seq<string>, midnight: int, env: Env) returns (r: Report)
    ensures fresh(r) && r.Balanced() && r.totalLines == |raw|
    ensures r.Counts() == TalliesOf(midnight, Trimmed(raw), env)
  {
    r := new Report();
    var parser := new Reader(midnight);
    var udpPending := false;
    ghost var s, counts := parser.Model(), r.Counts();
    for n := 0 to |raw|
      invariant fresh(r) && fresh(parser) && r.Balanced() && r.totalLines == n
      invariant udpPending == parser.pending && s == parser.Model() && counts == r.Counts()
      invariant s == ParserAfter(midnight, Trimmed(raw[..n]), env)
      invariant counts == TalliesOf(midnight, Trimmed(raw[..n]), env)
    {
      var line := TrimRight(raw[n], '\r');
      ScansOneMore(raw, n, midnight, line, env);
      r.totalLines := r.totalLines + 1;
      assert r.Counts() == counts;
      udpPending := ScanLine(r, parser, udpPending, line, env);
      s, counts := Feed(s, line, env).0, counts.Plus(LineTallies(s, line, env));
    }
    assert raw[..|raw|] == raw;
  }

  lemma ScansOneMore(raw: seq<string>, n: nat, midnight: int, line: string, env: Env)
    requires n < |raw| && line == TrimRight(raw[n], '\r')
    ensures var s := ParserAfter(midnight, Trimmed(raw[..n]), env);
            && ParserAfter(midnight, Trimmed(raw[..n + 1]), env) == Feed(s, line, env).0
            && TalliesOf(midnight, Trimmed(raw[..n + 1]), env) ==
               TalliesOf(midnight, Trimmed(raw[..n]), env).Plus(LineTallies(s, line, env))
  {
    TrimmedSnoc(raw, n);
    OneMoreLine(midnight, Trimmed(raw[..n]), line, env);
  }

  lemma OneMoreLine(midnight: int, lines: seq<string>, line: string, env: Env)
    ensures var s := ParserAfter(midnight, lines, env);
            && ParserAfter(midnight, lines + [line], env) == Feed(s, line, env).0
            && TalliesOf(midnight, lines + [line], env) ==
               TalliesOf(midnight, lines, env).Plus(LineTallies(s, line, env))
  {
    assert (lines + [line])[..|lines|] == lines;
  }

  /** One line: classify it, feed it, bucket what comes out. */
  method ScanLine(r: Report, parser: Reader, udpPending: bool, line: string, env: Env) returns (udpPending': bool)
    requires udpPending == parser.pending && r.Balanced()
    modifies r, parser
    ensures r.Balanced() && r.totalLines == old(r.totalLines)
    ensures parser.Model() == Feed(old(parser.Model()), line, env).0
    ensures udpPending' == parser.pending
    ensures r.Counts() == old(r.Counts()).Plus(LineTallies(old(parser.Model()), line, env))
  {
    ghost var s, before := parser.Model(), r.Counts();
    if line == "" {
      PlusAssociates(before, ZERO, ZERO);
      return udpPending;
    }
    var indented := line[0] == ' ' || line[0] == '\t';
    var kind;
    kind, udpPending' := ClassifyLine(r, udpPending, line, indented, env);
    OutcomeFits(s, line, kind, env);
    var outcome := parser.FeedLine(line, env);
    assert parser.pending == Feed(s, line, env).0.pending;
    r.Tally(kind, outcome, indented);
    PlusAssociates(before, RawTallies(s.pending, line, env), OutcomeTallies(kind, outcome, indented));
  }

  /** The raw reading of one line. */
  method ClassifyLine(r: Report, udpPending: bool, line: string, indented: bool, env: Env)
      returns (kind: Kind, udpPending': bool)
    requires line != "" && indented == IsIndented(line) && r.Balanced()
    modifies r
    ensures r.Balanced() && r.totalLines == old(r.totalLines)
    ensures kind == LineKind(udpPending, line) && udpPending' == IsUdpHeader(line)
    ensures r.Counts() == old(r.Counts()).Plus(RawTallies(udpPending, line, env))
  {
    ghost var before := r.Counts();
    kind, udpPending' := OtherLine, false;
    if !indented {
      var tod := ParseTod(Before(line, ' '));
      if tod.Some? {
        r.packets := r.packets + 1;
        udpPending' := Contains(line, "proto UDP") || Contains(line, "next-header UDP");
      }
    } else if udpPending {
      kind := r.ClassifyPayload(TrimIndent(line), env);
      assert r.Counts() == before.Plus(RawTallies(true, line, env));
    }
  }

  lemma PlusAssociates(a: Tallies, b: Tallies, c: Tallies)
    ensures a.Plus(b).Plus(c) == a.Plus(b.Plus(c)) && a.Plus(ZERO) == a
  {
  }

  lemma OutcomeFits(s: State, line: string, kind: Kind, env: Env)
    requires line != ""
    requires kind == LineKind(s.pending, line)
    ensures Feed(s, line, env).1.Events? ==> Fits(kind, Feed(s, line, env).1.events)
    ensures Feed(s, line, env).0.pending == IsUdpHeader(line)
  {
    EventsFitKind(TrimIndent(line), s.pendingTime, env);
  }

  function Trimmed(raw: seq<string>): seq<string> {
    seq(|raw|, i requires 0 <= i < |raw| => TrimRight(raw[i], '\r'))
  }

  lemma TrimmedSnoc(raw: seq<string>, n: nat)
    requires n < |raw|
    ensures Trimmed(raw[..n + 1]) == Trimmed(raw[..n]) + [TrimRight(raw[n], '\r')]
  {
  }
}
