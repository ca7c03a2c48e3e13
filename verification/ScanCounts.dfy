/** What the capture scanner reports for a printed capture, packet by packet. */
module ScanCounts {
  import opened DnsEvents
  import opened DnsScan
  import opened Tcpdump
  import opened TcpdumpDates
  import opened TcpdumpPrint
  import opened Text

  /** How many records of one type carry an address of the family that goes with it. */
  function AddressCount(rs: seq<Record>, rtype: string, family: Family, env: Env): nat {
    if rs == [] then 0
    else
      var r := rs[|rs| - 1];
      AddressCount(rs[..|rs| - 1], rtype, family, env) +
      One(r.rdata != [] && r.rtype == rtype && env.family(r.rdata[0]) == Some(family))
  }

  /** The upstream leg of the resolver itself. */
  predicate IsUpstream(p: Printed, env: Env) {
    env.resolver != "" && env.resolver == if p.dns.Question? then p.src.ip else p.dst.ip
  }

  /** A question is one query-only event, or an error if it names the root; the upstream leg is silent. */
  function QuestionTallies(upstream: bool, root: bool): Tallies {
    if upstream then ZERO.(silentSkip := 1)
    else if root then ZERO.(clientQueries := 1, parseErr := 1)
    else ZERO.(clientQueries := 1, queryOnly := 1, totalEvents := 1)
  }

  /** A reply counts its address records by type, or is one fallback if it has none. */
  function ReplyTallies(silent: bool, a: nat, aaaa: nat): Tallies {
    if silent then ZERO.(responses := 1, silentSkip := 1)
    else if a + aaaa == 0 then ZERO.(responses := 1, fallback := 1, totalEvents := 1)
    else ZERO.(responses := 1, answerA := a, answerAAAA := aaaa, totalEvents := a + aaaa)
  }

  function PacketTallies(p: Printed, env: Env): Tallies {
    match p.dns
    case Question(_, _, _, qname, _) => QuestionTallies(IsUpstream(p, env), qname == ".")
    case Reply(_, an, _, _, records, _) =>
      ReplyTallies(IsUpstream(p, env) || an == 0 || records == [] || records[0].owner == ".",
                   AddressCount(records, "A", V4, env), AddressCount(records, "AAAA", V6, env))
  }

  /** One packet, and what its payload says, for every shot. */
  function CaptureTallies(shots: seq<Shot>, env: Env): Tallies {
    if shots == [] then ZERO
    else
      var packet := PacketTallies(shots[|shots| - 1].packet, env);
      CaptureTallies(shots[..|shots| - 1], env).Plus(packet.(packets := 1))
  }

  function LinesOf(items: seq<Item>): seq<string> {
    seq(|items|, i requires 0 <= i < |items| => LineOf(items[i]))
  }

  // ---------------------------------------------------------------- one packet

  /** What a payload line adds: its direction, and the outcome it has. */
  function PayloadTallies(kind: Kind, client: bool, outcome: Outcome): Tallies {
    ZERO.(responses := One(kind == ResponseLine), clientQueries := One(client)).Plus(
      OutcomeTallies(kind, outcome, true))
  }

  lemma OneMoreEvent(events: seq<DnsEvent>, e: DnsEvent)
    ensures OfType(events + [e], "A") == OfType(events, "A") + One(e.qtype == "A")
    ensures OfType(events + [e], "AAAA") == OfType(events, "AAAA") + One(e.qtype == "AAAA")
  {
    assert (events + [e])[..|events|] == events;
  }

  /** Address answers, so many of each type. */
  predicate Counted(events: seq<DnsEvent>, a: nat, aaaa: nat) {
    AllAnswers(events) && OfType(events, "A") == a && OfType(events, "AAAA") == aaaa && |events| == a + aaaa
  }

  lemma {:induction false} AddressesAreCounted(rs: seq<Record>, qname: string, time: int, client: Endpoint, env: Env)
    requires forall r | r in rs :: WellFormedRecord(r)
    ensures Counted(Addresses(rs, qname, time, client, env),
                    AddressCount(rs, "A", V4, env), AddressCount(rs, "AAAA", V6, env))
  {
    if rs != [] {
      var n := |rs| - 1;
      var r := rs[n];
      assert WellFormedRecord(r);
      AddressesAreCounted(rs[..n], qname, time, client, env);
      var before := Addresses(rs[..n], qname, time, client, env);
      if r.rdata != [] && Matches(r.rtype, env.family(r.rdata[0])) {
        assert Element(r.rdata[0]);
        var e := DnsEvent(time, client.ip, client.port, qname, r.rtype, r.rdata[0], 0, true);
        OneMoreEvent(before, e);
        assert Addresses(rs, qname, time, client, env) == before + [e];
      } else {
        assert Addresses(rs, qname, time, client, env) == before;
      }
    }
  }

  lemma AnswersAreTallied(events: seq<DnsEvent>, a: nat, aaaa: nat)
    requires Counted(events, a, aaaa) && events != []
    ensures PayloadTallies(ResponseLine, false, Events(events)) ==
            ReplyTallies(false, a, aaaa)
  {
    assert IsAddressAnswer(events[0]);
    assert OutcomeTallies(ResponseLine, Events(events), true) ==
           ZERO.(answerA := a, answerAAAA := aaaa, totalEvents := a + aaaa);
  }

  lemma FallbackIsTallied(events: seq<DnsEvent>)
    requires IsFallback(events)
    ensures PayloadTallies(ResponseLine, false, Events(events)) == ReplyTallies(false, 0, 0)
  {
    assert OutcomeTallies(ResponseLine, Events(events), true) == ZERO.(fallback := 1, totalEvents := 1);
  }

  lemma SilenceIsTallied(kind: Kind)
    ensures OutcomeTallies(kind, NOTHING, true) == ZERO.(silentSkip := 1)
  {
  }

  lemma UpstreamIsTallied(root: bool)
    ensures PayloadTallies(QueryLine, false, NOTHING) == QuestionTallies(true, root)
  {
    SilenceIsTallied(QueryLine);
  }

  lemma RootIsTallied()
    ensures PayloadTallies(QueryLine, true, Malformed) == QuestionTallies(false, true)
  {
    assert OutcomeTallies(QueryLine, Malformed, true) == ZERO.(parseErr := 1);
  }

  lemma QueryIsTallied(events: seq<DnsEvent>)
    requires |events| == 1
    ensures PayloadTallies(QueryLine, true, Events(events)) == QuestionTallies(false, false)
  {
    assert OutcomeTallies(QueryLine, Events(events), true) == ZERO.(queryOnly := 1, totalEvents := 1);
  }

  lemma ReplyIsTallied(records: seq<Record>, time: int, client: Endpoint, env: Env)
    requires records != [] && records[0].owner != "." && forall r | r in records :: WellFormedRecord(r)
    ensures PayloadTallies(ResponseLine, false, Events(ListMeaning(records, time, client, env))) ==
            ReplyTallies(false, AddressCount(records, "A", V4, env), AddressCount(records, "AAAA", V6, env))
  {
    var qname := NormalizeHost(records[0].owner);
    var events := Addresses(records, qname, time, client, env);
    AddressesAreCounted(records, qname, time, client, env);
    if events == [] {
      FallbackIsTallied([DnsEvent(time, client.ip, client.port, qname, records[0].rtype, "", 0, false)]);
    } else {
      AnswersAreTallied(events, AddressCount(records, "A", V4, env), AddressCount(records, "AAAA", V6, env));
    }
  }

  /** The direction of a printed packet, and whether it is counted as a client query. */
  lemma KindReadsBack(p: Printed, env: Env)
    requires WellFormedPacket(p)
    ensures KindOf(PrintPacket(p)) == if p.dns.Question? then QueryLine else ResponseLine
    ensures IsClientQuery(PrintPacket(p), env) <==> p.dns.Question? && !IsUpstream(p, env)
  {
    PacketReadsBack(p);
    DirectionReadsBack(p);
  }

  lemma QuestionIsTallied(p: Printed, time: int, env: Env)
    requires p.dns.Question?
    ensures PayloadTallies(QueryLine, !IsUpstream(p, env), Meaning(p, time, env)) == PacketTallies(p, env)
  {
    if IsUpstream(p, env) {
      assert Meaning(p, time, env) == NOTHING;
      UpstreamIsTallied(p.dns.qname == ".");
    } else if p.dns.qname == "." {
      assert Meaning(p, time, env) == Malformed;
      RootIsTallied();
    } else {
      var e := DnsEvent(time, p.src.ip, p.src.port, NormalizeHost(p.dns.qname), p.dns.qtype, "", 0, false);
      assert Meaning(p, time, env) == Events([e]);
      QueryIsTallied([e]);
    }
  }

  lemma ResponseIsTallied(p: Printed, time: int, env: Env)
    requires p.dns.Reply? && WellFormedPacket(p)
    ensures PayloadTallies(ResponseLine, false, Meaning(p, time, env)) == PacketTallies(p, env)
  {
    var records := p.dns.records;
    if IsUpstream(p, env) || p.dns.an == 0 || records == [] || records[0].owner == "." {
      assert Meaning(p, time, env) == NOTHING;
      SilenceIsTallied(ResponseLine);
    } else {
      assert Meaning(p, time, env) == Events(ListMeaning(records, time, p.dst, env));
      ReplyIsTallied(records, time, p.dst, env);
    }
  }

  lemma LineIsTallied(state: State, line: string, payload: string, kind: Kind, client: bool, outcome: Outcome, env: Env)
    requires IsIndented(line) && state.pending && TrimIndent(line) == payload
    requires KindOf(payload) == kind && IsClientQuery(payload, env) == client && Feed(state, line, env).1 == outcome
    ensures LineTallies(state, line, env) == PayloadTallies(kind, client, outcome)
  {
  }

  lemma PayloadIndented(p: Printed, payload: string)
    requires WellFormedPacket(p) && payload == PrintPacket(p)
    ensures IsIndented("    " + payload) && TrimIndent("    " + payload) == payload
  {
    EndpointHasNoSpace(p.src);
    TrimsIndent("    ", payload);
  }

  lemma PayloadIsFed(state: State, s: Shot, line: string, env: Env)
    requires WellFormedPacket(s.packet) && state.pending && line == LineOf(PayloadOf(s))
    ensures IsIndented(line) && TrimIndent(line) == PrintPacket(s.packet)
    ensures Feed(state, line, env).1 == Meaning(s.packet, state.pendingTime, env)
  {
    PayloadIndented(s.packet, PrintPacket(s.packet));
    PayloadLineRoundTrip(state, s, env);
  }

  lemma PayloadIsTallied(state: State, s: Shot, line: string, env: Env)
    requires WellFormedPacket(s.packet) && state.pending && line == LineOf(PayloadOf(s))
    ensures LineTallies(state, line, env) == PacketTallies(s.packet, env)
  {
    var p := s.packet;
    PayloadIsFed(state, s, line, env);
    KindReadsBack(p, env);
    LineIsTallied(state, line, PrintPacket(p), if p.dns.Question? then QueryLine else ResponseLine,
                  p.dns.Question? && !IsUpstream(p, env), Meaning(p, state.pendingTime, env), env);
    if p.dns.Question? {
      QuestionIsTallied(p, state.pendingTime, env);
    } else {
      ResponseIsTallied(p, state.pendingTime, env);
    }
  }

  lemma HeaderIsTallied(state: State, i: Item, env: Env)
    requires i.Captured? && WellFormed(i)
    ensures LineTallies(state, LineOf(i), env) == ZERO.(packets := 1)
  {
    HeaderToken(i.us, i.rest);
    TodRoundTrip(i.us);
    HeaderIsSilent(state, i, env);
  }

  // ---------------------------------------------------------------- a whole capture

  lemma PacketThen(before: Tallies, t: Tallies)
    requires t.packets == 0
    ensures before.Plus(ZERO.(packets := 1)).Plus(t) == before.Plus(t.(packets := 1))
  {
  }

  lemma TwoMoreLines(midnight: int, lines: seq<string>, header: string, payload: string, env: Env)
    ensures var s := ParserAfter(midnight, lines, env);
            TalliesOf(midnight, lines + [header] + [payload], env) ==
            TalliesOf(midnight, lines, env).Plus(LineTallies(s, header, env)).Plus(
              LineTallies(Feed(s, header, env).0, payload, env))
  {
    OneMoreLine(midnight, lines, header, env);
    OneMoreLine(midnight, lines + [header], payload, env);
  }

  lemma NoPackets(p: Printed, env: Env)
    ensures PacketTallies(p, env).packets == 0
  {
  }

  /** A well-formed shot is one packet in its header line, and in its payload line what the packet says. */
  lemma ShotIsTallied(state: State, s: Shot, header: string, payload: string, env: Env)
    ensures header == LineOf(HeaderOf(s)) && payload == LineOf(PayloadOf(s)) && WellFormedShot(s) ==>
              && LineTallies(state, header, env) == ZERO.(packets := 1)
              && LineTallies(Feed(state, header, env).0, payload, env) == PacketTallies(s.packet, env)
  {
    if header == LineOf(HeaderOf(s)) && payload == LineOf(PayloadOf(s)) && WellFormedShot(s) {
      FeedsHeader(state, HeaderOf(s), env);
      HeaderIsTallied(state, HeaderOf(s), env);
      PayloadIsTallied(Feed(state, header, env).0, s, payload, env);
    }
  }

  lemma LinesOfShot(items: seq<Item>, header: Item, payload: Item)
    ensures LinesOf(items + [header] + [payload]) == LinesOf(items) + [LineOf(header)] + [LineOf(payload)]
  {
  }

  /** The report of a printed capture counts every packet for what it says. */
  lemma {:induction false} CaptureIsCounted(midnight: int, shots: seq<Shot>, env: Env)
    requires forall s | s in shots :: WellFormedShot(s)
    ensures TalliesOf(midnight, LinesOf(Capture(shots)), env) == CaptureTallies(shots, env)
  {
    if shots != [] {
      var n := |shots| - 1;
      var before, header, payload := Capture(shots[..n]), HeaderOf(shots[n]), PayloadOf(shots[n]);
      assert WellFormedShot(shots[n]);
      CaptureIsCounted(midnight, shots[..n], env);
      LinesOfShot(before, header, payload);
      var state, packet := ParserAfter(midnight, LinesOf(before), env), PacketTallies(shots[n].packet, env);
      ShotIsTallied(state, shots[n], LineOf(header), LineOf(payload), env);
      TwoMoreLines(midnight, LinesOf(before), LineOf(header), LineOf(payload), env);
      NoPackets(shots[n].packet, env);
      PacketThen(TalliesOf(midnight, LinesOf(before), env), packet);
    }
  }
}
