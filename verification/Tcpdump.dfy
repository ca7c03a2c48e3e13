/**
 The tcpdump text parser.  A packet is an unindented header, which carries only a
 time of day, followed by an indented payload line; the date is rebuilt by
 watching the time of day jump back.
 */
module Tcpdump {
  import opened DnsEvents
  import opened Text

  const DAY := 86_400_000_000_000
  const HALF_DAY := 43_200_000_000_000

  // ---------------------------------------------------------------- time of day

  function Pow10(n: nat): nat {
    if n == 0 then 1 else 10 * Pow10(n - 1)
  }

  /** The leading digits of a text. */
  function DigitRun(s: string): (r: string)
    ensures AllDigits(r) && r <= s && (|r| < |s| ==> !IsDigit(s[|r|]))
  {
    if s != "" && IsDigit(s[0]) then [s[0]] + DigitRun(s[1..]) else ""
  }

  /** HH:MM:SS. and at least one more digit. */
  predicate LooksLikeTod(tok: string) {
    && |tok| >= 10
    && IsDigit(tok[0]) && IsDigit(tok[1]) && tok[2] == ':'
    && IsDigit(tok[3]) && IsDigit(tok[4]) && tok[5] == ':'
    && IsDigit(tok[6]) && IsDigit(tok[7]) && tok[8] == '.'
    && IsDigit(tok[9])
  }

  function TwoDigits(tok: string, i: nat): nat
    requires i + 1 < |tok| && IsDigit(tok[i]) && IsDigit(tok[i + 1])
  {
    10 * DigitOf(tok[i]) + DigitOf(tok[i + 1])
  }

  /** At most nine digits of a second. */
  function Fraction(tok: string): (f: string)
    requires |tok| >= 9
    ensures AllDigits(f) && |f| <= 9
  {
    var run := DigitRun(tok[9..]);
    if |run| > 9 then run[..9] else run
  }

  /** Hours, minutes, seconds and nanoseconds since midnight. */
  function Clock(h: nat, m: nat, s: nat, ns: nat): nat {
    h * 3_600_000_000_000 + m * 60_000_000_000 + s * 1_000_000_000 + ns
  }

  function Nanos(frac: string): nat
    requires AllDigits(frac) && |frac| <= 9
  {
    Number(frac) * Pow10(9 - |frac|)
  }

  function Tod(tok: string): Option<int> {
    if !LooksLikeTod(tok) then None
    else
      var h, m, s := TwoDigits(tok, 0), TwoDigits(tok, 3), TwoDigits(tok, 6);
      if h > 23 || m > 59 || s > 59 then None else Some(Clock(h, m, s, Nanos(Fraction(tok))))
  }

  /** Scales a fraction to nanoseconds, digit by digit. */
  method ScaleToNanos(frac: string) returns (ns: nat)
    requires AllDigits(frac) && |frac| <= 9
    ensures ns == Nanos(frac)
  {
    ns := Number(frac);
    for i := |frac| to 9
      invariant ns * Pow10(9 - i) == Nanos(frac)
    {
      ScaleOnce(ns, 9 - i);
      ns := ns * 10;
    }
  }

  lemma ScaleOnce(ns: nat, left: nat)
    requires left > 0
    ensures ns * Pow10(left) == (ns * 10) * Pow10(left - 1)
  {
  }

  method ParseTod(tok: string) returns (r: Option<int>)
    ensures r == Tod(tok)
  {
    if !LooksLikeTod(tok) {
      return None;
    }
    var h, m, s := TwoDigits(tok, 0), TwoDigits(tok, 3), TwoDigits(tok, 6);
    if h > 23 || m > 59 || s > 59 {
      return None;
    }
    var frac := DigitRun(tok[9..]);
    if |frac| > 9 {
      frac := frac[..9];
    }
    var ns := ScaleToNanos(frac);
    return Some(Clock(h, m, s, ns));
  }

  lemma {:induction false} NumberBound(s: string)
    requires AllDigits(s)
    ensures Number(s) < Pow10(|s|)
  {
    if s != "" {
      NumberBound(s[..|s| - 1]);
    }
  }

  lemma {:induction false} Pow10Product(a: nat, b: nat)
    ensures Pow10(a) * Pow10(b) == Pow10(a + b)
  {
    if a > 0 {
      Pow10Product(a - 1, b);
    }
  }

  lemma Pow10Nine()
    ensures Pow10(9) == SECOND
  {
  }

  lemma NanosBelowSecond(frac: string)
    requires AllDigits(frac) && |frac| <= 9
    ensures Nanos(frac) < SECOND
  {
    NumberBound(frac);
    Pow10Product(|frac|, 9 - |frac|);
    Pow10Nine();
    ScaledBelow(Number(frac), Pow10(|frac|), Pow10(9 - |frac|));
  }

  lemma ScaledBelow(n: nat, a: nat, b: nat)
    requires n < a && a * b == SECOND
    ensures n * b < SECOND
  {
  }

  /** A time of day is below twenty-four hours. */
  lemma TodRange(tok: string)
    ensures Tod(tok).Some? ==> 0 <= Tod(tok).value < DAY
  {
    if Tod(tok).Some? {
      NanosBelowSecond(Fraction(tok));
    }
  }

  // ---------------------------------------------------------------- printing a time of day

  const DAY_MICROS := 86_400_000_000

  /** The last k decimal digits of n. */
  function Pad(n: nat, k: nat): (s: string)
    ensures |s| == k && AllDigits(s)
    decreases k
  {
    if k == 0 then "" else Pad(n / 10, k - 1) + [Digit(n % 10)]
  }

  /** Microseconds since midnight as tcpdump prints them. */
  function PrintTod(us: nat): string {
    Pad(us / 3_600_000_000, 2) + ":" + Pad(us / 60_000_000 % 60, 2) + ":" + Pad(us / 1_000_000 % 60, 2)
    + "." + Pad(us % 1_000_000, 6)
  }

  lemma {:induction false} PadReadsBack(n: nat, k: nat)
    requires n < Pow10(k)
    ensures Number(Pad(n, k)) == n
    decreases k
  {
    if k > 0 {
      assert n / 10 < Pow10(k - 1);
      PadReadsBack(n / 10, k - 1);
      var s := Pad(n, k);
      assert s[..|s| - 1] == Pad(n / 10, k - 1);
    }
  }

  lemma {:induction false} DigitRunOfDigits(s: string)
    requires AllDigits(s)
    ensures DigitRun(s) == s
  {
    if s != "" {
      DigitRunOfDigits(s[1..]);
      assert s == [s[0]] + s[1..];
    }
  }

  lemma PairReadsBack(n: nat)
    requires n < 100
    ensures TwoDigits(Pad(n, 2), 0) == n
  {
  }

  lemma SplitMicros(us: nat)
    requires us < DAY_MICROS
    ensures us / 3_600_000_000 <= 23
    ensures Clock(us / 3_600_000_000, us / 60_000_000 % 60, us / 1_000_000 % 60, us % 1_000_000 * 1000) == us * 1000
  {
    var seconds := us / 1_000_000;
    var minutes := seconds / 60;
    assert us == 1_000_000 * seconds + us % 1_000_000;
    assert seconds == 60 * minutes + seconds % 60;
    assert minutes == 60 * (minutes / 60) + minutes % 60;
    assert us / 60_000_000 == minutes && us / 3_600_000_000 == minutes / 60;
  }

  lemma MicrosToNanos(us: nat)
    requires us < 1_000_000
    ensures Nanos(Pad(us, 6)) == us * 1000
  {
    assert Pow10(3) == 1000;
    Pow10Product(3, 3);
    PadReadsBack(us, 6);
  }

  /** The parser inverts the microsecond printer. */
  lemma TodRoundTrip(us: nat)
    requires us < DAY_MICROS
    ensures Tod(PrintTod(us)) == Some(us * 1000)
  {
    SplitMicros(us);
    PartsReadBack(us / 3_600_000_000, us / 60_000_000 % 60, us / 1_000_000 % 60, us % 1_000_000);
  }

  lemma PartsReadBack(h: nat, m: nat, s: nat, f: nat)
    requires h <= 23 && m <= 59 && s <= 59 && f < 1_000_000
    ensures Tod(Pad(h, 2) + ":" + Pad(m, 2) + ":" + Pad(s, 2) + "." + Pad(f, 6)) == Some(Clock(h, m, s, f * 1000))
  {
    PairReadsBack(h);
    PairReadsBack(m);
    PairReadsBack(s);
    MicrosToNanos(f);
    DigitRunOfDigits(Pad(f, 6));
    TodOfParts(Pad(h, 2), Pad(m, 2), Pad(s, 2), Pad(f, 6));
  }

  lemma TodOfParts(h: string, m: string, s: string, f: string)
    requires |h| == |m| == |s| == 2 && |f| == 6
    requires AllDigits(h) && AllDigits(m) && AllDigits(s) && AllDigits(f)
    requires DigitRun(f) == f
    requires TwoDigits(h, 0) <= 23 && TwoDigits(m, 0) <= 59 && TwoDigits(s, 0) <= 59
    ensures Tod(h + ":" + m + ":" + s + "." + f) ==
            Some(Clock(TwoDigits(h, 0), TwoDigits(m, 0), TwoDigits(s, 0), Nanos(f)))
  {
  }

  // ---------------------------------------------------------------- payloads

  /** The answer count of a response, whether it is zero, and the text behind the counts. */
  datatype Counts = Counts(zero: bool, rest: string)

  /** The text behind one c and a run of digits, if s starts so. */
  function Past(s: string, c: char): Option<string> {
    if s == "" || s[0] != c || DigitRun(s[1..]) == "" then None else Some(s[1 + |DigitRun(s[1..])|..])
  }

  /** Three counts with slashes between them, right at the start. */
  function CountsHere(s: string): Option<Counts> {
    var an := DigitRun(s);
    if an == "" then None
    else match Past(s[|an|..], '/')
      case None => None
      case Some(more) =>
        match Past(more, '/')
        case None => None
        case Some(rest) => Some(Counts(Number(an) == 0, rest))
  }

  /** The leftmost an/ns/ar in a payload. */
  function FindCounts(s: string): Option<Counts> {
    if CountsHere(s).Some? then CountsHere(s) else if s == "" then None else FindCounts(s[1..])
  }

  /** The resolver whose own queries are skipped ("" for none), and address literals. */
  datatype Env = Env(resolver: string, family: string -> Option<Family>)

  datatype Endpoint = Endpoint(ip: string, port: nat)

  function SplitIpPort(s: string): (e: Option<Endpoint>)
    ensures e.Some? ==> e.value.port < 0x1_0000
  {
    var i := LastIndex(s, '.');
    if i < 0 then None
    else match ParseUint(s[i + 1..], 0x1_0000)
      case Some(port) => Some(Endpoint(s[..i], port))
      case None => None
  }

  predicate HasQueryMarker(payload: string) {
    exists f | f in Fields(payload) :: HasSuffix(f, "?")
  }

  /** A payload line taken apart. */
  datatype Packet = Packet(src: Endpoint, dst: Endpoint, payload: string)

  function SplitPacket(s: string): Option<Packet> {
    var gt := Find(s, " > ");
    if gt < 0 then None
    else
      var rest := s[gt + 3..];
      var colon := Find(rest, ": ");
      if colon < 0 then None
      else match (SplitIpPort(s[..gt]), SplitIpPort(rest[..colon]))
        case (Some(src), Some(dst)) => Some(Packet(src, dst, rest[colon + 2..]))
        case (_, _) => None
  }

  predicate IsDns(p: Packet) {
    p.src.port == 53 || p.dst.port == 53
  }

  predicate IsQuery(p: Packet) {
    p.dst.port == 53 && (p.src.port != 53 || HasQueryMarker(p.payload))
  }

  function ClientOf(p: Packet): Endpoint {
    if IsQuery(p) then p.src else p.dst
  }

  /** The first field after the transaction id that asks a question, or the number of fields. */
  function Marker(fields: seq<string>, i: nat): (q: nat)
    ensures i <= q && (q < |fields| ==> HasSuffix(fields[q], "?"))
    ensures forall k | i <= k < q && k < |fields| :: !HasSuffix(fields[k], "?")
    decreases |fields| - i
  {
    if i >= |fields| || HasSuffix(fields[i], "?") then i else Marker(fields, i + 1)
  }

  function QueryEvents(payload: string, time: int, client: Endpoint): Outcome {
    var fields := Fields(payload);
    var q := Marker(fields, 1);
    if q + 1 >= |fields| then Malformed
    else
      var qtype, qname := fields[q][..|fields[q]| - 1], NormalizeHost(fields[q + 1]);
      if qtype == "" || qname == "" then Malformed
      else Events([DnsEvent(time, client.ip, client.port, qname, qtype, "", 0, false)])
  }

  function RecordEvent(rr: string, qname: string, time: int, client: Endpoint, env: Env): seq<DnsEvent> {
    var f := Fields(rr);
    if |f| >= 3 && Matches(f[1], env.family(f[2]))
    then [DnsEvent(time, client.ip, client.port, qname, f[1], f[2], 0, true)] else []
  }

  function RecordEvents(rrs: seq<string>, qname: string, time: int, client: Endpoint, env: Env): seq<DnsEvent> {
    if rrs == [] then []
    else
      RecordEvents(rrs[..|rrs| - 1], qname, time, client, env) +
      RecordEvent(rrs[|rrs| - 1], qname, time, client, env)
  }

  function StripLength(payload: string): string {
    var i := FindLast(payload, " (");
    if i >= 0 then payload[..i] else payload
  }

  /** The events of a record list: one per address, or one naming the first record's type. */
  function SectionEvents(section: string, time: int, client: Endpoint, env: Env): seq<DnsEvent> {
    if section == "" then []
    else
      var rrs := SplitAt(section, ", ");
      var first := Fields(rrs[0]);
      if |first| < 2 || NormalizeHost(first[0]) == "" then []
      else
        var qname := NormalizeHost(first[0]);
        var events := RecordEvents(rrs, qname, time, client, env);
        if events == [] then [DnsEvent(time, client.ip, client.port, qname, first[1], "", 0, false)] else events
  }

  function ResponseEvents(payload: string, time: int, client: Endpoint, env: Env): seq<DnsEvent> {
    match FindCounts(StripLength(payload))
    case None => []
    case Some(c) => if c.zero then [] else SectionEvents(TrimSpace(c.rest), time, client, env)
  }

  function PayloadEvents(s: string, time: int, env: Env): Outcome {
    match SplitPacket(s)
    case None => NOTHING
    case Some(p) =>
      var client := ClientOf(p);
      if !IsDns(p) || (env.resolver != "" && client.ip == env.resolver) then NOTHING
      else if IsQuery(p) then QueryEvents(p.payload, time, client)
      else Events(ResponseEvents(p.payload, time, client, env))
  }

  // ---------------------------------------------------------------- one line

  /** `baseDate` is midnight of the day the next packet is taken to belong to. */
  datatype State = State(baseDate: int, havePrev: bool, prevTod: int, pending: bool, pendingTime: int)

  predicate IsUdp(line: string) {
    Contains(line, "proto UDP") || Contains(line, "next-header UDP")
  }

  function Header(s: State, tod: int, udp: bool): State {
    var date := if s.havePrev && s.prevTod - tod > HALF_DAY then s.baseDate + DAY else s.baseDate;
    State(date, true, tod, udp, if udp then date + tod else s.pendingTime)
  }

  function Feed(s: State, line: string, env: Env): (State, Outcome) {
    if line == "" then (s, NOTHING)
    else if IsIndented(line) then
      if s.pending then (s.(pending := false), PayloadEvents(TrimIndent(line), s.pendingTime, env)) else (s, NOTHING)
    else match Tod(Before(line, ' '))
      case None => (s.(pending := false), NOTHING)
      case Some(tod) => (Header(s, tod, IsUdp(line)), NOTHING)
  }

  class Reader {
    var baseDate: int
    var havePrev: bool
    var prevTod: int
    var pending: bool
    var pendingTime: int

    ghost function Model(): State
      reads this
    {
      State(baseDate, havePrev, prevTod, pending, pendingTime)
    }

    constructor (midnight: int)
      ensures Model() == State(midnight, false, 0, false, 0)
    {
      baseDate, havePrev, prevTod, pending, pendingTime := midnight, false, 0, false, 0;
    }

    method FeedLine(line: string, env: Env) returns (outcome: Outcome)
      modifies this
      ensures (Model(), outcome) == Feed(old(Model()), line, env)
    {
      if line == "" {
        return NOTHING;
      }
      if line[0] == ' ' || line[0] == '\t' {
        if !pending {
          return NOTHING;
        }
        pending := false;
        outcome := ParsePayload(TrimIndent(line), pendingTime, env);
        return;
      }
      FeedHeader(line);
      return NOTHING;
    }

    /** An unindented line: a header if it starts with a time of day. */
    method FeedHeader(line: string)
      modifies this
      ensures Model() == match Tod(Before(line, ' '))
                         case None => old(Model()).(pending := false)
                         case Some(tod) => Header(old(Model()), tod, IsUdp(line))
    {
      var tok := line;
      var sp := Index(line, ' ');
      if sp >= 0 {
        tok := line[..sp];
      }
      assert tok == Before(line, ' ');
      var tod := ParseTod(tok);
      if tod.None? {
        pending := false;
        return;
      }
      if havePrev && prevTod - tod.value > HALF_DAY {
        baseDate := baseDate + DAY;
      }
      prevTod := tod.value;
      havePrev := true;
      if Contains(line, "proto UDP") || Contains(line, "next-header UDP") {
        pending := true;
        pendingTime := baseDate + tod.value;
      } else {
        pending := false;
      }
    }
  }

  /** Decides the direction by the port, the client by the direction, and parses accordingly. */
  method ParsePayload(s: string, time: int, env: Env) returns (outcome: Outcome)
    ensures outcome == PayloadEvents(s, time, env)
  {
    var packet := SplitPacket(s);
    if packet.None? {
      return NOTHING;
    }
    var p := packet.value;
    var isQuery, client := false, p.dst;
    if p.dst.port == 53 && p.src.port == 53 {
      isQuery := HasQueryMarker(p.payload);
      if isQuery {
        client := p.src;
      }
    } else if p.dst.port == 53 {
      isQuery, client := true, p.src;
    } else if p.src.port == 53 {
      client := p.dst;
    } else {
      return NOTHING;
    }
    if env.resolver != "" && client.ip == env.resolver {
      return NOTHING;
    }
    if isQuery {
      outcome := ParseQuery(p.payload, time, client);
    } else {
      var events := ParseResponse(p.payload, time, client, env);
      outcome := Events(events);
    }
  }

  method ParseQuery(payload: string, time: int, client: Endpoint) returns (outcome: Outcome)
    ensures outcome == QueryEvents(payload, time, client)
  {
    var fields := Fields(payload);
    var q := 1;
    while q < |fields| && !HasSuffix(fields[q], "?")
      invariant 1 <= q
      invariant Marker(fields, 1) == Marker(fields, q)
    {
      q := q + 1;
    }
    if q + 1 >= |fields| {
      return Malformed;
    }
    var qtype, qname := fields[q][..|fields[q]| - 1], NormalizeHost(fields[q + 1]);
    if qtype == "" || qname == "" {
      return Malformed;
    }
    return Events([DnsEvent(time, client.ip, client.port, qname, qtype, "", 0, false)]);
  }

  method ParseResponse(payload: string, time: int, client: Endpoint, env: Env) returns (events: seq<DnsEvent>)
    ensures events == ResponseEvents(payload, time, client, env)
  {
    var counts := FindCounts(StripLength(payload));
    if counts.None? {
      return [];
    }
    var section := TrimSpace(counts.value.rest);
    if counts.value.zero || section == "" {
      return [];
    }
    var rrs := SplitAt(section, ", ");
    var first := Fields(rrs[0]);
    if |first| < 2 {
      return [];
    }
    var qname := NormalizeHost(first[0]);
    if qname == "" {
      return [];
    }
    events := CollectAnswers(rrs, qname, time, client, env);
    if |events| == 0 {
      events := [DnsEvent(time, client.ip, client.port, qname, first[1], "", 0, false)];
    }
  }

  method CollectAnswers(rrs: seq<string>, qname: string, time: int, client: Endpoint, env: Env)
      returns (events: seq<DnsEvent>)
    ensures events == RecordEvents(rrs, qname, time, client, env)
  {
    events := [];
    for i := 0 to |rrs|
      invariant events == RecordEvents(rrs[..i], qname, time, client, env)
    {
      assert rrs[..i + 1][..i] == rrs[..i];
      var f := Fields(rrs[i]);
      if |f| >= 3 && (f[1] == "A" || f[1] == "AAAA") {
        var ip := env.family(f[2]);
        if ip.Some? && (f[1] == "A" ==> ip.value == V4) && (f[1] == "AAAA" ==> ip.value != V4) {
          events := events + [DnsEvent(time, client.ip, client.port, qname, f[1], f[2], 0, true)];
        }
      }
    }
    assert rrs[..|rrs|] == rrs;
  }
}
