/**
 DNS packets as tcpdump prints them, and the parser as the inverse of that printer:
 first one payload, then one packet line, then a whole capture with its dates.
 */
module TcpdumpPrint {
  import opened DnsEvents
  import opened Tcpdump
  import opened TcpdumpDates
  import opened Text

  // ---------------------------------------------------------------- layout

  /** A resource record as one list element: owner, type and the words of its data. */
  datatype Record = Record(owner: string, rtype: string, rdata: seq<string>)

  /**
   A question: transaction id, bracketed flags, type and name.  A reply: id and status
   words, the three counts, the records.
   */
  datatype Dns =
    | Question(id: string, flags: seq<string>, qtype: string, qname: string, length: nat)
    | Reply(status: seq<string>, an: nat, ns: nat, ar: nat, records: seq<Record>, length: nat)

  datatype Printed = Printed(src: Endpoint, dst: Endpoint, dns: Dns)

  function Length(n: nat): string {
    "(" + Decimal(n) + ")"
  }

  /** The length at the end of a reply. */
  function Suffix(n: nat): string {
    " " + Length(n)
  }

  function QuestionWords(d: Dns): seq<string>
    requires d.Question?
  {
    [d.id] + d.flags + [d.qtype + "?"] + [d.qname] + [Length(d.length)]
  }

  function RecordText(r: Record): string {
    Join([r.owner, r.rtype] + r.rdata)
  }

  function Texts(rs: seq<Record>): seq<string> {
    seq(|rs|, i requires 0 <= i < |rs| => RecordText(rs[i]))
  }

  /** The texts with a comma and a blank between them. */
  function Listed(texts: seq<string>): string {
    if texts == [] then ""
    else if |texts| == 1 then texts[0]
    else texts[0] + ", " + Listed(texts[1..])
  }

  /** A slash and a count in front of what follows. */
  function Slashed(n: nat, rest: string): string {
    "/" + Decimal(n) + rest
  }

  function WithCounts(an: nat, ns: nat, ar: nat, rest: string): string {
    Decimal(an) + Slashed(ns, Slashed(ar, rest))
  }

  function Section(d: Dns): string
    requires d.Reply?
  {
    if d.records == [] then "" else " " + Listed(Texts(d.records))
  }

  function PrintDns(d: Dns): string {
    match d
    case Question(_, _, _, _, _) => Join(QuestionWords(d))
    case Reply(status, an, ns, ar, _, length) =>
      Join(status) + " " + WithCounts(an, ns, ar, Section(d)) + Suffix(length)
  }

  function PrintEndpoint(e: Endpoint): string {
    e.ip + "." + Decimal(e.port)
  }

  function PrintPacket(p: Printed): string {
    PrintEndpoint(p.src) + " > " + (PrintEndpoint(p.dst) + ": " + PrintDns(p.dns))
  }

  // ---------------------------------------------------------------- what may be printed

  predicate StatusWord(w: string) {
    IsWord(w) && forall i | 0 <= i < |w| :: w[i] != '/'
  }

  /** A word that cannot be taken for the end of a list element. */
  predicate Element(w: string) {
    IsWord(w) && w[|w| - 1] != ','
  }

  predicate WellFormedRecord(r: Record) {
    Element(r.owner) && Element(r.rtype) && forall w | w in r.rdata :: Element(w)
  }

  predicate WellFormedDns(d: Dns) {
    match d
    case Question(id, flags, qtype, qname, _) =>
      IsWord(id) && IsWord(qtype) && IsWord(qname) && forall w | w in flags :: IsWord(w) && !HasSuffix(w, "?")
    case Reply(status, _, _, _, records, _) =>
      status != [] && (forall w | w in status :: StatusWord(w)) && forall r | r in records :: WellFormedRecord(r)
  }

  /** A question goes to port 53, a reply comes from it; between two such ports a reply asks nothing. */
  predicate WellFormedPacket(p: Printed) {
    && IsWord(p.src.ip) && IsWord(p.dst.ip) && p.src.port < 0x1_0000 && p.dst.port < 0x1_0000
    && WellFormedDns(p.dns)
    && (p.dns.Question? ==> p.dst.port == 53)
    && (p.dns.Reply? ==> p.src.port == 53 && (p.dst.port == 53 ==> '?' !in PrintDns(p.dns)))
  }

  // ---------------------------------------------------------------- what a packet means

  /** One event per address record of the right family, named after the question. */
  function Addresses(rs: seq<Record>, qname: string, time: int, client: Endpoint, env: Env): seq<DnsEvent> {
    if rs == [] then []
    else
      var r := rs[|rs| - 1];
      Addresses(rs[..|rs| - 1], qname, time, client, env) +
      if r.rdata != [] && Matches(r.rtype, env.family(r.rdata[0]))
      then [DnsEvent(time, client.ip, client.port, qname, r.rtype, r.rdata[0], 0, true)] else []
  }

  /** What a record list means. */
  function ListMeaning(records: seq<Record>, time: int, client: Endpoint, env: Env): seq<DnsEvent>
    requires records != []
  {
    var qname := NormalizeHost(records[0].owner);
    var addresses := Addresses(records, qname, time, client, env);
    if records[0].owner == "." then []
    else if addresses != [] then addresses
    else [DnsEvent(time, client.ip, client.port, qname, records[0].rtype, "", 0, false)]
  }

  /** A question is one event; a reply one event per address, or one without an address, or none. */
  function DnsMeaning(d: Dns, time: int, client: Endpoint, env: Env): Outcome {
    match d
    case Question(_, _, qtype, qname, _) =>
      if qname == "." then Malformed
      else Events([DnsEvent(time, client.ip, client.port, NormalizeHost(qname), qtype, "", 0, false)])
    case Reply(_, an, _, _, records, _) =>
      if an == 0 || records == [] then NOTHING else Events(ListMeaning(records, time, client, env))
  }

  function Client(p: Printed): Endpoint {
    if p.dns.Question? then p.src else p.dst
  }

  function Meaning(p: Printed, time: int, env: Env): Outcome {
    if env.resolver != "" && Client(p).ip == env.resolver then NOTHING
    else DnsMeaning(p.dns, time, Client(p), env)
  }

  // ---------------------------------------------------------------- questions

  lemma {:induction false} MarkerIs(fields: seq<string>, i: nat, q: nat)
    requires i <= q < |fields| && HasSuffix(fields[q], "?")
    requires forall k | i <= k < q :: !HasSuffix(fields[k], "?")
    ensures Marker(fields, i) == q
    decreases q - i
  {
    if i < q {
      MarkerIs(fields, i + 1, q);
    }
  }

  lemma QuestionWordsAreWords(d: Dns)
    requires d.Question? && WellFormedDns(d)
    ensures forall w | w in QuestionWords(d) :: IsWord(w)
  {
    DecimalRoundTrip(d.length);
    assert IsWord(Length(d.length));
    assert IsWord(d.qtype + "?");
  }

  /** The parser inverts the printer of questions: one event, or an error for the root zone. */
  lemma QuestionRoundTrip(d: Dns, time: int, client: Endpoint, env: Env)
    requires d.Question? && WellFormedDns(d)
    ensures QueryEvents(PrintDns(d), time, client) == DnsMeaning(d, time, client, env)
  {
    var words := QuestionWords(d);
    var q := 1 + |d.flags|;
    QuestionWordsAreWords(d);
    FieldsOfJoin(words);
    assert words[q] == d.qtype + "?" && words[q + 1] == d.qname;
    forall k | 1 <= k < q ensures !HasSuffix(words[k], "?") {
      assert words[k] == d.flags[k - 1];
    }
    assert words[q][|words[q]| - 1..] == "?";
    MarkerIs(words, 1, q);
    assert words[q][..|words[q]| - 1] == d.qtype;
    OnlyRootIsNameless(d.qname);
  }

  // ---------------------------------------------------------------- the frame of a reply

  lemma {:induction false} LastAfter(x: string, t: string)
    requires HasPrefix(t, " (") && FindLast(t[1..], " (") < 0
    ensures FindLast(x + t, " (") == |x|
  {
    if x == "" {
      assert x + t == t;
    } else {
      assert (x + t)[1..] == x[1..] + t;
      LastAfter(x[1..], t);
    }
  }

  lemma {:induction false} NoLength(s: string)
    requires forall k | 1 <= k < |s| :: s[k] != '('
    ensures FindLast(s, " (") < 0
  {
    if s != "" {
      NoLength(s[1..]);
      assert !HasPrefix(s, " (") by {
        assert " ("[1] == '(';
      }
    }
  }

  lemma OneLength(n: nat)
    ensures HasPrefix(Suffix(n), " (") && FindLast(Suffix(n)[1..], " (") < 0
  {
    DecimalRoundTrip(n);
    NoLength(Length(n));
    assert Suffix(n)[1..] == Length(n);
  }

  /** The trailing length is stripped and nothing else. */
  lemma LengthIsStripped(x: string, n: nat)
    ensures StripLength(x + Suffix(n)) == x
  {
    OneLength(n);
    LastAfter(x, Suffix(n));
  }

  lemma {:induction false} DigitRunIs(d: string, rest: string)
    requires AllDigits(d) && (rest == "" || !IsDigit(rest[0]))
    ensures DigitRun(d + rest) == d
  {
    if d == "" {
      assert d + rest == rest;
    } else {
      assert (d + rest)[1..] == d[1..] + rest;
      DigitRunIs(d[1..], rest);
    }
  }

  lemma PastIs(n: nat, rest: string)
    requires rest == "" || !IsDigit(rest[0])
    ensures Past(Slashed(n, rest), '/') == Some(rest)
  {
    DecimalRoundTrip(n);
    var s := Slashed(n, rest);
    assert s[1..] == Decimal(n) + rest;
    DigitRunIs(Decimal(n), rest);
    assert s[1 + |Decimal(n)|..] == rest;
  }

  lemma CountsHereIs(d: string, more: string, last: string, rest: string)
    requires d != "" && AllDigits(d) && more != "" && !IsDigit(more[0])
    requires Past(more, '/') == Some(last) && Past(last, '/') == Some(rest)
    ensures CountsHere(d + more) == Some(Counts(Number(d) == 0, rest))
  {
    DigitRunIs(d, more);
    assert (d + more)[|d|..] == more;
  }

  /** Printed counts read back: whether the first is zero, and what follows. */
  lemma CountsReadBack(an: nat, ns: nat, ar: nat, rest: string)
    requires rest == "" || !IsDigit(rest[0])
    ensures CountsHere(WithCounts(an, ns, ar, rest)) == Some(Counts(an == 0, rest))
  {
    DecimalRoundTrip(an);
    PastIs(ns, Slashed(ar, rest));
    PastIs(ar, rest);
    CountsHereIs(Decimal(an), Slashed(ns, Slashed(ar, rest)), Slashed(ar, rest), rest);
  }

  /** Text without a slash that does not end in a digit holds no counts, whatever follows. */
  lemma {:induction false} CountsAfter(h: string, s: string)
    requires forall i | 0 <= i < |h| :: h[i] != '/'
    requires h != "" ==> !IsDigit(h[|h| - 1])
    requires CountsHere(s).Some?
    ensures FindCounts(h + s) == CountsHere(s)
  {
    if h == "" {
      assert h + s == s;
    } else {
      NoCountsHere(h, s);
      assert (h + s)[1..] == h[1..] + s;
      CountsAfter(h[1..], s);
    }
  }

  lemma NoCountsHere(h: string, s: string)
    requires h != "" && !IsDigit(h[|h| - 1])
    requires forall i | 0 <= i < |h| :: h[i] != '/'
    ensures CountsHere(h + s).None?
  {
    var r := DigitRun(h + s);
    assert forall i | 0 <= i < |r| :: IsDigit((h + s)[i]);
    assert !IsDigit((h + s)[|h| - 1]);
    assert (h + s)[|r|..][0] == h[|r|];
  }

  lemma {:induction false} JoinHasNoSlash(words: seq<string>)
    requires forall w | w in words :: StatusWord(w)
    ensures forall i | 0 <= i < |Join(words)| :: Join(words)[i] != '/'
  {
    if words != [] {
      assert StatusWord(words[0]);
      JoinHasNoSlash(words[1..]);
    }
  }

  lemma CountsAfterStatus(status: seq<string>, an: nat, ns: nat, ar: nat, section: string)
    requires forall w | w in status :: StatusWord(w)
    requires section == "" || !IsDigit(section[0])
    ensures FindCounts(Join(status) + " " + WithCounts(an, ns, ar, section)) == Some(Counts(an == 0, section))
  {
    JoinHasNoSlash(status);
    CountsReadBack(an, ns, ar, section);
    CountsAfter(Join(status) + " ", WithCounts(an, ns, ar, section));
  }

  /** Of a printed reply the parser keeps whether it counts no answer, and the record list. */
  lemma ReplyFrame(d: Dns)
    requires d.Reply? && WellFormedDns(d)
    ensures FindCounts(StripLength(PrintDns(d))) == Some(Counts(d.an == 0, Section(d)))
  {
    var x := Join(d.status) + " " + WithCounts(d.an, d.ns, d.ar, Section(d));
    assert StripLength(PrintDns(d)) == x by {
      LengthIsStripped(x, d.length);
    }
    CountsAfterStatus(d.status, d.an, d.ns, d.ar, Section(d));
  }

  // ---------------------------------------------------------------- the records of a reply

  /** No ", " inside, and no comma at the end. */
  predicate NoComma(t: string) {
    && t != "" && t[|t| - 1] != ','
    && forall k | 0 <= k < |t| - 1 :: !(t[k] == ',' && t[k + 1] == ' ')
  }

  lemma {:induction false} JoinHasNoComma(words: seq<string>)
    requires words != [] && forall w | w in words :: Element(w)
    ensures NoComma(Join(words)) && Tight(Join(words))
  {
    var w := words[0];
    assert Element(w);
    if |words| > 1 {
      JoinHasNoComma(words[1..]);
      var j, rest := Join(words), Join(words[1..]);
      assert j == w + " " + rest;
      forall k | 0 <= k < |j| - 1 ensures !(j[k] == ',' && j[k + 1] == ' ') {
        if k > |w| {
          assert j[k] == rest[k - |w| - 1] && j[k + 1] == rest[k - |w|];
        }
      }
    }
  }

  lemma {:induction false} FindAfter(t: string, rest: string)
    requires t == "" || NoComma(t)
    ensures Find(t + ", " + rest, ", ") == |t|
  {
    var s := t + ", " + rest;
    if t == "" {
      assert s[..2] == ", ";
    } else {
      assert s[1..] == t[1..] + ", " + rest;
      assert !HasPrefix(s, ", ") by {
        assert s[0] == t[0] && s[1] == if |t| == 1 then ',' else t[1];
      }
      FindAfter(t[1..], rest);
    }
  }

  lemma {:induction false} FindNowhere(t: string)
    requires t == "" || NoComma(t)
    ensures Find(t, ", ") < 0
  {
    if t != "" {
      assert !HasPrefix(t, ", ") by {
        assert ", "[0] == ',' && ", "[1] == ' ';
      }
      FindNowhere(t[1..]);
    }
  }

  lemma SplitsFirst(t: string, rest: string)
    requires NoComma(t)
    ensures SplitAt(t + ", " + rest, ", ") == [t] + SplitAt(rest, ", ")
  {
    var s := t + ", " + rest;
    FindAfter(t, rest);
    assert s[..|t|] == t && s[|t| + 2..] == rest;
  }

  /** Splitting the list gives the elements back. */
  lemma {:induction false} ListReadsBack(texts: seq<string>)
    requires texts != [] && forall t | t in texts :: NoComma(t)
    ensures SplitAt(Listed(texts), ", ") == texts
  {
    var t := texts[0];
    assert NoComma(t);
    if |texts| == 1 {
      FindNowhere(t);
    } else {
      SplitsFirst(t, Listed(texts[1..]));
      ListReadsBack(texts[1..]);
    }
  }

  lemma {:induction false} ListIsTight(texts: seq<string>)
    requires texts != [] && forall t | t in texts :: NoComma(t) && Tight(t)
    ensures Tight(Listed(texts)) && Listed(texts) != ""
  {
    assert NoComma(texts[0]) && Tight(texts[0]);
    if |texts| > 1 {
      ListIsTight(texts[1..]);
    }
  }

  lemma RecordReadsBack(r: Record)
    requires WellFormedRecord(r)
    ensures Fields(RecordText(r)) == [r.owner, r.rtype] + r.rdata
    ensures NoComma(RecordText(r)) && Tight(RecordText(r))
  {
    FieldsOfJoin([r.owner, r.rtype] + r.rdata);
    JoinHasNoComma([r.owner, r.rtype] + r.rdata);
  }

  lemma {:induction false} RecordsAreAddresses(rs: seq<Record>, qname: string, time: int, client: Endpoint, env: Env)
    requires forall r | r in rs :: WellFormedRecord(r)
    ensures RecordEvents(Texts(rs), qname, time, client, env) == Addresses(rs, qname, time, client, env)
  {
    if rs != [] {
      var n := |rs| - 1;
      assert WellFormedRecord(rs[n]);
      RecordReadsBack(rs[n]);
      assert Texts(rs)[..n] == Texts(rs[..n]);
      RecordsAreAddresses(rs[..n], qname, time, client, env);
    }
  }

  lemma SectionReadsBack(d: Dns)
    requires d.Reply? && WellFormedDns(d) && d.records != []
    ensures TrimSpace(Section(d)) != ""
    ensures SplitAt(TrimSpace(Section(d)), ", ") == Texts(d.records)
  {
    var texts := Texts(d.records);
    forall t | t in texts ensures NoComma(t) && Tight(t) {
      var i :| 0 <= i < |texts| && texts[i] == t;
      assert d.records[i] in d.records;
      RecordReadsBack(d.records[i]);
    }
    ListIsTight(texts);
    TrimTight(Listed(texts));
    ListReadsBack(texts);
  }

  lemma SectionRoundTrip(section: string, records: seq<Record>, time: int, client: Endpoint, env: Env)
    requires records != [] && (forall r | r in records :: WellFormedRecord(r))
    requires section != "" && SplitAt(section, ", ") == Texts(records)
    ensures SectionEvents(section, time, client, env) == ListMeaning(records, time, client, env)
  {
    var first := records[0];
    assert first in records;
    RecordReadsBack(first);
    OnlyRootIsNameless(first.owner);
    RecordsAreAddresses(records, NormalizeHost(first.owner), time, client, env);
    assert Texts(records)[0] == RecordText(first);
    assert |Fields(Texts(records)[0])| >= 2;
  }

  /** The parser inverts the printer of replies. */
  lemma ReplyRoundTrip(d: Dns, time: int, client: Endpoint, env: Env)
    requires d.Reply? && WellFormedDns(d)
    ensures Events(ResponseEvents(PrintDns(d), time, client, env)) == DnsMeaning(d, time, client, env)
  {
    ReplyFrame(d);
    if d.records != [] {
      SectionReadsBack(d);
      SectionRoundTrip(TrimSpace(Section(d)), d.records, time, client, env);
    }
  }

  // ---------------------------------------------------------------- one packet line

  lemma {:induction false} LastDot(ip: string, digits: string)
    requires AllDigits(digits)
    ensures LastIndex(ip + "." + digits, '.') == |ip|
    decreases |digits|
  {
    var s := ip + "." + digits;
    if digits != "" {
      var n := |digits| - 1;
      assert s[..|s| - 1] == ip + "." + digits[..n];
      LastDot(ip, digits[..n]);
    }
  }

  lemma EndpointReadsBack(e: Endpoint)
    requires e.port < 0x1_0000
    ensures SplitIpPort(PrintEndpoint(e)) == Some(e)
  {
    DecimalRoundTrip(e.port);
    LastDot(e.ip, Decimal(e.port));
    var s := PrintEndpoint(e);
    assert s[|e.ip| + 1..] == Decimal(e.port) && s[..|e.ip|] == e.ip;
  }

  predicate NoSpace(s: string) {
    forall i | 0 <= i < |s| :: !IsSpace(s[i])
  }

  lemma EndpointHasNoSpace(e: Endpoint)
    requires IsWord(e.ip)
    ensures NoSpace(PrintEndpoint(e)) && PrintEndpoint(e) != "" && PrintEndpoint(e)[|PrintEndpoint(e)| - 1] != ':'
  {
    DecimalRoundTrip(e.port);
    var d := Decimal(e.port);
    assert forall i | 0 <= i < |d| :: IsDigit(d[i]);
    assert PrintEndpoint(e)[|PrintEndpoint(e)| - 1] == d[|d| - 1];
  }

  lemma {:induction false} ArrowAfter(t: string, rest: string)
    requires NoSpace(t)
    ensures Find(t + " > " + rest, " > ") == |t|
  {
    var s := t + " > " + rest;
    if t == "" {
      assert s[..3] == " > ";
    } else {
      assert s[1..] == t[1..] + " > " + rest;
      assert !HasPrefix(s, " > ") by {
        assert s[0] == t[0] && " > "[0] == ' ';
      }
      ArrowAfter(t[1..], rest);
    }
  }

  lemma {:induction false} ColonAfter(t: string, rest: string)
    requires NoSpace(t) && (t != "" ==> t[|t| - 1] != ':')
    ensures Find(t + ": " + rest, ": ") == |t|
  {
    var s := t + ": " + rest;
    if t == "" {
      assert s[..2] == ": ";
    } else {
      assert s[1..] == t[1..] + ": " + rest;
      assert !HasPrefix(s, ": ") by {
        assert s[0] == t[0] && s[1] == if |t| == 1 then ':' else t[1];
        assert ": "[0] == ':' && ": "[1] == ' ';
      }
      ColonAfter(t[1..], rest);
    }
  }

  /** The parser takes a printed packet apart into its endpoints and its payload. */
  lemma PacketReadsBack(p: Printed)
    requires WellFormedPacket(p)
    ensures SplitPacket(PrintPacket(p)) == Some(Packet(p.src, p.dst, PrintDns(p.dns)))
  {
    EndpointHasNoSpace(p.src);
    EndpointHasNoSpace(p.dst);
    EndpointReadsBack(p.src);
    EndpointReadsBack(p.dst);
    SplitsPacket(PrintEndpoint(p.src), PrintEndpoint(p.dst), PrintDns(p.dns));
  }

  lemma SplitsPacket(src: string, dst: string, payload: string)
    requires NoSpace(src) && NoSpace(dst) && (dst != "" ==> dst[|dst| - 1] != ':')
    requires SplitIpPort(src).Some? && SplitIpPort(dst).Some?
    ensures SplitPacket(src + " > " + (dst + ": " + payload)) ==
            Some(Packet(SplitIpPort(src).value, SplitIpPort(dst).value, payload))
  {
    var rest := dst + ": " + payload;
    var s := src + " > " + rest;
    ArrowAfter(src, rest);
    ColonAfter(dst, payload);
    assert s[..|src|] == src && s[|src| + 3..] == rest;
    assert rest[..|dst|] == dst && rest[|dst| + 2..] == payload;
  }

  lemma {:induction false} NoMarkInFields(word: string, s: string)
    requires '?' !in word && '?' !in s
    ensures forall f | f in FieldsFrom(word, s) :: '?' !in f
    decreases |s|
  {
    if s != "" {
      if IsSpace(s[0]) {
        NoMarkInFields("", s[1..]);
      } else {
        NoMarkInFields(word + [s[0]], s[1..]);
      }
    }
  }

  lemma NoMarkNoSuffix(f: string)
    requires '?' !in f
    ensures !HasSuffix(f, "?")
  {
    if f != "" {
      assert f[|f| - 1..] == [f[|f| - 1]];
    }
  }

  /** The direction the parser decides is the printed one. */
  lemma DirectionReadsBack(p: Printed)
    requires WellFormedPacket(p)
    ensures var q := Packet(p.src, p.dst, PrintDns(p.dns)); IsDns(q) && (IsQuery(q) <==> p.dns.Question?)
  {
    var d := p.dns;
    if d.Question? {
      var words := QuestionWords(d);
      QuestionWordsAreWords(d);
      FieldsOfJoin(words);
      var w := words[1 + |d.flags|];
      assert w == d.qtype + "?" && w in words;
      assert w[|w| - 1..] == "?";
    } else if p.dst.port == 53 {
      NoMarkInFields("", PrintDns(d));
      forall f | f in Fields(PrintDns(d)) ensures !HasSuffix(f, "?") {
        NoMarkNoSuffix(f);
      }
    }
  }

  /** A printed packet line yields exactly what the packet means. */
  lemma PacketRoundTrip(p: Printed, time: int, env: Env)
    requires WellFormedPacket(p)
    ensures PayloadEvents(PrintPacket(p), time, env) == Meaning(p, time, env)
  {
    PacketReadsBack(p);
    PayloadReadsBack(p.src, p.dst, p.dns, PrintDns(p.dns), time, env);
  }

  lemma PayloadReadsBack(src: Endpoint, dst: Endpoint, d: Dns, payload: string, time: int, env: Env)
    requires WellFormedPacket(Printed(src, dst, d)) && payload == PrintDns(d)
    ensures var q := Packet(src, dst, payload);
            && IsDns(q) && (IsQuery(q) <==> d.Question?)
            && (d.Question? ==> QueryEvents(payload, time, src) == DnsMeaning(d, time, src, env))
            && (d.Reply? ==> Events(ResponseEvents(payload, time, dst, env)) == DnsMeaning(d, time, dst, env))
  {
    DirectionReadsBack(Printed(src, dst, d));
    if d.Question? {
      QuestionRoundTrip(d, time, src, env);
    } else {
      ReplyRoundTrip(d, time, dst, env);
    }
  }

  // ---------------------------------------------------------------- a whole capture

  /** A captured DNS packet: when it was seen, the rest of its header, and its payload line. */
  datatype Shot = Shot(day: int, us: nat, rest: string, packet: Printed)

  function HeaderOf(s: Shot): Item {
    Captured(s.day, s.us, s.rest)
  }

  function PayloadOf(s: Shot): Item {
    Other("    " + PrintPacket(s.packet))
  }

  /** Header and payload line of every packet. */
  function Capture(shots: seq<Shot>): seq<Item> {
    if shots == [] then []
    else Capture(shots[..|shots| - 1]) + [HeaderOf(shots[|shots| - 1])] + [PayloadOf(shots[|shots| - 1])]
  }

  predicate WellFormedShot(s: Shot) {
    s.us < DAY_MICROS && IsUdp(LineOf(HeaderOf(s))) && WellFormedPacket(s.packet)
  }

  datatype Heard = Heard(events: seq<DnsEvent>, errors: nat)

  function Hear(h: Heard, o: Outcome): Heard {
    match o
    case Events(events) => Heard(h.events + events, h.errors)
    case Malformed => Heard(h.events, h.errors + 1)
  }

  /** What the parser emits for the lines of a capture. */
  function HearItems(midnight: int, items: seq<Item>, env: Env): Heard {
    if items == [] then Heard([], 0)
    else
      var init, last := items[..|items| - 1], items[|items| - 1];
      Hear(HearItems(midnight, init, env), Feed(FeedItems(midnight, init, env), LineOf(last), env).1)
  }

  /** What the packets mean, each at its true time. */
  function HearShots(midnight: int, shots: seq<Shot>, env: Env): Heard {
    if shots == [] then Heard([], 0)
    else
      var last := shots[|shots| - 1];
      Hear(HearShots(midnight, shots[..|shots| - 1], env),
           Meaning(last.packet, TrueTime(midnight, HeaderOf(last)), env))
  }

  lemma {:induction false} CaptureIsWellFormed(shots: seq<Shot>)
    requires forall s | s in shots :: WellFormedShot(s)
    ensures forall i | i in Capture(shots) :: WellFormed(i)
  {
    if shots != [] {
      assert WellFormedShot(shots[|shots| - 1]);
      CaptureIsWellFormed(shots[..|shots| - 1]);
    }
  }

  /** A pending packet's payload line yields its meaning at the pending time. */
  lemma PayloadLineRoundTrip(state: State, s: Shot, env: Env)
    requires WellFormedPacket(s.packet) && state.pending
    ensures Feed(state, LineOf(PayloadOf(s)), env) ==
            (state.(pending := false), Meaning(s.packet, state.pendingTime, env))
  {
    EndpointHasNoSpace(s.packet.src);
    TrimsIndent("    ", PrintPacket(s.packet));
    PacketRoundTrip(s.packet, state.pendingTime, env);
  }

  lemma HeaderIsSilent(state: State, i: Item, env: Env)
    requires i.Captured? && WellFormed(i)
    ensures Feed(state, LineOf(i), env).1 == NOTHING
  {
    HeaderToken(i.us, i.rest);
  }

  lemma HearOne(midnight: int, items: seq<Item>, i: Item, env: Env)
    ensures HearItems(midnight, items + [i], env) ==
            Hear(HearItems(midnight, items, env), Feed(FeedItems(midnight, items, env), LineOf(i), env).1)
  {
    assert (items + [i])[..|items|] == items;
  }

  /** Header and payload line together add the meaning of the packet. */
  lemma PacketIsHeard(midnight: int, items: seq<Item>, s: Shot, env: Env)
    requires WellFormedShot(s)
    requires var state := FeedItems(midnight, items + [HeaderOf(s)], env);
             state.pending && state.pendingTime == TrueTime(midnight, HeaderOf(s))
    ensures HearItems(midnight, items + [HeaderOf(s)] + [PayloadOf(s)], env) ==
            Hear(HearItems(midnight, items, env), Meaning(s.packet, TrueTime(midnight, HeaderOf(s)), env))
  {
    HearOne(midnight, items, HeaderOf(s), env);
    HearOne(midnight, items + [HeaderOf(s)], PayloadOf(s), env);
    HeaderIsSilent(FeedItems(midnight, items, env), HeaderOf(s), env);
    PayloadLineRoundTrip(FeedItems(midnight, items + [HeaderOf(s)], env), s, env);
    var h := HearItems(midnight, items, env);
    assert h.events + [] == h.events;
  }

  /**
   End to end: the events of a plausible capture are exactly those its packets mean, in
   order, each stamped with the packet's true date and time.
   */
  lemma {:induction false} CaptureRoundTrip(midnight: int, shots: seq<Shot>, env: Env)
    requires forall s | s in shots :: WellFormedShot(s)
    requires Plausible(Capture(shots))
    ensures HearItems(midnight, Capture(shots), env) == HearShots(midnight, shots, env)
  {
    if shots != [] {
      var n := |shots| - 1;
      var before, header, payload := Capture(shots[..n]), HeaderOf(shots[n]), PayloadOf(shots[n]);
      assert WellFormedShot(shots[n]);
      assert (before + [header] + [payload])[..|before| + 1] == before + [header];
      assert (before + [header])[..|before|] == before;
      CaptureRoundTrip(midnight, shots[..n], env);
      CaptureIsWellFormed(shots[..n]);
      PayloadsCarryTrueTime(midnight, before, header, env);
      PacketIsHeard(midnight, before, shots[n], env);
    }
  }
}
