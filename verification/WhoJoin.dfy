/**
 The who-mode join: DNS candidates, then the leases of their addresses, then the
 sessions of the devices found, each read through a widened time window.
 The reference is the same two-hop question put to the whole history.
 */
module WhoJoin {
  import opened Evidence
  import opened IdentityJoin
  import opened Text

  datatype DnsRow = DnsRow(clientIp: string, qname: string, answerIp: string, time: int)

  /** What is traced: a name with its subdomains, or an answered address. */
  datatype Target = Name(qname: string) | Address(ip: string)

  /** One candidate resolution: who asked for what, how often, and when it was first and last seen. */
  datatype Candidate = Candidate(clientIp: string, qname: string, answerIp: string, resolutions: nat,
                                 firstSeen: int, lastSeen: int)

  datatype WhoRow = WhoRow(candidate: Candidate, device: Answer, user: Answer)

  // ---------------------------------------------------------------- the reference: no window, no key selection

  ghost function Attribution(leases: seq<DhcpEvent>, sessions: seq<RadiusEvent>, c: Candidate,
                             maxLease: int, maxSession: int): WhoRow {
    WhoRow(c, DeviceAt(leases, c.clientIp, c.lastSeen, maxLease),
           UserBehind(leases, sessions, c.clientIp, c.lastSeen, maxLease, maxSession))
  }

  // ---------------------------------------------------------------- the candidates

  predicate Wanted(r: DnsRow, target: Target, from: int, to: int) {
    && from <= r.time <= to
    && match target
       case Name(qname) => r.qname == qname || HasSuffix(r.qname, "." + qname)
       case Address(ip) => r.answerIp == ip
  }

  predicate SameGroup(r: DnsRow, c: Candidate) {
    r.clientIp == c.clientIp && r.qname == c.qname && r.answerIp == c.answerIp
  }

  /** The wanted rows of c's group. */
  function Resolutions(c: Candidate, rows: seq<DnsRow>, target: Target, from: int, to: int): nat {
    if rows == [] then 0
    else
      var r := rows[|rows| - 1];
      Resolutions(c, rows[..|rows| - 1], target, from, to) +
      if Wanted(r, target, from, to) && SameGroup(r, c) then 1 else 0
  }

  /** c counts all wanted rows of its group, and names the earliest and the latest of them. */
  ghost predicate Summarises(c: Candidate, rows: seq<DnsRow>, target: Target, from: int, to: int) {
    && DnsRow(c.clientIp, c.qname, c.answerIp, c.firstSeen) in rows
    && DnsRow(c.clientIp, c.qname, c.answerIp, c.lastSeen) in rows
    && Wanted(DnsRow(c.clientIp, c.qname, c.answerIp, c.firstSeen), target, from, to)
    && Wanted(DnsRow(c.clientIp, c.qname, c.answerIp, c.lastSeen), target, from, to)
    && (forall r | r in rows && Wanted(r, target, from, to) && SameGroup(r, c) :: c.firstSeen <= r.time <= c.lastSeen)
    && c.resolutions == Resolutions(c, rows, target, from, to)
  }

  ghost predicate HasGroup(cands: seq<Candidate>, r: DnsRow) {
    exists i | 0 <= i < |cands| :: SameGroup(r, cands[i])
  }

  /** No two candidates stand for the same group. */
  ghost predicate OnePerGroup(cands: seq<Candidate>) {
    forall i, j | 0 <= i < j < |cands| :: !SameCandidate(cands[i], cands[j])
  }

  predicate SameCandidate(c: Candidate, d: Candidate) {
    c.clientIp == d.clientIp && c.qname == d.qname && c.answerIp == d.answerIp
  }

  /** The candidates are the groups of the wanted rows. */
  ghost predicate Grouped(cands: seq<Candidate>, rows: seq<DnsRow>, target: Target, from: int, to: int) {
    && (forall i | 0 <= i < |cands| :: Summarises(cands[i], rows, target, from, to))
    && Covers(cands, rows, target, from, to)
  }

  ghost predicate Covers(cands: seq<Candidate>, rows: seq<DnsRow>, target: Target, from: int, to: int) {
    forall r | r in rows && Wanted(r, target, from, to) :: HasGroup(cands, r)
  }

  ghost predicate InWindow(cands: seq<Candidate>, from: int, to: int) {
    forall c | c in cands :: from <= c.lastSeen <= to
  }

  /** By client, then by when it was last seen. */
  predicate NotAfter(c: Candidate, d: Candidate) {
    if c.clientIp == d.clientIp then c.lastSeen <= d.lastSeen else StringLe(c.clientIp, d.clientIp)
  }

  predicate Ranked(cands: seq<Candidate>) {
    forall i, j | 0 <= i < j < |cands| :: NotAfter(cands[i], cands[j])
  }

  /** The answer to query 1: the groups of the wanted rows in order, of which the limit keeps the first. */
  ghost predicate AreCandidates(cands: seq<Candidate>, table: seq<DnsRow>, target: Target, from: int, to: int,
                                limit: nat) {
    exists all ::
      Grouped(all, table, target, from, to) && OnePerGroup(all) && Ranked(all) && IsPrefix(cands, all, limit)
  }

  predicate IsPrefix(cands: seq<Candidate>, all: seq<Candidate>, limit: nat) {
    cands == if |all| > limit then all[..limit] else all
  }

  /** What the limit leaves are groups inside the window, and all of them unless it cut. */
  lemma LimitKeepsGroups(cands: seq<Candidate>, table: seq<DnsRow>, target: Target, from: int, to: int, limit: nat)
    requires AreCandidates(cands, table, target, from, to, limit)
    ensures |cands| <= limit && OnePerGroup(cands) && InWindow(cands, from, to)
    ensures forall i | 0 <= i < |cands| :: Summarises(cands[i], table, target, from, to)
    ensures |cands| < limit ==> Grouped(cands, table, target, from, to)
  {
    var all :| Grouped(all, table, target, from, to) && OnePerGroup(all) && Ranked(all) && IsPrefix(cands, all, limit);
    PrefixKeepsGroups(all, cands, table, target, from, to, limit);
  }

  lemma PrefixKeepsGroups(all: seq<Candidate>, cands: seq<Candidate>, table: seq<DnsRow>, target: Target,
                          from: int, to: int, limit: nat)
    requires Grouped(all, table, target, from, to) && OnePerGroup(all) && IsPrefix(cands, all, limit)
    ensures |cands| <= limit && OnePerGroup(cands) && InWindow(cands, from, to)
    ensures forall i | 0 <= i < |cands| :: Summarises(cands[i], table, target, from, to)
    ensures |cands| < limit ==> Grouped(cands, table, target, from, to)
  {
    FirstGroups(all, cands, table, target, from, to);
  }

  lemma FirstGroups(all: seq<Candidate>, cands: seq<Candidate>, table: seq<DnsRow>, target: Target, from: int, to: int)
    requires OnePerGroup(all) && cands <= all
    requires forall i | 0 <= i < |all| :: Summarises(all[i], table, target, from, to)
    ensures OnePerGroup(cands) && InWindow(cands, from, to)
    ensures forall i | 0 <= i < |cands| :: Summarises(cands[i], table, target, from, to)
  {
    forall i | 0 <= i < |cands| ensures cands[i] == all[i] {
    }
    forall c | c in cands ensures from <= c.lastSeen <= to {
      var i :| 0 <= i < |cands| && cands[i] == c;
      assert Summarises(all[i], table, target, from, to);
    }
  }

  predicate LeaseSelected(e: DhcpEvent, ips: set<string>, lo: int, hi: int) {
    e.ip in ips && lo <= e.time <= hi
  }

  predicate SessionSelected(e: RadiusEvent, macs: set<string>, lo: int, hi: int) {
    e.mac in macs && lo <= e.time <= hi
  }

  /** The three queries, as the database answers them. */
  datatype Database = Database(candidates: (Target, int, int, nat) -> seq<Candidate>,
                               leases: (set<string>, int, int) -> seq<DhcpEvent>,
                               sessions: (set<string>, int, int) -> seq<RadiusEvent>)

  /** Query 2 returns exactly the selected rows; their order is not part of the contract. */
  ghost predicate AnswersLeases(db: Database, table: seq<DhcpEvent>) {
    forall ips, lo, hi, e :: e in db.leases(ips, lo, hi) <==> e in table && LeaseSelected(e, ips, lo, hi)
  }

  /** Likewise query 3. */
  ghost predicate AnswersSessions(db: Database, table: seq<RadiusEvent>) {
    forall macs, lo, hi, e :: e in db.sessions(macs, lo, hi) <==> e in table && SessionSelected(e, macs, lo, hi)
  }

  // ---------------------------------------------------------------- truncation changes no verdict

  lemma TruncatedLeases(table: seq<DhcpEvent>, rows: seq<DhcpEvent>, ips: set<string>, ip: string,
                        t: int, maxLease: int, from: int, to: int)
    requires forall e :: e in rows <==> e in table && LeaseSelected(e, ips, from - maxLease, to)
    requires ip in ips && from <= t <= to
    ensures Holders(LeaseFacts(rows, ip), t, maxLease) == Holders(LeaseFacts(table, ip), t, maxLease)
  {
  }

  lemma TruncatedSessions(table: seq<RadiusEvent>, rows: seq<RadiusEvent>, macs: set<string>, mac: string,
                          t: int, maxSession: int, from: int, to: int)
    requires forall e :: e in rows <==> e in table && SessionSelected(e, macs, from - maxSession, to)
    requires mac in macs && from <= t <= to
    ensures Holders(SessionFacts(rows, mac), t, maxSession) == Holders(SessionFacts(table, mac), t, maxSession)
  {
  }

  /** Whatever order and multiplicity the rows come in, both hops answer the same. */
  lemma EvidenceIsASet(a: seq<DhcpEvent>, b: seq<DhcpEvent>, x: seq<RadiusEvent>, y: seq<RadiusEvent>,
                       c: Candidate, maxLease: int, maxSession: int)
    requires forall e :: e in a <==> e in b
    requires forall e :: e in x <==> e in y
    ensures Attribution(a, x, c, maxLease, maxSession) == Attribution(b, y, c, maxLease, maxSession)
  {
    assert LeaseFacts(a, c.clientIp) == LeaseFacts(b, c.clientIp);
    var device := DeviceAt(a, c.clientIp, c.lastSeen, maxLease);
    assert SessionFacts(x, device.token) == SessionFacts(y, device.token);
  }

  // ---------------------------------------------------------------- the join

  method ClientIps(cands: seq<Candidate>) returns (ips: set<string>)
    ensures forall c | c in cands :: c.clientIp in ips
  {
    ips := {};
    for i := 0 to |cands|
      invariant forall k | 0 <= k < i :: cands[k].clientIp in ips
    {
      ips := ips + {cands[i].clientIp};
    }
  }

  /** Reduces one candidate's device from the truncated leases. */
  method ResolveDevice(c: Candidate, dhcp: seq<DhcpEvent>, maxLease: int, ghost leases: seq<DhcpEvent>,
                       ghost ips: set<string>, ghost from: int, ghost to: int) returns (device: Answer)
    requires from <= c.lastSeen <= to && c.clientIp in ips
    requires forall e :: e in dhcp <==> e in leases && LeaseSelected(e, ips, from - maxLease, to)
    ensures device == DeviceAt(leases, c.clientIp, c.lastSeen, maxLease)
  {
    var mac, ambiguous := DhcpBindingAt(dhcp, c.clientIp, c.lastSeen, maxLease);
    TruncatedLeases(leases, dhcp, ips, c.clientIp, c.lastSeen, maxLease, from, to);
    return Answer(mac, ambiguous);
  }

  /** Reduces each candidate's device, and collects the devices found. */
  method ResolveDevices(db: Database, cands: seq<Candidate>, ghost leases: seq<DhcpEvent>, from: int, to: int,
                        maxLease: int)
      returns (devices: seq<Answer>, macs: set<string>)
    requires InWindow(cands, from, to) && AnswersLeases(db, leases)
    ensures |devices| == |cands|
    ensures forall i | 0 <= i < |cands| ::
              devices[i] == DeviceAt(leases, cands[i].clientIp, cands[i].lastSeen, maxLease)
    ensures forall d | d in devices && d.token != "" :: d.token in macs
  {
    var ips := ClientIps(cands);
    var dhcp := db.leases(ips, from - maxLease, to);
    devices, macs := [], {};
    for i := 0 to |cands|
      invariant |devices| == i
      invariant forall k | 0 <= k < i :: devices[k] == DeviceAt(leases, cands[k].clientIp, cands[k].lastSeen, maxLease)
      invariant forall d | d in devices && d.token != "" :: d.token in macs
    {
      var device := ResolveDevice(cands[i], dhcp, maxLease, leases, ips, from, to);
      devices := devices + [device];
      if device.token != "" {
        macs := macs + {device.token};
      }
    }
  }

  /** Reduces one candidate's user; an unknown or ambiguous device is not asked about. */
  method ResolveUser(c: Candidate, device: Answer, rad: seq<RadiusEvent>, maxSession: int,
                     ghost leases: seq<DhcpEvent>, ghost sessions: seq<RadiusEvent>, ghost macs: set<string>,
                     ghost from: int, ghost to: int, ghost maxLease: int) returns (row: WhoRow)
    requires from <= c.lastSeen <= to
    requires device == DeviceAt(leases, c.clientIp, c.lastSeen, maxLease)
    requires device.token != "" ==> device.token in macs
    requires macs != {} ==> forall e :: e in rad <==> e in sessions && SessionSelected(e, macs, from - maxSession, to)
    ensures row == Attribution(leases, sessions, c, maxLease, maxSession)
    ensures row.device.ambiguous ==> row.user == UNKNOWN
  {
    if device.token == "" || device.ambiguous {
      return WhoRow(c, device, UNKNOWN);
    }
    var token, ambiguous := RadiusBindingAt(rad, device.token, c.lastSeen, maxSession);
    TruncatedSessions(sessions, rad, macs, device.token, c.lastSeen, maxSession, from, to);
    return WhoRow(c, device, Answer(token, ambiguous));
  }

  /** Attributes every candidate. */
  method Attribute(db: Database, cands: seq<Candidate>, ghost leases: seq<DhcpEvent>, ghost sessions: seq<RadiusEvent>,
                   from: int, to: int, maxLease: int, maxSession: int) returns (rows: seq<WhoRow>)
    requires InWindow(cands, from, to) && AnswersLeases(db, leases) && AnswersSessions(db, sessions)
    ensures |rows| == |cands|
    ensures forall i | 0 <= i < |cands| ::
              rows[i] == Attribution(leases, sessions, cands[i], maxLease, maxSession)
    ensures forall i | 0 <= i < |rows| && rows[i].device.ambiguous :: rows[i].user == UNKNOWN
  {
    var devices, macs := ResolveDevices(db, cands, leases, from, to, maxLease);
    var rad := [];
    if macs != {} {
      rad := db.sessions(macs, from - maxSession, to);
    }
    rows := [];
    for i := 0 to |cands|
      invariant |rows| == i
      invariant forall k | 0 <= k < i ::
                  rows[k] == Attribution(leases, sessions, cands[k], maxLease, maxSession)
    {
      var row := ResolveUser(cands[i], devices[i], rad, maxSession, leases, sessions, macs, from, to, maxLease);
      rows := rows + [row];
    }
    forall i | 0 <= i < |rows| && rows[i].device.ambiguous ensures rows[i].user == UNKNOWN {
      AmbiguousHasNoUser(leases, sessions, cands[i], maxLease, maxSession);
    }
  }

  lemma AmbiguousHasNoUser(leases: seq<DhcpEvent>, sessions: seq<RadiusEvent>, c: Candidate,
                           maxLease: int, maxSession: int)
    ensures var row := Attribution(leases, sessions, c, maxLease, maxSession);
            row.device.ambiguous ==> row.user == UNKNOWN
  {
  }

  /** The whole who mode: DNS candidates, then leases, then sessions. */
  method RunWho(db: Database, ghost dns: seq<DnsRow>, ghost leases: seq<DhcpEvent>, ghost sessions: seq<RadiusEvent>,
                target: Target, from: int, to: int, limit: nat, maxLease: int, maxSession: int)
      returns (cands: seq<Candidate>, rows: seq<WhoRow>)
    requires AreCandidates(db.candidates(target, from, to, limit), dns, target, from, to, limit)
    requires AnswersLeases(db, leases) && AnswersSessions(db, sessions)
    ensures AreCandidates(cands, dns, target, from, to, limit)
    ensures |rows| == |cands| <= limit && OnePerGroup(cands)
    ensures forall i | 0 <= i < |rows| ::
              && Summarises(cands[i], dns, target, from, to)
              && rows[i] == Attribution(leases, sessions, cands[i], maxLease, maxSession)
    ensures forall i | 0 <= i < |rows| && rows[i].device.ambiguous :: rows[i].user == UNKNOWN
    ensures |cands| < limit ==> Grouped(cands, dns, target, from, to)
  {
    cands := db.candidates(target, from, to, limit);
    LimitKeepsGroups(cands, dns, target, from, to, limit);
    rows := Attribute(db, cands, leases, sessions, from, to, maxLease, maxSession);
  }
}
