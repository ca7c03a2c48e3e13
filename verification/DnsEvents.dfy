/** What every DNS log format is turned into; times are nanoseconds. */
module DnsEvents {
  import opened Text

  const SECOND := 1_000_000_000

  datatype DnsEvent = DnsEvent(time: int, client: string, port: nat, qname: string, qtype: string,
                               answer: string, ttl: nat, ttlUnknown: bool)

  /** What one fed line yields: events, none of them if it is skipped, or one counted parse error. */
  datatype Outcome = Events(events: seq<DnsEvent>) | Malformed

  const NOTHING := Events([])

  datatype Family = V4 | V6

  /** An A record needs an IPv4 literal, an AAAA record any other. */
  predicate Matches(rtype: string, family: Option<Family>) {
    (rtype == "A" && family == Some(V4)) || (rtype == "AAAA" && family == Some(V6))
  }
}
