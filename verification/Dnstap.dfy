/**
 The dnstap text parser: a line-at-a-time state machine over multi-line message
 blocks.  `Feed` is its transition function; class `Reader` is the parser itself.
 */
module Dnstap {
  import opened DnsEvents
  import opened Text

  /** What the parser asks of the standard library: RFC 3339 times and address literals. */
  datatype Env = Env(time: string -> Option<int>, family: string -> Option<Family>)

  /** The zero time, year 1, which the parser reads as "no timestamp yet". */
  const ZERO_TIME := -62_135_596_800 * SECOND

  datatype Section = NoSection | QuestionSection | AnswerSection

  datatype Answer = Answer(rtype: string, address: string, ttl: nat)

  datatype Parser = Parser(inBlock: bool, inLiteral: bool, kind: string, section: Section,
                           time: int, client: string, port: nat, qname: string, qtype: string,
                           answers: seq<Answer>)

  const IDLE := Parser(false, false, "", NoSection, ZERO_TIME, "", 0, "", "", [])
  const BEGUN := IDLE.(inBlock := true)

  // ---------------------------------------------------------------- pieces of a line

  /** Splits at the first colon; without one the whole line is the key. */
  function SplitField(s: string): (string, string) {
    var i := Index(s, ':');
    if i < 0 then (s, "") else (s[..i], TrimSpace(s[i + 1..]))
  }

  function WithTime(p: Parser, val: string, env: Env): Parser {
    match env.time(TrimSpace(TrimPrefix(val, "!!timestamp")))
    case Some(t) => p.(time := t)
    case None => p
  }

  function WithQuestion(p: Parser, item: string): Parser {
    var f := Fields(item);
    if |f| < 2 then p else p.(qname := NormalizeHost(f[0]), qtype := f[|f| - 1])
  }

  function WithAnswer(p: Parser, item: string, env: Env): Parser {
    var f := Fields(item);
    if |f| < 5 then p
    else
      var ttl := ParseUint(f[1], 0x1_0000_0000);
      if ttl.Some? && Matches(f[3], env.family(f[4]))
      then p.(answers := p.answers + [Answer(f[3], f[4], ttl.value)]) else p
  }

  function WithItem(p: Parser, content: string, env: Env): Parser {
    var item := Trim(TrimPrefix(content, "- "), '\'');
    match p.section
    case QuestionSection => WithQuestion(p, item)
    case AnswerSection => WithAnswer(p, item, env)
    case NoSection => p
  }

  function Port(val: string): (n: nat)
    ensures n < 0x1_0000
  {
    match ParseUint(val, 0x1_0000)
    case Some(n) => n
    case None => 0
  }

  function WithField(p: Parser, content: string, env: Env): Parser {
    var (key, val) := SplitField(content);
    WithKey(p.(section := NoSection), key, val, env)
  }

  function WithKey(q: Parser, key: string, val: string, env: Env): Parser {
    if key == "type" then q.(kind := val)
    else if key == "query_time" || key == "response_time" then WithTime(q, val, env)
    else if key == "query_address" then q.(client := Trim(val, '"'))
    else if key == "query_port" then q.(port := Port(val))
    else if key == "query_message" || key == "response_message" then
      if val == "|" then q.(inLiteral := true) else q
    else if key == "QUESTION_SECTION" then q.(section := QuestionSection)
    else if key == "ANSWER_SECTION" then q.(section := AnswerSection)
    else q
  }

  // ---------------------------------------------------------------- the end of a block

  predicate IsClientKind(kind: string) {
    kind == "CLIENT_QUERY" || kind == "CLIENT_RESPONSE"
  }

  function Unanswered(p: Parser): DnsEvent {
    DnsEvent(p.time, p.client, p.port, p.qname, p.qtype, "", 0, false)
  }

  function Answered(p: Parser, a: Answer): DnsEvent {
    DnsEvent(p.time, p.client, p.port, p.qname, a.rtype, a.address, a.ttl, false)
  }

  function AnsweredAll(p: Parser, answers: seq<Answer>): seq<DnsEvent> {
    if answers == [] then [] else AnsweredAll(p, answers[..|answers| - 1]) + [Answered(p, answers[|answers| - 1])]
  }

  /** What a block is worth when its terminator arrives. */
  function Flushed(p: Parser): Outcome {
    if !p.inBlock || !IsClientKind(p.kind) then NOTHING
    else if p.time == ZERO_TIME || p.client == "" || p.qname == "" then Malformed
    else if p.kind == "CLIENT_QUERY" || p.answers == [] then Events([Unanswered(p)])
    else Events(AnsweredAll(p, p.answers))
  }

  // ---------------------------------------------------------------- one line

  function AfterFlush(p: Parser): Parser {
    if p.inBlock then IDLE else p
  }

  function Feed(p: Parser, line: string, env: Env): (Parser, Outcome) {
    if line == "" then (p, NOTHING)
    else if !IsIndented(line) then
      var q := p.(inLiteral := false);
      if line == "---" then (AfterFlush(q), Flushed(q))
      else if HasPrefix(line, "type:") then (BEGUN, Flushed(q))
      else (q, NOTHING)
    else if !p.inBlock || p.inLiteral then (p, NOTHING)
    else
      var content := TrimIndent(line);
      (if HasPrefix(content, "- ") then WithItem(p, content, env) else WithField(p, content, env), NOTHING)
  }

  // ---------------------------------------------------------------- the parser as the program keeps it

  class Reader {
    var inBlock: bool
    var inLiteral: bool
    var kind: string
    var section: Section
    var time: int
    var client: string
    var port: nat
    var qname: string
    var qtype: string
    var answers: seq<Answer>

    ghost function State(): Parser
      reads this
    {
      Parser(inBlock, inLiteral, kind, section, time, client, port, qname, qtype, answers)
    }

    constructor ()
      ensures State() == IDLE
    {
      inBlock, inLiteral, kind, section, time := false, false, "", NoSection, ZERO_TIME;
      client, port, qname, qtype, answers := "", 0, "", "", [];
    }

    method Begin()
      modifies this
      ensures State() == BEGUN
    {
      inBlock, inLiteral, kind, section, time := true, false, "", NoSection, ZERO_TIME;
      client, port, qname, qtype, answers := "", 0, "", "", [];
    }

    method Flush() returns (outcome: Outcome)
      modifies this
      ensures outcome == Flushed(old(State()))
      ensures State() == AfterFlush(old(State()))
    {
      if !inBlock {
        return NOTHING;
      }
      if kind != "CLIENT_QUERY" && kind != "CLIENT_RESPONSE" {
        outcome := NOTHING;
      } else if time == ZERO_TIME || client == "" || qname == "" {
        outcome := Malformed;
      } else if kind == "CLIENT_QUERY" {
        outcome := Events([DnsEvent(time, client, port, qname, qtype, "", 0, false)]);
      } else {
        var events := [];
        for i := 0 to |answers|
          invariant events == AnsweredAll(State(), answers[..i])
        {
          assert answers[..i + 1][..i] == answers[..i];
          var a := answers[i];
          events := events + [DnsEvent(time, client, port, qname, a.rtype, a.address, a.ttl, false)];
        }
        assert answers[..|answers|] == answers;
        if |events| == 0 {
          events := [DnsEvent(time, client, port, qname, qtype, "", 0, false)];
        }
        outcome := Events(events);
      }
      Begin();
      inBlock := false;
    }

    method ParseTimestamp(val: string, env: Env)
      modifies this
      ensures State() == WithTime(old(State()), val, env)
    {
      var t := env.time(TrimSpace(TrimPrefix(val, "!!timestamp")));
      if t.Some? {
        time := t.value;
      }
    }

    method ParseQuestion(item: string)
      modifies this
      ensures State() == WithQuestion(old(State()), item)
    {
      var f := Fields(item);
      if |f| < 2 {
        return;
      }
      qname := NormalizeHost(f[0]);
      qtype := f[|f| - 1];
    }

    method ParseAnswer(item: string, env: Env)
      modifies this
      ensures State() == WithAnswer(old(State()), item, env)
    {
      var f := Fields(item);
      if |f| < 5 {
        return;
      }
      var typ := f[3];
      if typ != "A" && typ != "AAAA" {
        return;
      }
      var ttl := ParseUint(f[1], 0x1_0000_0000);
      if ttl.None? {
        return;
      }
      var ip := env.family(f[4]);
      if ip.None? || (typ == "A" && ip.value != V4) || (typ == "AAAA" && ip.value == V4) {
        return;
      }
      answers := answers + [Answer(typ, f[4], ttl.value)];
    }

    method FeedLine(line: string, env: Env) returns (outcome: Outcome)
      modifies this
      ensures (State(), outcome) == Feed(old(State()), line, env)
    {
      outcome := NOTHING;
      if line == "" {
        return;
      }
      if line[0] != ' ' && line[0] != '\t' {
        inLiteral := false;
        if line == "---" {
          outcome := Flush();
          return;
        }
        if HasPrefix(line, "type:") {
          outcome := Flush();
          Begin();
          return;
        }
        return;
      }
      if !inBlock || inLiteral {
        return;
      }
      var content := TrimIndent(line);
      if HasPrefix(content, "- ") {
        FeedItem(content, env);
      } else {
        FeedField(content, env);
      }
    }

    method FeedItem(content: string, env: Env)
      modifies this
      ensures State() == WithItem(old(State()), content, env)
    {
      var item := Trim(TrimPrefix(content, "- "), '\'');
      match section {
        case QuestionSection => ParseQuestion(item);
        case AnswerSection => ParseAnswer(item, env);
        case NoSection =>
      }
    }

    method FeedField(content: string, env: Env)
      modifies this
      ensures State() == WithField(old(State()), content, env)
    {
      section := NoSection;
      var (key, val) := SplitField(content);
      if key == "type" {
        kind := val;
      } else if key == "query_time" || key == "response_time" {
        ParseTimestamp(val, env);
      } else if key == "query_address" {
        client := Trim(val, '"');
      } else if key == "query_port" {
        port := Port(val);
      } else if key == "query_message" || key == "response_message" {
        if val == "|" {
          inLiteral := true;
        }
      } else if key == "QUESTION_SECTION" {
        section := QuestionSection;
      } else if key == "ANSWER_SECTION" {
        section := AnswerSection;
      }
    }
  }
}
