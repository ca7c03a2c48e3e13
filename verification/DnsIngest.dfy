/**
 Where tailer and parser meet: one parser per log file, kept from scan to scan,
 and dropped when its file is noticed to have shrunk.
 */
module DnsIngest {
  import opened DnsEvents
  import opened Dnstap
  import opened DnstapLog
  import opened Tailer
  import opened Text

  /** What one scan of one file leaves behind, and what it emitted. */
  datatype Ingested = Ingested(offset: nat, parser: Option<Parser>, events: seq<DnsEvent>, errors: nat)

  function StartOf(parser: Option<Parser>): Fed {
    if parser.Some? then Fed(parser.value, [], 0) else START
  }

  /** Feeds lines through the file's parser, creating it at the first one. */
  function FeedFile(parser: Option<Parser>, lines: seq<string>, env: Env): (Option<Parser>, Fed) {
    var fed := FeedAll(StartOf(parser), lines, env);
    (if lines == [] then parser else Some(fed.parser), fed)
  }

  function IngestFile(stored: nat, parser: Option<Parser>, disk: Disk, limit: nat, env: Env): Ingested {
    var scan := Poll(stored, disk, limit);
    var (parser', fed) := FeedFile(if scan.truncated then None else parser, scan.lines, env);
    Ingested(scan.offset, parser', fed.events, fed.errors)
  }

  class Ingester {
    const poller: Poller
    var parsers: map<string, Parser>

    constructor ()
      ensures fresh(poller) && poller.offsets == map[] && parsers == map[]
    {
      poller := new Poller();
      parsers := map[];
    }

    function ParserOf(path: string): Option<Parser>
      reads this
    {
      if path in parsers then Some(parsers[path]) else None
    }

    method ScanFile(path: string, disk: Disk, limit: nat, env: Env) returns (events: seq<DnsEvent>, errors: nat)
      modifies this, poller
      ensures Ingested(poller.Offset(path), ParserOf(path), events, errors) ==
              old(IngestFile(poller.Offset(path), ParserOf(path), disk, limit, env))
      ensures forall other: string | other != path ::
                ParserOf(other) == old(ParserOf(other)) && poller.Offset(other) == old(poller.Offset(other))
    {
      var lines, truncated := poller.ReadAppended(path, disk, limit);
      if truncated {
        parsers := parsers - {path};
      }
      events, errors := IngestLines(path, lines, env);
    }

    method IngestLines(path: string, lines: seq<string>, env: Env) returns (events: seq<DnsEvent>, errors: nat)
      modifies this`parsers
      ensures (ParserOf(path), Fed(StartOf(ParserOf(path)).parser, events, errors)) ==
              old(FeedFile(ParserOf(path), lines, env))
      ensures forall other: string | other != path :: ParserOf(other) == old(ParserOf(other))
    {
      events, errors := [], 0;
      for i := 0 to |lines|
        invariant (ParserOf(path), Fed(StartOf(ParserOf(path)).parser, events, errors)) ==
                  FeedFile(old(ParserOf(path)), lines[..i], env)
        invariant forall other: string | other != path :: ParserOf(other) == old(ParserOf(other))
      {
        assert lines[..i + 1][..i] == lines[..i];
        if path !in parsers {
          parsers := parsers[path := IDLE];
        }
        var (p, o) := Feed(parsers[path], lines[i], env);
        parsers := parsers[path := p];
        match o {
          case Events(found) => events := events + found;
          case Malformed => errors := errors + 1;
        }
      }
      assert lines[..|lines|] == lines;
    }
  }

  /**
   No leak across a rotation: after a shrunken file was noticed, offset, parser and
   everything emitted are those of a fresh reader exactly when the first read of the
   new content holds a complete line.
   */
  lemma RotationStartsOver(stored: nat, parser: Option<Parser>, size: nat, content: string, limit: nat, env: Env)
    requires size < stored
    ensures IngestFile(stored, parser, Readable(size, content), limit, env) ==
            IngestFile(0, None, Readable(size, content), limit, env)
            <==> size > 0 && NewlineIn(content, 0, limit)
  {
  }

  // ---------------------------------------------------------------- many scans

  /** Scan after scan of one file, from a stored offset and a retained parser. */
  function Resume(stored: nat, parser: Option<Parser>, disks: seq<Disk>, limit: nat, env: Env): Ingested {
    if disks == [] then Ingested(stored, parser, [], 0)
    else
      var before := Resume(stored, parser, disks[..|disks| - 1], limit, env);
      var next := IngestFile(before.offset, before.parser, disks[|disks| - 1], limit, env);
      Ingested(next.offset, next.parser, before.events + next.events, before.errors + next.errors)
  }

  lemma ResumeOnce(stored: nat, parser: Option<Parser>, d: Disk, limit: nat, env: Env)
    ensures Resume(stored, parser, [d], limit, env) == IngestFile(stored, parser, d, limit, env)
  {
    assert [d][..0] == [];
    var events := IngestFile(stored, parser, d, limit, env).events;
    assert [] + events == events;
  }

  /** Once the first scan leaves the same, all later ones emit the same. */
  lemma {:induction false} SameFromThenOn(stored: nat, parser: Option<Parser>, stored': nat, parser': Option<Parser>,
                                          d: Disk, more: seq<Disk>, limit: nat, env: Env)
    requires IngestFile(stored, parser, d, limit, env) == IngestFile(stored', parser', d, limit, env)
    ensures Resume(stored, parser, [d] + more, limit, env) == Resume(stored', parser', [d] + more, limit, env)
  {
    var all := [d] + more;
    if more == [] {
      assert all == [d];
      ResumeOnce(stored, parser, d, limit, env);
      ResumeOnce(stored', parser', d, limit, env);
    } else {
      var n := |more| - 1;
      assert all[..|all| - 1] == [d] + more[..n];
      SameFromThenOn(stored, parser, stored', parser', d, more[..n], limit, env);
    }
  }

  /**
   From a scan that notices a truncation on, whatever the scans before it left pending
   has no part in what comes out, through any number of scans.
   */
  lemma OldBlockIsDropped(before: seq<Disk>, before': seq<Disk>, d: Disk, more: seq<Disk>, limit: nat, env: Env)
    requires var a, b := Resume(0, None, before, limit, env), Resume(0, None, before', limit, env);
             a.offset == b.offset && !d.Missing? && d.size < a.offset
    ensures var a, b := Resume(0, None, before, limit, env), Resume(0, None, before', limit, env);
            Resume(a.offset, a.parser, [d] + more, limit, env) == Resume(b.offset, b.parser, [d] + more, limit, env)
  {
    var a, b := Resume(0, None, before, limit, env), Resume(0, None, before', limit, env);
    SameFromThenOn(a.offset, a.parser, b.offset, b.parser, d, more, limit, env);
  }

  /** And if its first read holds a complete line, everything from then on is a fresh reader's. */
  lemma RotationStartsAfresh(before: seq<Disk>, size: nat, content: string, more: seq<Disk>, limit: nat, env: Env)
    requires size < Resume(0, None, before, limit, env).offset
    requires size > 0 && NewlineIn(content, 0, limit)
    ensures var a, d := Resume(0, None, before, limit, env), Readable(size, content);
            Resume(a.offset, a.parser, [d] + more, limit, env) == Resume(0, None, [d] + more, limit, env)
  {
    var a, d := Resume(0, None, before, limit, env), Readable(size, content);
    RotationStartsOver(a.offset, a.parser, size, content, limit, env);
    SameFromThenOn(a.offset, a.parser, 0, None, d, more, limit, env);
  }

  // ---------------------------------------------------------------- a growing file

  /** The file as it was at each scan: it only grows, and a scan may find it missing or unreadable. */
  ghost predicate Growing(files: seq<string>, disks: seq<Disk>) {
    && |files| == |disks|
    && forall i | 0 <= i < |disks| :: GrowsAt(files, disks, i)
  }

  ghost predicate GrowsAt(files: seq<string>, disks: seq<Disk>, i: nat)
    requires |files| == |disks| && i < |disks|
  {
    var before := if i == 0 then "" else files[i - 1];
    && before <= files[i]
    && (!disks[i].Missing? ==> |before| <= disks[i].size <= |files[i]|)
    && (disks[i].Readable? ==> disks[i].content == files[i])
  }

  function Newest(files: seq<string>): string {
    if files == [] then "" else files[|files| - 1]
  }

  /** What was emitted, and the parser that is kept. */
  function FedBy(r: Ingested): Fed {
    Fed(StartOf(r.parser).parser, r.events, r.errors)
  }

  /**
   However the scans cut a growing file, the parser kept from scan to scan has been fed
   exactly the lines of the consumed part.
   */
  lemma {:induction false} ScansFeedTheFile(files: seq<string>, disks: seq<Disk>, limit: nat, env: Env)
    requires Growing(files, disks)
    ensures var r, file := Resume(0, None, disks, limit, env), Newest(files);
            AtLineStart(file, r.offset) && FedBy(r) == FeedAll(START, Lines(file[..r.offset]), env)
  {
    if disks == [] {
      assert Newest(files)[..0] == "";
    } else {
      var n := |disks| - 1;
      GrowingInit(files, disks);
      ScansFeedTheFile(files[..n], disks[..n], limit, env);
      var r, before := Resume(0, None, disks[..n], limit, env), Newest(files[..n]);
      SamePrefix(before, files[n], r.offset);
      OneMoreScan(r, files[n], disks[n], limit, env);
    }
  }

  lemma GrowingInit(files: seq<string>, disks: seq<Disk>)
    requires Growing(files, disks) && disks != []
    ensures var n := |disks| - 1;
            && Growing(files[..n], disks[..n]) && Newest(files[..n]) <= files[n]
            && (!disks[n].Missing? ==> |Newest(files[..n])| <= disks[n].size <= |files[n]|)
            && (disks[n].Readable? ==> disks[n].content == files[n])
  {
    var n := |disks| - 1;
    forall i | 0 <= i < n ensures GrowsAt(files[..n], disks[..n], i) {
      assert GrowsAt(files, disks, i);
    }
    assert GrowsAt(files, disks, n);
  }

  lemma SamePrefix(before: string, file: string, off: nat)
    requires before <= file && AtLineStart(before, off)
    ensures AtLineStart(file, off) && file[..off] == before[..off]
  {
  }

  lemma OneMoreScan(r: Ingested, file: string, disk: Disk, limit: nat, env: Env)
    requires AtLineStart(file, r.offset) && FedBy(r) == FeedAll(START, Lines(file[..r.offset]), env)
    requires !disk.Missing? ==> r.offset <= disk.size <= |file|
    requires disk.Readable? ==> disk.content == file
    ensures var next := IngestFile(r.offset, r.parser, disk, limit, env);
            var r' := Ingested(next.offset, next.parser, r.events + next.events, r.errors + next.errors);
            AtLineStart(file, r'.offset) && FedBy(r') == FeedAll(START, Lines(file[..r'.offset]), env)
  {
    var scan := Poll(r.offset, disk, limit);
    if disk.Readable? {
      PollIsExact(Tail(file, r.offset, Lines(file[..r.offset])), disk.size, limit);
    } else {
      assert Lines(file[..r.offset]) + [] == Lines(file[..r.offset]);
    }
    assert Lines(file[..scan.offset]) == Lines(file[..r.offset]) + scan.lines;
    FeedAllConcat(START, Lines(file[..r.offset]), scan.lines, env);
    FeedFrame(FedBy(r), scan.lines, env);
    if scan.lines == [] {
      assert FedBy(r).events + [] == FedBy(r).events;
    }
  }

  /**
   End to end over scans: once they have caught up with a file of printed messages, they
   have emitted exactly the meaning of every message.
   */
  lemma {:induction false} ScannedFileRoundTrip(files: seq<string>, disks: seq<Disk>, ms: seq<Message>, limit: nat,
                                                env: Env)
    requires Growing(files, disks)
    requires (forall m | m in ms :: WellFormed(m)) && (forall l | l in PrintAll(ms) :: OneLine(l))
    ensures var r, file := Resume(0, None, disks, limit, env), Newest(files);
            file == FileOf(PrintAll(ms)) && !NewlineIn(file, r.offset, |file|) ==> FedBy(r) == EmitAll(START, ms, env)
  {
    var r, file := Resume(0, None, disks, limit, env), Newest(files);
    ScansFeedTheFile(files, disks, limit, env);
    LinesOfFile(PrintAll(ms));
    BlankLinesDoNotMatter(START, PrintAll(ms), env);
    LogRoundTrip([], 0, ms, env);
    if file == FileOf(PrintAll(ms)) && !NewlineIn(file, r.offset, |file|) {
      AllLines(file, r.offset);
    }
  }
}
