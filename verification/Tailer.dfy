/**
 The incremental tailer: each poll reads a bounded window of what a log file has
 gained, hands over its complete lines and remembers where it stopped.
 */
module Tailer {
  import opened Text

  /** What the file system shows one poll: the size when it was asked, and the content when it was read. */
  datatype Disk = Missing | Unreadable(size: nat) | Readable(size: nat, content: string)

  datatype Scan = Scan(offset: nat, lines: seq<string>, truncated: bool)

  // ---------------------------------------------------------------- the lines of a text

  /** The complete lines of a text, without trailing carriage returns and without empty ones. */
  function Lines(s: string): seq<string> {
    LinesFrom("", s)
  }

  /** The same, with `partial` already read of the current line. */
  function LinesFrom(partial: string, s: string): seq<string>
    decreases |s|
  {
    if s == "" then []
    else if s[0] == '\n' then Line(partial) + LinesFrom("", s[1..])
    else LinesFrom(partial + [s[0]], s[1..])
  }

  /** One raw line as zero or one handed-over lines. */
  function Line(raw: string): seq<string> {
    var line := TrimRight(raw, '\r');
    if line == "" then [] else [line]
  }

  predicate AtLineStart(s: string, offset: nat) {
    offset <= |s| && (offset == 0 || s[offset - 1] == '\n')
  }

  lemma {:induction false} LinesFromConcat(partial: string, a: string, b: string)
    requires a != "" && a[|a| - 1] == '\n'
    ensures LinesFrom(partial, a + b) == LinesFrom(partial, a) + Lines(b)
    decreases |a|
  {
    assert (a + b)[1..] == a[1..] + b;
    if |a| == 1 {
      assert a[1..] + b == b;
    } else if a[0] == '\n' {
      LinesFromConcat("", a[1..], b);
    } else {
      LinesFromConcat(partial + [a[0]], a[1..], b);
    }
  }

  lemma {:induction false} LinesConcat(a: string, b: string)
    requires a == "" || a[|a| - 1] == '\n'
    ensures Lines(a + b) == Lines(a) + Lines(b)
  {
    if a == "" {
      assert a + b == b;
    } else {
      LinesFromConcat("", a, b);
    }
  }

  lemma {:induction false} NoLineYet(partial: string, s: string)
    requires forall k | 0 <= k < |s| :: s[k] != '\n'
    ensures LinesFrom(partial, s) == []
    decreases |s|
  {
    if s != "" {
      NoLineYet(partial + [s[0]], s[1..]);
    }
  }

  /** One more line, with any number of carriage returns before its newline: its text is handed over, if it has any. */
  lemma LinesOfLast(before: string, l: string, ends: string)
    requires before == "" || before[|before| - 1] == '\n'
    requires (forall i | 0 <= i < |l| :: l[i] != '\n') && (l == "" || l[|l| - 1] != '\r')
    requires forall i | 0 <= i < |ends| :: ends[i] == '\r'
    ensures Lines(before + (l + ends + "\n")) == Lines(before) + if l == "" then [] else [l]
  {
    LinesConcat(before, l + ends + "\n");
    LinesOfOne("", l + ends);
    assert "" + (l + ends) == l + ends;
    ReturnsAreTrimmed(l, ends);
  }

  lemma {:induction false} ReturnsAreTrimmed(l: string, ends: string)
    requires l == "" || l[|l| - 1] != '\r'
    requires forall i | 0 <= i < |ends| :: ends[i] == '\r'
    ensures TrimRight(l + ends, '\r') == l
  {
    if ends == "" {
      assert l + ends == l;
    } else {
      var n := |ends| - 1;
      assert (l + ends)[..|l + ends| - 1] == l + ends[..n];
      ReturnsAreTrimmed(l, ends[..n]);
    }
  }

  lemma {:induction false} LinesOfOne(partial: string, l: string)
    requires forall i | 0 <= i < |l| :: l[i] != '\n'
    ensures LinesFrom(partial, l + "\n") == Line(partial + l)
    decreases |l|
  {
    assert (l + "\n")[1..] == if l == "" then "" else l[1..] + "\n";
    if l == "" {
      assert partial + l == partial;
    } else {
      LinesOfOne(partial + [l[0]], l[1..]);
      assert partial + [l[0]] + l[1..] == partial + l;
    }
  }

  /** A newline from position a on, before position b. */
  predicate NewlineIn(s: string, a: nat, b: nat) {
    exists k | a <= k < |s| && k < b :: s[k] == '\n'
  }

  // ---------------------------------------------------------------- one scan

  function Window(content: string, off: nat, limit: nat): string {
    if off > |content| then ""
    else if |content| - off <= limit then content[off..]
    else content[off..off + limit]
  }

  /** What one poll does to a stored offset. */
  function Poll(stored: nat, disk: Disk, limit: nat): Scan {
    if disk.Missing? then Scan(stored, [], false)
    else
      var truncated := disk.size < stored;
      var off := if truncated then 0 else stored;
      if disk.size == off || disk.Unreadable? then Scan(stored, [], truncated)
      else
        var data := Window(disk.content, off, limit);
        var nl := LastIndex(data, '\n');
        if nl < 0 then Scan(stored, [], truncated)
        else Scan(off + nl + 1, Lines(data), truncated)
  }

  lemma WindowNewline(s: string, off: nat, limit: nat)
    ensures HasNewline(Window(s, off, limit)) <==> NewlineIn(s, off, off + limit)
  {
    var w := Window(s, off, limit);
    assert forall k | 0 <= k < |w| :: w[k] == s[off + k];
    if k :| off <= k < |s| && k < off + limit && s[k] == '\n' {
      assert w[k - off] == '\n';
    }
  }

  /**
   What a poll reads, by positions in the file: from the offset, or from the start if the
   file has shrunk, up to the last newline within `limit` bytes; the lines in between are
   handed over and the offset moves behind that newline.
   */
  lemma PollReadsOn(stored: nat, size: nat, content: string, limit: nat, k: nat)
    requires var off := if size < stored then 0 else stored;
             && size != off && off <= k < |content| && k < off + limit && content[k] == '\n'
             && forall j | k < j < |content| && j < off + limit :: content[j] != '\n'
    ensures var off := if size < stored then 0 else stored;
            Poll(stored, Readable(size, content), limit) == Scan(k + 1, Lines(content[off..k + 1]), size < stored)
  {
    var off := if size < stored then 0 else stored;
    var w := Window(content, off, limit);
    assert forall j | 0 <= j < |w| :: w[j] == content[off + j];
    assert w[k - off] == '\n';
    LinesUpToLastNewline(w, k - off);
    assert w[..k - off + 1] == content[off..k + 1];
  }

  /** Without a newline there, or with nothing new, or with a file that cannot be read, the poll changes nothing. */
  lemma PollFindsNothing(stored: nat, disk: Disk, limit: nat)
    requires || disk.Missing? || disk.Unreadable? || disk.size == stored || disk.size == 0
             || !NewlineIn(disk.content, if disk.size < stored then 0 else stored,
                           (if disk.size < stored then 0 else stored) + limit)
    ensures Poll(stored, disk, limit) == Scan(stored, [], !disk.Missing? && disk.size < stored)
  {
    if disk.Readable? {
      WindowNewline(disk.content, if disk.size < stored then 0 else stored, limit);
    }
  }

  predicate HasNewline(s: string) {
    exists k | 0 <= k < |s| :: s[k] == '\n'
  }

  /** The handed-over lines of a window are those of its part up to the last newline. */
  lemma {:induction false} LinesUpToLastNewline(data: string, nl: nat)
    requires nl < |data| && nl == LastIndex(data, '\n')
    ensures Lines(data[..nl + 1]) == Lines(data)
  {
    assert data == data[..nl + 1] + data[nl + 1..];
    LinesConcat(data[..nl + 1], data[nl + 1..]);
    NoLineYet("", data[nl + 1..]);
  }

  class Poller {
    var offsets: map<string, nat>

    function Offset(path: string): nat
      reads this
    {
      if path in offsets then offsets[path] else 0
    }

    constructor ()
      ensures offsets == map[]
    {
      offsets := map[];
    }

    /** Reads what one file gained; `truncated` is the call-back that drops the file's parser. */
    method ReadAppended(path: string, disk: Disk, limit: nat) returns (lines: seq<string>, truncated: bool)
      modifies this
      ensures Scan(Offset(path), lines, truncated) == Poll(old(Offset(path)), disk, limit)
      ensures forall other: string | other != path :: Offset(other) == old(Offset(other))
    {
      lines, truncated := [], false;
      if disk.Missing? {
        return;
      }
      var off := Offset(path);
      if disk.size < off {
        off := 0;
        truncated := true;
      }
      if disk.size == off {
        return;
      }
      if disk.Unreadable? {
        return;
      }
      var data := Window(disk.content, off, limit);
      var nl := LastIndex(data, '\n');
      if nl < 0 {
        return;
      }
      offsets := offsets[path := off + nl + 1];
      lines := HandOver(data[..nl + 1]);
      LinesUpToLastNewline(data, nl);
    }

    /** Splits at newlines, trims carriage returns, skips blanks. */
    static method HandOver(data: string) returns (lines: seq<string>)
      requires data != "" && data[|data| - 1] == '\n'
      ensures lines == Lines(data)
    {
      var pieces := Split(data, '\n');
      lines := [];
      for i := 0 to |pieces|
        invariant lines == Handed(pieces[..i])
      {
        assert pieces[..i + 1][..i] == pieces[..i];
        var line := TrimRight(pieces[i], '\r');
        if line != "" {
          lines := lines + [line];
        }
      }
      assert pieces[..|pieces|] == pieces;
      SplitIsLines("", data);
    }
  }

  function Handed(pieces: seq<string>): seq<string> {
    if pieces == [] then [] else Handed(pieces[..|pieces| - 1]) + Line(pieces[|pieces| - 1])
  }

  lemma {:induction false} HandedCons(first: string, pieces: seq<string>)
    ensures Handed([first] + pieces) == Line(first) + Handed(pieces)
  {
    if pieces != [] {
      var n := |pieces| - 1;
      assert ([first] + pieces)[..n + 1] == [first] + pieces[..n];
      HandedCons(first, pieces[..n]);
    } else {
      assert [first] + pieces == [first];
    }
  }

  lemma {:induction false} SplitIsLines(piece: string, s: string)
    requires s != "" && s[|s| - 1] == '\n'
    ensures Handed(SplitFrom(piece, s, '\n')) == LinesFrom(piece, s)
    decreases |s|
  {
    if |s| == 1 {
      assert SplitFrom("", s[1..], '\n') == [""];
      HandedCons(piece, [""]);
      assert Handed([""]) == Handed([]) + Line("");
    } else if s[0] == '\n' {
      SplitIsLines("", s[1..]);
      HandedCons(piece, SplitFrom("", s[1..], '\n'));
    } else {
      SplitIsLines(piece + [s[0]], s[1..]);
    }
  }

  // ---------------------------------------------------------------- every schedule of appends and polls

  /** A poll sees some earlier size, at least what it has consumed, and reads the file as it is now. */
  datatype Tick = Append(data: string) | Look(size: nat)

  datatype Tail = Tail(file: string, offset: nat, delivered: seq<string>)

  function After(t: Tail, tick: Tick, limit: nat): Tail {
    match tick
    case Append(data) => t.(file := t.file + data)
    case Look(size) =>
      if t.offset <= size <= |t.file| then
        var scan := Poll(t.offset, Readable(size, t.file), limit);
        t.(offset := scan.offset, delivered := t.delivered + scan.lines)
      else t
  }

  function Watch(ticks: seq<Tick>, limit: nat): Tail {
    if ticks == [] then Tail("", 0, []) else After(Watch(ticks[..|ticks| - 1], limit), ticks[|ticks| - 1], limit)
  }

  ghost predicate Exact(t: Tail) {
    AtLineStart(t.file, t.offset) && t.delivered == Lines(t.file[..t.offset])
  }

  lemma {:induction false} ConsumeWindow(file: string, off: nat, data: string, nl: nat)
    requires AtLineStart(file, off) && off + |data| <= |file| && data == file[off..off + |data|]
    requires nl < |data| && nl == LastIndex(data, '\n')
    ensures AtLineStart(file, off + nl + 1)
    ensures Lines(file[..off + nl + 1]) == Lines(file[..off]) + Lines(data)
  {
    assert file[off + nl] == data[nl];
    var before := file[..off];
    assert file[..off + nl + 1] == before + data[..nl + 1];
    LinesConcat(before, data[..nl + 1]);
    LinesUpToLastNewline(data, nl);
  }

  lemma {:induction false} PollIsExact(t: Tail, size: nat, limit: nat)
    requires Exact(t) && t.offset <= size <= |t.file|
    ensures Exact(After(t, Look(size), limit))
    ensures t.offset <= After(t, Look(size), limit).offset
  {
    var data := Window(t.file, t.offset, limit);
    var nl := LastIndex(data, '\n');
    if size != t.offset && nl >= 0 {
      assert data == t.file[t.offset..t.offset + |data|];
      ConsumeWindow(t.file, t.offset, data, nl);
      assert After(t, Look(size), limit) == Tail(t.file, t.offset + nl + 1, t.delivered + Lines(data));
    } else {
      assert After(t, Look(size), limit) == Tail(t.file, t.offset, t.delivered + []);
      assert t.delivered + [] == t.delivered;
    }
  }

  /**
   Whatever the schedule, the lines handed over are exactly, in order and once each,
   the lines of the consumed part of the file, which ends just past a newline.
   */
  lemma {:induction false} TailerIsExact(ticks: seq<Tick>, limit: nat)
    ensures Exact(Watch(ticks, limit))
  {
    if ticks != [] {
      var init, last := ticks[..|ticks| - 1], ticks[|ticks| - 1];
      TailerIsExact(init, limit);
      var t := Watch(init, limit);
      match last {
        case Append(data) => assert (t.file + data)[..t.offset] == t.file[..t.offset];
        case Look(size) =>
          if t.offset <= size <= |t.file| {
            PollIsExact(t, size, limit);
          }
      }
    }
  }

  // ---------------------------------------------------------------- progress

  /** The line that starts at o, if it is complete, ends within `limit` bytes. */
  predicate LineFits(file: string, o: nat, limit: nat) {
    NewlineIn(file, o, |file|) ==> NewlineIn(file, o, o + limit)
  }

  ghost predicate LinesFit(file: string, from: nat, limit: nat) {
    forall o | from <= o <= |file| && AtLineStart(file, o) :: LineFits(file, o, limit)
  }

  /** Polls a file that has stopped growing n times. */
  function Polls(t: Tail, n: nat, limit: nat): Tail
    decreases n
  {
    if n == 0 then t else Polls(After(t, Look(|t.file|), limit), n - 1, limit)
  }

  /** Nothing complete is left to read. */
  predicate CaughtUp(t: Tail) {
    t.offset <= |t.file| && !NewlineIn(t.file, t.offset, |t.file|)
  }

  lemma {:induction false} PollAdvances(t: Tail, limit: nat)
    requires Exact(t)
    ensures var t' := After(t, Look(|t.file|), limit);
            && t'.file == t.file && Exact(t') && t.offset <= t'.offset
            && (CaughtUp(t) ==> t'.offset == t.offset)
            && (!CaughtUp(t) && LineFits(t.file, t.offset, limit) ==> t.offset < t'.offset)
  {
    PollIsExact(t, |t.file|, limit);
    WindowNewline(t.file, t.offset, limit);
  }

  lemma {:induction false} PollsStayExact(t: Tail, n: nat, limit: nat)
    requires Exact(t)
    ensures var t' := Polls(t, n, limit);
            t'.file == t.file && Exact(t') && (CaughtUp(t) ==> t'.offset == t.offset)
    decreases n
  {
    if n > 0 {
      PollAdvances(t, limit);
      PollsStayExact(After(t, Look(|t.file|), limit), n - 1, limit);
    }
  }

  /** If every line fits the read limit, as many polls as there are unread bytes suffice. */
  lemma {:induction false} PollsCatchUp(t: Tail, n: nat, limit: nat)
    requires Exact(t) && LinesFit(t.file, t.offset, limit)
    requires n > |t.file| - t.offset
    ensures CaughtUp(Polls(t, n, limit))
    decreases n
  {
    if CaughtUp(t) {
      PollsStayExact(t, n, limit);
    } else {
      var t' := After(t, Look(|t.file|), limit);
      assert LineFits(t.file, t.offset, limit);
      PollAdvances(t, limit);
      PollsCatchUp(t', n - 1, limit);
    }
  }

  /** A complete line longer than the limit is never passed. */
  lemma {:induction false} LongLineStalls(t: Tail, n: nat, limit: nat, o: nat)
    requires Exact(t) && t.offset <= o <= |t.file| && !LineFits(t.file, o, limit)
    ensures !CaughtUp(Polls(t, n, limit))
    decreases n
  {
    if n > 0 {
      PollAdvances(t, limit);
      NoJump(t, o, limit);
      LongLineStalls(After(t, Look(|t.file|), limit), n - 1, limit, o);
    } else {
      StillUnread(t.file, t.offset, o);
    }
  }

  lemma {:induction false} StillUnread(file: string, off: nat, o: nat)
    requires off <= o && NewlineIn(file, o, |file|)
    ensures NewlineIn(file, off, |file|)
  {
  }

  lemma {:induction false} NoJump(t: Tail, o: nat, limit: nat)
    requires t.offset <= o <= |t.file| && !NewlineIn(t.file, o, o + limit)
    ensures After(t, Look(|t.file|), limit).offset <= o
  {
    WindowNewline(t.file, o, limit);
    var data, later := Window(t.file, t.offset, limit), Window(t.file, o, limit);
    forall k | o - t.offset <= k < |data| ensures data[k] != '\n' {
      assert later[k - (o - t.offset)] == data[k];
    }
  }

  /** Polling reaches the last newline exactly when every line still to be read fits the limit. */
  lemma {:induction false} ReachesTheEnd(t: Tail, limit: nat)
    requires Exact(t)
    ensures LinesFit(t.file, t.offset, limit) <==> exists n: nat :: CaughtUp(Polls(t, n, limit))
    ensures forall n: nat :: CaughtUp(Polls(t, n, limit)) ==> Polls(t, n, limit).delivered == Lines(t.file)
  {
    if LinesFit(t.file, t.offset, limit) {
      var n := |t.file| - t.offset + 1;
      PollsCatchUp(t, n, limit);
      PollsStayExact(t, n, limit);
      assert CaughtUp(Polls(t, n, limit));
    } else {
      var o :| t.offset <= o <= |t.file| && AtLineStart(t.file, o) && !LineFits(t.file, o, limit);
      forall n: nat ensures !CaughtUp(Polls(t, n, limit)) {
        LongLineStalls(t, n, limit, o);
      }
    }
    forall n: nat | CaughtUp(Polls(t, n, limit)) ensures Polls(t, n, limit).delivered == Lines(t.file) {
      PollsStayExact(t, n, limit);
      AllLines(t.file, Polls(t, n, limit).offset);
    }
  }

  lemma {:induction false} AllLines(file: string, off: nat)
    requires AtLineStart(file, off) && !NewlineIn(file, off, |file|)
    ensures Lines(file[..off]) == Lines(file)
  {
    assert file == file[..off] + file[off..];
    LinesConcat(file[..off], file[off..]);
    NoLineYet("", file[off..]);
  }

  // ---------------------------------------------------------------- truncation

  /**
   After a shrunken file was noticed, the poll leaves what a fresh reader of the new
   content would have exactly when its first read holds a complete line; otherwise the
   old offset stays behind.
   */
  lemma {:induction false} TruncationStartsOver(stored: nat, size: nat, content: string, limit: nat)
    requires size < stored
    ensures var again, anew := Poll(stored, Readable(size, content), limit), Poll(0, Readable(size, content), limit);
            && again.truncated
            && again.lines == anew.lines
            && (again.offset == anew.offset <==> size > 0 && NewlineIn(content, 0, limit))
  {
    WindowNewline(content, 0, limit);
  }
}
