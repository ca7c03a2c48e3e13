/**
 The tailer across rotations: a log file is appended to, polled, and replaced by a new
 one whose first bytes may or may not be noticed to be new.
 */
module Rotation {
  import opened Tailer
  import opened Text

  /**
   A poll sees some size and reads the present file as it is now: an earlier size of it,
   or, if the file was replaced between the two looks, any size of one before.
   */
  datatype Beat = Written(data: string) | Replaced(content: string) | Polled(size: nat)

  /**
   The present generation of a file: its content, the stored offset, the position from
   which its lines are delivered, if a read of it has found one, and those lines.
   */
  datatype Generation = Generation(file: string, offset: nat, from: Option<nat>, delivered: seq<string>)

  function Start(g: Generation, size: nat): nat {
    if size < g.offset then 0 else g.offset
  }

  /** The poll reads a complete line. */
  predicate Fruitful(g: Generation, size: nat, limit: nat) {
    size != Start(g, size) && NewlineIn(g.file, Start(g, size), Start(g, size) + limit)
  }

  function AfterPoll(g: Generation, size: nat, limit: nat): Generation {
    var scan := Poll(g.offset, Readable(size, g.file), limit);
    var from := if g.from.None? && Fruitful(g, size, limit) then Some(Start(g, size)) else g.from;
    Generation(g.file, scan.offset, from, g.delivered + scan.lines)
  }

  function Next(g: Generation, beat: Beat, limit: nat): Generation {
    match beat
    case Written(data) => g.(file := g.file + data)
    case Replaced(content) => Generation(content, g.offset, if g.offset == 0 then Some(0) else None, [])
    case Polled(size) =>
      if g.from.Some? ==> g.offset <= size then AfterPoll(g, size, limit) else g
  }

  function Follow(beats: seq<Beat>, limit: nat): Generation {
    if beats == [] then Generation("", 0, Some(0), [])
    else Next(Follow(beats[..|beats| - 1], limit), beats[|beats| - 1], limit)
  }

  // ---------------------------------------------------------------- what each generation delivers

  /** Nothing yet, or exactly the lines between the starting point and the offset. */
  ghost predicate Faithful(g: Generation) {
    match g.from
    case None => g.delivered == []
    case Some(b) =>
      && b <= g.offset <= |g.file|
      && (g.offset == b || g.file[g.offset - 1] == '\n')
      && g.delivered == Lines(g.file[b..g.offset])
  }

  lemma {:induction false} MoreLines(file: string, b: nat, off: nat, data: string, nl: nat)
    requires b <= off && off + |data| <= |file| && data == file[off..off + |data|]
    requires off == b || file[off - 1] == '\n'
    requires nl < |data| && nl == LastIndex(data, '\n')
    ensures file[off + nl] == '\n'
    ensures Lines(file[b..off + nl + 1]) == Lines(file[b..off]) + Lines(data)
  {
    assert file[off + nl] == data[nl];
    assert file[b..off + nl + 1] == file[b..off] + data[..nl + 1];
    assert off > b ==> file[b..off][off - b - 1] == file[off - 1];
    LinesConcat(file[b..off], data[..nl + 1]);
    LinesUpToLastNewline(data, nl);
  }

  /** The two outcomes of a poll. */
  lemma PollOutcome(g: Generation, size: nat, limit: nat)
    ensures var off := Start(g, size);
            var data := Window(g.file, off, limit);
            var b := if g.from.Some? then g.from.value else off;
            if Fruitful(g, size, limit)
            then LastIndex(data, '\n') >= 0 &&
                 AfterPoll(g, size, limit) ==
                 Generation(g.file, off + LastIndex(data, '\n') + 1, Some(b), g.delivered + Lines(data))
            else AfterPoll(g, size, limit) == g
  {
    assert g.delivered + [] == g.delivered;
    WindowNewline(g.file, Start(g, size), limit);
  }

  lemma WindowIsSlice(file: string, off: nat, limit: nat)
    requires off <= |file|
    ensures off + |Window(file, off, limit)| <= |file|
    ensures Window(file, off, limit) == file[off..off + |Window(file, off, limit)|]
  {
  }

  /** The lines from b on, after one more fruitful read at off. */
  lemma ReadOn(file: string, b: nat, off: nat, limit: nat)
    requires b <= off <= |file| && (off == b || file[off - 1] == '\n')
    requires NewlineIn(file, off, off + limit)
    ensures var data := Window(file, off, limit);
            var next := off + LastIndex(data, '\n') + 1;
            && off < next <= |file| && file[next - 1] == '\n'
            && Lines(file[b..next]) == Lines(file[b..off]) + Lines(data)
  {
    WindowIsSlice(file, off, limit);
    WindowNewline(file, off, limit);
    var data := Window(file, off, limit);
    MoreLines(file, b, off, data, LastIndex(data, '\n'));
  }

  lemma PollStaysFaithful(g: Generation, size: nat, limit: nat)
    requires Faithful(g) && (g.from.Some? ==> g.offset <= size)
    ensures Faithful(AfterPoll(g, size, limit))
  {
    PollOutcome(g, size, limit);
    if Fruitful(g, size, limit) {
      var off := Start(g, size);
      var b := if g.from.Some? then g.from.value else off;
      StartIsFaithful(g, size);
      FruitfulIsFaithful(g.file, b, off, g.delivered, limit);
    }
  }

  lemma StartIsFaithful(g: Generation, size: nat)
    requires Faithful(g) && (g.from.Some? ==> g.offset <= size) && Start(g, size) <= |g.file|
    ensures var off := Start(g, size);
            var b := if g.from.Some? then g.from.value else off;
            b <= off && (off == b || g.file[off - 1] == '\n') && g.delivered == Lines(g.file[b..off])
  {
    var off := Start(g, size);
    assert g.file[off..off] == "";
  }

  lemma FruitfulIsFaithful(file: string, b: nat, off: nat, delivered: seq<string>, limit: nat)
    requires b <= off <= |file| && (off == b || file[off - 1] == '\n')
    requires delivered == Lines(file[b..off]) && NewlineIn(file, off, off + limit)
    ensures var data := Window(file, off, limit);
            Faithful(Generation(file, off + LastIndex(data, '\n') + 1, Some(b), delivered + Lines(data)))
  {
    var data := Window(file, off, limit);
    ReadOn(file, b, off, limit);
    ReadOnIsFaithful(file, b, off + LastIndex(data, '\n') + 1, delivered + Lines(data));
  }

  lemma ReadOnIsFaithful(file: string, b: nat, next: nat, delivered: seq<string>)
    requires b < next <= |file| && file[next - 1] == '\n' && delivered == Lines(file[b..next])
    ensures Faithful(Generation(file, next, Some(b), delivered))
  {
  }

  /**
   Over every schedule of appends, polls and rotations: the present generation has
   delivered nothing, or exactly the lines from its starting point to the offset.
   */
  lemma {:induction false} GenerationsAreFaithful(beats: seq<Beat>, limit: nat)
    ensures Faithful(Follow(beats, limit))
  {
    if beats != [] {
      var init, last := beats[..|beats| - 1], beats[|beats| - 1];
      GenerationsAreFaithful(init, limit);
      var g := Follow(init, limit);
      match last {
        case Written(data) =>
          if g.from.Some? {
            assert (g.file + data)[g.from.value..g.offset] == g.file[g.from.value..g.offset];
          }
        case Replaced(content) => assert content[0..0] == "";
        case Polled(size) =>
          if g.from.Some? ==> g.offset <= size {
            PollStaysFaithful(g, size, limit);
          }
      }
    }
  }

  // ---------------------------------------------------------------- what is lost

  /** The characters that are no part of a line end. */
  function Weight(s: string): nat {
    if s == "" then 0 else Weight(s[..|s| - 1]) + if s[|s| - 1] in {'\r', '\n'} then 0 else 1
  }

  function WeightOf(lines: seq<string>): nat {
    if lines == [] then 0 else WeightOf(lines[..|lines| - 1]) + Weight(lines[|lines| - 1])
  }

  lemma {:induction false} WeightConcat(a: string, b: string)
    ensures Weight(a + b) == Weight(a) + Weight(b)
  {
    if b == "" {
      assert a + b == a;
    } else {
      var n := |b| - 1;
      assert (a + b)[..|a + b| - 1] == a + b[..n];
      WeightConcat(a, b[..n]);
    }
  }

  lemma {:induction false} WeightOfConcat(a: seq<string>, b: seq<string>)
    ensures WeightOf(a + b) == WeightOf(a) + WeightOf(b)
  {
    if b == [] {
      assert a + b == a;
    } else {
      var n := |b| - 1;
      assert (a + b)[..|a + b| - 1] == a + b[..n];
      WeightOfConcat(a, b[..n]);
    }
  }

  lemma {:induction false} TrimmingIsWeightless(s: string)
    ensures Weight(TrimRight(s, '\r')) == Weight(s)
  {
    if s != "" && s[|s| - 1] == '\r' {
      TrimmingIsWeightless(s[..|s| - 1]);
    }
  }

  lemma LineWeighsItsText(raw: string)
    ensures WeightOf(Line(raw)) == Weight(raw)
  {
    TrimmingIsWeightless(raw);
  }

  /** Complete lines lose nothing but line ends. */
  lemma {:induction false} LinesWeighTheirText(partial: string, s: string)
    requires s == "" ==> partial == ""
    requires s != "" ==> s[|s| - 1] == '\n'
    ensures WeightOf(LinesFrom(partial, s)) == Weight(partial) + Weight(s)
    decreases |s|
  {
    if s != "" {
      assert s == [s[0]] + s[1..];
      WeightConcat([s[0]], s[1..]);
      assert [s[0]][..0] == "";
      if s[0] == '\n' {
        LinesWeighTheirText("", s[1..]);
        LineWeighsItsText(partial);
        WeightOfConcat(Line(partial), LinesFrom("", s[1..]));
      } else {
        WeightConcat(partial, [s[0]]);
        LinesWeighTheirText(partial + [s[0]], s[1..]);
      }
    }
  }

  /**
   The delivered text falls short of the consumed part of the file by exactly what lies
   before the starting point; so the lines are those of the whole consumed part when
   delivery started at 0, and are not when it started behind any text.
   */
  lemma LossIsWhatWasSkipped(beats: seq<Beat>, limit: nat)
    ensures var g := Follow(beats, limit); g.from.Some? && g.from.value < g.offset ==>
              && g.offset <= |g.file|
              && WeightOf(Lines(g.file[..g.offset])) == Weight(g.file[..g.from.value]) + WeightOf(g.delivered)
              && (g.from.value == 0 ==> g.delivered == Lines(g.file[..g.offset]))
              && (Weight(g.file[..g.from.value]) > 0 ==> g.delivered != Lines(g.file[..g.offset]))
  {
    GenerationsAreFaithful(beats, limit);
    var g := Follow(beats, limit);
    if g.from.Some? && g.from.value < g.offset {
      SkippedWeight(g.file, g.from.value, g.offset);
      if g.from.value == 0 {
        assert g.file[0..g.offset] == g.file[..g.offset];
      }
    }
  }

  lemma SkippedWeight(file: string, b: nat, off: nat)
    requires b < off <= |file| && file[off - 1] == '\n'
    ensures WeightOf(Lines(file[..off])) == Weight(file[..b]) + WeightOf(Lines(file[b..off]))
  {
    assert file[..off] == file[..b] + file[b..off];
    WeightConcat(file[..b], file[b..off]);
    LinesWeighTheirText("", file[b..off]);
    LinesWeighTheirText("", file[..off]);
  }

  /**
   After a rotation the first fruitful poll decides, however often the new file grew and
   was looked at in vain before: a size below the stale offset makes delivery start at 0;
   otherwise it starts at the stale offset, and what the new file holds before that is
   never delivered.
   */
  lemma FirstFruitfulPollDecides(beats: seq<Beat>, size: nat, limit: nat)
    requires Follow(beats, limit).from.None?
    ensures var stale, polled := Follow(beats, limit), Follow(beats + [Polled(size)], limit);
            if Fruitful(stale, size, limit)
            then polled.from == Some(if size < stale.offset then 0 else stale.offset)
                 && polled.delivered == Lines(stale.file[polled.from.value..polled.offset])
            else polled == stale
  {
    assert (beats + [Polled(size)])[..|beats|] == beats;
    GenerationsAreFaithful(beats, limit);
    GenerationsAreFaithful(beats + [Polled(size)], limit);
    var stale := Follow(beats, limit);
    assert stale.delivered + [] == stale.delivered;
  }

  /** A rotation leaves a stale offset behind unless nothing was read of the old file. */
  lemma RotationLeavesOffset(beats: seq<Beat>, content: string, limit: nat)
    ensures var old', g := Follow(beats, limit), Follow(beats + [Replaced(content)], limit);
            g.offset == old'.offset && g.delivered == [] && (g.from.None? <==> old'.offset > 0)
  {
    assert (beats + [Replaced(content)])[..|beats|] == beats;
  }
}
