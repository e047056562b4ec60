/**
 The filter that keeps repeated progress messages of a copy job out of its log. A message starts
 with a header line, goes on with lines that match a known prefix and ends with a blank line.
 The two regular-expression tests are arbitrary predicates.
 */
module LogCutter {
  import opened Sequences
  import opened Wrappers

  datatype Patterns = Patterns(header: string -> bool, progress: string -> bool)

  // Nothing is left once trailing newlines are stripped.
  predicate Blank(line: string) {
    forall i :: 0 <= i < |line| ==> line[i] == '\n'
  }

  // The line without the newlines at its end.
  function Stripped(line: string): string {
    if line != "" && line[|line| - 1] == '\n' then Stripped(line[..|line| - 1]) else line
  }

  lemma {:induction false} BlankExactly(line: string)
    ensures Blank(line) <==> Stripped(line) == ""
  {
    if line != "" && line[|line| - 1] == '\n' {
      BlankExactly(line[..|line| - 1]);
      assert forall i :: 0 <= i < |line| - 1 ==> line[..|line| - 1][i] == line[i];
    }
  }

  function Join(lines: seq<string>): string {
    if lines == [] then "" else lines[0] + Join(lines[1..])
  }

  lemma {:induction false} JoinConcat(a: seq<string>, b: seq<string>)
    ensures Join(a + b) == Join(a) + Join(b)
  {
    if a == [] {
      assert a + b == b;
    } else {
      JoinConcat(a[1..], b);
      assert (a + b)[0] == a[0] && (a + b)[1..] == a[1..] + b;
      ConcatConcat(a[0], Join(a[1..]), Join(b));
    }
  }

  // --- Reference: what the log should contain ---------------------------------------------------------

  predicate Continues(p: Patterns, line: string) {
    !Blank(line) && p.progress(line)
  }

  // First position from `i` on whose line does not continue a message.
  function MessageEnd(p: Patterns, lines: seq<string>, i: nat): (k: nat)
    requires i <= |lines|
    ensures i <= k <= |lines|
    ensures forall j :: i <= j < k ==> Continues(p, lines[j])
    ensures k < |lines| ==> !Continues(p, lines[k])
    decreases |lines| - i
  {
    if i == |lines| || !Continues(p, lines[i]) then i else MessageEnd(p, lines, i + 1)
  }

  predicate StartsBlock(p: Patterns, lines: seq<string>) {
    && lines != [] && p.header(lines[0])
    && MessageEnd(p, lines, 1) < |lines| && Blank(lines[MessageEnd(p, lines, 1)])
  }

  predicate IsBlock(p: Patterns, lines: seq<string>) {
    && |lines| >= 2 && p.header(lines[0]) && Blank(lines[|lines| - 1])
    && forall j :: 1 <= j < |lines| - 1 ==> Continues(p, lines[j])
  }

  datatype Segment = Plain(line: string) | Block(lines: seq<string>)

  /** The input cut, from left to right, into complete progress messages and other lines. */
  function Segments(p: Patterns, lines: seq<string>): seq<Segment>
    decreases |lines|
  {
    if lines == [] then []
    else if StartsBlock(p, lines) then
      var n := MessageEnd(p, lines, 1) + 1;
      [Block(lines[..n])] + Segments(p, lines[n..])
    else [Plain(lines[0])] + Segments(p, lines[1..])
  }

  function LinesOf(g: Segment): seq<string> {
    match g case Plain(l) => [l] case Block(b) => b
  }

  function Flatten(segments: seq<Segment>): seq<string> {
    if segments == [] then [] else LinesOf(segments[0]) + Flatten(segments[1..])
  }

  lemma {:induction false} FlattenCons(g: Segment, rest: seq<Segment>)
    ensures Flatten([g] + rest) == LinesOf(g) + Flatten(rest)
  {
    assert ([g] + rest)[1..] == rest;
  }

  /** Everything but the messages whose number is not a multiple of `interval`, counting from `k`. */
  function Kept(segments: seq<Segment>, interval: nat, k: nat): seq<string>
    requires interval > 0
  {
    if segments == [] then []
    else
      match segments[0]
      case Plain(l) => [l] + Kept(segments[1..], interval, k)
      case Block(b) => (if k % interval == 0 then b else []) + Kept(segments[1..], interval, k + 1)
  }

  // How many of them are messages.
  function Messages(segments: seq<Segment>): nat {
    if segments == [] then 0 else (if segments[0].Block? then 1 else 0) + Messages(segments[1..])
  }

  lemma {:induction false} KeptConcat(s: seq<Segment>, t: seq<Segment>, interval: nat, k: nat)
    requires interval > 0
    ensures Kept(s + t, interval, k) == Kept(s, interval, k) + Kept(t, interval, k + Messages(s))
  {
    if s == [] {
      assert s + t == t;
    } else {
      assert (s + t)[0] == s[0] && (s + t)[1..] == s[1..] + t;
      var n := if s[0].Block? then k + 1 else k;
      KeptConcat(s[1..], t, interval, n);
      var first := match s[0] case Plain(l) => [l] case Block(b) => if k % interval == 0 then b else [];
      ConcatConcat(first, Kept(s[1..], interval, n), Kept(t, interval, k + Messages(s)));
    }
  }

  /** A message is there exactly if the number of messages before it is a multiple of the interval, and
      every other line is there. */
  lemma {:induction false} KeptExactly(before: seq<Segment>, g: Segment, after: seq<Segment>, interval: nat)
    requires interval > 0
    ensures Kept(before + ([g] + after), interval, 0) ==
            Kept(before, interval, 0)
            + (if g.Plain? || Messages(before) % interval == 0 then LinesOf(g) else [])
            + Kept(after, interval, Messages(before) + (if g.Block? then 1 else 0))
  {
    var n := Messages(before);
    KeptConcat(before, [g] + after, interval, 0);
    assert ([g] + after)[1..] == after;
    var first := if g.Plain? || n % interval == 0 then LinesOf(g) else [];
    ConcatConcat(Kept(before, interval, 0), first, Kept(after, interval, n + (if g.Block? then 1 else 0)));
  }

  /** The segments are a partition of the input ... */
  lemma {:induction false} SegmentsPartition(p: Patterns, lines: seq<string>)
    ensures Flatten(Segments(p, lines)) == lines
    decreases |lines|
  {
    if lines == [] {
    } else if StartsBlock(p, lines) {
      var n := MessageEnd(p, lines, 1) + 1;
      SegmentsPartition(p, lines[n..]);
      FlattenPart(Block(lines[..n]), Segments(p, lines[n..]), lines, n);
    } else {
      SegmentsPartition(p, lines[1..]);
      FlattenPart(Plain(lines[0]), Segments(p, lines[1..]), lines, 1);
    }
  }

  lemma {:induction false} FlattenPart(g: Segment, rest: seq<Segment>, lines: seq<string>, n: nat)
    requires n <= |lines| && LinesOf(g) == lines[..n] && Flatten(rest) == lines[n..]
    ensures Flatten([g] + rest) == lines
  {
    FlattenCons(g, rest);
    assert lines == lines[..n] + lines[n..];
  }

  /** ... and every block among them is a whole progress message. */
  lemma {:induction false} SegmentsBlocks(p: Patterns, lines: seq<string>)
    ensures forall g :: g in Segments(p, lines) && g.Block? ==> IsBlock(p, g.lines)
    decreases |lines|
  {
    if lines == [] {
    } else if StartsBlock(p, lines) {
      var n := MessageEnd(p, lines, 1) + 1;
      SegmentsBlocks(p, lines[n..]);
      assert IsBlock(p, lines[..n]);
    } else {
      SegmentsBlocks(p, lines[1..]);
    }
  }

  // A message that never meets its blank line is a run of plain lines.
  function Plains(lines: seq<string>): seq<Segment> {
    if lines == [] then [] else [Plain(lines[0])] + Plains(lines[1..])
  }

  // An open message ends where the lines behind it begin.
  lemma {:induction false} OpenEnd(p: Patterns, open: seq<string>, rest: seq<string>)
    requires open != [] && (forall j :: 1 <= j < |open| ==> Continues(p, open[j]))
    requires rest != [] ==> !Continues(p, rest[0])
    ensures MessageEnd(p, open + rest, 1) == |open|
  {
    var all, k := open + rest, MessageEnd(p, open + rest, 1);
    assert forall j :: 1 <= j < |open| ==> all[j] == open[j];
    assert k >= |open|;
    if rest != [] {
      assert all[|open|] == rest[0];
    }
  }

  lemma {:induction false} UnfinishedFirst(p: Patterns, open: seq<string>, rest: seq<string>)
    requires open != [] && (forall j :: 1 <= j < |open| ==> Continues(p, open[j]))
    requires rest != [] ==> !Blank(rest[0]) && !p.progress(rest[0])
    ensures Segments(p, open + rest) == [Plain(open[0])] + Segments(p, open[1..] + rest)
  {
    var all := open + rest;
    OpenEnd(p, open, rest);
    if rest != [] {
      assert all[|open|] == rest[0];
    }
    assert all[0] == open[0] && all[1..] == open[1..] + rest;
  }

  lemma {:induction false} Unfinished(p: Patterns, open: seq<string>, rest: seq<string>)
    requires forall j :: 1 <= j < |open| ==> Continues(p, open[j])
    requires rest != [] ==> !Blank(rest[0]) && !p.progress(rest[0])
    ensures Segments(p, open + rest) == Plains(open) + Segments(p, rest)
  {
    if open == [] {
      assert open + rest == rest;
      assert Plains(open) + Segments(p, rest) == Segments(p, rest);
    } else {
      UnfinishedFirst(p, open, rest);
      Unfinished(p, open[1..], rest);
      ConcatConcat([Plain(open[0])], Plains(open[1..]), Segments(p, rest));
    }
  }

  lemma {:induction false} KeptPlain(l: string, segments: seq<Segment>, interval: nat, k: nat)
    requires interval > 0
    ensures Kept([Plain(l)] + segments, interval, k) == [l] + Kept(segments, interval, k)
  {
    assert ([Plain(l)] + segments)[1..] == segments;
  }

  lemma {:induction false} KeptPlains(lines: seq<string>, segments: seq<Segment>, interval: nat, k: nat)
    requires interval > 0
    ensures Kept(Plains(lines) + segments, interval, k) == lines + Kept(segments, interval, k)
  {
    if lines == [] {
      assert Plains(lines) + segments == segments;
      assert lines + Kept(segments, interval, k) == Kept(segments, interval, k);
    } else {
      var l, rest := lines[0], lines[1..];
      calc {
        Kept(Plains(lines) + segments, interval, k);
      ==  { ConcatConcat([Plain(l)], Plains(rest), segments); }
        Kept([Plain(l)] + (Plains(rest) + segments), interval, k);
      ==  { KeptPlain(l, Plains(rest) + segments, interval, k); }
        [l] + Kept(Plains(rest) + segments, interval, k);
      ==  { KeptPlains(rest, segments, interval, k); }
        [l] + (rest + Kept(segments, interval, k));
      ==  { ConcatConcat([l], rest, Kept(segments, interval, k)); }
        ([l] + rest) + Kept(segments, interval, k);
      ==  { assert [l] + rest == lines; }
        lines + Kept(segments, interval, k);
      }
    }
  }

  lemma {:induction false} KeptBlock(p: Patterns, open: seq<string>, rest: seq<string>, interval: nat, k: nat)
    requires interval > 0 && open != [] && p.header(open[0]) && rest != [] && Blank(rest[0])
    requires forall j :: 1 <= j < |open| ==> Continues(p, open[j])
    ensures Kept(Segments(p, open + rest), interval, k) ==
            (if k % interval == 0 then open + [rest[0]] else []) + Kept(Segments(p, rest[1..]), interval, k + 1)
  {
    var all := open + rest;
    OpenEnd(p, open, rest);
    assert all[0] == open[0] && all[|open|] == rest[0];
    assert all[..|open| + 1] == open + [rest[0]] && all[|open| + 1..] == rest[1..];
    assert Segments(p, all)[1..] == Segments(p, rest[1..]);
  }

  // --- The filter ------------------------------------------------------------------------------------------

  datatype Step = Step(out: seq<string>, buffer: seq<string>, counter: nat)

  // What one call writes, and the fields it leaves behind.
  function Notified(p: Patterns, interval: nat, buffer: seq<string>, counter: nat, line: string): Step
    requires interval > 0
  {
    if buffer != [] then
      if !Blank(line) then
        if p.progress(line) then Step([], buffer + [line], counter)
        else if p.header(line) then Step(buffer, [line], counter)
        else Step(buffer + [line], [], counter)
      else Step(if counter % interval == 0 then buffer + [line] else [], [], counter + 1)
    else if p.header(line) then Step([], [line], counter)
    else Step([line], [], counter)
  }

  function Output(p: Patterns, interval: nat, buffer: seq<string>, counter: nat, lines: seq<string>): seq<string>
    requires interval > 0
    decreases |lines|
  {
    if lines == [] then buffer
    else
      var s := Notified(p, interval, buffer, counter, lines[0]);
      s.out + Output(p, interval, s.buffer, s.counter, lines[1..])
  }

  predicate OpenMessage(p: Patterns, buffer: seq<string>) {
    (buffer != [] ==> p.header(buffer[0])) && forall j :: 1 <= j < |buffer| ==> Continues(p, buffer[j])
  }

  // A line that is neither part of a message nor a header stands for itself.
  lemma {:induction false} PlainFirst(p: Patterns, lines: seq<string>)
    requires lines != [] && !p.header(lines[0])
    ensures Segments(p, lines) == [Plain(lines[0])] + Segments(p, [] + lines[1..])
  {
    assert [] + lines[1..] == lines[1..];
  }

  // One call, from each kind of state, agrees with the reference.
  lemma {:induction false} NotifiedKept(p: Patterns, interval: nat, buffer: seq<string>, counter: nat,
                                        lines: seq<string>)
    requires interval > 0 && OpenMessage(p, buffer) && lines != []
    ensures var s := Notified(p, interval, buffer, counter, lines[0]);
            && OpenMessage(p, s.buffer)
            && Kept(Segments(p, buffer + lines), interval, counter) ==
               s.out + Kept(Segments(p, s.buffer + lines[1..]), interval, s.counter)
  {
    var line, rest := lines[0], lines[1..];
    assert lines == [line] + rest;
    if buffer == [] {
      assert buffer + lines == lines;
      if !p.header(line) {
        PlainFirst(p, lines);
      }
    } else if Blank(line) {
      KeptBlock(p, buffer, lines, interval, counter);
      assert [] + rest == rest;
    } else if p.progress(line) {
      assert buffer + lines == (buffer + [line]) + rest;
    } else {
      NotifiedUnfinished(p, interval, buffer, counter, lines);
    }
  }

  lemma {:induction false} NotifiedUnfinished(p: Patterns, interval: nat, buffer: seq<string>, counter: nat,
                                              lines: seq<string>)
    requires interval > 0 && OpenMessage(p, buffer) && buffer != [] && lines != []
    requires !Blank(lines[0]) && !p.progress(lines[0])
    ensures var s := Notified(p, interval, buffer, counter, lines[0]);
            Kept(Segments(p, buffer + lines), interval, counter) ==
              s.out + Kept(Segments(p, s.buffer + lines[1..]), interval, s.counter)
  {
    Unfinished(p, buffer, lines);
    KeptPlains(buffer, Segments(p, lines), interval, counter);
    assert lines == [lines[0]] + lines[1..];
    if !p.header(lines[0]) {
      PlainFirst(p, lines);
      assert Segments(p, lines)[1..] == Segments(p, [] + lines[1..]);
    }
  }

  /** From any state the filter can be in, the rest of its output and the final flush are what the
      reference keeps of the buffered and the remaining lines. */
  lemma {:induction false} OutputIsKept(p: Patterns, interval: nat, buffer: seq<string>, counter: nat,
                                        lines: seq<string>)
    requires interval > 0 && OpenMessage(p, buffer)
    ensures Output(p, interval, buffer, counter, lines) == Kept(Segments(p, buffer + lines), interval, counter)
    decreases |lines|
  {
    if lines == [] {
      Unfinished(p, buffer, []);
      KeptPlains(buffer, [], interval, counter);
      assert Plains(buffer) + [] == Plains(buffer);
    } else {
      var s := Notified(p, interval, buffer, counter, lines[0]);
      NotifiedKept(p, interval, buffer, counter, lines);
      OutputIsKept(p, interval, s.buffer, s.counter, lines[1..]);
    }
  }

  class RcloneVerboseLogCutter {
    const p: Patterns
    const interval: nat
    var buffer: seq<string>
    var counter: nat

    ghost predicate Valid()
      reads this
    {
      interval > 0 && OpenMessage(p, buffer)
    }

    constructor (p: Patterns, interval: nat)
      requires interval > 0
      ensures Valid() && this.p == p && this.interval == interval && buffer == [] && counter == 0
    {
      this.p, this.interval := p, interval;
      buffer, counter := [], 0;
    }

    /** Take one line; the text to write to the log now, if any. */
    method Notify(line: string) returns (text: Option<string>)
      requires Valid()
      modifies this
      ensures Valid()
      ensures var s := Notified(p, interval, old(buffer), old(counter), line);
              && buffer == s.buffer && counter == s.counter
              && (if text.None? then s.out == [] else text.value == Join(s.out))
    {
      if buffer != [] {
        buffer := buffer + [line];
        if !Blank(line) {
          if p.progress(line) {
            text := None;
          } else {
            var newBuffer: seq<string> := [];
            if p.header(line) {
              buffer := buffer[..|buffer| - 1];
              newBuffer := [line];
            }
            var flushed := Flush();
            text := Some(flushed);
            buffer := newBuffer;
          }
        } else {
          text := if counter % interval == 0 then Some(Join(buffer)) else None;
          buffer, counter := [], counter + 1;
        }
      } else {
        if p.header(line) {
          buffer := buffer + [line];
          text := None;
        } else {
          assert Join([line]) == line + Join([]) == line;
          text := Some(line);
        }
      }
    }

    method Flush() returns (text: string)
      modifies this
      ensures text == Join(old(buffer)) && buffer == [] && counter == old(counter)
    {
      text := Join(buffer);
      buffer := [];
    }
  }

  /** A whole run: the log equals the input with only whole progress messages removed, and the
      k-th message is there exactly when k is a multiple of the interval. */
  method CutLog(p: Patterns, interval: nat, lines: seq<string>) returns (log: string)
    requires interval > 0
    ensures log == Join(Kept(Segments(p, lines), interval, 0))
  {
    var cutter := new RcloneVerboseLogCutter(p, interval);
    log := "";
    ghost var written: seq<string> := [];
    for i := 0 to |lines|
      invariant cutter.Valid() && cutter.p == p && cutter.interval == interval && fresh(cutter)
      invariant log == Join(written)
      invariant written + Output(p, interval, cutter.buffer, cutter.counter, lines[i..]) ==
                Output(p, interval, [], 0, lines)
    {
      ghost var s := Notified(p, interval, cutter.buffer, cutter.counter, lines[i]);
      var text := cutter.Notify(lines[i]);
      if text.Some? {
        log := log + text.value;
      }
      JoinConcat(written, s.out);
      assert lines[i..][0] == lines[i] && lines[i..][1..] == lines[i + 1..];
      ConcatConcat(written, s.out, Output(p, interval, s.buffer, s.counter, lines[i + 1..]));
      written := written + s.out;
    }
    JoinConcat(written, cutter.buffer);
    OutputIsKept(p, interval, [], 0, lines);
    assert [] + lines == lines;
    var rest := cutter.Flush();
    log := log + rest;
  }
}
