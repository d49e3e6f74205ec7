/** Live monitoring: an append-only event log, the handler that tails it over HTTP as server-sent events, and
    the client that interprets the stream. Strings stand for bytes, one character each. */
module LogTail {
  // ----- lines -----

  /** The complete lines of a text, without their newlines. */
  function Lines(s: string): seq<string> {
    if s == "" then []
    else
      var before := s[..|s| - 1];
      if s[|s| - 1] == '\n' then Lines(before) + [Partial(before)] else Lines(before)
  }

  /** What follows the last newline. */
  function Partial(s: string): (p: string)
    ensures '\n' !in p && |p| <= |s|
  {
    if s == "" || s[|s| - 1] == '\n' then "" else Partial(s[..|s| - 1]) + [s[|s| - 1]]
  }

  function Unlines(lines: seq<string>): string {
    if lines == [] then "" else Unlines(lines[..|lines| - 1]) + lines[|lines| - 1] + "\n"
  }

  /** Complete lines plus the rest are the text. */
  lemma {:induction false} LinesAreTheText(s: string)
    ensures Unlines(Lines(s)) + Partial(s) == s
  {
    if s != "" {
      var before, c := s[..|s| - 1], s[|s| - 1];
      LinesAreTheText(before);
      assert s == before + [c];
      OneCharMore(before, c);
      hide Lines, Partial;
      if c == '\n' {
        assert Unlines(Lines(s)) == s;
      } else {
        Regroup(Unlines(Lines(before)), Partial(before), [c]);
      }
    }
  }

  /** Splitting more text with the rest in front is splitting it all. */
  lemma {:induction false} LinesResume(a: string, b: string)
    ensures Lines(a + b) == Lines(a) + Lines(Partial(a) + b)
    ensures Partial(a + b) == Partial(Partial(a) + b)
  {
    hide Lines, Partial;
    if b == "" {
      assert a + b == a && Partial(a) + b == Partial(a);
      NoNewline(Partial(a));
    } else {
      var front, last := b[..|b| - 1], b[|b| - 1];
      assert b == front + [last];
      LinesResume(a, front);
      ResumeStep(a, front, last);
    }
  }

  lemma ResumeStep(a: string, front: string, c: char)
    requires Lines(a + front) == Lines(a) + Lines(Partial(a) + front) && Partial(a + front) == Partial(Partial(a) + front)
    ensures Lines(a + (front + [c])) == Lines(a) + Lines(Partial(a) + (front + [c]))
    ensures Partial(a + (front + [c])) == Partial(Partial(a) + (front + [c]))
  {
    hide Lines, Partial;
    Regroup(a, front, [c]);
    Regroup(Partial(a), front, [c]);
    OneCharMore(a + front, c);
    OneCharMore(Partial(a) + front, c);
    Regroup(Lines(a), Lines(Partial(a) + front), [Partial(a + front)]);
  }

  lemma Regroup<T>(a: seq<T>, b: seq<T>, c: seq<T>)
    ensures (a + b) + c == a + (b + c)
  {}

  lemma OneCharMore(s: string, c: char)
    ensures Lines(s + [c]) == if c == '\n' then Lines(s) + [Partial(s)] else Lines(s)
    ensures Partial(s + [c]) == if c == '\n' then "" else Partial(s) + [c]
  {
    assert (s + [c])[..|s|] == s;
  }

  lemma {:induction false} NoNewline(s: string)
    requires '\n' !in s
    ensures Lines(s) == [] && Partial(s) == s
  {
    if s != "" { NoNewline(s[..|s| - 1]); }
  }

  lemma OneLine(line: string)
    requires '\n' !in line
    ensures Lines(line + "\n") == [line] && Partial(line + "\n") == ""
  {
    NoNewline(line);
    assert (line + "\n")[..|line|] == line;
  }

  lemma LinesGrow(a: string, b: string)
    requires a <= b
    ensures Lines(a) <= Lines(b)
  {
    LinesResume(a, b[|a|..]);
    assert b == a + b[|a|..];
  }

  // ----- the log -----

  predicate IsSpace(c: char) { c == ' ' || c == '\t' || c == '\n' || c == '\r' || c == 11 as char || c == 12 as char }

  /** One event as written: JSON text of an object has no control characters and starts and ends with a brace. */
  predicate IsRecord(line: string) {
    line != "" && '\n' !in line && '\r' !in line && !IsSpace(line[0]) && !IsSpace(line[|line| - 1])
  }

  predicate AreRecords(records: seq<string>) { forall k :: 0 <= k < |records| ==> IsRecord(records[k]) }

  class EventLog {
    var file: string
    ghost var records: seq<string>

    ghost predicate Valid()
      reads this
    {
      AreRecords(records) && file == Unlines(records)
    }

    constructor ()
      ensures Valid() && records == []
    {
      file, records := "", [];
    }

    method Emit(line: string)
      requires Valid() && IsRecord(line)
      modifies this
      ensures Valid() && records == old(records) + [line] && file == old(file) + line + "\n"
    {
      file := file + line + "\n";
      records := records + [line];
      assert records[..|records| - 1] == old(records);
    }
  }

  lemma {:induction false} LinesOfTheLog(records: seq<string>)
    requires AreRecords(records)
    ensures Lines(Unlines(records)) == records && Partial(Unlines(records)) == ""
  {
    hide Lines, Partial, IsSpace;
    if records == [] {
      NoNewline("");
    } else {
      var before, last := records[..|records| - 1], records[|records| - 1];
      LinesOfTheLog(before);
      LinesResume(Unlines(before), last + "\n");
      assert Unlines(records) == Unlines(before) + (last + "\n");
      assert "" + (last + "\n") == last + "\n";
      OneLine(last);
    }
  }

  // ----- the handler -----

  /** What the handler writes: a reset event, a data frame, a comment. */
  datatype Frame = Reset | Data(line: string) | Comment(text: string)

  function Wire(f: Frame): string {
    match f
    case Reset => "event: reset\ndata: {}\n\n"
    case Data(line) => "data: " + line + "\n\n"
    case Comment(text) => ": " + text + "\n\n"
  }

  function WireAll(frames: seq<Frame>): string {
    if frames == [] then "" else WireAll(frames[..|frames| - 1]) + Wire(frames[|frames| - 1])
  }

  /** Python's `bytes.strip()`. */
  function Strip(s: string): string {
    if s == "" then ""
    else if IsSpace(s[0]) then Strip(s[1..])
    else if IsSpace(s[|s| - 1]) then Strip(s[..|s| - 1])
    else s
  }

  /** The white space of section "Bytes and Bytearray Operations" of the Python library reference. */
  const WHITESPACE: set<int> := {9, 10, 11, 12, 13, 32}

  predicate Blank(s: string) { forall k :: 0 <= k < |s| ==> s[k] as int in WHITESPACE }

  ghost predicate BlankAround(s: string, t: string) { exists a, b :: s == a + t + b && Blank(a) && Blank(b) }

  /** Stripping takes away white space alone, and as much as there is at either end. */
  lemma {:induction false} StripTells(s: string)
    ensures BlankAround(s, Strip(s))
    ensures var t := Strip(s);
            t != "" ==> t[0] as int !in WHITESPACE && t[|t| - 1] as int !in WHITESPACE
  {
    hide BlankAround;
    if s != "" && IsSpace(s[0]) {
      StripTells(s[1..]);
      assert s == [s[0]] + s[1..];
      BlankInFront(s[0], s[1..], Strip(s));
    } else if s != "" && IsSpace(s[|s| - 1]) {
      StripTells(s[..|s| - 1]);
      assert s == s[..|s| - 1] + [s[|s| - 1]];
      BlankBehind(s[|s| - 1], s[..|s| - 1], Strip(s));
    } else {
      NothingAround(s);
    }
  }

  lemma NothingAround(s: string)
    ensures BlankAround(s, s)
  {
    assert s == "" + s + "" && Blank("");
  }

  lemma BlankInFront(c: char, s: string, t: string)
    requires BlankAround(s, t) && c as int in WHITESPACE
    ensures BlankAround([c] + s, t)
  {
    var a, b :| s == a + t + b && Blank(a) && Blank(b);
    assert [c] + (a + t + b) == ([c] + a) + t + b && Blank([c] + a);
  }

  lemma BlankBehind(c: char, s: string, t: string)
    requires BlankAround(s, t) && c as int in WHITESPACE
    ensures BlankAround(s + [c], t)
  {
    var a, b :| s == a + t + b && Blank(a) && Blank(b);
    assert (a + t + b) + [c] == a + t + (b + [c]) && Blank(b + [c]);
  }

  /** The data frames of some lines: stripped, blank ones dropped. */
  function Frames(lines: seq<string>): seq<Frame> {
    if lines == [] then []
    else
      var line := Strip(lines[|lines| - 1]);
      Frames(lines[..|lines| - 1]) + (if line != "" then [Data(line)] else [])
  }

  /** What one poll sees: the size of the file, if there is one, and its contents when it is then read. */
  datatype Look = Look(size: nat, contents: string) | NoFile

  /** `f.seek(from); f.read(to - from)` */
  function ReadRange(contents: string, from: nat, to: nat): string {
    if from <= |contents| && from <= to then contents[from..if to <= |contents| then to else |contents|] else ""
  }

  /** The handler between polls; `taken` is all it has read since the last reset. */
  datatype Tail = Tail(offset: nat, buffer: string, taken: string, frames: seq<Frame>)

  const START := Tail(0, "", "", [Reset])

  function Truncated(t: Tail, look: Look): Tail
    requires look.Look?
  {
    if look.size < t.offset then Tail(0, "", "", t.frames + [Reset]) else t
  }

  function Poll(t: Tail, look: Look): Tail {
    if look.NoFile? then t.(frames := t.frames + [Comment("waiting for events.jsonl")])
    else
      var u := Truncated(t, look);
      if look.size > u.offset then
        var got := ReadRange(look.contents, u.offset, look.size);
        Tail(look.size, Partial(u.buffer + got), u.taken + got, u.frames + Frames(Lines(u.buffer + got)))
      else
        u.(frames := u.frames + [Comment("ping")])
  }

  /** The state of `_stream_events` and the bytes it has written. */
  class Handler {
    var offset: nat
    var buffer: string
    var wire: string
    ghost var taken: string
    ghost var frames: seq<Frame>

    ghost function State(): Tail
      reads this
    {
      Tail(offset, buffer, taken, frames)
    }

    ghost predicate Valid()
      reads this
    {
      wire == WireAll(frames)
    }

    constructor ()
      ensures Valid() && State() == START
    {
      offset, buffer, wire := 0, "", "event: reset\ndata: {}\n\n";
      taken, frames := "", [Reset];
      new;
      assert frames[..0] == [];
    }

    method Write(ghost frame: Frame, bytes: string)
      requires Valid() && bytes == Wire(frame)
      modifies `wire, `frames
      ensures Valid() && frames == old(frames) + [frame]
    {
      hide Wire;
      wire := wire + bytes;
      frames := frames + [frame];
      assert frames[..|frames| - 1] == old(frames);
    }

    /** One turn of the loop. */
    method Turn(look: Look)
      requires Valid()
      modifies this
      ensures Valid() && State() == Poll(old(State()), look)
    {
      hide Frames, Lines, Partial, WireAll;
      if look.NoFile? {
        Write(Comment("waiting for events.jsonl"), ": waiting for events.jsonl\n\n");
        return;
      }
      if look.size < offset {
        offset, buffer, taken := 0, "", "";
        Write(Reset, "event: reset\ndata: {}\n\n");
      }
      if look.size > offset {
        var got := ReadRange(look.contents, offset, look.size);
        buffer := buffer + got;
        taken := taken + got;
        offset := look.size;
        var lines := Lines(buffer);
        buffer := Partial(buffer);
        WriteLines(lines);
      } else {
        Write(Comment("ping"), ": ping\n\n");
      }
    }

    method WriteLines(lines: seq<string>)
      requires Valid()
      modifies `wire, `frames
      ensures Valid() && frames == old(frames) + Frames(lines)
    {
      hide WireAll, Strip;
      for k := 0 to |lines|
        invariant Valid() && frames == old(frames) + Frames(lines[..k])
      {
        assert lines[..k + 1][..k] == lines[..k];
        var line := Strip(lines[k]);
        if line != "" { Write(Data(line), "data: " + line + "\n\n"); }
      }
      assert lines[..|lines|] == lines;
    }
  }

  // ----- what the handler keeps -----

  /** The frames after the last reset. */
  function SinceReset(frames: seq<Frame>): seq<Frame> {
    if frames == [] || frames[|frames| - 1].Reset? then []
    else SinceReset(frames[..|frames| - 1]) + [frames[|frames| - 1]]
  }

  function WithoutComments(frames: seq<Frame>): seq<Frame> {
    if frames == [] then []
    else WithoutComments(frames[..|frames| - 1])
         + (if frames[|frames| - 1].Comment? then [] else [frames[|frames| - 1]])
  }

  /** The data frames the client holds since the last reset. */
  function Shown(frames: seq<Frame>): seq<Frame> { WithoutComments(SinceReset(frames)) }

  /** Whatever the file did: the lines taken since the last reset and the buffer are exactly what was read, and
      exactly those lines are shown. */
  ghost predicate Consistent(t: Tail) {
    t.buffer == Partial(t.taken) && Shown(t.frames) == Frames(Lines(t.taken))
  }

  lemma ShownAppend(frames: seq<Frame>, f: Frame)
    ensures Shown(frames + [f])
            == match f case Reset => [] case Data(_) => Shown(frames) + [f] case Comment(_) => Shown(frames)
  {
    assert (frames + [f])[..|frames|] == frames;
    var s := SinceReset(frames);
    assert (s + [f])[..|s|] == s;
  }

  lemma {:induction false} FramesAppend(a: seq<string>, b: seq<string>)
    ensures Frames(a + b) == Frames(a) + Frames(b)
  {
    hide Frames, Strip;
    if b == [] {
      assert a + b == a && Frames(b) == [] by { NoFrames(b); }
    } else {
      var before, last := b[..|b| - 1], b[|b| - 1];
      FramesAppend(a, before);
      assert b == before + [last] && a + b == (a + before) + [last];
      FramesStep(before, last);
      FramesStep(a + before, last);
    }
  }

  lemma NoFrames(lines: seq<string>)
    requires lines == []
    ensures Frames(lines) == []
  {}

  lemma FramesStep(lines: seq<string>, line: string)
    ensures Frames(lines + [line]) == Frames(lines) + (if Strip(line) != "" then [Data(Strip(line))] else [])
  {
    hide Strip;
    assert (lines + [line])[..|lines|] == lines;
  }

  lemma {:induction false} ShownData(frames: seq<Frame>, lines: seq<string>)
    ensures Shown(frames + Frames(lines)) == Shown(frames) + Frames(lines)
  {
    hide Shown, Strip;
    if lines == [] {
      assert frames + Frames(lines) == frames;
    } else {
      var before, line := lines[..|lines| - 1], Strip(lines[|lines| - 1]);
      ShownData(frames, before);
      if line != "" {
        ShownAppend(frames + Frames(before), Data(line));
        assert frames + Frames(lines) == frames + Frames(before) + [Data(line)];
      } else {
        assert Frames(lines) == Frames(before);
      }
    }
  }

  lemma StartIsConsistent()
    ensures Consistent(START)
  {}

  /** Every poll keeps it, for any look whatever. */
  lemma {:induction false} PollKeepsConsistent(t: Tail, look: Look)
    requires Consistent(t)
    ensures Consistent(Poll(t, look))
  {
    hide Shown, Frames, Lines, Partial;
    if look.NoFile? {
      ShownAppend(t.frames, Comment("waiting for events.jsonl"));
    } else {
      TruncatedKeepsConsistent(t, look);
      var u := Truncated(t, look);
      if look.size > u.offset {
        var got := ReadRange(look.contents, u.offset, look.size);
        LinesResume(u.taken, got);
        FramesAppend(Lines(u.taken), Lines(u.buffer + got));
        ShownData(u.frames, Lines(u.buffer + got));
      } else {
        ShownAppend(u.frames, Comment("ping"));
      }
    }
  }

  lemma TruncatedKeepsConsistent(t: Tail, look: Look)
    requires Consistent(t) && look.Look?
    ensures Consistent(Truncated(t, look))
  {
    hide Shown;
    ShownAppend(t.frames, Reset);
  }

  /** Only data, in any number. */
  predicate AllData(frames: seq<Frame>) { forall k :: 0 <= k < |frames| ==> frames[k].Data? }

  /** Whatever the handler writes at a poll. Without a file: that it waits. Else a reset first, exactly if the file is
      shorter than what was read; then data alone, or one ping exactly if there is nothing to read. */
  lemma {:induction false} PollWrites(t: Tail, look: Look)
    ensures var now := Poll(t, look).frames;
            && t.frames <= now
            && (look.NoFile? ==> now == t.frames + [Comment("waiting for events.jsonl")])
            && (look.Look? ==>
                  var turn := t.frames + if look.size < t.offset then [Reset] else [];
                  && turn <= now
                  && (if look.size == 0 || look.size == t.offset then now == turn + [Comment("ping")]
                      else AllData(now[|turn|..])))
  {
    hide Lines, Partial, Strip, Frames;
    if look.Look? {
      var u := Truncated(t, look);
      OnlyData(Lines(u.buffer + ReadRange(look.contents, u.offset, look.size)));
    }
  }

  lemma {:induction false} OnlyData(lines: seq<string>)
    ensures AllData(Frames(lines))
  {
    hide Strip;
    if lines != [] { OnlyData(lines[..|lines| - 1]); }
  }

  // ----- in step with the file -----

  /** The handler has read exactly the file's first `offset` bytes. */
  predicate InStep(t: Tail, file: string) { t.offset <= |file| && t.taken == file[..t.offset] }

  /** A poll ends in step with the file it read exactly when the file was not cut short between the size and
      the read, and the file either had visibly shrunk or still starts with everything read before. */
  lemma {:induction false} PollInStep(t: Tail, look: Look)
    requires look.Look?
    ensures InStep(Poll(t, look), look.contents) <==>
            look.size <= |look.contents|
            && (look.size < t.offset || t.taken == look.contents[..t.offset])
  {
    hide Frames, Lines, Partial;
    var u := Truncated(t, look);
    if look.size > u.offset && look.size <= |look.contents| {
      var got := ReadRange(look.contents, u.offset, look.size);
      assert look.contents[..look.size] == look.contents[..u.offset] + got;
      if u.taken + got == look.contents[..look.size] {
        assert |u.taken| == u.offset;
        assert (u.taken + got)[..u.offset] == u.taken;
      }
    }
  }

  /** Looks at an append-only file: each size is of the contents then or earlier, and nothing seen is rewritten. */
  predicate AppendOnly(looks: seq<Look>, final: string) {
    && (forall k :: 0 <= k < |looks| && looks[k].Look? ==>
          looks[k].size <= |looks[k].contents| && looks[k].contents <= final)
    && (forall k, l :: 0 <= k < l < |looks| && looks[k].Look? && looks[l].Look? ==> looks[k].size <= looks[l].size)
  }

  function PollAll(t: Tail, looks: seq<Look>): Tail {
    if looks == [] then t else Poll(PollAll(t, looks[..|looks| - 1]), looks[|looks| - 1])
  }

  /** The size of the last look that found the file. */
  function LastSize(looks: seq<Look>, offset: nat): nat {
    if looks == [] then offset
    else if looks[|looks| - 1].Look? then looks[|looks| - 1].size
    else LastSize(looks[..|looks| - 1], offset)
  }

  lemma {:induction false} LastSizeIsLargest(looks: seq<Look>, final: string, offset: nat)
    requires AppendOnly(looks, final) && offset <= |final|
    requires forall k :: 0 <= k < |looks| && looks[k].Look? ==> offset <= looks[k].size
    ensures offset <= LastSize(looks, offset) <= |final|
    ensures forall k :: 0 <= k < |looks| && looks[k].Look? ==> looks[k].size <= LastSize(looks, offset)
  {
    if looks != [] && looks[|looks| - 1].NoFile? { LastSizeIsLargest(looks[..|looks| - 1], final, offset); }
  }

  /** However the writer's appends fall between the polls, the handler stays in step with the log. */
  lemma {:induction false} AppendOnlyStaysInStep(t: Tail, looks: seq<Look>, final: string)
    requires AppendOnly(looks, final) && Consistent(t) && InStep(t, final)
    requires forall k :: 0 <= k < |looks| && looks[k].Look? ==> t.offset <= looks[k].size
    ensures var u := PollAll(t, looks);
            Consistent(u) && InStep(u, final) && u.offset == LastSize(looks, t.offset)
  {
    hide Consistent, Poll, LastSize;
    if looks == [] {
      assert LastSize(looks, t.offset) == t.offset by { NoLooks(t.offset); }
    } else {
      var before, look := looks[..|looks| - 1], looks[|looks| - 1];
      AppendOnlyStaysInStep(t, before, final);
      var u := PollAll(t, before);
      PollKeepsConsistent(u, look);
      LastSizeIsLargest(before, final, t.offset);
      NextSize(looks, final, t.offset);
      PollForward(u, look, final);
    }
  }

  lemma NoLooks(offset: nat)
    ensures LastSize([], offset) == offset
  {}

  lemma NextSize(looks: seq<Look>, final: string, offset: nat)
    requires AppendOnly(looks, final) && looks != []
    requires forall k :: 0 <= k < |looks| && looks[k].Look? ==> offset <= looks[k].size
    ensures var before, look := looks[..|looks| - 1], looks[|looks| - 1];
            && LastSize(looks, offset) == (if look.Look? then look.size else LastSize(before, offset))
            && (look.Look? ==> LastSize(before, offset) <= look.size)
  {
    var before := looks[..|looks| - 1];
    if looks[|looks| - 1].Look? { SizeOfSome(before, offset); }
  }

  lemma {:induction false} SizeOfSome(looks: seq<Look>, offset: nat)
    ensures LastSize(looks, offset) == offset
            || exists k :: 0 <= k < |looks| && looks[k].Look? && looks[k].size == LastSize(looks, offset)
  {
    if looks != [] && looks[|looks| - 1].NoFile? {
      SizeOfSome(looks[..|looks| - 1], offset);
    }
  }

  /** One poll that sees no less than before. */
  lemma PollForward(t: Tail, look: Look, final: string)
    requires InStep(t, final)
    requires look.Look? ==> t.offset <= look.size <= |look.contents| && look.contents <= final
    ensures InStep(Poll(t, look), final)
    ensures Poll(t, look).offset == if look.Look? then look.size else t.offset
  {
    hide Frames, Lines, Partial;
    if look.Look? {
      assert t.taken == look.contents[..t.offset];
      PollInStep(t, look);
      assert look.contents[..look.size] == final[..look.size];
    }
  }

  // ----- what the client shows -----

  lemma {:induction false} FramesOfRecords(records: seq<string>)
    requires AreRecords(records)
    ensures Frames(records) == seq(|records|, k requires 0 <= k < |records| => Data(records[k]))
  {
    if records != [] {
      var before, last := records[..|records| - 1], records[|records| - 1];
      FramesOfRecords(before);
      assert Strip(last) == last != "";
      hide Strip;
    }
  }

  /** In step with a log of records, the client shows the first of them, each whole and once; all of them when the
      handler has read the whole log. */
  lemma {:induction false} ShownIsAPrefix(t: Tail, records: seq<string>)
    requires AreRecords(records) && Consistent(t) && InStep(t, Unlines(records))
    ensures var n := |Lines(t.taken)|;
            && n <= |records| && Shown(t.frames) == seq(n, k requires 0 <= k < n => Data(records[k]))
            && Unlines(records[..n]) + t.buffer == Unlines(records)[..t.offset]
            && (t.offset == |Unlines(records)| ==> n == |records|)
  {
    hide Shown, Frames, Lines, Partial, Unlines;
    LinesOfTheLog(records);
    LinesGrow(t.taken, Unlines(records));
    LinesAreTheText(t.taken);
    var n := |Lines(t.taken)|;
    assert Lines(t.taken) == records[..n];
    FramesOfRecords(records[..n]);
    if t.offset == |Unlines(records)| { assert t.taken == Unlines(records); }
  }

  /** A client connected to a growing log has, after any polls, the first records, and all once a poll has seen
      the whole log. */
  lemma {:induction false} TailIsFaithful(looks: seq<Look>, records: seq<string>)
    requires AreRecords(records) && AppendOnly(looks, Unlines(records))
    ensures var u := PollAll(START, looks);
            var n := |Lines(u.taken)|;
            && n <= |records| && Shown(u.frames) == seq(n, k requires 0 <= k < n => Data(records[k]))
            && (LastSize(looks, 0) == |Unlines(records)| ==> n == |records|)
  {
    hide Shown, Frames, Lines, Partial, Unlines, Consistent, LastSize, PollAll;
    StartIsConsistent();
    AppendOnlyStaysInStep(START, looks, Unlines(records));
    ShownIsAPrefix(PollAll(START, looks), records);
  }

  /** After an observed truncation the client starts again on the new log. */
  lemma {:induction false} TruncationStartsAgain(t: Tail, look: Look, records: seq<string>)
    requires Consistent(t) && look.Look? && look.size < t.offset
    requires AreRecords(records) && look.size <= |look.contents| && look.contents <= Unlines(records)
    ensures var u := Poll(t, look);
            var n := |Lines(u.taken)|;
            && u.offset == look.size && n <= |records|
            && Shown(u.frames) == seq(n, k requires 0 <= k < n => Data(records[k]))
  {
    hide Shown, Frames, Lines, Partial, Unlines, Consistent;
    PollKeepsConsistent(t, look);
    PollInStep(t, look);
    assert look.contents[..look.size] == Unlines(records)[..look.size];
    ShownIsAPrefix(Poll(t, look), records);
  }

  // ----- the client: section 9.2.6 of the WHATWG HTML Living Standard -----

  datatype Event = Event(kind: string, data: string)

  /** The event under construction and those dispatched so far. */
  datatype Interpreter = Interpreter(events: seq<Event>, data: string, kind: string)

  function Colon(line: string, from: nat): (k: nat)
    requires from <= |line|
    ensures from <= k <= |line| && (k < |line| ==> line[k] == ':')
    ensures forall i :: from <= i < k ==> line[i] != ':'
    decreases |line| - from
  {
    if from < |line| && line[from] != ':' then Colon(line, from + 1) else from
  }

  /** The field after the colon, without one leading space. */
  function FieldValue(line: string, colon: nat): string
    requires colon <= |line|
  {
    if colon == |line| then ""
    else if colon + 1 < |line| && line[colon + 1] == ' ' then line[colon + 2..]
    else line[colon + 1..]
  }

  function Field(p: Interpreter, name: string, value: string): Interpreter {
    if name == "event" then p.(kind := value)
    else if name == "data" then p.(data := p.data + value + "\n")
    else p
  }

  function ReadLine(p: Interpreter, line: string): Interpreter {
    if line == "" then
      if p.data == "" then Interpreter(p.events, "", "")
      else Interpreter(p.events + [Event(if p.kind == "" then "message" else p.kind, p.data[..|p.data| - 1])], "", "")
    else if line[0] == ':' then p
    else Field(p, line[..Colon(line, 0)], FieldValue(line, Colon(line, 0)))
  }

  function ReadLines(p: Interpreter, lines: seq<string>): Interpreter
    decreases |lines|
  {
    if lines == [] then p else ReadLines(ReadLine(p, lines[0]), lines[1..])
  }

  /** Carriage returns end lines too. */
  function LineFeeds(s: string): string {
    if s == "" then ""
    else if s[0] != '\r' then [s[0]] + LineFeeds(s[1..])
    else if |s| > 1 && s[1] == '\n' then ['\n'] + LineFeeds(s[2..])
    else ['\n'] + LineFeeds(s[1..])
  }

  function Interpret(stream: string): seq<Event> {
    ReadLines(Interpreter([], "", ""), Lines(LineFeeds(stream))).events
  }

  /** What a frame is meant to be for the client. */
  function EventsOf(f: Frame): seq<Event> {
    match f
    case Reset => [Event("reset", "{}")]
    case Data(line) => [Event("message", line)]
    case Comment(_) => []
  }

  function EventsOfAll(frames: seq<Frame>): seq<Event> {
    if frames == [] then [] else EventsOfAll(frames[..|frames| - 1]) + EventsOf(frames[|frames| - 1])
  }

  /** A frame that stays on its line. */
  predicate Clean(f: Frame) {
    match f
    case Reset => true
    case Data(line) => '\n' !in line && '\r' !in line
    case Comment(text) => '\n' !in text && '\r' !in text
  }

  lemma {:induction false} NoCarriageReturns(s: string)
    requires '\r' !in s
    ensures LineFeeds(s) == s
  {
    if s != "" {
      assert forall k :: 0 <= k < |s[1..]| ==> s[1..][k] in s;
      NoCarriageReturns(s[1..]);
    }
  }

  /** The two lines a frame starts with, for a frame of one or two fields. */
  function WireLines(f: Frame): seq<string> {
    match f
    case Reset => ["event: reset", "data: {}", ""]
    case Data(line) => ["data: " + line, ""]
    case Comment(text) => [": " + text, ""]
  }

  lemma FrameLines(f: Frame)
    requires Clean(f)
    ensures Lines(Wire(f)) == WireLines(f) && Partial(Wire(f)) == "" && '\r' !in Wire(f)
  {
    hide Lines, Partial;
    match f
    case Reset =>
      var first, second := "event: reset", "data: {}";
      assert Wire(f) == (first + "\n") + (second + "\n\n");
      TwoLines(second);
      OneLine(first);
      LinesResume(first + "\n", second + "\n\n");
      assert "" + (second + "\n\n") == second + "\n\n";
    case Data(line) =>
      TwoLines("data: " + line);
    case Comment(text) =>
      TwoLines(": " + text);
  }

  lemma TwoLines(line: string)
    requires '\n' !in line
    ensures Lines(line + "\n\n") == [line, ""] && Partial(line + "\n\n") == ""
  {
    hide Lines, Partial;
    assert line + "\n\n" == (line + "\n") + "\n";
    LinesResume(line + "\n", "\n");
    OneLine(line);
    OneLine("");
    assert "" + "\n" == "\n";
  }

  lemma {:induction false} ReadMore(p: Interpreter, a: seq<string>, b: seq<string>)
    ensures ReadLines(p, a + b) == ReadLines(ReadLines(p, a), b)
    decreases |a|
  {
    hide ReadLine;
    if a == [] {
      assert a + b == b;
    } else {
      ReadMore(ReadLine(p, a[0]), a[1..], b);
      assert (a + b)[1..] == a[1..] + b;
    }
  }

  lemma ReadTwo(p: Interpreter, a: string, b: string)
    ensures ReadLines(p, [a, b]) == ReadLine(ReadLine(p, a), b)
  {
    hide ReadLine;
    ReadMore(p, [a], [b]);
    assert [a] + [b] == [a, b];
  }

  lemma DataLine(p: Interpreter, value: string)
    ensures ReadLine(p, "data: " + value) == p.(data := p.data + value + "\n")
  {
    var line := "data: " + value;
    assert Colon(line, 0) == 4 by { assert line[4] == ':'; }
    assert line[..4] == "data" && line[6..] == value;
  }

  lemma EventLine(p: Interpreter)
    ensures ReadLine(p, "event: reset") == p.(kind := "reset")
  {
    var line := "event: reset";
    assert Colon(line, 0) == 5 by { assert line[5] == ':'; }
    assert line[..5] == "event" && line[7..] == "reset";
  }

  /** Between frames nothing is pending, and each frame dispatches its own event. */
  lemma ReadFrame(events: seq<Event>, f: Frame)
    ensures ReadLines(Interpreter(events, "", ""), WireLines(f)) == Interpreter(events + EventsOf(f), "", "")
  {
    hide Field, Colon, FieldValue;
    var p := Interpreter(events, "", "");
    match f
    case Reset =>
      EventLine(p);
      ReadMore(p, ["event: reset"], ["data: {}", ""]);
      assert ["event: reset"] + ["data: {}", ""] == WireLines(f);
      ReadTwo(p.(kind := "reset"), "data: {}", "");
      assert "data: {}" == "data: " + "{}";
      DataLine(p.(kind := "reset"), "{}");
      assert ("" + "{}" + "\n")[..2] == "{}";
    case Data(line) =>
      ReadTwo(p, "data: " + line, "");
      DataLine(p, line);
      assert ("" + line + "\n")[..|line|] == line;
    case Comment(text) =>
      ReadTwo(p, ": " + text, "");
  }

  lemma {:induction false} WireReads(frames: seq<Frame>)
    requires forall k :: 0 <= k < |frames| ==> Clean(frames[k])
    ensures Partial(WireAll(frames)) == "" && '\r' !in WireAll(frames)
    ensures ReadLines(Interpreter([], "", ""), Lines(WireAll(frames))) == Interpreter(EventsOfAll(frames), "", "")
  {
    hide Wire, WireLines, Clean, Lines, Partial, ReadLine, EventsOf;
    if frames == [] {
      NoNewline("");
    } else {
      var before, f := frames[..|frames| - 1], frames[|frames| - 1];
      WireReads(before);
      FrameLines(f);
      LinesResume(WireAll(before), Wire(f));
      assert "" + Wire(f) == Wire(f);
      ReadMore(Interpreter([], "", ""), Lines(WireAll(before)), WireLines(f));
      ReadFrame(EventsOfAll(before), f);
    }
  }

  /** Whatever clean frames are written, the client dispatches exactly their events. */
  lemma {:induction false} ClientReadsTheFrames(frames: seq<Frame>)
    requires forall k :: 0 <= k < |frames| ==> Clean(frames[k])
    ensures Interpret(WireAll(frames)) == EventsOfAll(frames)
  {
    hide WireAll, Clean, Lines, ReadLines, EventsOfAll, LineFeeds;
    WireReads(frames);
    NoCarriageReturns(WireAll(frames));
  }

  /** One reset, at the start, and comments that stay on their line. */
  ghost predicate OneReset(frames: seq<Frame>) {
    && frames != [] && frames[0].Reset?
    && forall k :: 0 < k < |frames| ==> !frames[k].Reset? && (frames[k].Comment? ==> Clean(frames[k]))
  }

  lemma {:induction false} FramesAreData(lines: seq<string>)
    ensures forall k :: 0 <= k < |Frames(lines)| ==> Frames(lines)[k].Data?
  {
    hide Strip;
    if lines != [] { FramesAreData(lines[..|lines| - 1]); }
  }

  lemma StillOneReset(frames: seq<Frame>, more: seq<Frame>)
    requires OneReset(frames)
    requires forall k :: 0 <= k < |more| ==> !more[k].Reset? && (more[k].Comment? ==> Clean(more[k]))
    ensures OneReset(frames + more)
  {
    hide Clean;
  }

  lemma CommentsAreClean()
    ensures Clean(Comment("ping")) && Clean(Comment("waiting for events.jsonl"))
  {
    hide Clean;
    CleanWaiting();
    CleanPing();
  }

  lemma CleanPing()
    ensures Clean(Comment("ping"))
  {}

  lemma CleanWaiting()
    ensures Clean(Comment("waiting for events.jsonl"))
  {
    var text := "waiting for events.jsonl";
    forall k | 0 <= k < |text| ensures text[k] != '\n' && text[k] != '\r' {}
  }

  lemma PollKeepsOneReset(t: Tail, look: Look)
    requires OneReset(t.frames) && (look.Look? ==> t.offset <= look.size)
    ensures OneReset(Poll(t, look).frames)
  {
    hide Frames, Lines, Partial, OneReset, Clean;
    CommentsAreClean();
    if look.NoFile? {
      StillOneReset(t.frames, [Comment("waiting for events.jsonl")]);
    } else if look.size > t.offset {
      var lines := Lines(t.buffer + ReadRange(look.contents, t.offset, look.size));
      FramesAreData(lines);
      StillOneReset(t.frames, Frames(lines));
    } else {
      StillOneReset(t.frames, [Comment("ping")]);
    }
  }

  lemma {:induction false} GrowingKeepsOneReset(looks: seq<Look>, final: string)
    requires AppendOnly(looks, final)
    ensures OneReset(PollAll(START, looks).frames)
  {
    hide Consistent, OneReset, Poll, LastSize;
    if looks == [] {
      StartsWithReset();
    } else {
      var before := looks[..|looks| - 1];
      GrowingKeepsOneReset(before, final);
      StartIsConsistent();
      AppendOnlyStaysInStep(START, before, final);
      NextSize(looks, final, 0);
      PollKeepsOneReset(PollAll(START, before), looks[|looks| - 1]);
    }
  }

  lemma StartsWithReset()
    ensures OneReset(START.frames)
  {}

  /** After its one reset the client dispatches what is shown. */
  lemma {:induction false} OneResetEvents(frames: seq<Frame>)
    requires OneReset(frames) && forall k :: 0 <= k < |Shown(frames)| ==> Clean(Shown(frames)[k])
    ensures EventsOfAll(frames) == [Event("reset", "{}")] + EventsOfAll(Shown(frames))
    ensures forall k :: 0 <= k < |frames| ==> Clean(frames[k])
  {
    hide Shown, Clean;
    var before, f := frames[..|frames| - 1], frames[|frames| - 1];
    assert frames == before + [f];
    ShownAppend(before, f);
    if before == [] {
      ResetIsClean();
    } else {
      var shown := Shown(before);
      assert f.Data? ==> Shown(frames)[..|shown|] == shown && Shown(frames)[|shown|] == f;
      forall k | 0 <= k < |shown| ensures Clean(shown[k]) { assert Shown(frames)[k] == shown[k]; }
      OneResetEvents(before);
    }
  }

  lemma ResetIsClean()
    ensures Clean(Reset)
  {}

  /** A log with the polls that look at it; the records are those it ends up with. */
  datatype Watched = Watched(looks: seq<Look>, records: seq<string>)
  {
    predicate Growing() { AreRecords(records) && AppendOnly(looks, Unlines(records)) }

    /** How far the polls have read, and how many records are complete there. */
    function Offset(): nat { LastSize(looks, 0) }

    function Read(): nat
      requires Offset() <= |Unlines(records)|
    {
      |Lines(Unlines(records)[..Offset()])|
    }

    /** One reset, then the first records, each as one message. */
    function Events(): seq<Event>
      requires Offset() <= |Unlines(records)| && Read() <= |records|
    {
      [Event("reset", "{}")] + seq(Read(), k requires 0 <= k < Read() => Event("message", records[k]))
    }
  }

  lemma OffsetInLog(w: Watched)
    requires w.Growing()
    ensures w.Offset() <= |Unlines(w.records)| && w.Read() <= |w.records|
    ensures w.Offset() == |Unlines(w.records)| ==> w.Read() == |w.records|
  {
    hide Lines, Unlines, LastSize, AreRecords;
    var text := Unlines(w.records);
    LastSizeIsLargest(w.looks, text, 0);
    LinesOfTheLog(w.records);
    LinesGrow(text[..w.Offset()], text);
    if w.Offset() == |text| { assert text[..w.Offset()] == text; }
  }

  /** The frames of a growing log, from a fresh start. */
  lemma {:induction false} FramesOfALog(w: Watched)
    requires w.Growing()
    ensures w.Offset() <= |Unlines(w.records)| && w.Read() <= |w.records|
    ensures var u := PollAll(START, w.looks);
            && u.offset == w.Offset() && EventsOfAll(u.frames) == w.Events()
            && forall k :: 0 <= k < |u.frames| ==> Clean(u.frames[k])
  {
    hide Shown, Frames, Lines, Partial, Unlines, Consistent, LastSize, PollAll, Interpret, EventsOfAll, OneReset, Clean;
    hide AreRecords, AppendOnly;
    OffsetInLog(w);
    var text := Unlines(w.records);
    var u := PollAll(START, w.looks);
    StartIsConsistent();
    AppendOnlyStaysInStep(START, w.looks, text);
    ShownIsAPrefix(u, w.records);
    GrowingKeepsOneReset(w.looks, text);
    var n := w.Read();
    RecordsAreClean(w.records);
    OneResetEvents(u.frames);
    DataEvents(w.records[..n]);
    assert Shown(u.frames) == seq(n, k requires 0 <= k < n => Data(w.records[..n][k]));
  }

  lemma RecordsAreClean(records: seq<string>)
    requires AreRecords(records)
    ensures forall k :: 0 <= k < |records| ==> Clean(Data(records[k]))
  {
    hide Strip;
  }

  /** From bytes to bytes: a client of a growing log is told to reset once and then gets the first records, each
      as one message, whatever the polls saw. */
  lemma {:induction false} ClientSeesTheLog(looks: seq<Look>, records: seq<string>)
    requires AreRecords(records) && AppendOnly(looks, Unlines(records))
    ensures var u := PollAll(START, looks);
            var n := |Lines(u.taken)|;
            && n <= |records|
            && Interpret(WireAll(u.frames))
               == [Event("reset", "{}")] + seq(n, k requires 0 <= k < n => Event("message", records[k]))
            && (LastSize(looks, 0) == |Unlines(records)| ==> n == |records|)
  {
    hide Frames, Lines, Partial, Unlines, Consistent, LastSize, PollAll, Interpret, EventsOfAll, Clean, AreRecords;
    hide AppendOnly;
    var w := Watched(looks, records);
    OffsetInLog(w);
    FramesOfALog(w);
    StartIsConsistent();
    AppendOnlyStaysInStep(START, looks, Unlines(records));
    ClientReadsTheFrames(PollAll(START, looks).frames);
  }

  // ----- one log after the other -----

  /** The handler with frames already written before. */
  function After(written: seq<Frame>, t: Tail): Tail { t.(frames := written + t.frames) }

  lemma {:induction false} PollsAfter(written: seq<Frame>, t: Tail, looks: seq<Look>)
    ensures PollAll(After(written, t), looks) == After(written, PollAll(t, looks))
  {
    hide Poll;
    if looks != [] {
      var before := looks[..|looks| - 1];
      PollsAfter(written, t, before);
      PollAfter(written, PollAll(t, before), looks[|looks| - 1]);
    }
  }

  lemma PollAfter(written: seq<Frame>, t: Tail, look: Look)
    ensures Poll(After(written, t), look) == After(written, Poll(t, look))
  {
    hide Frames, Lines, Partial;
    if look.Look? {
      var u := Truncated(t, look);
      assert Truncated(After(written, t), look) == After(written, u) by {
        assert written + t.frames + [Reset] == written + (t.frames + [Reset]);
      }
      var got := ReadRange(look.contents, u.offset, look.size);
      var more := if look.size > u.offset then Frames(Lines(u.buffer + got)) else [Comment("ping")];
      assert written + u.frames + more == written + (u.frames + more);
    }
  }

  /** A poll that finds the file shorter than what was read goes on as from a fresh start. */
  lemma {:induction false} PollsAfterTruncation(t: Tail, looks: seq<Look>)
    requires looks != [] && looks[0].Look? && looks[0].size < t.offset
    ensures PollAll(t, looks) == After(t.frames, PollAll(START, looks))
  {
    hide Poll;
    if |looks| == 1 {
      assert looks[..0] == [];
      PollTruncated(t, looks[0]);
    } else {
      var before := looks[..|looks| - 1];
      PollsAfterTruncation(t, before);
      PollAfter(t.frames, PollAll(START, before), looks[|looks| - 1]);
    }
  }

  lemma PollTruncated(t: Tail, look: Look)
    requires look.Look? && look.size < t.offset
    ensures Poll(t, look) == After(t.frames, Poll(START, look))
  {
    hide Frames, Lines, Partial;
    var got := ReadRange(look.contents, 0, look.size);
    var more := if look.size > 0 then Frames(Lines("" + got)) else [Comment("ping")];
    assert t.frames + [Reset] + more == t.frames + ([Reset] + more);
  }

  /** Logs that replace each other: each grows, and the first look at the next one finds it shorter than what was
      read of the one before. */
  predicate Replaced(logs: seq<Watched>) {
    && (forall e :: 0 <= e < |logs| ==> logs[e].Growing())
    && (forall e :: 0 < e < |logs| ==>
          logs[e].looks != [] && logs[e].looks[0].Look? && logs[e].looks[0].size < logs[e - 1].Offset())
  }

  function PollLogs(logs: seq<Watched>): Tail {
    if logs == [] then START else PollAll(PollLogs(logs[..|logs| - 1]), logs[|logs| - 1].looks)
  }

  ghost function EventsOfLogs(logs: seq<Watched>): seq<Event>
    requires forall e :: 0 <= e < |logs| ==> logs[e].Growing()
  {
    if logs == [] then []
    else
      OffsetInLog(logs[|logs| - 1]);
      EventsOfLogs(logs[..|logs| - 1]) + logs[|logs| - 1].Events()
  }

  lemma {:induction false} EventsOfBoth(a: seq<Frame>, b: seq<Frame>)
    ensures EventsOfAll(a + b) == EventsOfAll(a) + EventsOfAll(b)
  {
    hide EventsOf;
    if b == [] {
      assert a + b == a;
    } else {
      EventsOfBoth(a, b[..|b| - 1]);
      assert (a + b)[..|a + b| - 1] == a + b[..|b| - 1];
    }
  }

  lemma {:induction false} FramesOfLogs(logs: seq<Watched>)
    requires logs != [] && Replaced(logs)
    ensures var t := PollLogs(logs);
            && t.offset == logs[|logs| - 1].Offset() && EventsOfAll(t.frames) == EventsOfLogs(logs)
            && forall k :: 0 <= k < |t.frames| ==> Clean(t.frames[k])
  {
    hide PollAll, EventsOfAll, Clean, Watched.Growing, Watched.Offset, Watched.Read, Watched.Events;
    var n := |logs| - 1;
    var before, w := logs[..n], logs[n];
    FramesOfALog(w);
    if n == 0 {
      assert PollLogs(before) == START && EventsOfLogs(before) == [];
    } else {
      FramesOfLogs(before);
      PollsAfterTruncation(PollLogs(before), w.looks);
      EventsOfBoth(PollLogs(before).frames, PollAll(START, w.looks).frames);
    }
  }

  /** However often the log is replaced, as long as each look that first sees a new one finds it shorter, the client
      gets for each log in turn one reset and then its first records, each as one message: all of them when the
      polls read it to its end. */
  lemma {:induction false} ClientSeesEachLog(logs: seq<Watched>)
    requires logs != [] && Replaced(logs)
    ensures Interpret(WireAll(PollLogs(logs).frames)) == EventsOfLogs(logs)
    ensures forall e :: 0 <= e < |logs| && logs[e].Offset() == |Unlines(logs[e].records)| ==>
              logs[e].Read() == |logs[e].records|
  {
    hide PollLogs, EventsOfLogs, EventsOfAll, Clean, Interpret, Watched.Growing, Watched.Offset, Watched.Read, Unlines;
    FramesOfLogs(logs);
    ClientReadsTheFrames(PollLogs(logs).frames);
    forall e | 0 <= e < |logs| && logs[e].Offset() == |Unlines(logs[e].records)|
      ensures logs[e].Read() == |logs[e].records|
    {
      OffsetInLog(logs[e]);
    }
  }

  lemma {:induction false} DataEvents(records: seq<string>)
    ensures EventsOfAll(seq(|records|, k requires 0 <= k < |records| => Data(records[k])))
            == seq(|records|, k requires 0 <= k < |records| => Event("message", records[k]))
  {
    if records != [] {
      var n := |records| - 1;
      DataEvents(records[..n]);
      assert seq(|records|, k requires 0 <= k < |records| => Data(records[k]))[..n]
          == seq(n, k requires 0 <= k < n => Data(records[..n][k]));
    }
  }

  // ----- carriage returns -----

  predicate Plain(p: Interpreter) {
    '\r' !in p.data && forall k :: 0 <= k < |p.events| ==> '\r' !in p.events[k].data
  }

  lemma {:induction false} NoneLeft(s: string)
    ensures '\r' !in LineFeeds(s)
    decreases |s|
  {
    if s != "" {
      NoneLeft(s[1..]);
      if |s| > 1 { NoneLeft(s[2..]); }
    }
  }

  lemma {:induction false} PlainLines(s: string)
    requires '\r' !in s
    ensures forall k :: 0 <= k < |Lines(s)| ==> '\r' !in Lines(s)[k]
  {
    hide Lines, Partial, Unlines;
    LinesAreTheText(s);
    forall k | 0 <= k < |Lines(s)| ensures '\r' !in Lines(s)[k] { LineInText(Lines(s), k); }
  }

  lemma {:induction false} LineInText(lines: seq<string>, k: nat)
    requires k < |lines|
    ensures forall c :: c in lines[k] ==> c in Unlines(lines)
  {
    if k < |lines| - 1 { LineInText(lines[..|lines| - 1], k); }
  }

  lemma PlainLine(p: Interpreter, line: string)
    requires Plain(p) && '\r' !in line
    ensures Plain(ReadLine(p, line))
  {
    hide Colon;
    if line != "" && line[0] != ':' {
      var value := FieldValue(line, Colon(line, 0));
      assert forall c :: c in value ==> c in line;
    }
  }

  lemma {:induction false} PlainReads(p: Interpreter, lines: seq<string>)
    requires Plain(p) && forall k :: 0 <= k < |lines| ==> '\r' !in lines[k]
    ensures Plain(ReadLines(p, lines))
    decreases |lines|
  {
    hide ReadLine, Plain;
    if lines != [] {
      PlainLine(p, lines[0]);
      PlainReads(ReadLine(p, lines[0]), lines[1..]);
    }
  }

  /** No event that a client dispatches holds a carriage return. */
  lemma EventsArePlain(stream: string)
    ensures forall k :: 0 <= k < |Interpret(stream)| ==> '\r' !in Interpret(stream)[k].data
  {
    hide Lines, ReadLines, LineFeeds;
    NoneLeft(stream);
    PlainLines(LineFeeds(stream));
    PlainReads(Interpreter([], "", ""), Lines(LineFeeds(stream)));
  }

  /** A data frame is read back exactly when its line holds no carriage return. */
  lemma {:induction false} ReadBackIff(line: string)
    requires '\n' !in line
    ensures Interpret(Wire(Data(line))) == EventsOf(Data(line)) <==> '\r' !in line
  {
    hide Interpret, Wire;
    if '\r' in line {
      EventsArePlain(Wire(Data(line)));
      assert EventsOf(Data(line))[0].data == line;
    } else {
      OneFrame(Data(line));
      ClientReadsTheFrames([Data(line)]);
    }
  }

  lemma OneFrame(f: Frame)
    ensures WireAll([f]) == Wire(f) && EventsOfAll([f]) == EventsOf(f)
  {
    hide Wire, EventsOf;
    assert WireAll([]) == "" && EventsOfAll([]) == [];
  }
}
