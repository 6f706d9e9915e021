/** The JSON line framer below the agent protocol: it cuts a byte stream into lines, whatever chunks it arrives in. */
module JsonlFramer {
  import opened Wrappers
  import opened Bytes
  import opened Sequences

  const CARRIAGE_RETURN: byte := 0x0d

  /** `decode` is strict UTF-8 decoding of one frame; it refuses malformed bytes. */
  datatype Settings = Settings(maxFrameBytes: nat, decode: seq<byte> -> Option<string>)

  /** What the framer holds back, whether it has given up, and what it has handed out. */
  datatype Framing = Framing(buffer: seq<byte>, failed: bool, frames: seq<string>)

  const EMPTY := Framing([], false, [])

  function StripCarriageReturn(line: seq<byte>): seq<byte> {
    if line != [] && line[|line| - 1] == CARRIAGE_RETURN then line[..|line| - 1] else line
  }

  function AppendPart(c: Settings, f: Framing, part: seq<byte>): Framing {
    if part == [] then f
    else if |f.buffer| + |part| > c.maxFrameBytes then Framing([], true, f.frames)
    else f.(buffer := f.buffer + part)
  }

  function EmitFrame(c: Settings, f: Framing): Framing {
    match c.decode(StripCarriageReturn(f.buffer))
    case None => Framing([], true, f.frames)
    case Some(frame) => Framing([], f.failed, f.frames + [frame])
  }

  /** The rest of a line and its newline. */
  function PushLine(c: Settings, f: Framing, rest: seq<byte>): Framing {
    var appended := AppendPart(c, f, rest);
    if appended.failed then appended else EmitFrame(c, appended)
  }

  function Push(c: Settings, f: Framing, chunk: seq<byte>): Framing
    decreases |chunk|
  {
    if f.failed || chunk == [] then f
    else
      match IndexOf(chunk, NEWLINE)
      case None => AppendPart(c, f, chunk)
      case Some(i) => Push(c, PushLine(c, f, chunk[..i]), chunk[i + 1..])
  }

  /** The same from one place in the chunk on, without cutting it up. */
  function PushFrom(c: Settings, f: Framing, chunk: seq<byte>, offset: nat): Framing
    requires offset <= |chunk|
    decreases |chunk| - offset
  {
    if f.failed || offset == |chunk| then f
    else
      match IndexFrom(chunk, NEWLINE, offset)
      case None => AppendPart(c, f, chunk[offset..])
      case Some(i) => PushFrom(c, PushLine(c, f, chunk[offset..i]), chunk, i + 1)
  }

  /** Up to the next newline, or to the end of the chunk. */
  lemma PushFromStep(c: Settings, f: Framing, chunk: seq<byte>, offset: nat)
    requires !f.failed && offset < |chunk|
    ensures PushFrom(c, f, chunk, offset) ==
            match IndexFrom(chunk, NEWLINE, offset)
            case None => AppendPart(c, f, chunk[offset..])
            case Some(i) =>
              var line := PushLine(c, f, chunk[offset..i]);
              if line.failed then line else PushFrom(c, line, chunk, i + 1)
  {
  }

  lemma IndexInSlice(s: seq<byte>, b: byte, offset: nat)
    requires offset <= |s|
    ensures IndexOf(s[offset..], b) == match IndexFrom(s, b, offset) case None => None case Some(i) => Some(i - offset)
  {
    var rest := s[offset..];
    match IndexFrom(s, b, offset)
    case None =>
    case Some(i) => FirstIs(rest, b, i - offset);
  }

  lemma CutSlice(s: seq<byte>, offset: nat, i: nat)
    requires offset <= i < |s|
    ensures s[offset..][..i - offset] == s[offset..i] && s[offset..][i - offset + 1..] == s[i + 1..]
  {
  }

  lemma PushSlice(c: Settings, f: Framing, chunk: seq<byte>, offset: nat, i: nat)
    requires !f.failed && offset <= |chunk| && IndexFrom(chunk, NEWLINE, offset) == Some(i)
    ensures Push(c, f, chunk[offset..]) == Push(c, PushLine(c, f, chunk[offset..i]), chunk[i + 1..])
  {
    IndexInSlice(chunk, NEWLINE, offset);
    CutSlice(chunk, offset, i);
    PushFirstLine(c, f, chunk[offset..], i - offset);
  }

  lemma PushLastSlice(c: Settings, f: Framing, chunk: seq<byte>, offset: nat)
    requires !f.failed && offset <= |chunk| && IndexFrom(chunk, NEWLINE, offset).None?
    ensures Push(c, f, chunk[offset..]) == AppendPart(c, f, chunk[offset..])
  {
    IndexInSlice(chunk, NEWLINE, offset);
    PushPart(c, f, chunk[offset..]);
  }

  lemma PushEmpty(c: Settings, f: Framing, chunk: seq<byte>)
    requires f.failed || chunk == []
    ensures Push(c, f, chunk) == f
  {
  }

  lemma {:induction false} PushFromIsPush(c: Settings, f: Framing, chunk: seq<byte>, offset: nat)
    requires offset <= |chunk|
    ensures PushFrom(c, f, chunk, offset) == Push(c, f, chunk[offset..])
    decreases |chunk| - offset
  {
    if f.failed || offset == |chunk| {
      PushEmpty(c, f, chunk[offset..]);
    } else {
      var newline := IndexFrom(chunk, NEWLINE, offset);
      if newline.None? {
        PushLastSlice(c, f, chunk, offset);
      } else {
        PushSlice(c, f, chunk, offset, newline.value);
        PushFromIsPush(c, PushLine(c, f, chunk[offset..newline.value]), chunk, newline.value + 1);
      }
    }
  }

  lemma PushFromStart(c: Settings, f: Framing, chunk: seq<byte>)
    ensures PushFrom(c, f, chunk, 0) == Push(c, f, chunk)
  {
    PushFromIsPush(c, f, chunk, 0);
    DropEnds(chunk);
  }

  function Finish(c: Settings, f: Framing): Framing {
    if !f.failed && f.buffer != [] then EmitFrame(c, f) else f
  }

  function PushAll(c: Settings, f: Framing, chunks: seq<seq<byte>>): Framing
    decreases |chunks|
  {
    if chunks == [] then f else PushAll(c, Push(c, f, chunks[0]), chunks[1..])
  }

  class JsonLineFramer {
    const settings: Settings
    var failed: bool
    var frameBytes: nat
    var parts: seq<seq<byte>>
    /** What has been handed to the frame callback. */
    var emitted: seq<string>

    ghost predicate Valid()
      reads this
    {
      && frameBytes == |Concat(parts)|
      && frameBytes <= settings.maxFrameBytes
      && (failed ==> parts == [])
    }

    ghost function Model(): Framing
      reads this
    {
      Framing(Concat(parts), failed, emitted)
    }

    constructor (settings: Settings)
      ensures this.settings == settings && Valid() && Model() == EMPTY
    {
      this.settings := settings;
      failed, frameBytes, parts, emitted := false, 0, [], [];
    }

    method Append(part: seq<byte>) returns (ok: bool)
      requires Valid() && !failed
      modifies this
      ensures Valid() && Model() == AppendPart(settings, old(Model()), part) && ok == !failed
    {
      if |part| == 0 { return true; }
      if frameBytes + |part| > settings.maxFrameBytes {
        failed := true;
        parts := [];
        frameBytes := 0;
        return false;
      }
      ConcatAppend(parts, part);
      parts := parts + [part];
      frameBytes := frameBytes + |part|;
      ok := true;
    }

    method EmitCurrentFrame() returns (ok: bool)
      requires Valid() && !failed
      modifies this
      ensures Valid() && Model() == EmitFrame(settings, old(Model())) && ok == !failed
    {
      var frame := JoinParts();
      if |frame| > 0 && frame[|frame| - 1] == CARRIAGE_RETURN {
        frame := frame[..|frame| - 1];
      }
      parts := [];
      frameBytes := 0;
      match settings.decode(frame)
      case None => failed := true; ok := false;
      case Some(decoded) => emitted := emitted + [decoded]; ok := true;
    }

    method JoinParts() returns (frame: seq<byte>)
      ensures frame == Concat(parts)
    {
      frame := [];
      for i := 0 to |parts|
        invariant frame == Concat(parts[..i])
      {
        TakeTake(parts, i + 1, i);
        frame := frame + parts[i];
      }
      TakeAll(parts);
    }

    /** Takes one chunk; a failure is reported once, and later chunks are ignored. */
    method PushChunk(chunk: seq<byte>) returns (ok: bool)
      requires Valid()
      modifies this
      ensures Valid() && Model() == Push(settings, old(Model()), chunk)
      ensures ok == (old(failed) || !failed)
    {
      ok := true;
      PushFromStart(settings, Model(), chunk);
      if failed { return; }
      ok := PushLines(chunk, Push(settings, Model(), chunk));
    }

    method PushLines(chunk: seq<byte>, ghost target: Framing) returns (ok: bool)
      requires Valid() && !failed && PushFrom(settings, Model(), chunk, 0) == target
      modifies this
      ensures Valid() && Model() == target && ok == !failed
    {
      ok := true;
      var offset := 0;
      while offset < |chunk|
        invariant 0 <= offset <= |chunk|
        invariant Valid() && ok == !failed && ok
        invariant PushFrom(settings, Model(), chunk, offset) == target
      {
        var newline := IndexFrom(chunk, NEWLINE, offset);
        PushFromStep(settings, Model(), chunk, offset);
        if newline.None? {
          ok := Append(chunk[offset..]);
          return;
        }
        ok := PushRestOfLine(chunk[offset..newline.value]);
        if !ok { return; }
        offset := newline.value + 1;
      }
    }

    method PushRestOfLine(rest: seq<byte>) returns (ok: bool)
      requires Valid() && !failed
      modifies this
      ensures Valid() && Model() == PushLine(settings, old(Model()), rest) && ok == !failed
    {
      ok := Append(rest);
      if ok { ok := EmitCurrentFrame(); }
    }

    method FinishStream() returns (ok: bool)
      requires Valid()
      modifies this
      ensures Valid() && Model() == Finish(settings, old(Model()))
      ensures ok == (old(failed) || !failed)
    {
      ok := true;
      if !failed && frameBytes > 0 {
        ok := EmitCurrentFrame();
      }
    }
  }

  // ---------------------------------------------------------------- the chunks do not matter

  /** A part may be cut in two, and so may the rest of a line. */
  lemma AppendSplits(c: Settings, f: Framing, a: seq<byte>, b: seq<byte>)
    requires !f.failed
    ensures var cut := AppendPart(c, f, a);
            if cut.failed then AppendPart(c, f, a + b) == cut && PushLine(c, f, a + b) == cut
            else AppendPart(c, cut, b) == AppendPart(c, f, a + b) && PushLine(c, cut, b) == PushLine(c, f, a + b)
  {
    assert a == [] ==> a + b == b;
    assert b == [] ==> a + b == a;
    assert f.buffer + (a + b) == f.buffer + a + b;
  }

  predicate OneLine(s: seq<byte>) {
    Absent(s, NEWLINE, 0, |s|)
  }

  lemma FirstNewlineAfter(a: seq<byte>, b: seq<byte>, i: nat)
    requires OneLine(a) && IndexOf(b, NEWLINE) == Some(i)
    ensures IndexOf(a + b, NEWLINE) == Some(|a| + i)
  {
    FirstIs(a + b, NEWLINE, |a| + i);
  }

  /** Cutting a chunk anywhere changes nothing. */
  lemma {:induction false} PushSplits(c: Settings, f: Framing, a: seq<byte>, b: seq<byte>)
    ensures Push(c, Push(c, f, a), b) == Push(c, f, a + b)
    decreases |a|
  {
    if f.failed || a == [] {
      assert a == [] ==> a + b == b;
    } else {
      var ab := a + b;
      match IndexOf(a, NEWLINE)
      case Some(i) =>
        assert ab[..i] == a[..i] && ab[i + 1..] == a[i + 1..] + b;
        FirstIs(ab, NEWLINE, i);
        PushFirstLine(c, f, ab, i);
        PushFirstLine(c, f, a, i);
        PushSplits(c, PushLine(c, f, a[..i]), a[i + 1..], b);
      case None =>
        PushPart(c, f, a);
        match IndexOf(b, NEWLINE) {
          case None => PushAcrossPart(c, f, a, b);
          case Some(i) => PushAcrossLine(c, f, a, b, i);
        }
    }
  }

  lemma PushPart(c: Settings, f: Framing, chunk: seq<byte>)
    requires !f.failed && OneLine(chunk)
    ensures Push(c, f, chunk) == AppendPart(c, f, chunk)
  {
  }

  lemma PushFirstLine(c: Settings, f: Framing, chunk: seq<byte>, i: nat)
    requires IndexOf(chunk, NEWLINE) == Some(i)
    ensures !f.failed ==> Push(c, f, chunk) == Push(c, PushLine(c, f, chunk[..i]), chunk[i + 1..])
    ensures f.failed ==> Push(c, f, chunk) == f
  {
  }

  /** A part without a newline joined to the next one: first when the line goes on, then when it ends. */
  lemma PushAcrossPart(c: Settings, f: Framing, a: seq<byte>, b: seq<byte>)
    requires !f.failed && OneLine(a) && OneLine(b)
    ensures Push(c, AppendPart(c, f, a), b) == Push(c, f, a + b)
  {
    var cut := AppendPart(c, f, a);
    var ab := a + b;
    AppendSplits(c, f, a, b);
    PushPart(c, f, ab);
    if !cut.failed { PushPart(c, cut, b); }
  }

  lemma PushAcrossLine(c: Settings, f: Framing, a: seq<byte>, b: seq<byte>, i: nat)
    requires !f.failed && OneLine(a) && IndexOf(b, NEWLINE) == Some(i)
    ensures Push(c, AppendPart(c, f, a), b) == Push(c, f, a + b)
  {
    var cut := AppendPart(c, f, a);
    var ab, line := a + b, a + b[..i];
    FirstNewlineAfter(a, b, i);
    AppendSplits(c, f, a, b[..i]);
    CutJoin(a, b, i);
    CutJoin(a, b, i + 1);
    PushFirstLine(c, f, ab, |a| + i);
    PushFirstLine(c, cut, b, i);
  }

  lemma {:induction false} PushAllIsOnePush(c: Settings, f: Framing, chunks: seq<seq<byte>>)
    ensures PushAll(c, f, chunks) == Push(c, f, Concat(chunks))
    decreases |chunks|
  {
    if chunks != [] {
      ConcatFirst(chunks);
      PushAllIsOnePush(c, Push(c, f, chunks[0]), chunks[1..]);
      PushSplits(c, f, chunks[0], Concat(chunks[1..]));
    }
  }

  // ---------------------------------------------------------------- the whole stream, line by line

  function Unlines(lines: seq<seq<byte>>): seq<byte>
    requires |lines| > 0
  {
    if |lines| == 1 then lines[0] else lines[0] + [NEWLINE] + Unlines(lines[1..])
  }

  predicate NewlineFree(lines: seq<seq<byte>>) {
    forall i | 0 <= i < |lines| :: OneLine(lines[i])
  }

  /** `Lines` is splitting at newlines: its pieces have none, and joined by newlines they are the stream again. */
  lemma {:induction false} LinesSplitAtNewlines(stream: seq<byte>)
    ensures NewlineFree(Lines(stream)) && Unlines(Lines(stream)) == stream
    decreases |stream|
  {
    match IndexOf(stream, NEWLINE)
    case None =>
    case Some(i) =>
      LinesSplitAtNewlines(stream[i + 1..]);
      var lines := Lines(stream);
      assert lines[1..] == Lines(stream[i + 1..]);
      assert stream == stream[..i] + [NEWLINE] + stream[i + 1..];
      forall j | 0 <= j < |lines| ensures OneLine(lines[j]) {
        assert j > 0 ==> lines[j] == Lines(stream[i + 1..])[j - 1];
      }
  }

  /** There is only one way to split a stream into newline-free pieces. */
  lemma {:induction false} LinesAreUnique(lines: seq<seq<byte>>)
    requires |lines| > 0 && NewlineFree(lines)
    ensures Lines(Unlines(lines)) == lines
    decreases |lines|
  {
    var stream := Unlines(lines);
    if |lines| > 1 {
      var rest := [NEWLINE] + Unlines(lines[1..]);
      assert stream == lines[0] + rest;
      FirstIs(rest, NEWLINE, 0);
      FirstNewlineAfter(lines[0], rest, 0);
      assert stream[..|lines[0]|] == lines[0] && stream[|lines[0]| + 1..] == Unlines(lines[1..]);
      LinesAreUnique(lines[1..]);
      assert lines == [lines[0]] + lines[1..];
    } else {
      assert lines == [lines[0]];
    }
  }

  /** One frame for each line, up to the first line that is over the limit or cannot be decoded. The last line gives
      a frame only if it is not empty. */
  function LineByLine(c: Settings, frames: seq<string>, lines: seq<seq<byte>>): Framing
    requires |lines| > 0
    decreases |lines|
  {
    var line := lines[0];
    if |lines| == 1 && line == [] then Framing([], false, frames)
    else if |line| > c.maxFrameBytes then Framing([], true, frames)
    else
      match c.decode(StripCarriageReturn(line))
      case None => Framing([], true, frames)
      case Some(frame) =>
        if |lines| == 1 then Framing([], false, frames + [frame]) else LineByLine(c, frames + [frame], lines[1..])
  }

  lemma OneLineFromEmpty(c: Settings, frames: seq<string>, line: seq<byte>)
    ensures var f := Framing([], false, frames);
            && AppendPart(c, f, line)
               == (if |line| > c.maxFrameBytes then Framing([], true, frames) else Framing(line, false, frames))
            && PushLine(c, f, line) ==
               if |line| > c.maxFrameBytes then Framing([], true, frames)
               else EmitFrame(c, Framing(line, false, frames))
  {
    assert [] + line == line;
  }

  lemma {:induction false} PushIsLineByLine(c: Settings, frames: seq<string>, stream: seq<byte>)
    ensures Finish(c, Push(c, Framing([], false, frames), stream)) == LineByLine(c, frames, Lines(stream))
    decreases |stream|
  {
    var f := Framing([], false, frames);
    match IndexOf(stream, NEWLINE)
    case None =>
      PushPart(c, f, stream);
      OneLineFromEmpty(c, frames, stream);
    case Some(i) =>
      var next := PushLine(c, f, stream[..i]);
      OneLineFromEmpty(c, frames, stream[..i]);
      PushFirstLine(c, f, stream, i);
      assert Lines(stream)[1..] == Lines(stream[i + 1..]);
      if !next.failed {
        PushIsLineByLine(c, next.frames, stream[i + 1..]);
      }
  }

  /** However the stream was cut into chunks, the frames and the failure are those of its lines. */
  lemma ChunkingIndependence(c: Settings, chunks: seq<seq<byte>>)
    ensures Finish(c, PushAll(c, EMPTY, chunks)) == LineByLine(c, [], Lines(Concat(chunks)))
  {
    PushAllIsOnePush(c, EMPTY, chunks);
    PushIsLineByLine(c, [], Concat(chunks));
  }
}
