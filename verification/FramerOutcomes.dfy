/** Which frames a stream gives, in terms of its lines alone. */
module FramerOutcomes {
  import opened Wrappers
  import opened Bytes
  import opened Sequences
  import opened JsonlFramer

  /** `text` is the line without the one carriage return it may end with. */
  predicate IsTextOf(text: seq<byte>, line: seq<byte>) {
    line == text + [13] || (line == text && (line == [] || line[|line| - 1] != 13))
  }

  /** `frame` is what a line within the limit decodes to. */
  ghost predicate Gives(c: Settings, line: seq<byte>, frame: string) {
    |line| <= c.maxFrameBytes && exists text :: IsTextOf(text, line) && c.decode(text) == Some(frame)
  }

  ghost predicate GivesNothing(c: Settings, line: seq<byte>) {
    |line| > c.maxFrameBytes || exists text :: IsTextOf(text, line) && c.decode(text).None?
  }

  /** The lines that are to give a frame: all, without an empty last one. */
  function Whole(lines: seq<seq<byte>>): seq<seq<byte>>
    requires |lines| > 0
  {
    if lines[|lines| - 1] == [] then lines[..|lines| - 1] else lines
  }

  /** One frame for each line in order, up to the first that gives none, and a failure exactly if there is such a
      line. */
  ghost predicate FramesOf(c: Settings, lines: seq<seq<byte>>, frames: seq<string>, failed: bool) {
    && |frames| <= |lines| && (forall i | 0 <= i < |frames| :: Gives(c, lines[i], frames[i]))
    && (failed <==> |frames| < |lines|)
    && (failed ==> GivesNothing(c, lines[|frames|]))
  }

  lemma StrippedIsText(line: seq<byte>)
    ensures IsTextOf(StripCarriageReturn(line), line)
  {
    if line != [] && line[|line| - 1] == 13 {
      Rejoin(line, |line| - 1);
    }
  }

  lemma WholeRest(lines: seq<seq<byte>>)
    requires |lines| > 1
    ensures Whole(lines) != [] && Whole(lines)[0] == lines[0] && Whole(lines)[1..] == Whole(lines[1..])
  {
    assert lines[1..][..|lines| - 2] == lines[..|lines| - 1][1..];
  }

  /** The last line, which gives no frame if it is empty. */
  lemma LastLine(c: Settings, frames: seq<string>, lines: seq<seq<byte>>)
    requires |lines| == 1
    ensures var f := LineByLine(c, frames, lines);
            f.buffer == [] && exists more :: f.frames == frames + more && FramesOf(c, Whole(lines), more, f.failed)
  {
    StrippedIsText(lines[0]);
    var f := LineByLine(c, frames, lines);
    if lines[0] == [] || f.failed {
      assert f.frames == frames + [] && FramesOf(c, Whole(lines), [], f.failed);
    } else {
      var frame := c.decode(StripCarriageReturn(lines[0])).value;
      assert f.frames == frames + [frame] && FramesOf(c, Whole(lines), [frame], f.failed);
    }
  }

  lemma {:induction false} LinesGiveFrames(c: Settings, frames: seq<string>, lines: seq<seq<byte>>)
    requires |lines| > 0
    ensures var f := LineByLine(c, frames, lines);
            f.buffer == [] && exists more :: f.frames == frames + more && FramesOf(c, Whole(lines), more, f.failed)
    decreases |lines|
  {
    if |lines| == 1 {
      LastLine(c, frames, lines);
    } else {
      var f, line := LineByLine(c, frames, lines), lines[0];
      StrippedIsText(line);
      WholeRest(lines);
      if |line| <= c.maxFrameBytes && c.decode(StripCarriageReturn(line)).Some? {
        var frame := c.decode(StripCarriageReturn(line)).value;
        LinesGiveFrames(c, frames + [frame], lines[1..]);
        var rest :| f.frames == frames + [frame] + rest && FramesOf(c, Whole(lines[1..]), rest, f.failed);
        FirstGives(c, Whole(lines), frame, rest, f.failed);
        AppendAssoc(frames, [frame], rest);
      } else {
        assert f.frames == frames + [] && FramesOf(c, Whole(lines), [], true);
      }
    }
  }

  lemma FirstGives(c: Settings, lines: seq<seq<byte>>, frame: string, rest: seq<string>, failed: bool)
    requires lines != [] && Gives(c, lines[0], frame) && FramesOf(c, lines[1..], rest, failed)
    ensures FramesOf(c, lines, [frame] + rest, failed)
  {
    var frames := [frame] + rest;
    forall i | 0 <= i < |frames| ensures Gives(c, lines[i], frames[i]) {
      assert i > 0 ==> lines[i] == lines[1..][i - 1] && frames[i] == rest[i - 1];
    }
    assert failed ==> lines[|frames|] == lines[1..][|rest|];
  }

  /** Whatever chunks a stream arrives in, its frames are its lines up to the first that is over the limit or does not
      decode, each without one carriage return at its end, and the framer fails exactly if there is such a line. */
  lemma StreamIsExact(c: Settings, lines: seq<seq<byte>>, chunks: seq<seq<byte>>)
    requires |lines| > 0 && NewlineFree(lines) && Concat(chunks) == Unlines(lines)
    ensures var f := Finish(c, PushAll(c, EMPTY, chunks));
            f.buffer == [] && FramesOf(c, Whole(lines), f.frames, f.failed)
  {
    LinesAreUnique(lines);
    ChunkingIndependence(c, chunks);
    LinesGiveFrames(c, [], lines);
    var f := LineByLine(c, [], lines);
    var more :| f.frames == [] + more && FramesOf(c, Whole(lines), more, f.failed);
    assert f.frames == more;
  }

  /** These frames are the only ones of which this can be said. */
  lemma FramesAreUnique(c: Settings, lines: seq<seq<byte>>, frames: seq<string>, failed: bool, others: seq<string>,
          otherwise: bool)
    requires FramesOf(c, lines, frames, failed) && FramesOf(c, lines, others, otherwise)
    ensures frames == others && failed == otherwise
  {
    forall line, a, b | Gives(c, line, a) && Gives(c, line, b) ensures a == b {
      GivesOne(c, line, a, b);
    }
    forall line, a | Gives(c, line, a) ensures !GivesNothing(c, line) {
      GivesOrNot(c, line, a);
    }
  }

  lemma OneText(line: seq<byte>, a: seq<byte>, b: seq<byte>)
    requires IsTextOf(a, line) && IsTextOf(b, line)
    ensures a == b
  {
    assert a == line[..|a|] && b == line[..|b|];
    assert line == a + [13] ==> line[|a|] == 13;
    assert line == b + [13] ==> line[|b|] == 13;
  }

  lemma GivesOne(c: Settings, line: seq<byte>, a: string, b: string)
    requires Gives(c, line, a) && Gives(c, line, b)
    ensures a == b
  {
    var s :| IsTextOf(s, line) && c.decode(s) == Some(a);
    var t :| IsTextOf(t, line) && c.decode(t) == Some(b);
    OneText(line, s, t);
  }

  lemma GivesOrNot(c: Settings, line: seq<byte>, a: string)
    requires Gives(c, line, a)
    ensures !GivesNothing(c, line)
  {
    var s :| IsTextOf(s, line) && c.decode(s) == Some(a);
    if GivesNothing(c, line) {
      var t :| IsTextOf(t, line) && c.decode(t).None?;
      OneText(line, s, t);
    }
  }
}
