/** Byte strings, searching them and joining them. */
module Bytes {
  import opened Wrappers
  import opened Sequences

  type byte = b: int | 0 <= b < 256

  /** The first position of `b` in `s` from `i` on. */
  function IndexFrom(s: seq<byte>, b: byte, i: nat): (at: Option<nat>)
    requires i <= |s|
    ensures at.None? ==> Absent(s, b, i, |s|)
    ensures at.Some? ==> i <= at.value < |s| && s[at.value] == b && Absent(s, b, i, at.value)
    decreases |s| - i
  {
    if i == |s| then None else if s[i] == b then Some(i) else IndexFrom(s, b, i + 1)
  }

  /** `b` does not occur in `s` between two positions. */
  predicate Absent(s: seq<byte>, b: byte, from: nat, to: nat)
    requires from <= to <= |s|
  {
    forall k | from <= k < to :: s[k] != b
  }

  /** The first position of `b` in `s`. */
  function IndexOf(s: seq<byte>, b: byte): (at: Option<nat>)
    ensures at.None? ==> Absent(s, b, 0, |s|)
    ensures at.Some? ==> at.value < |s| && s[at.value] == b && Absent(s, b, 0, at.value)
  {
    IndexFrom(s, b, 0)
  }

  lemma FirstIs(s: seq<byte>, b: byte, i: nat)
    requires i < |s| && s[i] == b && Absent(s, b, 0, i)
    ensures IndexOf(s, b) == Some(i)
  {
  }

  function Concat(parts: seq<seq<byte>>): seq<byte> {
    if parts == [] then [] else Concat(parts[..|parts| - 1]) + parts[|parts| - 1]
  }

  lemma ConcatAppend(parts: seq<seq<byte>>, part: seq<byte>)
    ensures Concat(parts + [part]) == Concat(parts) + part
  {
    ButLast(parts, part);
  }

  lemma {:induction false} ConcatFirst(parts: seq<seq<byte>>)
    requires parts != []
    ensures Concat(parts) == parts[0] + Concat(parts[1..])
    decreases |parts|
  {
    var init, last := parts[..|parts| - 1], parts[|parts| - 1];
    if |parts| == 1 {
      assert [] + parts[0] == parts[0] + [];
    } else {
      ConcatFirst(init);
      assert parts[1..][..|parts| - 2] == init[1..];
      AppendAssoc(parts[0], Concat(init[1..]), last);
    }
  }

  const NEWLINE: byte := 0x0a

  /** The pieces between newlines; the last one is what follows the last newline. */
  function Lines(s: seq<byte>): (lines: seq<seq<byte>>)
    ensures |lines| > 0
    decreases |s|
  {
    match IndexOf(s, NEWLINE)
    case None => [s]
    case Some(i) => [s[..i]] + Lines(s[i + 1..])
  }
}
