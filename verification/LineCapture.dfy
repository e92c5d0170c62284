/** The splitter behind the stderr capture: chunks of bytes in, lines out. */
module LineCapture {
  import opened Bytes
  import opened Sequences

  const NEWLINE: Byte := 10

  /** Where the first newline is, or the length if there is none. */
  function FirstNewline(bytes: seq<Byte>): (pos: nat)
    ensures pos <= |bytes|
    ensures pos < |bytes| ==> bytes[pos] == NEWLINE
    ensures forall i :: 0 <= i < pos ==> bytes[i] != NEWLINE
  {
    if bytes == [] || bytes[0] == NEWLINE then 0 else FirstNewline(bytes[1..]) + 1
  }

  /** The newline-terminated lines, without their newlines. */
  function Lines(bytes: seq<Byte>): seq<seq<Byte>>
    decreases |bytes|
  {
    var pos := FirstNewline(bytes);
    if pos == |bytes| then [] else [bytes[..pos]] + Lines(bytes[pos + 1..])
  }

  /** What follows the last newline. */
  function Tail(bytes: seq<Byte>): seq<Byte>
    decreases |bytes|
  {
    var pos := FirstNewline(bytes);
    if pos == |bytes| then bytes else Tail(bytes[pos + 1..])
  }

  function NonEmpty(lines: seq<seq<Byte>>): seq<seq<Byte>> {
    if lines == [] then []
    else (if lines[0] == [] then [] else [lines[0]]) + NonEmpty(lines[1..])
  }

  lemma NonEmptyCons(line: seq<Byte>, lines: seq<seq<Byte>>)
    ensures NonEmpty([line] + lines) == (if line == [] then [] else [line]) + NonEmpty(lines)
  {
    assert ([line] + lines)[1..] == lines;
  }

  class Capture {
    var partial: seq<Byte>
    var emitted: seq<seq<Byte>>

    constructor ()
      ensures partial == [] && emitted == []
    {
      partial, emitted := [], [];
    }

    /** One successful read. */
    method Read(chunk: seq<Byte>)
      modifies this
      ensures partial == Tail(old(partial) + chunk)
      ensures emitted == old(emitted) + NonEmpty(Lines(old(partial) + chunk))
    {
      partial := partial + chunk;
      ghost var all := partial;
      var pos := FirstNewline(partial);
      while pos < |partial|
        invariant pos == FirstNewline(partial)
        invariant Tail(partial) == Tail(all)
        invariant emitted + NonEmpty(Lines(partial)) == old(emitted) + NonEmpty(Lines(all))
        decreases |partial|
      {
        var line, rest := partial[..pos], partial[pos + 1..];
        NonEmptyCons(line, Lines(rest));
        ConcatAssociates(emitted, if line == [] then [] else [line], NonEmpty(Lines(rest)));
        partial := rest;
        if line != [] {
          emitted := emitted + [line];
        }
        pos := FirstNewline(partial);
      }
    }
  }

  // ---- What lines and tail are ----

  /** Put the newlines back. */
  function Glued(lines: seq<seq<Byte>>): seq<Byte> {
    if lines == [] then [] else lines[0] + [NEWLINE] + Glued(lines[1..])
  }

  ghost predicate Unbroken(lines: seq<seq<Byte>>) {
    forall i :: 0 <= i < |lines| ==> NEWLINE !in lines[i]
  }

  lemma GluedCons(line: seq<Byte>, lines: seq<seq<Byte>>)
    ensures Glued([line] + lines) == line + [NEWLINE] + Glued(lines)
  {
    assert ([line] + lines)[1..] == lines;
  }

  lemma {:induction false} LinesUnbroken(bytes: seq<Byte>)
    ensures Unbroken(Lines(bytes)) && NEWLINE !in Tail(bytes)
    decreases |bytes|
  {
    var pos := FirstNewline(bytes);
    if pos < |bytes| {
      LinesUnbroken(bytes[pos + 1..]);
    }
  }

  lemma SplitAtNewline(bytes: seq<Byte>, pos: nat)
    requires pos < |bytes| && bytes[pos] == NEWLINE
    ensures bytes == bytes[..pos] + [NEWLINE] + bytes[pos + 1..]
  {
  }

  /** Lines and tail hold all the bytes: put the newlines back, and the stream is there again. */
  lemma {:induction false} LinesReassemble(bytes: seq<Byte>)
    ensures Glued(Lines(bytes)) + Tail(bytes) == bytes
    decreases |bytes|
  {
    var pos := FirstNewline(bytes);
    if pos < |bytes| {
      var line, rest := bytes[..pos], bytes[pos + 1..];
      LinesReassemble(rest);
      SplitAtNewline(bytes, pos);
      GluedCons(line, Lines(rest));
      ConcatAssociates(line + [NEWLINE], Glued(Lines(rest)), Tail(rest));
    }
  }

  lemma FirstNewlineIs(line: seq<Byte>, rest: seq<Byte>)
    requires NEWLINE !in line
    ensures FirstNewline(line + [NEWLINE] + rest) == |line|
  {
    var bytes := line + [NEWLINE] + rest;
    assert bytes[|line|] == NEWLINE;
    assert forall i :: 0 <= i < |line| ==> bytes[i] == line[i];
  }

  /** There is only one way to split bytes into lines and a tail. */
  lemma {:induction false} LinesUnique(bytes: seq<Byte>, lines: seq<seq<Byte>>, tail: seq<Byte>)
    requires Unbroken(lines) && NEWLINE !in tail && Glued(lines) + tail == bytes
    ensures lines == Lines(bytes) && tail == Tail(bytes)
    decreases |lines|
  {
    if lines == [] {
      assert bytes == tail;
    } else {
      var rest := Glued(lines[1..]) + tail;
      ConcatAssociates(lines[0] + [NEWLINE], Glued(lines[1..]), tail);
      FirstNewlineIs(lines[0], rest);
      assert bytes[|lines[0]| + 1..] == rest;
      assert bytes[..|lines[0]|] == lines[0];
      LinesUnique(rest, lines[1..], tail);
    }
  }

  // ---- Chunks do not matter ----

  datatype Captured = Captured(partial: seq<Byte>, emitted: seq<seq<Byte>>)

  /** The state after reading the chunks one by one. */
  function AfterReads(chunks: seq<seq<Byte>>): Captured {
    if chunks == [] then Captured([], [])
    else
      var before := AfterReads(chunks[..|chunks| - 1]);
      var bytes := before.partial + chunks[|chunks| - 1];
      Captured(Tail(bytes), before.emitted + NonEmpty(Lines(bytes)))
  }

  function Stream(chunks: seq<seq<Byte>>): seq<Byte> {
    if chunks == [] then [] else Stream(chunks[..|chunks| - 1]) + chunks[|chunks| - 1]
  }

  lemma {:induction false} GluedConcat(a: seq<seq<Byte>>, b: seq<seq<Byte>>)
    ensures Glued(a + b) == Glued(a) + Glued(b)
  {
    if a == [] {
      assert a + b == b;
    } else {
      GluedConcat(a[1..], b);
      assert a + b == [a[0]] + (a[1..] + b);
      GluedCons(a[0], a[1..] + b);
      ConcatAssociates(a[0] + [NEWLINE], Glued(a[1..]), Glued(b));
    }
  }

  lemma {:induction false} NonEmptyConcat(a: seq<seq<Byte>>, b: seq<seq<Byte>>)
    ensures NonEmpty(a + b) == NonEmpty(a) + NonEmpty(b)
  {
    if a == [] {
      assert a + b == b;
    } else {
      NonEmptyConcat(a[1..], b);
      assert a + b == [a[0]] + (a[1..] + b);
      NonEmptyCons(a[0], a[1..] + b);
      ConcatAssociates(if a[0] == [] then [] else [a[0]], NonEmpty(a[1..]), NonEmpty(b));
    }
  }

  /** Places in the list, in ascending order. */
  ghost predicate Ascending(at: seq<nat>, n: nat) {
    (forall k :: 0 <= k < |at| ==> at[k] < n) && forall j, k :: 0 <= j < k < |at| ==> at[j] < at[k]
  }

  /** Exactly the empty lines are left out, and the others keep their order. */
  lemma {:induction false} NonEmptyLeavesOutEmpty(lines: seq<seq<Byte>>) returns (at: seq<nat>)
    ensures Ascending(at, |lines|) && |NonEmpty(lines)| == |at|
    ensures forall k :: 0 <= k < |at| ==> NonEmpty(lines)[k] == lines[at[k]]
    ensures forall i :: 0 <= i < |lines| ==> (lines[i] != [] <==> i in at)
  {
    at := [];
    if lines != [] {
      var before, last := lines[..|lines| - 1], lines[|lines| - 1];
      at := NonEmptyLeavesOutEmpty(before);
      assert before + [last] == lines;
      NonEmptyConcat(before, [last]);
      NonEmptyCons(last, []);
      assert [last] + [] == [last];
      if last != [] {
        at := at + [|before|];
      }
    }
  }

  /** Reading on from the tail finds the lines that reading everything at once finds. */
  lemma LinesResume(a: seq<Byte>, b: seq<Byte>)
    ensures Lines(a + b) == Lines(a) + Lines(Tail(a) + b)
    ensures Tail(a + b) == Tail(Tail(a) + b)
  {
    var rest := Tail(a) + b;
    LinesReassemble(a);
    LinesReassemble(rest);
    LinesUnbroken(a);
    LinesUnbroken(rest);
    GluedConcat(Lines(a), Lines(rest));
    ConcatAssociates(Glued(Lines(a)), Glued(Lines(rest)), Tail(rest));
    ConcatAssociates(Glued(Lines(a)), Tail(a), b);
    LinesUnique(a + b, Lines(a) + Lines(rest), Tail(rest));
  }

  /** However the bytes are cut into reads, the lines emitted are the non-empty lines of the whole stream. */
  lemma {:induction false} ChunkingDoesNotMatter(chunks: seq<seq<Byte>>)
    ensures AfterReads(chunks) == Captured(Tail(Stream(chunks)), NonEmpty(Lines(Stream(chunks))))
  {
    if chunks != [] {
      var before, last := chunks[..|chunks| - 1], chunks[|chunks| - 1];
      ChunkingDoesNotMatter(before);
      LinesResume(Stream(before), last);
      NonEmptyConcat(Lines(Stream(before)), Lines(Tail(Stream(before)) + last));
    }
  }
}
