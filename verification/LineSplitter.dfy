/** The incremental line splitter behind the provider streams, against a one-shot split of the whole input. */
module LineSplitter {
  import opened Common

  const LF: Byte := 10
  const CR: Byte := 13
  const MAX_LINE_BYTES: nat := 1024 * 1024

  // ---- One-shot split ----

  /** What follows the last line feed. */
  function Residue(s: Bytes): Bytes {
    if s == [] || s[|s| - 1] == LF then [] else Residue(s[..|s| - 1]) + [s[|s| - 1]]
  }

  /** The terminated lines, without their terminators: every line feed completes what came since the last. */
  function RawLines(s: Bytes): seq<Bytes> {
    if s == [] then []
    else
      var init := s[..|s| - 1];
      if s[|s| - 1] == LF then RawLines(init) + [Residue(init)] else RawLines(init)
  }

  function StripCr(line: Bytes): Bytes {
    if |line| > 0 && line[|line| - 1] == CR then line[..|line| - 1] else line
  }

  function StripAll(lines: seq<Bytes>): seq<Bytes> {
    seq(|lines|, i requires 0 <= i < |lines| => StripCr(lines[i]))
  }

  function Lines(s: Bytes): seq<Bytes> {
    StripAll(RawLines(s))
  }

  /** At most one carriage return goes, from the end, and nothing else. */
  lemma StripCrIs(line: Bytes)
    ensures StripCr(line + [CR]) == line
    ensures line == [] || line[|line| - 1] != CR ==> StripCr(line) == line
    ensures line == StripCr(line) || line == StripCr(line) + [CR]
  {
    assert (line + [CR])[..|line|] == line;
    assert line != [] ==> line == line[..|line| - 1] + [line[|line| - 1]];
  }

  // ---- The split is the only one that reassembles the input ----

  function Join(lines: seq<Bytes>): Bytes {
    if lines == [] then [] else lines[0] + [LF] + Join(lines[1..])
  }

  ghost predicate Unbroken(lines: seq<Bytes>) {
    forall i :: 0 <= i < |lines| ==> LF !in lines[i]
  }

  lemma {:induction false} NoLine(s: Bytes)
    requires LF !in s
    ensures RawLines(s) == [] && Residue(s) == s
  {
    if s != [] {
      NoLine(s[..|s| - 1]);
      assert s == s[..|s| - 1] + [s[|s| - 1]];
    }
  }

  lemma {:induction false} ResidueIsUnbroken(s: Bytes)
    ensures LF !in Residue(s)
  {
    if s != [] && s[|s| - 1] != LF { ResidueIsUnbroken(s[..|s| - 1]); }
  }

  lemma SplitByte(s: Bytes, b: Byte)
    ensures RawLines(s + [b]) == if b == LF then RawLines(s) + [Residue(s)] else RawLines(s)
    ensures Residue(s + [b]) == if b == LF then [] else Residue(s) + [b]
  {
    assert (s + [b])[..|s|] == s;
  }

  lemma SplitAppendByte(lines: seq<Bytes>, all: Bytes, later: Bytes, b: Byte)
    requires RawLines(all) == lines + RawLines(later) && Residue(all) == Residue(later)
    ensures RawLines(all + [b]) == lines + RawLines(later + [b]) && Residue(all + [b]) == Residue(later + [b])
  {
    SplitByte(all, b);
    SplitByte(later, b);
  }

  lemma Reassociate(s: Bytes, c: Bytes)
    requires c != []
    ensures s + c == (s + c[..|c| - 1]) + [c[|c| - 1]]
  {
  }

  /** The split may be taken in two goes, holding back the residue of the first. */
  lemma {:induction false} SplitAppend(s: Bytes, c: Bytes)
    ensures RawLines(s + c) == RawLines(s) + RawLines(Residue(s) + c)
    ensures Residue(s + c) == Residue(Residue(s) + c)
    decreases |c|
  {
    var held := Residue(s);
    if c == [] {
      ResidueIsUnbroken(s);
      NoLine(held);
      assert s + c == s && held + c == held;
    } else {
      var init, b := c[..|c| - 1], c[|c| - 1];
      SplitAppend(s, init);
      SplitAppendByte(RawLines(s), s + init, held + init, b);
      Reassociate(s, c);
      Reassociate(held, c);
    }
  }

  /** A line feed after unbroken bytes ends the first line. */
  lemma SplitLine(line: Bytes, rest: Bytes)
    requires LF !in line
    ensures RawLines(line + [LF] + rest) == [line] + RawLines(rest)
    ensures Residue(line + [LF] + rest) == Residue(rest)
  {
    var head := line + [LF];
    NoLine(line);
    assert head[..|head| - 1] == line;
    assert RawLines(head) == [] + [line] == [line] && Residue(head) == [];
    SplitAppend(head, rest);
    assert [] + rest == rest;
  }

  /** The position of the first line feed, or the length if there is none. */
  function FirstLf(s: Bytes): (p: nat)
    ensures p <= |s| && (p < |s| ==> s[p] == LF) && forall i :: 0 <= i < p ==> s[i] != LF
  {
    if s == [] || s[0] == LF then 0 else 1 + FirstLf(s[1..])
  }

  /** Bytes with a line feed are an unbroken line, the line feed, and the rest. */
  lemma TakeLine(s: Bytes) returns (line: Bytes, rest: Bytes)
    requires LF in s
    ensures LF !in line && s == line + [LF] + rest && |rest| < |s|
  {
    var p := FirstLf(s);
    line, rest := s[..p], s[p + 1..];
  }

  /** Lines, terminators and residue reassemble the input, and nothing but terminators is a line feed. */
  lemma {:induction false} SplitReassembles(s: Bytes)
    ensures Join(RawLines(s)) + Residue(s) == s
    ensures Unbroken(RawLines(s)) && LF !in Residue(s)
    decreases |s|
  {
    if LF in s {
      var line, rest := TakeLine(s);
      SplitLine(line, rest);
      SplitReassembles(rest);
      assert RawLines(s)[1..] == RawLines(rest);
    } else {
      NoLine(s);
    }
  }

  /** Any line-feed-free lines and residue that reassemble the input are the split of the input. */
  lemma {:induction false} SplitIsUnique(lines: seq<Bytes>, residue: Bytes)
    requires Unbroken(lines) && LF !in residue
    ensures RawLines(Join(lines) + residue) == lines && Residue(Join(lines) + residue) == residue
    decreases |lines|
  {
    if lines == [] {
      NoLine(residue);
      assert Join(lines) + residue == residue;
    } else {
      var rest := Join(lines[1..]) + residue;
      SplitIsUnique(lines[1..], residue);
      SplitLine(lines[0], rest);
      assert Join(lines) + residue == lines[0] + [LF] + rest;
    }
  }

  // ---- Splitting in two goes ----

  /** Bytes held back only lengthen the first line that the next bytes complete. */
  lemma HeldBytesLengthenOneLine(held: Bytes, c: Bytes)
    requires LF !in held
    ensures LF !in c ==> RawLines(held + c) == [] && Residue(held + c) == held + c
    ensures LF in c ==>
      && |RawLines(c)| > 0 && Residue(held + c) == Residue(c)
      && RawLines(held + c) == [held + RawLines(c)[0]] + RawLines(c)[1..]
  {
    if LF in c {
      var line, rest := TakeLine(c);
      SplitLine(line, rest);
      SplitLine(held + line, rest);
      assert held + c == (held + line) + [LF] + rest;
    } else {
      NoLine(held + c);
    }
  }

  lemma LinesAppend(s: Bytes, c: Bytes)
    ensures Lines(s + c) == Lines(s) + Lines(Residue(s) + c)
  {
    SplitAppend(s, c);
  }

  // ---- The buffered splitter ----

  /** The safety valve: an over-long unterminated tail is dropped. */
  function Cap(tail: Bytes): Bytes {
    if |tail| > MAX_LINE_BYTES then [] else tail
  }

  lemma LinesOfLine(line: Bytes, rest: Bytes)
    requires LF !in line
    ensures Lines(line + [LF] + rest) == [StripCr(line)] + Lines(rest)
  {
    SplitLine(line, rest);
    var raws := RawLines(rest);
    assert StripAll([line] + raws) == [StripCr(line)] + StripAll(raws);
  }

  lemma CutAt(s: Bytes, pos: nat)
    requires pos == FirstLf(s) && pos < |s|
    ensures LF !in s[..pos] && s == s[..pos] + [LF] + s[pos + 1..]
  {
  }

  /** Taking the first line off the front and adding it to those already taken. */
  lemma DrainLine(taken: seq<Bytes>, s: Bytes, pos: nat)
    requires pos == FirstLf(s) && pos < |s|
    ensures taken + Lines(s) == taken + [StripCr(s[..pos])] + Lines(s[pos + 1..])
    ensures Residue(s) == Residue(s[pos + 1..])
  {
    CutAt(s, pos);
    var line, rest := s[..pos], s[pos + 1..];
    LinesOfLine(line, rest);
    SplitLine(line, rest);
    assert taken + ([StripCr(line)] + Lines(rest)) == taken + [StripCr(line)] + Lines(rest);
  }

  lemma DrainDone(s: Bytes)
    requires FirstLf(s) == |s|
    ensures Lines(s) == [] && Residue(s) == s && LF !in s
  {
    NoLine(s);
  }

  class LineBuffer {
    var buffer: Bytes

    constructor ()
      ensures buffer == []
    {
      buffer := [];
    }

    method Push(chunk: Bytes) returns (lines: seq<Bytes>)
      modifies this
      ensures lines == Lines(old(buffer) + chunk)
      ensures buffer == Cap(Residue(old(buffer) + chunk))
      ensures
        var tail := Residue(old(buffer) + chunk);
        buffer == if |tail| > MAX_LINE_BYTES then [] else tail
      ensures LF !in buffer && |buffer| <= MAX_LINE_BYTES
    {
      buffer := buffer + chunk;
      lines := [];
      ghost var all := buffer;
      var pos := FirstLf(buffer);
      while pos < |buffer|
        invariant pos == FirstLf(buffer)
        invariant lines + Lines(buffer) == Lines(all) && Residue(buffer) == Residue(all)
        decreases |buffer|
      {
        DrainLine(lines, buffer, pos);
        var line := buffer[..pos];
        buffer := buffer[pos + 1..];
        if |line| > 0 && line[|line| - 1] == CR {
          line := line[..|line| - 1];
        }
        lines := lines + [line];
        pos := FirstLf(buffer);
      }
      DrainDone(buffer);
      if |buffer| > MAX_LINE_BYTES {
        buffer := [];
      }
    }

    /** The unterminated tail as a last line, unless nothing but a carriage return is left. */
    method Flush() returns (line: Option<Bytes>)
      modifies this
      ensures buffer == []
      ensures line == if StripCr(old(buffer)) == [] then None else Some(StripCr(old(buffer)))
    {
      if buffer == [] {
        return None;
      }
      var rest := buffer;
      buffer := [];
      if rest[|rest| - 1] == CR {
        rest := rest[..|rest| - 1];
      }
      line := if rest == [] then None else Some(rest);
    }
  }

  // ---- Any chunking against the one-shot split ----

  function Flatten(chunks: seq<Bytes>): Bytes {
    if chunks == [] then [] else Flatten(chunks[..|chunks| - 1]) + chunks[|chunks| - 1]
  }

  /** All lines returned by pushing the chunks in turn, and the buffer afterwards. */
  function PushAll(chunks: seq<Bytes>): (seq<Bytes>, Bytes) {
    if chunks == [] then ([], [])
    else
      var (lines, buffer) := PushAll(chunks[..|chunks| - 1]);
      var s := buffer + chunks[|chunks| - 1];
      (lines + Lines(s), Cap(Residue(s)))
  }

  /** At no chunk boundary is the unterminated tail of the input over the cap. */
  ghost predicate TailsFit(chunks: seq<Bytes>) {
    && |Residue(Flatten(chunks))| <= MAX_LINE_BYTES
    && (chunks != [] ==> TailsFit(chunks[..|chunks| - 1]))
  }

  ghost predicate Agrees(chunks: seq<Bytes>) {
    PushAll(chunks) == (Lines(Flatten(chunks)), Residue(Flatten(chunks)))
  }

  /** With every tail within the cap, the chunking is invisible. */
  lemma {:induction false} FittingChunksAgree(chunks: seq<Bytes>)
    requires TailsFit(chunks)
    ensures Agrees(chunks)
    decreases |chunks|
  {
    if chunks == [] {
      assert Flatten(chunks) == [] && Lines([]) == [];
    } else {
      var init, c := chunks[..|chunks| - 1], chunks[|chunks| - 1];
      FittingChunksAgree(init);
      LinesAppend(Flatten(init), c);
      SplitAppend(Flatten(init), c);
    }
  }

  /** Bytes have been lost: a line already differs, or the buffer is short of the true tail by two or more. */
  ghost predicate Diverged(chunks: seq<Bytes>) {
    var (lines, buffer) := PushAll(chunks);
    var all := Flatten(chunks);
    && |lines| == |Lines(all)| && LF !in buffer
    && (lines != Lines(all) || |buffer| + 2 <= |Residue(all)|)
  }

  lemma PushedBufferIsUnbroken(s: Bytes)
    ensures LF !in Cap(Residue(s))
  {
    SplitReassembles(s);
  }

  /** Lengths two apart stay apart when a carriage return is stripped. */
  lemma ShortTailMakesShortLine(buffer: Bytes, tail: Bytes, c: Bytes)
    requires LF !in buffer && LF !in tail && |buffer| + 2 <= |tail| && LF in c
    ensures Lines(buffer + c) != Lines(tail + c)
  {
    HeldBytesLengthenOneLine(buffer, c);
    HeldBytesLengthenOneLine(tail, c);
    assert |Lines(buffer + c)[0]| < |Lines(tail + c)[0]|;
  }

  lemma SameLineCount(buffer: Bytes, tail: Bytes, c: Bytes)
    requires LF !in buffer && LF !in tail
    ensures |Lines(buffer + c)| == |Lines(tail + c)|
    ensures LF in c ==> Residue(buffer + c) == Residue(tail + c)
  {
    HeldBytesLengthenOneLine(buffer, c);
    HeldBytesLengthenOneLine(tail, c);
  }

  lemma DivergedStays(chunks: seq<Bytes>)
    requires chunks != [] && Diverged(chunks[..|chunks| - 1])
    ensures Diverged(chunks)
  {
    var init, c := chunks[..|chunks| - 1], chunks[|chunks| - 1];
    var (lines, buffer) := PushAll(init);
    var tail := Residue(Flatten(init));
    SplitReassembles(Flatten(init));
    LinesAppend(Flatten(init), c);
    SplitAppend(Flatten(init), c);
    SameLineCount(buffer, tail, c);
    PushedBufferIsUnbroken(buffer + c);
    var more, due := Lines(buffer + c), Lines(tail + c);
    if lines != Lines(Flatten(init)) {
      assert (lines + more)[..|lines|] != (Lines(Flatten(init)) + due)[..|lines|];
    } else if LF in c {
      ShortTailMakesShortLine(buffer, tail, c);
      assert (lines + more)[|lines|..] == more && (Lines(Flatten(init)) + due)[|lines|..] == due;
    } else {
      HeldBytesLengthenOneLine(buffer, c);
      HeldBytesLengthenOneLine(tail, c);
    }
  }

  lemma OverflowDiverges(chunks: seq<Bytes>)
    requires chunks != [] && TailsFit(chunks[..|chunks| - 1]) && !TailsFit(chunks)
    ensures Diverged(chunks)
  {
    var init, c := chunks[..|chunks| - 1], chunks[|chunks| - 1];
    FittingChunksAgree(init);
    LinesAppend(Flatten(init), c);
    SplitAppend(Flatten(init), c);
  }

  lemma {:induction false} OverflowingChunksDiverge(chunks: seq<Bytes>)
    requires !TailsFit(chunks)
    ensures Diverged(chunks)
    decreases |chunks|
  {
    NoLine([]);
    if TailsFit(chunks[..|chunks| - 1]) {
      OverflowDiverges(chunks);
    } else {
      OverflowingChunksDiverge(chunks[..|chunks| - 1]);
      DivergedStays(chunks);
    }
  }

  /** The buffered splitter equals the one-shot split of the whole input exactly when every tail fits the cap. */
  lemma BufferRefinesSplitIff(chunks: seq<Bytes>)
    ensures PushAll(chunks) == (Lines(Flatten(chunks)), Residue(Flatten(chunks))) <==> TailsFit(chunks)
  {
    if TailsFit(chunks) { FittingChunksAgree(chunks); } else { OverflowingChunksDiverge(chunks); }
  }
}
