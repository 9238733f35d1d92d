/**
  The character-stream buffer of the Owl front end (src/tools/filebuffer.hpp):
  a line store (FileReader) and a single-character cursor over a sequence of
  lines (SourceBuffer) with lookahead, pushback and an end-of-input sentinel.

  The C++ `at()` calls throw std::out_of_range when an index is outside a line
  or outside the line vector; that exception is modelled as the outcome
  OutOfRange, with the fields left as the code leaves them at the throw.
*/
module FileBuffer {

  import opened Wrappers

  /** The sentinel initSourceBuffer stores in eofChar (the byte 0x7F). */
  const EofChar: char := 0x7F as char

  /** A call that either returns normally with a value or throws std::out_of_range. */
  datatype Result<T> = Ok(value: T) | OutOfRange

  /** The fields of a SourceBuffer, as a value. */
  datatype BufState = BufState(
    textLines: seq<string>,
    lineNum: int,
    inPosition: int,
    readChar: char,
    eofChar: char)

  /** The result of one operation: the new fields and what the call produced. */
  type Step = (BufState, Result<char>)

  predicate NonEmptyLines(lines: seq<string>) {
    forall i :: 0 <= i < |lines| ==> |lines[i]| > 0
  }

  /** The cursor designates a character of the buffer. */
  predicate Placed(b: BufState) {
    0 <= b.lineNum < |b.textLines| && 0 <= b.inPosition < |b.textLines[b.lineNum]|
  }

  /** The cursor is on the last column of its line. */
  predicate AtLastColumn(b: BufState)
    requires Placed(b)
  {
    b.inPosition == |b.textLines[b.lineNum]| - 1
  }

  /** The cursor is on the last character of the last line. */
  predicate AtEnd(b: BufState)
    requires Placed(b)
  {
    AtLastColumn(b) && b.lineNum == |b.textLines| - 1
  }

  /**
    The state a successful load leaves and GetChar/UnGetChar keep: the cursor is
    on a character, the sentinel is 0x7F, and the exposed character is the one
    under the cursor or the sentinel.
  */
  predicate Valid(b: BufState) {
    Placed(b) && b.eofChar == EofChar &&
    (b.readChar == b.textLines[b.lineNum][b.inPosition] || b.readChar == b.eofChar)
  }

  /** `readChar = textLines.at(lineNum).at(inPosition)`, the read every operation ends with. */
  function Fetch(b: BufState): (r: Step)
    ensures r.1.Ok? <==> Placed(b)
    ensures r.1.Ok? ==> r.0 == b.(readChar := b.textLines[b.lineNum][b.inPosition]) && r.1.value == r.0.readChar
    ensures r.1.OutOfRange? ==> r.0 == b
  {
    if Placed(b) then
      var c := b.textLines[b.lineNum][b.inPosition];
      (b.(readChar := c), Ok(c))
    else
      (b, OutOfRange)
  }

  /** initSourceBuffer(tl): installs tl, puts the cursor at (0, 0) and reads the first character. */
  function Init(b: BufState, tl: seq<string>): (r: Step)
    ensures r.0.textLines == tl && r.0.lineNum == 0 && r.0.inPosition == 0 && r.0.eofChar == EofChar
    ensures r.1.Ok? <==> |tl| > 0 && |tl[0]| > 0
    ensures r.1.Ok? ==> Valid(r.0) && r.0.readChar == tl[0][0] && r.1.value == tl[0][0]
    ensures r.1.OutOfRange? ==> r.0.readChar == b.readChar
  {
    Fetch(b.(textLines := tl, inPosition := 0, lineNum := 0, eofChar := EofChar))
  }

  /** GetChar: advance one character and return the new current character. */
  function Advance(b: BufState): (r: Step)
    requires Placed(b)
    ensures r.0.textLines == b.textLines && r.0.eofChar == b.eofChar
    ensures r.1.Ok? ==> r.1.value == r.0.readChar
    // not at the end of the line: next column, same line
    ensures !AtLastColumn(b) ==>
      r.1.Ok? && r.0.lineNum == b.lineNum && r.0.inPosition == b.inPosition + 1 &&
      r.0.readChar == b.textLines[b.lineNum][b.inPosition + 1]
    // end of a line that has a successor: column 0 of the next line, which throws if that line is empty
    ensures AtLastColumn(b) && !AtEnd(b) ==>
      r.0.lineNum == b.lineNum + 1 && r.0.inPosition == 0 &&
      (r.1.Ok? <==> |b.textLines[b.lineNum + 1]| > 0) &&
      (r.1.Ok? ==> r.0.readChar == b.textLines[b.lineNum + 1][0]) &&
      (r.1.OutOfRange? ==> r.0.readChar == b.readChar)
    // end of the buffer: the cursor stays, the sentinel is exposed and returned
    ensures AtEnd(b) ==>
      r.1 == Ok(b.eofChar) && r.0 == b.(readChar := b.eofChar)
    ensures NonEmptyLines(b.textLines) ==> r.1.Ok? && Placed(r.0)
  {
    if b.inPosition == |b.textLines[b.lineNum]| - 1 then
      if b.lineNum == |b.textLines| - 1 then
        (b.(readChar := b.eofChar), Ok(b.eofChar))
      else
        Fetch(b.(lineNum := b.lineNum + 1, inPosition := 0))
    else
      Fetch(b.(inPosition := b.inPosition + 1))
  }

  /**
    UnGetChar as the code has it: from column 2 or more, one column back; from
    column 0 or 1, column 0 of the PREVIOUS line. The final at() throws when the
    new position is outside the buffer (always so from line 0, column 0 or 1).
  */
  function Retreat(b: BufState): (r: Step)
    ensures r.0.textLines == b.textLines && r.0.eofChar == b.eofChar
    ensures b.inPosition >= 2 ==> r.0.lineNum == b.lineNum && r.0.inPosition == b.inPosition - 1
    ensures b.inPosition <= 1 ==> r.0.lineNum == b.lineNum - 1 && r.0.inPosition == 0
    ensures r.1.Ok? <==> Placed(r.0)
    ensures r.1.Ok? ==> r.0.readChar == r.0.textLines[r.0.lineNum][r.0.inPosition]
    ensures r.1.OutOfRange? ==> r.0.readChar == b.readChar
  {
    if b.inPosition - 1 <= 0 then
      Fetch(b.(inPosition := 0, lineNum := b.lineNum - 1))
    else
      Fetch(b.(inPosition := b.inPosition - 1))
  }

  /** A successful GetChar keeps the buffer invariant. */
  lemma AdvanceKeepsValid(b: BufState)
    requires Valid(b)
    ensures Advance(b).1.Ok? ==> Valid(Advance(b).0)
  {
  }

  /** At the end of the buffer GetChar is a fixed point that keeps returning the sentinel. */
  lemma AdvanceAtEndIsFixedPoint(b: BufState)
    requires Valid(b) && AtEnd(b)
    ensures Advance(b).0 == b.(readChar := EofChar)
    ensures Advance(Advance(b).0) == Advance(b)
    ensures Advance(b).1 == Ok(EofChar)
  {
  }

  /** A successful UnGetChar keeps the buffer invariant; from line 0, column 0 or 1, it always throws. */
  lemma RetreatKeepsValid(b: BufState)
    requires Valid(b)
    ensures Retreat(b).1.Ok? ==> Valid(Retreat(b).0)
    ensures b.lineNum == 0 && b.inPosition <= 1 ==> Retreat(b).1 == OutOfRange
    ensures NonEmptyLines(b.textLines) && (b.lineNum > 0 || b.inPosition >= 2) ==> Retreat(b).1.Ok?
  {
  }

  /** The text of all lines, in order, as one string. */
  function Flatten(lines: seq<string>): string {
    if |lines| == 0 then [] else lines[0] + Flatten(lines[1..])
  }

  /** The characters after the cursor, in reading order. */
  function Rest(b: BufState): string
    requires Placed(b)
  {
    b.textLines[b.lineNum][b.inPosition + 1..] + Flatten(b.textLines[b.lineNum + 1..])
  }

  /** The values returned by n successive GetChar calls. */
  function Reads(b: BufState, n: nat): (cs: seq<char>)
    requires Placed(b) && NonEmptyLines(b.textLines)
    ensures |cs| == n
    decreases n
  {
    if n == 0 then []
    else
      var (b', r) := Advance(b);
      [r.value] + Reads(b', n - 1)
  }

  /** One GetChar consumes the first character of Rest; at the end Rest is empty and stays so. */
  lemma RestStep(b: BufState)
    requires Placed(b) && NonEmptyLines(b.textLines)
    ensures AtEnd(b) ==> Rest(b) == [] && Rest(Advance(b).0) == []
    ensures !AtEnd(b) ==> Rest(b) == [Advance(b).1.value] + Rest(Advance(b).0)
  {
    var line := b.textLines[b.lineNum];
    var (b', r) := Advance(b);
    if AtEnd(b) {
      assert b.textLines[b.lineNum + 1..] == [];
    } else if !AtLastColumn(b) {
      assert line[b.inPosition + 1..] == [line[b.inPosition + 1]] + line[b.inPosition + 2..];
    } else {
      var tail := b.textLines[b.lineNum + 1..];
      var next := b.textLines[b.lineNum + 1];
      assert tail[0] == next;
      assert tail[1..] == b.textLines[b.lineNum + 2..];
      assert next == [next[0]] + next[1..];
      assert line[b.inPosition + 1..] == [];
    }
  }

  /**
    Successive GetChar calls return the characters after the cursor, in order,
    across line boundaries, and then the sentinel for ever.
  */
  lemma {:induction false} ReadsFollowText(b: BufState, n: nat)
    requires Placed(b) && NonEmptyLines(b.textLines)
    ensures forall i :: 0 <= i < n ==>
      Reads(b, n)[i] == if i < |Rest(b)| then Rest(b)[i] else b.eofChar
    decreases n
  {
    if n > 0 {
      var (b', r) := Advance(b);
      RestStep(b);
      ReadsFollowText(b', n - 1);
      forall i | 0 <= i < n
        ensures Reads(b, n)[i] == if i < |Rest(b)| then Rest(b)[i] else b.eofChar
      {
        if i > 0 {
          assert Reads(b, n)[i] == Reads(b', n - 1)[i - 1];
        }
      }
    }
  }

  /** After a successful load the exposed character followed by Rest is the whole text. */
  lemma LoadedCursorSeesWholeText(b: BufState, tl: seq<string>)
    requires |tl| > 0 && |tl[0]| > 0
    ensures Init(b, tl).1.Ok?
    ensures [Init(b, tl).0.readChar] + Rest(Init(b, tl).0) == Flatten(tl)
  {
  }

  /**
    loadString(s) with a non-empty s: one line, cursor at (0, 0), Char() is s[0],
    the sentinel is 0x7F, and the following GetChar calls return s[1..] and then
    the sentinel for ever.
  */
  lemma LoadStringReads(b: BufState, s: string, n: nat)
    requires |s| > 0
    ensures Init(b, [s]).1 == Ok(s[0])
    ensures var b' := Init(b, [s]).0;
      Valid(b') && b'.textLines == [s] && b'.lineNum == 0 && b'.inPosition == 0 &&
      b'.readChar == s[0] && b'.eofChar == EofChar &&
      forall i :: 0 <= i < n ==> Reads(b', n)[i] == if i + 1 < |s| then s[i + 1] else EofChar
  {
    var b' := Init(b, [s]).0;
    assert Rest(b') == s[1..];
    ReadsFollowText(b', n);
  }

  /** Two lines "ab" and "cd": 'a' is exposed first, then GetChar yields b, c, d and the sentinel. */
  lemma TwoLinesReadInOrder(b: BufState)
    ensures var b' := Init(b, ["ab", "cd"]).0;
      b'.readChar == 'a' && Reads(b', 5) == ['b', 'c', 'd', EofChar, EofChar]
  {
    var tl := ["ab", "cd"];
    var b' := Init(b, tl).0;
    LoadedCursorSeesWholeText(b, tl);
    assert Flatten(tl) == "abcd" by {
      assert tl[1..] == ["cd"];
      assert tl[1..][1..] == [];
    }
    assert Rest(b') == "bcd";
    ReadsFollowText(b', 5);
    var r := Reads(b', 5);
    assert r[0] == 'b' && r[1] == 'c' && r[2] == 'd' && r[3] == EofChar && r[4] == EofChar;
  }

  /** GetChar then UnGetChar returns to the same character when the cursor started at column 1 or later. */
  lemma RetreatUndoesAdvanceInsideLine(b: BufState)
    requires Placed(b) && !AtLastColumn(b) && b.inPosition >= 1
    ensures Retreat(Advance(b).0) == Fetch(b)
  {
  }

  /**
    As written, from column 0 GetChar then UnGetChar does not come back: it
    lands on the previous line, and on the first line it throws. Loading "ab",
    one GetChar and one UnGetChar end in std::out_of_range.
  */
  lemma RetreatAfterAdvanceFromColumnZeroThrows(b: BufState)
    ensures var loaded := Init(b, ["ab"]);
      loaded.1 == Ok('a') &&
      Retreat(Advance(loaded.0).0).1 == OutOfRange &&
      Retreat(Advance(loaded.0).0).0.lineNum == -1
  {
  }

  /**
    The pushback the code evidently intends: one column back, or from column 0
    the last column of the previous line.
  */
  function RetreatIntended(b: BufState): (r: Step)
    ensures r.0.textLines == b.textLines && r.0.eofChar == b.eofChar
    ensures r.1.Ok? ==> Placed(r.0) && r.0.readChar == r.0.textLines[r.0.lineNum][r.0.inPosition]
    ensures b.inPosition > 0 ==> r.0.lineNum == b.lineNum && r.0.inPosition == b.inPosition - 1
    ensures b.inPosition == 0 && 0 < b.lineNum <= |b.textLines| ==>
      r.0.lineNum == b.lineNum - 1 && r.0.inPosition == |b.textLines[b.lineNum - 1]| - 1
  {
    if b.inPosition == 0 then
      if 0 < b.lineNum <= |b.textLines| then
        Fetch(b.(lineNum := b.lineNum - 1, inPosition := |b.textLines[b.lineNum - 1]| - 1))
      else
        (b, OutOfRange)
    else
      Fetch(b.(inPosition := b.inPosition - 1))
  }

  /** The intended pushback undoes every GetChar that moved the cursor. */
  lemma RetreatIntendedUndoesAdvance(b: BufState)
    requires Placed(b) && NonEmptyLines(b.textLines) && !AtEnd(b)
    ensures RetreatIntended(Advance(b).0) == Fetch(b)
  {
  }

  /** The line store: the lines of the file last read. */
  class FileReader {
    var linenum: int
    var line: string
    var lines: seq<string>

    constructor ()
      ensures linenum == 0 && line == [] && lines == []
    {
      linenum := 0;
      line := [];
      lines := [];
    }

    /** Clears the line store; its end state does not depend on the start state, so it is idempotent. */
    method Reset()
      modifies this
      ensures lines == [] && linenum == 0 && line == []
    {
      lines := [];
      linenum := 0;
      if line != [] {
        line := [];
      }
    }

    /**
      readFile(fname), whose body is not part of this model: `contents` is what
      reading the file produced, None when it could not be read.
    */
    method ReadFile(contents: Option<seq<string>>) returns (ok: bool)
      modifies this`lines
      ensures ok == contents.Some?
      ensures lines == if ok then contents.value else old(lines)
    {
      ok := contents.Some?;
      if ok {
        lines := contents.value;
      }
    }
  }

  /** The character cursor over the lines of a file or of one string. */
  class SourceBuffer {
    var eofChar: char
    var readChar: char
    var inPosition: int
    var lineNum: int
    var textLines: seq<string>
    const scanner: FileReader

    ghost function State(): BufState
      reads this
    {
      BufState(textLines, lineNum, inPosition, readChar, eofChar)
    }

    /** The C++ constructor is empty: only the line vector (empty) and the line store are initialised. */
    constructor ()
      ensures textLines == [] && fresh(scanner)
      ensures scanner.lines == [] && scanner.linenum == 0 && scanner.line == []
    {
      textLines := [];
      scanner := new FileReader();
    }

    /** The current line; on a placed cursor, an index into the lines. */
    function LineNumber(): (n: int)
      reads this
      ensures Placed(State()) ==> 0 <= n < |textLines|
    {
      lineNum
    }

    /** End of input: the exposed character is the sentinel; otherwise, on a valid buffer, it is the one under the cursor. */
    function IsEof(): (eof: bool)
      reads this
      ensures eof <==> Char() == EofMarker()
      ensures Valid(State()) && !eof ==> Char() == textLines[lineNum][inPosition]
    {
      readChar == eofChar
    }

    /** The sentinel, 0x7F on every buffer that has been loaded. */
    function EofMarker(): (c: char)
      reads this
      ensures Valid(State()) ==> c == EofChar
    {
      eofChar
    }

    /** The exposed character: on a valid buffer, the one under the cursor or the sentinel. */
    function Char(): (c: char)
      reads this
      ensures Valid(State()) ==> c == textLines[lineNum][inPosition] || c == eofChar
    {
      readChar
    }

    /** `readChar = textLines.at(lineNum).at(inPosition)` */
    method ReadAt() returns (r: Result<char>)
      modifies this
      ensures (State(), r) == Fetch(old(State()))
    {
      if 0 <= lineNum < |textLines| && 0 <= inPosition < |textLines[lineNum]| {
        readChar := textLines[lineNum][inPosition];
        r := Ok(readChar);
      } else {
        r := OutOfRange;
      }
    }

    method InitSourceBuffer(tl: seq<string>) returns (thrown: bool)
      modifies this
      ensures State() == Init(old(State()), tl).0
      ensures thrown == Init(old(State()), tl).1.OutOfRange?
    {
      textLines := tl;
      inPosition := 0;
      lineNum := 0;
      eofChar := EofChar;
      var r := ReadAt();
      thrown := r.OutOfRange?;
    }

    /**
      loadFile: `contents` is the outcome of reading the file. When it could not
      be read only readChar changes, to the sentinel, so IsEof() holds; otherwise
      the lines are installed, which throws for an empty file or an empty first line.
    */
    method LoadFile(contents: Option<seq<string>>) returns (thrown: bool)
      modifies this, scanner
      ensures scanner.lines == if contents.Some? then contents.value else []
      ensures contents.None? ==>
        !thrown && State() == old(State()).(readChar := old(eofChar)) && IsEof()
      ensures contents.Some? ==>
        State() == Init(old(State()), contents.value).0 &&
        thrown == Init(old(State()), contents.value).1.OutOfRange?
    {
      scanner.Reset();
      var ok := scanner.ReadFile(contents);
      if ok {
        thrown := InitSourceBuffer(scanner.lines);
      } else {
        readChar := eofChar;
        thrown := false;
      }
    }

    /** loadString: the whole string becomes the only line; an empty string throws. */
    method LoadString(str: string) returns (thrown: bool)
      modifies this, scanner
      ensures scanner.lines == [] && scanner.linenum == 0 && scanner.line == []
      ensures State() == Init(old(State()), [str]).0
      ensures thrown <==> str == []
      ensures !thrown ==>
        textLines == [str] && lineNum == 0 && inPosition == 0 &&
        Char() == str[0] && EofMarker() == EofChar && Valid(State())
    {
      scanner.Reset();
      var line := [str];
      thrown := InitSourceBuffer(line);
    }

    method GetChar() returns (r: Result<char>)
      requires Placed(State())
      modifies this
      ensures (State(), r) == Advance(old(State()))
    {
      if inPosition == |textLines[lineNum]| - 1 {
        if lineNum == |textLines| - 1 {
          readChar := eofChar;
          return Ok(readChar);
        }
        lineNum := lineNum + 1;
        inPosition := 0;
      } else {
        inPosition := inPosition + 1;
      }
      r := ReadAt();
    }

    method UnGetChar() returns (thrown: bool)
      modifies this
      ensures State() == Retreat(old(State())).0
      ensures thrown == Retreat(old(State())).1.OutOfRange?
    {
      if inPosition - 1 <= 0 {
        inPosition := 0;
        lineNum := lineNum - 1;
      } else {
        inPosition := inPosition - 1;
      }
      var r := ReadAt();
      thrown := r.OutOfRange?;
    }
  }
}
