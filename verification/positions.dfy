/** Byte offsets in a text, and the line and column positions Kakoune understands. */
module Positions {
  /** One element per byte; lines end with a newline. */
  type Text = string

  /** 1-based, like everything Kakoune reads. */
  datatype Pos = Pos(line: nat, col: nat)

  predicate Less(p: Pos, q: Pos) {
    p.line < q.line || (p.line == q.line && p.col < q.col)
  }

  predicate AtMost(p: Pos, q: Pos) {
    p == q || Less(p, q)
  }

  function Max(p: Pos, q: Pos): Pos {
    if Less(q, p) then p else q
  }

  function Min(p: Pos, q: Pos): Pos {
    if Less(q, p) then q else p
  }

  // ---------------------------------------------------------------- lines

  /** The 0-based line of a byte offset; the end of the text has one too. */
  function ByteToLine(text: Text, byte: nat): nat
    requires byte <= |text|
  {
    if byte == 0 then 0
    else ByteToLine(text, byte - 1) + if text[byte - 1] == '\n' then 1 else 0
  }

  /** The byte offset at which a line starts. */
  function LineToByte(text: Text, line: nat): (start: nat)
    requires line <= ByteToLine(text, |text|)
    ensures start <= |text|
    ensures line > 0 ==> start > 0 && text[start - 1] == '\n'
    ensures line == 0 ==> start == 0
    ensures ByteToLine(text, start) == line
  {
    FirstOfLine(text, line, |text|)
  }

  /** The first offset up to `byte` that lies on the line. */
  function FirstOfLine(text: Text, line: nat, byte: nat): (start: nat)
    requires byte <= |text| && line <= ByteToLine(text, byte)
    ensures start <= byte
    ensures line > 0 ==> start > 0 && text[start - 1] == '\n'
    ensures ByteToLine(text, start) == line
    ensures line == 0 ==> start == 0
  {
    if line == 0 then 0
    else if line <= ByteToLine(text, byte - 1) then FirstOfLine(text, line, byte - 1)
    else byte
  }

  lemma {:induction false} LinesGrow(text: Text, a: nat, b: nat)
    requires a <= b <= |text|
    ensures ByteToLine(text, a) <= ByteToLine(text, b)
  {
    if a < b {
      LinesGrow(text, a, b - 1);
    }
  }

  /** Only a newline makes the line number grow. */
  lemma {:induction false} SameLineNoNewline(text: Text, a: nat, b: nat)
    requires a <= b <= |text|
    ensures ByteToLine(text, a) == ByteToLine(text, b) <==> forall i :: a <= i < b ==> text[i] != '\n'
  {
    if a < b {
      SameLineNoNewline(text, a, b - 1);
      LinesGrow(text, a, b - 1);
    }
  }

  lemma {:induction false} FirstOfLineSame(text: Text, line: nat, a: nat, b: nat)
    requires a <= b <= |text| && line <= ByteToLine(text, a)
    ensures line <= ByteToLine(text, b) && FirstOfLine(text, line, a) == FirstOfLine(text, line, b)
  {
    LinesGrow(text, a, b);
    if a < b {
      LinesGrow(text, a, b - 1);
      FirstOfLineSame(text, line, a, b - 1);
    }
  }

  /** A line starts right after a newline, at or before each of its bytes, with no newline in between. */
  lemma LineStartOf(text: Text, byte: nat)
    requires byte <= |text|
    ensures ByteToLine(text, byte) <= ByteToLine(text, |text|)
    ensures var start := LineToByte(text, ByteToLine(text, byte));
            start <= byte && forall i :: start <= i < byte ==> text[i] != '\n'
  {
    LinesGrow(text, byte, |text|);
    FirstOfLineSame(text, ByteToLine(text, byte), byte, |text|);
    SameLineNoNewline(text, LineToByte(text, ByteToLine(text, byte)), byte);
  }

  // ---------------------------------------------------------------- positions of bytes

  function FromTreeSitter(text: Text, byte: nat): Pos
    requires byte <= |text|
  {
    LineStartOf(text, byte);
    var line := ByteToLine(text, byte);
    Pos(line + 1, byte - LineToByte(text, line) + 1)
  }

  /** The byte a printed position stands for. */
  function ByteAt(text: Text, p: Pos): int
    requires 0 < p.line <= ByteToLine(text, |text|) + 1
  {
    LineToByte(text, p.line - 1) + p.col - 1
  }

  lemma PositionsDecode(text: Text, byte: nat)
    requires byte <= |text|
    ensures var p := FromTreeSitter(text, byte);
            0 < p.line <= ByteToLine(text, |text|) + 1 && 0 < p.col && ByteAt(text, p) == byte
  {
    LineStartOf(text, byte);
  }

  /** Byte order and position order agree. */
  lemma PositionsAreOrdered(text: Text, a: nat, b: nat)
    requires a <= |text| && b <= |text|
    ensures Less(FromTreeSitter(text, a), FromTreeSitter(text, b)) <==> a < b
    ensures FromTreeSitter(text, a) == FromTreeSitter(text, b) <==> a == b
  {
    LineStartOf(text, a);
    LineStartOf(text, b);
    if a < b {
      LinesGrow(text, a, b);
    } else {
      LinesGrow(text, b, a);
    }
  }

  /** The last byte of a range: its column is one less, unless the range ends where a line starts. */
  lemma PositionBefore(text: Text, end: nat)
    requires 0 < end <= |text|
    ensures var p, q := FromTreeSitter(text, end), FromTreeSitter(text, end - 1);
            if text[end - 1] != '\n' then p.col > 1 && q == Pos(p.line, p.col - 1)
            else p.col == 1 && q.line == p.line - 1
  {
    LineStartOf(text, end);
    LineStartOf(text, end - 1);
    var line := ByteToLine(text, end);
    var start := LineToByte(text, line);
    if text[end - 1] != '\n' {
      assert start < end;
    }
  }

  lemma FirstPosition(text: Text)
    ensures FromTreeSitter(text, 0) == Pos(1, 1)
  {
    LineStartOf(text, 0);
  }

  /** From one byte to the next: one column on, or the first column of the next line behind a newline. */
  lemma PositionsAdvance(text: Text, byte: nat)
    requires byte < |text|
    ensures var p := FromTreeSitter(text, byte);
            FromTreeSitter(text, byte + 1)
            == if text[byte] == '\n' then Pos(p.line + 1, 1) else Pos(p.line, p.col + 1)
  {
    PositionBefore(text, byte + 1);
    LineStartOf(text, byte + 1);
    LineStartOf(text, byte);
  }
}
