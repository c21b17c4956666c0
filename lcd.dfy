/**
 * The layout walk of `printToLCD` on the 16x2 character display, and the
 * choice of prompt in `printTapMsg`. The display itself is not modelled:
 * the walk yields the list of (column, row, character) writes it would make
 * after clearing the screen.
 */
module Lcd {

  import opened Numbers

  const LCD_COLS: int := 16
  const LCD_ROWS: int := 2

  datatype LcdWrite = LcdWrite(col: int, row: int, ch: char)

  /** Row-major index of a display cell. */
  function Cell(w: LcdWrite): (n: int) {
    w.row * LCD_COLS + w.col
  }

  function Chars(ws: seq<LcdWrite>): (cs: seq<char>)
    ensures |cs| == |ws|
    ensures forall k :: 0 <= k < |ws| ==> cs[k] == ws[k].ch
  {
    seq(|ws|, k requires 0 <= k < |ws| => ws[k].ch)
  }

  /** The message with its line breaks removed. */
  function WithoutNewlines(s: string): (r: string)
    ensures |r| <= |s| && '\n' !in r
  {
    if s == [] then []
    else WithoutNewlines(s[..|s| - 1]) + (if s[|s| - 1] == '\n' then [] else [s[|s| - 1]])
  }

  /** Dropping line breaks from a prefix of a message gives a prefix of the whole. */
  lemma {:induction false} WithoutNewlinesPrefix(s: string, i: int)
    requires 0 <= i <= |s|
    ensures WithoutNewlines(s[..i]) <= WithoutNewlines(s)
    decreases |s| - i
  {
    if i < |s| {
      WithoutNewlinesPrefix(s, i + 1);
      assert s[..i + 1][..i] == s[..i];
    } else {
      assert s[..i] == s;
    }
  }

  /** Every write is on the display, and no write prints a line break. */
  predicate OnDisplay(ws: seq<LcdWrite>) {
    forall k :: 0 <= k < |ws| ==>
      0 <= ws[k].col < LCD_COLS && 0 <= ws[k].row < LCD_ROWS && ws[k].ch != '\n'
  }

  /** Writes go to strictly increasing cells, so none overwrites another. */
  predicate Increasing(ws: seq<LcdWrite>) {
    forall j, k :: 0 <= j < k < |ws| ==> Cell(ws[j]) < Cell(ws[k])
  }

  /** Character k of the message goes to column k mod 16 of row k div 16. */
  predicate RowMajor(ws: seq<LcdWrite>, msg: string) {
    |ws| <= |msg| &&
    forall k :: 0 <= k < |ws| ==> ws[k] == LcdWrite(k % LCD_COLS, k / LCD_COLS, msg[k])
  }

  /** Writing character i of the message at cell i extends a row-major layout. */
  lemma RowMajorStep(ws: seq<LcdWrite>, msg: string, row: int, col: int)
    requires RowMajor(ws, msg) && |ws| < |msg|
    requires 0 <= row && 0 <= col < LCD_COLS && |ws| == row * LCD_COLS + col
    ensures RowMajor(ws + [LcdWrite(col, row, msg[|ws|])], msg)
  {
    var i := |ws|;
    assert i % LCD_COLS == col && i / LCD_COLS == row;
  }

  /** Appending a write at a later cell on the display keeps both properties. */
  lemma AppendWrite(ws: seq<LcdWrite>, w: LcdWrite)
    requires OnDisplay(ws) && Increasing(ws)
    requires 0 <= w.col < LCD_COLS && 0 <= w.row < LCD_ROWS && w.ch != '\n'
    requires ws != [] ==> Cell(ws[|ws| - 1]) < Cell(w)
    ensures OnDisplay(ws + [w]) && Increasing(ws + [w])
  {
  }

  /** Wrap test: a cursor past column 15 moves to the start of the next row. */
  function Wrap(row: int, col: int): (int, int) {
    if col == LCD_COLS then (row + 1, 0) else (row, col)
  }

  /**
   * The writes made for the characters from `i` on, with the cursor at
   * (col, row): a line break moves to column 0 of the next row, any other
   * character is written after the wrap test unless it falls below the
   * second row, which ends the walk.
   */
  function LayoutFrom(msg: string, i: int, row: int, col: int): (ws: seq<LcdWrite>)
    requires 0 <= i <= |msg|
    ensures |ws| <= |msg| - i
    decreases |msg| - i
  {
    if i == |msg| then []
    else if msg[i] == '\n' then LayoutFrom(msg, i + 1, row + 1, 0)
    else
      var (r, c) := Wrap(row, col);
      if r >= LCD_ROWS then [] else [LcdWrite(c, r, msg[i])] + LayoutFrom(msg, i + 1, r, c + 1)
  }

  /** The writes `printToLCD` makes for a message, starting at the top left. */
  function Layout(msg: string): (ws: seq<LcdWrite>)
    ensures |ws| <= |msg|
  {
    LayoutFrom(msg, 0, 0, 0)
  }

  /** The text `s` written on one row from column `col` on. */
  function RowWrites(s: string, row: int, col: int): (ws: seq<LcdWrite>)
    ensures |ws| == |s|
    ensures forall k :: 0 <= k < |s| ==> ws[k] == LcdWrite(col + k, row, s[k])
  {
    seq(|s|, k requires 0 <= k < |s| => LcdWrite(col + k, row, s[k]))
  }

  /** A stretch without line breaks that fits on the current row is written in place, left to right. */
  lemma {:induction false} LayoutSegment(msg: string, i: int, j: int, row: int, col: int)
    requires 0 <= i <= j <= |msg| && 0 <= row < LCD_ROWS && 0 <= col && col + (j - i) <= LCD_COLS
    requires forall k :: i <= k < j ==> msg[k] != '\n'
    ensures LayoutFrom(msg, i, row, col) == RowWrites(msg[i..j], row, col) + LayoutFrom(msg, j, row, col + (j - i))
    decreases j - i
  {
    if i == j {
      assert RowWrites(msg[i..j], row, col) == [];
    } else {
      LayoutSegment(msg, i + 1, j, row, col + 1);
      RowWritesCons(msg, i, j, row, col);
      assert Wrap(row, col) == (row, col);
    }
  }

  lemma RowWritesCons(msg: string, i: int, j: int, row: int, col: int)
    requires 0 <= i < j <= |msg|
    ensures RowWrites(msg[i..j], row, col) == [LcdWrite(col, row, msg[i])] + RowWrites(msg[i + 1..j], row, col + 1)
  {
  }

  /**
   * A message of two lines, the first of at most 16 characters: the first
   * line fills row 0 from column 0, the second fills row 1 from column 0
   * and is cut after 16 characters.
   */
  lemma TwoLines(a: string, b: string)
    requires '\n' !in a && '\n' !in b && |a| <= LCD_COLS
    ensures Layout(a + "\n" + b) == RowWrites(a, 0, 0) + RowWrites(b[..Min(|b|, LCD_COLS)], 1, 0)
  {
    var msg := a + "\n" + b;
    var n := Min(|b|, LCD_COLS);
    var j := |a| + 1 + n;
    assert msg[..|a|] == a && msg[|a|] == '\n';
    assert msg[|a| + 1..j] == b[..n];
    assert forall k :: |a| + 1 <= k < j ==> msg[k] == b[k - |a| - 1];
    LayoutSegment(msg, 0, |a|, 0, 0);
    LayoutSegment(msg, |a| + 1, j, 1, 0);
    if n < |b| {
      assert msg[j] == b[n];
    }
    assert LayoutFrom(msg, j, 1, n) == [];
  }

  /** What the walk has achieved after the first `i` characters, with the cursor at (col, row). */
  predicate Walked(msg: string, i: int, row: int, col: int, ws: seq<LcdWrite>) {
    && 0 <= i <= |msg|
    && 0 <= row && 0 <= col <= LCD_COLS
    && |ws| <= row * LCD_COLS + col && |ws| <= LCD_COLS * LCD_ROWS
    && OnDisplay(ws) && Increasing(ws)
    && (ws != [] ==> Cell(ws[|ws| - 1]) < row * LCD_COLS + col)
    && Chars(ws) == WithoutNewlines(msg[..i])
    && ('\n' !in msg ==> row * LCD_COLS + col == i && row < LCD_ROWS && |ws| == i && RowMajor(ws, msg))
  }

  /** The properties `printToLCD` guarantees of its writes. */
  predicate LaidOut(msg: string, ws: seq<LcdWrite>) {
    && OnDisplay(ws) && Increasing(ws)
    && |ws| <= LCD_COLS * LCD_ROWS
    && Chars(ws) <= WithoutNewlines(msg)
    && ('\n' !in msg ==> |ws| == Min(|msg|, LCD_COLS * LCD_ROWS) && RowMajor(ws, msg))
  }

  lemma WalkNewline(msg: string, i: int, row: int, col: int, ws: seq<LcdWrite>)
    requires Walked(msg, i, row, col, ws) && i < |msg| && msg[i] == '\n'
    ensures Walked(msg, i + 1, row + 1, 0, ws)
  {
    assert msg[..i + 1] == msg[..i] + ['\n'];
    assert msg[..i + 1][..i] == msg[..i];
  }

  lemma WalkStart(msg: string)
    ensures Walked(msg, 0, 0, 0, [])
  {
    assert msg[..0] == [];
  }

  /** Writing character i at the cursor (r, c) reached after the wrap test. */
  lemma WalkWrite(msg: string, i: int, row: int, col: int, r: int, c: int, ws: seq<LcdWrite>)
    requires Walked(msg, i, row, col, ws) && i < |msg| && msg[i] != '\n'
    requires (r, c) == Wrap(row, col) && r < LCD_ROWS
    ensures Walked(msg, i + 1, r, c + 1, ws + [LcdWrite(c, r, msg[i])])
  {
    var w := LcdWrite(c, r, msg[i]);
    AppendWrite(ws, w);
    assert msg[..i + 1][..i] == msg[..i];
    assert Chars(ws + [w]) == Chars(ws) + [msg[i]];
    if '\n' !in msg {
      RowMajorStep(ws, msg, r, c);
    }
  }

  lemma WalkStop(msg: string, i: int, row: int, col: int, r: int, ws: seq<LcdWrite>)
    requires Walked(msg, i, row, col, ws) && i < |msg| && msg[i] != '\n'
    requires r == Wrap(row, col).0 && r >= LCD_ROWS
    ensures LaidOut(msg, ws)
  {
    WithoutNewlinesPrefix(msg, i);
  }

  lemma WalkDone(msg: string, row: int, col: int, ws: seq<LcdWrite>)
    requires Walked(msg, |msg|, row, col, ws)
    ensures LaidOut(msg, ws)
  {
    assert msg[..|msg|] == msg;
  }

  lemma LayoutWrite(msg: string, i: int, row: int, col: int, r: int, c: int)
    requires 0 <= i < |msg| && msg[i] != '\n'
    requires (r, c) == Wrap(row, col) && r < LCD_ROWS
    ensures LayoutFrom(msg, i, row, col) == [LcdWrite(c, r, msg[i])] + LayoutFrom(msg, i + 1, r, c + 1)
  {
  }

  /**
   * The walk from character `i` on completes what has been achieved so far
   * into a layout with the properties `printToLCD` guarantees.
   */
  lemma {:induction false} WalkCompletes(msg: string, i: int, row: int, col: int, ws: seq<LcdWrite>)
    requires Walked(msg, i, row, col, ws)
    ensures LaidOut(msg, ws + LayoutFrom(msg, i, row, col))
    decreases |msg| - i, 1
  {
    if i == |msg| {
      WalkDone(msg, row, col, ws);
      LaidOutSame(msg, ws, ws + LayoutFrom(msg, i, row, col));
    } else if msg[i] == '\n' {
      CompletesAfterNewline(msg, i, row, col, ws);
    } else if Wrap(row, col).0 >= LCD_ROWS {
      WalkStop(msg, i, row, col, Wrap(row, col).0, ws);
      LaidOutSame(msg, ws, ws + LayoutFrom(msg, i, row, col));
    } else {
      CompletesAfterWrite(msg, i, row, col, ws);
    }
  }

  lemma {:induction false} CompletesAfterNewline(msg: string, i: int, row: int, col: int, ws: seq<LcdWrite>)
    requires Walked(msg, i, row, col, ws) && i < |msg| && msg[i] == '\n'
    ensures LaidOut(msg, ws + LayoutFrom(msg, i, row, col))
    decreases |msg| - i, 0
  {
    WalkNewline(msg, i, row, col, ws);
    WalkCompletes(msg, i + 1, row + 1, 0, ws);
    LaidOutSame(msg, ws + LayoutFrom(msg, i + 1, row + 1, 0), ws + LayoutFrom(msg, i, row, col));
  }

  lemma {:induction false} CompletesAfterWrite(msg: string, i: int, row: int, col: int, ws: seq<LcdWrite>)
    requires Walked(msg, i, row, col, ws) && i < |msg| && msg[i] != '\n'
    requires Wrap(row, col).0 < LCD_ROWS
    ensures LaidOut(msg, ws + LayoutFrom(msg, i, row, col))
    decreases |msg| - i, 0
  {
    var (r, c) := Wrap(row, col);
    var w := LcdWrite(c, r, msg[i]);
    var rest := LayoutFrom(msg, i + 1, r, c + 1);
    WalkWrite(msg, i, row, col, r, c, ws);
    WalkCompletes(msg, i + 1, r, c + 1, ws + [w]);
    LayoutWrite(msg, i, row, col, r, c);
    LaidOutRegroup(msg, ws, w, rest);
  }

  lemma LaidOutRegroup(msg: string, ws: seq<LcdWrite>, w: LcdWrite, rest: seq<LcdWrite>)
    requires LaidOut(msg, ws + [w] + rest)
    ensures LaidOut(msg, ws + ([w] + rest))
  {
    assert ws + [w] + rest == ws + ([w] + rest);
  }

  lemma LaidOutSame(msg: string, ws: seq<LcdWrite>, ws': seq<LcdWrite>)
    requires LaidOut(msg, ws) && ws == ws'
    ensures LaidOut(msg, ws')
  {
  }

  /**
   * Every write is on the display and not a line break, at most 32 writes
   * go to strictly increasing cells, the characters written are a prefix
   * of the message without its line breaks, and a message without line
   * breaks fills the cells row by row.
   */
  lemma LayoutLaidOut(msg: string)
    ensures LaidOut(msg, Layout(msg))
  {
    WalkStart(msg);
    WalkCompletes(msg, 0, 0, 0, []);
    assert [] + Layout(msg) == Layout(msg);
  }

  /**
   * The layout walk of `printToLCD`. A line break moves to the start of the
   * next row; a character that would fall past column 15 wraps to the next
   * row; the walk stops at the first character that would land below the
   * second row.
   */
  method PrintToLcd(msg: string) returns (writes: seq<LcdWrite>)
    ensures writes == Layout(msg)
  {
    var row, col := 0, 0;
    writes := [];
    for i := 0 to |msg|
      invariant writes + LayoutFrom(msg, i, row, col) == Layout(msg)
    {
      if msg[i] == '\n' {
        row := row + 1;
        col := 0;
        continue;
      }
      ghost var row0, col0 := row, col;
      if col == LCD_COLS {
        row := row + 1;
        col := 0;
      }
      if row >= LCD_ROWS {
        assert writes + [] == writes;
        return;
      }
      assert writes + [LcdWrite(col, row, msg[i])] + LayoutFrom(msg, i + 1, row, col + 1)
        == writes + LayoutFrom(msg, i, row0, col0);
      writes := writes + [LcdWrite(col, row, msg[i])];
      col := col + 1;
    }
    assert writes + [] == writes;
  }

  const TEACHER_PROMPT: string := "Tap Teacher's ID Card"
  const STUDENT_PROMPT: string := "Tap your ID Card"

  /** `printTapMsg`: the teacher prompt exactly when no session is open. */
  function TapMessage(inAttendanceQueue: bool): (m: string)
    ensures m == TEACHER_PROMPT <==> !inAttendanceQueue
    ensures m == STUDENT_PROMPT <==> inAttendanceQueue
  {
    if !inAttendanceQueue then TEACHER_PROMPT else STUDENT_PROMPT
  }
}
