/** The dump printer: one fixed line buffer filled piece by piece, and a reader of its hex columns. */
module HexDump {
  import opened Bytes
  import opened Sequences
  import opened Hex

  const LINE_SIZE: nat := 128

  /** One more than the largest `size_t`. */
  const SIZES: nat := 0x1_0000_0000_0000_0000

  /** The kernel's character table: Latin-1 letters and signs print, controls do not. */
  predicate IsPrint(b: byte) { 32 <= b <= 126 || 160 <= b }

  function Shown(b: byte): char { if IsPrint(b) then b as char else '.' }

  // ---- The text of a line

  function Cell(data: seq<byte>, i: nat): string {
    if i < |data| then Print(data[i], 2) + " " else "   "
  }

  function Cells(data: seq<byte>, i: nat, end: nat): string
    decreases end - i
  {
    if i >= end then "" else Cell(data, i) + Cells(data, i + 1, end)
  }

  function Ascii(bytes: seq<byte>): string {
    if bytes == [] then "" else Ascii(bytes[..|bytes| - 1]) + [Shown(bytes[|bytes| - 1])]
  }

  /** The end of the line that starts at i. */
  function LineEnd(data: seq<byte>, i: nat): nat { if i + 16 <= |data| then i + 16 else |data| }

  function Line(data: seq<byte>, i: nat): string
    requires i < |data|
  {
    Print(i, 8) + "  " + (Cells(data, i, i + 16) + (" |" + (Ascii(data[i..LineEnd(data, i)]) + "|")))
  }

  function Lines(data: seq<byte>, i: nat): seq<string>
    decreases |data| - i
  {
    if i >= |data| then [] else [Line(data, i)] + Lines(data, i + 16)
  }

  // ---- Reading a dump

  function FirstSpace(line: string): (n: nat)
    ensures n <= |line| && (n < |line| ==> line[n] == ' ') && ' ' !in line[..n]
  {
    if line == "" || line[0] == ' ' then 0 else 1 + FirstSpace(line[1..])
  }

  function ReadOffset(line: string): nat { Hex.Parse(line[..FirstSpace(line)]) }

  function ReadCells(s: string, n: nat): seq<nat>
    decreases |s|
  {
    if n == 0 || |s| < 3 || s[0] == ' ' then [] else [Hex.Parse(s[..2])] + ReadCells(s[3..], n - 1)
  }

  function ReadLine(line: string): seq<nat> {
    var start := FirstSpace(line) + 2;
    if start <= |line| then ReadCells(line[start..], 16) else []
  }

  function ReadDump(lines: seq<string>): seq<nat> {
    if lines == [] then [] else ReadLine(lines[0]) + ReadDump(lines[1..])
  }

  lemma CellLength(data: seq<byte>, i: nat)
    ensures |Cell(data, i)| == 3
    ensures i < |data| ==> Cell(data, i)[0] != ' ' && Hex.Parse(Cell(data, i)[..2]) == data[i]
    ensures forall c <- Cell(data, i) :: c != NUL
  {
    if i < |data| {
      PrintByte(data[i]);
      ParsePrint(data[i], 2);
      assert Cell(data, i)[..2] == Print(data[i], 2) && Cell(data, i)[0] in Print(data[i], 2);
    }
  }

  lemma {:induction false} CellsLength(data: seq<byte>, i: nat, end: nat)
    requires i <= end
    ensures |Cells(data, i, end)| == 3 * (end - i) && NUL !in Cells(data, i, end)
    decreases end - i
  {
    if i < end {
      CellLength(data, i);
      CellsLength(data, i + 1, end);
    }
  }

  lemma {:induction false} CellsAppend(data: seq<byte>, i: nat, end: nat)
    requires i <= end
    ensures Cells(data, i, end + 1) == Cells(data, i, end) + Cell(data, end)
    decreases end - i
  {
    var first, last := Cell(data, i), Cell(data, end);
    if i < end {
      assert Cells(data, i, end + 1) == first + (Cells(data, i + 1, end) + last) by { CellsAppend(data, i + 1, end); }
      Assoc(first, Cells(data, i + 1, end), last);
    } else {
      assert Cells(data, end + 1, end + 1) == "";
    }
  }

  lemma ReadCellsCons(cell: string, rest: string, n: nat)
    requires |cell| == 3 && n > 0
    ensures ReadCells(cell + rest, n) ==
            if cell[0] == ' ' then [] else [Hex.Parse(cell[..2])] + ReadCells(rest, n - 1)
  {
    assert (cell + rest)[..2] == cell[..2] && (cell + rest)[3..] == rest;
  }

  /** A column of data is read, a blank one ends the row. */
  lemma ReadCell(data: seq<byte>, i: nat, rest: string, n: nat)
    ensures ReadCells(Cell(data, i) + rest, n + 1) == if i < |data| then [data[i]] + ReadCells(rest, n) else []
  {
    CellLength(data, i);
    ReadCellsCons(Cell(data, i), rest, n + 1);
  }

  lemma CellsFirst(data: seq<byte>, i: nat, end: nat, tail: string)
    requires i < end
    ensures Cells(data, i, end) + tail == Cell(data, i) + (Cells(data, i + 1, end) + tail)
  {
    Assoc(Cell(data, i), Cells(data, i + 1, end), tail);
  }

  lemma ReadBlanks(data: seq<byte>, i: nat, end: nat, tail: string)
    requires |data| <= i <= end
    ensures ReadCells(Cells(data, i, end) + tail, end - i) == []
  {
    if i < end {
      CellsFirst(data, i, end, tail);
      ReadCell(data, i, Cells(data, i + 1, end) + tail, end - i - 1);
    }
  }

  lemma ReadStep(data: seq<byte>, i: nat, end: nat, stop: nat, tail: string)
    requires i < stop <= end && stop <= |data|
    requires ReadCells(Cells(data, i + 1, end) + tail, end - i - 1) == data[i + 1..stop]
    ensures ReadCells(Cells(data, i, end) + tail, end - i) == data[i..stop]
  {
    hide *;
    CellsFirst(data, i, end, tail);
    ReadCell(data, i, Cells(data, i + 1, end) + tail, end - i - 1);
    SliceFirst(data, i, stop);
  }

  lemma {:induction false} ReadCellsBack(data: seq<byte>, i: nat, end: nat, stop: nat, tail: string)
    requires i <= stop <= end && stop == if end <= |data| then end else |data|
    ensures ReadCells(Cells(data, i, end) + tail, end - i) == data[i..stop]
    decreases stop - i
  {
    if i < stop {
      ReadCellsBack(data, i + 1, end, stop, tail);
      ReadStep(data, i, end, stop, tail);
    } else if stop == |data| {
      ReadBlanks(data, i, end, tail);
    }
  }

  lemma FirstSpaceAfter(offset: string, tail: string)
    requires ' ' !in offset
    ensures FirstSpace(offset + " " + tail) == |offset|
  {
    var line := offset + " " + tail;
    assert line[|offset|] == ' ' && line[..|offset|] == offset;
  }

  lemma ReadLineParts(offset: string, rest: string)
    requires ' ' !in offset
    ensures var line := offset + "  " + rest;
            ReadLine(line) == ReadCells(rest, 16) && ReadOffset(line) == Hex.Parse(offset)
  {
    var line := offset + "  " + rest;
    assert line == offset + " " + (" " + rest);
    FirstSpaceAfter(offset, " " + rest);
    assert line[..|offset|] == offset && line[|offset| + 2..] == rest;
  }

  lemma LineParts(data: seq<byte>, i: nat, rest: string)
    requires i < |data| && Line(data, i) == Print(i, 8) + "  " + rest
    ensures ReadLine(Line(data, i)) == ReadCells(rest, 16) && ReadOffset(Line(data, i)) == i
  {
    assert Hex.Parse(Print(i, 8)) == i && ' ' !in Print(i, 8) by { ParsePrint(i, 8); }
    ReadLineParts(Print(i, 8), rest);
  }

  lemma LineReadsBack(data: seq<byte>, i: nat)
    requires i < |data|
    ensures ReadLine(Line(data, i)) == data[i..LineEnd(data, i)] && ReadOffset(Line(data, i)) == i
  {
    var tail := " |" + (Ascii(data[i..LineEnd(data, i)]) + "|");
    LineParts(data, i, Cells(data, i, i + 16) + tail);
    ReadCellsBack(data, i, i + 16, LineEnd(data, i), tail);
  }

  lemma ReadDumpCons(line: string, rest: seq<string>)
    ensures ReadDump([line] + rest) == ReadLine(line) + ReadDump(rest)
  {
    assert ([line] + rest)[1..] == rest;
  }

  lemma LinesFirst(data: seq<byte>, i: nat)
    requires i < |data|
    ensures Lines(data, i) == [Line(data, i)] + Lines(data, LineEnd(data, i))
  {
  }

  lemma ReadFirstLine(data: seq<byte>, i: nat, end: nat)
    requires i < |data| && end == LineEnd(data, i)
    ensures ReadDump(Lines(data, i)) == data[i..end] + ReadDump(Lines(data, end))
  {
    hide *;
    LinesFirst(data, i);
    ReadDumpCons(Line(data, i), Lines(data, end));
    LineReadsBack(data, i);
  }

  lemma {:induction false} LinesReadBack(data: seq<byte>, i: nat)
    requires i <= |data|
    ensures ReadDump(Lines(data, i)) == data[i..]
    decreases |data| - i
  {
    if i < |data| {
      var end := LineEnd(data, i);
      ReadFirstLine(data, i, end);
      LinesReadBack(data, end);
      SliceJoin(data, i, end, |data|);
    }
  }

  lemma {:induction false} LineCount(data: seq<byte>, i: nat)
    requires i <= |data|
    ensures |Lines(data, i)| == (|data| - i + 15) / 16
    decreases |data| - i
  {
    if i + 16 <= |data| {
      LineCount(data, i + 16);
      assert |Lines(data, i)| == 1 + |Lines(data, i + 16)|;
      assert (|data| - i + 15) / 16 == 1 + (|data| - (i + 16) + 15) / 16;
    } else {
      assert Lines(data, i + 16) == [] && |Lines(data, i)| == (if i < |data| then 1 else 0);
    }
  }

  lemma {:induction false} LineOffsets(data: seq<byte>, i: nat, k: nat)
    ensures k < |Lines(data, i)| ==> ReadOffset(Lines(data, i)[k]) == i + 16 * k
    decreases |data| - i
  {
    if i < |data| {
      assert ReadOffset(Line(data, i)) == i by { LineReadsBack(data, i); }
      LineOffsets(data, i + 16, if k > 0 then k - 1 else 0);
    }
  }

  /** Round trip: the hex columns give the bytes back, sixteen a line, at offsets that are multiples of sixteen. */
  lemma DumpReadsBack(data: seq<byte>)
    ensures ReadDump(Lines(data, 0)) == data
    ensures |Lines(data, 0)| == (|data| + 15) / 16
    ensures forall k :: 0 <= k < |Lines(data, 0)| ==> ReadOffset(Lines(data, 0)[k]) == 16 * k
  {
    var first, lines := 0, Lines(data, 0);
    assert ReadDump(lines) == data by { LinesReadBack(data, first); }
    assert |lines| == (|data| + 15) / 16 by { LineCount(data, first); }
    forall k | 0 <= k < |lines| ensures ReadOffset(lines[k]) == 16 * k { LineOffsets(data, first, k); }
  }

  // ---- The layout of a line

  lemma {:induction false} CellsAt(data: seq<byte>, i: nat, end: nat, j: nat)
    requires i + j < end
    ensures 3 * j + 3 <= |Cells(data, i, end)| && Cells(data, i, end)[3 * j..3 * j + 3] == Cell(data, i + j)
    decreases j
  {
    hide Cell, Print;
    assert |Cell(data, i)| == 3 by { CellLength(data, i); }
    if j > 0 {
      var rest := Cells(data, i + 1, end);
      CellsAt(data, i + 1, end, j - 1);
      SliceAfter(Cell(data, i), rest, 3 * j - 3, 3 * j);
    }
  }

  lemma {:induction false} AsciiAt(bytes: seq<byte>, j: nat)
    requires j < |bytes|
    ensures |Ascii(bytes)| == |bytes|
    ensures Ascii(bytes)[j] == if 32 <= bytes[j] <= 126 || 160 <= bytes[j] then bytes[j] as char else '.'
  {
    AsciiLength(bytes);
    var n := |bytes| - 1;
    AsciiLength(bytes[..n]);
    if j < n { AsciiAt(bytes[..n], j); }
  }

  lemma CellIs(data: seq<byte>, i: nat)
    ensures Cell(data, i) == if i < |data| then [DIGITS[data[i] / 16], DIGITS[data[i] % 16], ' '] else "   "
  {
    if i < |data| { ByteText(data[i]); }
  }

  lemma FiveParts(a: string, b: string, c: string, d: string, e: string)
    ensures var s := a + b + (c + (d + (e + "|")));
            && |s| == |a| + |b| + |c| + |d| + |e| + 1
            && s[..|a|] == a && s[|a|..|a| + |b|] == b && s[|a| + |b|..|a| + |b| + |c|] == c
            && s[|a| + |b| + |c|..|a| + |b| + |c| + |d|] == d
            && s[|a| + |b| + |c| + |d|..|a| + |b| + |c| + |d| + |e|] == e && s[|s| - 1] == '|'
  {
  }

  /** A line: the offset, two spaces, 48 characters of hex columns, and between bars a character for each byte. */
  lemma LineFrame(data: seq<byte>, i: nat)
    requires i < |data|
    ensures var line, off := Line(data, i), |Print(i, 8)|;
            var n := if i + 16 <= |data| then 16 else |data| - i;
            && |line| == off + 53 + n && line[..off] == Print(i, 8) && line[off..off + 2] == "  "
            && line[off + 2..off + 50] == Cells(data, i, i + 16) && line[off + 50..off + 52] == " |"
            && line[off + 52..off + 52 + n] == Ascii(data[i..i + n]) && line[off + 52 + n] == '|'
  {
    hide Print, Cells, Ascii;
    var row := data[i..LineEnd(data, i)];
    CellsLength(data, i, i + 16);
    AsciiLength(row);
    FiveParts(Print(i, 8), "  ", Cells(data, i, i + 16), " |", Ascii(row));
  }

  /** Column j of the hex part: two digits and a space, blank past the data. */
  lemma LineCell(data: seq<byte>, i: nat, j: nat)
    requires i < |data| && j < 16
    ensures var line, at := Line(data, i), |Print(i, 8)| + 2 + 3 * j;
            && at + 3 <= |line|
            && line[at..at + 3] == if i + j < |data| then [DIGITS[data[i + j] / 16], DIGITS[data[i + j] % 16], ' ']
                                   else "   "
  {
    hide Print, Cells, Cell, Ascii, Line;
    LineFrame(data, i);
    CellsAt(data, i, i + 16, j);
    CellIs(data, i + j);
    SliceWithin(Line(data, i), |Print(i, 8)| + 2, Cells(data, i, i + 16), 3 * j, 3 * j + 3);
  }

  /** Character j of the part between bars: the byte itself, a dot if it does not print. */
  lemma LineChar(data: seq<byte>, i: nat, j: nat)
    requires j < 16 && i + j < |data|
    ensures var line, at, b := Line(data, i), |Print(i, 8)| + 52 + j, data[i + j];
            at < |line| && line[at] == if 32 <= b <= 126 || 160 <= b then b as char else '.'
  {
    hide Print, Cells, Ascii, Line;
    LineFrame(data, i);
    var n := if i + 16 <= |data| then 16 else |data| - i;
    AsciiAt(data[i..i + n], j);
    var line, off := Line(data, i), |Print(i, 8)|;
    assert line[off + 52..off + 52 + n][j] == line[off + 52 + j];
  }

  lemma SliceWithin(s: string, at: nat, part: string, i: nat, j: nat)
    requires at + |part| <= |s| && s[at..at + |part|] == part && i <= j <= |part|
    ensures s[at + i..at + j] == part[i..j]
  {
    forall k | 0 <= k < j - i ensures s[at + i..at + j][k] == part[i..j][k] {
      assert s[at..at + |part|][i + k] == s[at + i + k];
    }
  }

  // ---- The printer

  /** `snprintf` into what is left of the buffer: truncated if it must be, NUL-terminated, and reporting the
      full length. */
  method Snprintf(line: array<char>, pos: nat, text: string) returns (n: nat)
    requires pos < line.Length
    modifies line
    ensures n == |text|
    ensures var room := line.Length - pos - 1;
            var kept := if |text| <= room then text else text[..room];
            line[..] == old(line[..pos]) + kept + [NUL] + old(line[pos + |kept| + 1..])
  {
    n := |text|;
    var room := line.Length - pos - 1;
    var kept := if |text| <= room then text else text[..room];
    forall k | 0 <= k < |kept| {
      line[pos + k] := kept[k];
    }
    line[pos + |kept|] := NUL;
    assert line[pos..pos + |kept|] == kept;
  }

  /** `pos += snprintf(...)`, with room enough. */
  method Append(line: array<char>, pos: nat, text: string) returns (end: nat)
    requires pos + |text| < line.Length
    modifies line
    ensures end == pos + |text| && line[..end] == old(line[..pos]) + text && line[end] == NUL
  {
    var n := Snprintf(line, pos, text);
    end := pos + n;
    assert line[..][..end] == old(line[..pos]) + text && line[..][end] == NUL;
  }

  lemma {:induction false} AsciiLength(bytes: seq<byte>)
    ensures |Ascii(bytes)| == |bytes| && NUL !in Ascii(bytes)
  {
    if bytes != [] { AsciiLength(bytes[..|bytes| - 1]); }
  }

  lemma OffsetFits(i: nat)
    requires i < SIZES
    ensures |Print(i, 8)| <= 16 && NUL !in Print(i, 8)
  {
    assert Pow16(16) == SIZES by {
      assert Pow16(8) == 0x1_0000_0000;
    }
    PrintLength(i, 8, 16);
    ParsePrint(i, 8);
  }

  lemma CellsNone(data: seq<byte>, i: nat)
    ensures Cells(data, i, i) == ""
  {
  }

  lemma CellsNext(head: string, data: seq<byte>, i: nat, end: nat, text: string) returns (next: string)
    requires i <= end && text == head + Cells(data, i, end)
    ensures next == text + Cell(data, end) && next == head + Cells(data, i, end + 1)
  {
    next := text + Cell(data, end);
    CellsAppend(data, i, end);
    Assoc(head, Cells(data, i, end), Cell(data, end));
  }

  method FillCell(line: array<char>, data: seq<byte>, k: nat, start: nat) returns (pos: nat)
    requires start + 3 < line.Length
    modifies line
    ensures pos == start + 3 && line[..pos] == old(line[..start]) + Cell(data, k)
  {
    CellLength(data, k);
    if k < |data| {
      pos := Append(line, start, Print(data[k], 2) + " ");
    } else {
      pos := Append(line, start, "   ");
    }
  }

  method FillCells(line: array<char>, data: seq<byte>, i: nat, start: nat) returns (pos: nat)
    requires line.Length == LINE_SIZE && start <= 18 && i < |data|
    modifies line
    ensures pos == start + 48 && line[..pos] == old(line[..start]) + Cells(data, i, i + 16)
  {
    hide Cells, Cell;
    ghost var head, text := line[..start], line[..start];
    pos := start;
    CellsNone(data, i);
    for j := 0 to 16
      invariant pos == start + 3 * j && line[..pos] == text
      invariant text == head + Cells(data, i, i + j)
    {
      pos := FillCell(line, data, i + j, pos);
      text := CellsNext(head, data, i, i + j, text);
    }
  }

  method FillAscii(line: array<char>, data: seq<byte>, i: nat, start: nat) returns (pos: nat)
    requires line.Length == LINE_SIZE && start <= 68 && i < |data|
    modifies line
    ensures pos == start + LineEnd(data, i) - i && line[..pos] == old(line[..start]) + Ascii(data[i..LineEnd(data, i)])
  {
    ghost var head := line[..start];
    pos := start;
    var j := 0;
    while j < 16 && i + j < |data|
      invariant i + j <= LineEnd(data, i) && pos == start + j
      invariant line[..pos] == head + Ascii(data[i..i + j])
    {
      assert data[i..i + j + 1][..j] == data[i..i + j];
      Assoc(head, Ascii(data[i..i + j]), [Shown(data[i + j])]);
      pos := Append(line, pos, [Shown(data[i + j])]);
      j := j + 1;
    }
  }

  lemma LineJoins(a: string, b: string, c: string, d: string, e: string)
    ensures a + b + c + d + e == a + (b + (c + (d + e)))
  {
    Assoc(a + b + c, d, e);
    Assoc(a + b, c, d + e);
    Assoc(a, b, c + (d + e));
  }

  /** One line into the buffer: no piece is cut short. */
  method FillLine(line: array<char>, data: seq<byte>, i: nat)
    requires line.Length == LINE_SIZE && i < |data| && i < SIZES
    modifies line
    ensures CString(line[..], NUL) == Line(data, i)
  {
    ghost var offset, cells := Print(i, 8) + "  ", Cells(data, i, i + 16);
    ghost var ascii := Ascii(data[i..LineEnd(data, i)]);
    LineHasNoNul(data, i);
    var pos := Append(line, 0, Print(i, 8) + "  ");
    assert line[..pos] == offset;
    pos := FillCells(line, data, i, pos);
    assert line[..pos] == offset + cells;
    pos := Append(line, pos, " |");
    assert line[..pos] == offset + cells + " |";
    pos := FillAscii(line, data, i, pos);
    assert line[..pos] == offset + cells + " |" + ascii;
    pos := Append(line, pos, "|");
    LineJoins(offset, cells, " |", ascii, "|");
    CStringUnique(line[..], NUL, pos);
  }

  lemma LineHasNoNul(data: seq<byte>, i: nat)
    requires i < |data| && i < SIZES
    ensures NUL !in Line(data, i) && |Print(i, 8)| <= 16
  {
    OffsetFits(i);
    CellsLength(data, i, i + 16);
    AsciiLength(data[i..LineEnd(data, i)]);
  }

  // ---- Termination

  /** The loop's index after n rounds, in 64 bits. */
  function IndexAfter(n: nat): nat {
    if n == 0 then 0 else (IndexAfter(n - 1) + 16) % SIZES
  }

  lemma {:induction false} IndexStaysLow(n: nat)
    ensures IndexAfter(n) <= SIZES - 16 && IndexAfter(n) % 16 == 0
  {
    if n > 0 { IndexStaysLow(n - 1); }
  }

  lemma {:induction false} IndexBeforeWrap(n: nat)
    requires 16 * n < SIZES
    ensures IndexAfter(n) == 16 * n
  {
    if n > 0 { IndexBeforeWrap(n - 1); }
  }

  /** The loop over a buffer of the given length ends exactly when the length stays clear of the top of `size_t`:
      beyond, the index wraps around and starts again. */
  lemma EndsExactlyBelowTop(len: nat)
    requires len < SIZES
    ensures (exists n :: IndexAfter(n) >= len) <==> len <= SIZES - 16
  {
    if len <= SIZES - 16 {
      var n := (len + 15) / 16;
      IndexBeforeWrap(n);
      assert IndexAfter(n) >= len;
    } else {
      forall n ensures IndexAfter(n) < len { IndexStaysLow(n); }
    }
  }

  /** The whole dump, of every length for which the loop ends. */
  method Dump(data: seq<byte>) returns (lines: seq<string>)
    requires |data| <= SIZES - 16
    ensures lines == Lines(data, 0)
  {
    var line := new char[LINE_SIZE];
    ghost var all := Lines(data, 0);
    lines := [];
    var i := 0;
    while i < |data|
      invariant lines + Lines(data, i) == all
      decreases |data| - i
    {
      FillLine(line, data, i);
      var text := CString(line[..], NUL);
      assert lines + Lines(data, i) == (lines + [text]) + Lines(data, i + 16) by {
        Assoc(lines, [text], Lines(data, i + 16));
      }
      lines := lines + [text];
      i := i + 16;
    }
    assert lines + [] == lines;
  }
}
