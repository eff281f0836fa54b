/** The reverse direction, HexxyReverse (reverse.go), as a specification:
    the input is cut into lines the way bufio's ReadBytes('\n') cuts it,
    each line is scanned in the mode's own way with a one-byte buffer that
    persists from line to line, and a character count ends the run early
    once it reaches the column limit. */
module ReverseSpec {
  import opened Bytes
  import opened Encode
  import opened DumpGeometry
  import opened DumpSpec

  const NL: Byte := '\n' as int

  // ---------------------------------------------------------------------
  // Geometry

  /** The column limit: `-c` when given, otherwise 0 (no limit); `-l`
      lowers it when it is smaller. */
  function ReverseCols(opts: Options): (cols: int)
    ensures cols <= (if opts.columns != -1 then opts.columns else 0)
    ensures opts.len != -1 ==> cols <= opts.len
    ensures cols == (if opts.columns != -1 then opts.columns else 0) || cols == opts.len
  {
    var cols := if opts.columns != -1 then opts.columns else 0;
    if opts.len != -1 && opts.len < cols then opts.len else cols
  }

  /** The width of the window each scan decodes. The source's fallback for
      a width below one cannot be reached: every mode has at least two. */
  function ReverseOcts(mode: Mode): (octs: nat)
    ensures mode != Plain ==> octs == UnitWidth(mode)
    ensures mode == Plain || mode == Hex <==> octs == 2
  {
    match mode
    case Binary => 8
    case CFormat => 4
    case _ => 2
  }

  // ---------------------------------------------------------------------
  // Lines

  /** Where the line that starts at `pos` ends: just past its first
      newline, or at the end of the input when there is none. */
  function LineEnd(data: seq<Byte>, pos: nat): (e: nat)
    requires pos <= |data|
    ensures pos <= e <= |data|
    ensures forall k | pos <= k < e - 1 :: data[k] != NL
    ensures e == |data| || (e > pos && data[e - 1] == NL)
    decreases |data| - pos
  {
    if pos == |data| then pos
    else if data[pos] == NL then pos + 1
    else LineEnd(data, pos + 1)
  }

  /** bufio's ReadBytes('\n') from `pos`: the line, and whether the read
      failed. A failing reader fails when a line runs into the end of the
      input without its newline (and on the empty read at the very end). */
  function ReadBytes(data: seq<Byte>, pos: nat, readFails: bool): (r: (seq<Byte>, bool))
    requires pos <= |data|
    ensures pos + |r.0| <= |data| && r.0 == data[pos..pos + |r.0|]
    ensures r.0 == [] ==> pos == |data|
    ensures forall k | 0 <= k < |r.0| - 1 :: r.0[k] != NL
    ensures r.1 <==> readFails && (r.0 == [] || r.0[|r.0| - 1] != NL)
    ensures !r.1 && (r.0 == [] || r.0[|r.0| - 1] != NL) ==> pos + |r.0| == |data|
  {
    var e := LineEnd(data, pos);
    var line := data[pos..e];
    (line, readFails && (line == [] || line[|line| - 1] != NL))
  }

  // ---------------------------------------------------------------------
  // Scanning one line

  /** What scanning a line leaves: the bytes written, the one-byte buffer,
      how much the character count grew, and whether the scan panicked
      (the bytes written before a panic stay written). */
  datatype Scan = Scan(out: seq<Byte>, ch: Byte, count: nat, panicked: bool)

  /** The byte a pair of digits stands for, when both are hex digits. */
  function PairValue(w: seq<Byte>): (r: Option<Byte>)
    requires |w| == 2
    ensures r.Some? ==> r.value == ReverseHex(w[0]) * 16 + ReverseHex(w[1])
  {
    if ReverseHex(w[0]) <= 0x0f && ReverseHex(w[1]) <= 0x0f then Some(ReverseHex(w[0]) * 16 + ReverseHex(w[1]))
    else None
  }

  /** hexDecode on a pair decodes exactly the pair's value: one byte when
      both are digits, none otherwise. */
  lemma PairDecode(w: seq<Byte>)
    requires |w| == 2
    ensures |DecodePairs(w).bytes| <= 1
    ensures PairValue(w).None? <==> |DecodePairs(w).bytes| == 0
    ensures PairValue(w).Some? ==> DecodePairs(w).bytes[0] == PairValue(w).value
  {
    if |DecodePairs(w).bytes| == 0 {
      DecodePairsError(w);
    } else {
      DecodePairsByte(w, 0);
    }
  }

  /** Hex mode, windows at `9 + i` for `i = 0, 5, 10, ...` while
      `i <= |line| - 28`: the line without its 9-byte offset field and its
      last 19 bytes is stepped through five bytes at a time, and each
      window reads two bytes (which may run two bytes past the trimmed
      part). A window of two hex digits is decoded into the buffer and
      written; nothing is ever counted. */
  function HexScan(line: seq<Byte>, i: nat, ch: Byte): (r: Scan)
    requires |line| >= 28
    ensures r.count == 0 && !r.panicked
    decreases |line| - i
  {
    if i > |line| - 28 then Scan([], ch, 0, false)
    else
      match PairValue(line[9 + i..9 + i + 2])
      case None => HexScan(line, i + 5, ch)
      case Some(b) =>
        var r := HexScan(line, i + 5, b);
        Scan([b] + r.out, r.ch, 0, false)
  }

  /** Binary mode, a window of eight bytes sliding from `i`: when the window
      holds something other than binary digits it moves on by one byte;
      when it is eight digits it is decoded into the buffer, written and
      counted, and the scan moves past it. */
  function BinaryScan(line: seq<Byte>, i: nat, ch: Byte): (r: Scan)
    requires i <= |line|
    ensures r.count == |r.out| && !r.panicked
    decreases |line| - i
  {
    if |line| - i < 8 then Scan([], ch, 0, false)
    else
      var w := line[i..i + 8];
      if BinaryStatus(w) != -1 then BinaryScan(line, i + 1, ch)
      else
        var b := BinaryValue(w);
        var r := BinaryScan(line, i + 8, b);
        Scan([b] + r.out, r.ch, r.count + 1, false)
  }

  /** Plain mode, a window of two bytes at every position from `i`: each
      window of two hex digits is decoded, written and counted. The windows
      overlap, so the second digit of one pair and the first of the next
      are read as a pair too. */
  function PlainScan(line: seq<Byte>, i: nat, ch: Byte): (r: Scan)
    requires i <= |line|
    ensures r.count == |r.out| && !r.panicked
    decreases |line| - i
  {
    if |line| - i < 2 then Scan([], ch, 0, false)
    else
      match PairValue(line[i..i + 2])
      case None => PlainScan(line, i + 1, ch)
      case Some(b) =>
        var r := PlainScan(line, i + 1, b);
        Scan([b] + r.out, r.ch, r.count + 1, false)
  }

  /** C mode, windows of four bytes from `i`, decoded as two pairs into the
      one-byte buffer. No valid first pair: the buffer, whatever it still
      holds, is written and counted, and the scan moves on four bytes. A
      valid first pair only: it goes into the buffer, unwritten, and the
      scan moves on two bytes. Two valid pairs: the second store falls
      outside the buffer, a panic. */
  function CScan(line: seq<Byte>, i: nat, ch: Byte): (r: Scan)
    requires i <= |line|
    ensures r.count == |r.out|
    decreases |line| - i
  {
    if |line| - i < 4 then Scan([], ch, 0, false)
    else
      var d := DecodePairs(line[i..i + 4]);
      if |d.bytes| == 0 then
        var r := CScan(line, i + 4, ch);
        r.(out := [ch] + r.out, count := r.count + 1)
      else if |d.bytes| == 1 then CScan(line, i + 2, d.bytes[0])
      else Scan([], ch, 0, true)
  }

  /** One line in the given mode. Hex mode cuts the line first and panics
      when it is shorter than 28 bytes. */
  function ScanLine(mode: Mode, line: seq<Byte>, ch: Byte): (r: Scan)
    ensures mode == Hex ==> r.count == 0
    ensures r.panicked ==> mode == CFormat || (mode == Hex && |line| < 28)
    ensures mode != Hex ==> r.count == |r.out|
  {
    match mode
    case Hex => if |line| < 28 then Scan([], ch, 0, true) else HexScan(line, 0, ch)
    case Binary => BinaryScan(line, 0, ch)
    case Plain => PlainScan(line, 0, ch)
    case CFormat => CScan(line, 0, ch)
  }

  // ---------------------------------------------------------------------
  // The whole input

  /** The loop's state: how much input has been read, the one-byte
      buffer, the character count, and everything written so far. */
  datatype ReverseState = ReverseState(pos: nat, ch: Byte, c: int, out: seq<Byte>)

  /** The result of one pass: the state the next pass starts from, or the
      end of the loop with its output. */
  datatype ReverseStep = Continue(next: ReverseState) | Finish(out: seq<Byte>, ending: Ending)

  /** One pass of the read loop: a failed read ends it with the error and an
      empty read ends it; otherwise the line is scanned, a panic ends it,
      and so does a count equal to a positive column limit. */
  function ReverseIterate(mode: Mode, cols: int, data: seq<Byte>, readFails: bool, s: ReverseState): (r: ReverseStep)
    requires s.pos <= |data|
    ensures r.Continue? ==> s.pos < r.next.pos <= |data| && |s.out| <= |r.next.out|
    ensures r.Continue? ==> r.next.out[..|s.out|] == s.out
    ensures r.Finish? ==> |s.out| <= |r.out| && r.out[..|s.out|] == s.out
    ensures r.Finish? && r.ending == ReadError ==> readFails && r.out == s.out
    ensures r.Finish? ==> r.ending in {Ok, ReadError, Panicked}
  {
    var read := ReadBytes(data, s.pos, readFails);
    var line := read.0;
    if read.1 then Finish(s.out, ReadError)
    else if line == [] then Finish(s.out, Ok)
    else
      var scan := ScanLine(mode, line, s.ch);
      var out := s.out + scan.out;
      assert out[..|s.out|] == s.out;
      if scan.panicked then Finish(out, Panicked)
      else if s.c + scan.count == cols && cols > 0 then Finish(out, Ok)
      else Continue(ReverseState(s.pos + |line|, scan.ch, s.c + scan.count, out))
  }

  /** The read loop from state `s` to its end. */
  function ReverseRun(mode: Mode, cols: int, data: seq<Byte>, readFails: bool, s: ReverseState): (r: (seq<Byte>, Ending))
    requires s.pos <= |data|
    ensures |s.out| <= |r.0| && r.0[..|s.out|] == s.out
    ensures r.1 in {Ok, ReadError, Panicked}
    ensures r.1 == ReadError ==> readFails
    decreases |data| - s.pos
  {
    match ReverseIterate(mode, cols, data, readFails, s)
    case Finish(out, ending) => (out, ending)
    case Continue(t) =>
      var r := ReverseRun(mode, cols, data, readFails, t);
      assert r.0[..|s.out|] == r.0[..|t.out|][..|s.out|];
      r
  }

  /** HexxyReverse over the whole input: an empty buffer, no characters
      counted, nothing written. */
  function Reverse(mode: Mode, opts: Options, data: seq<Byte>, readFails: bool): (r: (seq<Byte>, Ending))
    ensures r.1 in {Ok, ReadError, Panicked}
    ensures r.1 == ReadError ==> readFails
  {
    ReverseRun(mode, ReverseCols(opts), data, readFails, ReverseState(0, 0, 0, []))
  }
}
