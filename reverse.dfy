/** HexxyReverse (reverse.go) as the source writes it: a one-byte buffer
    that hexDecode and binaryDecode write into, a character count, and a
    read loop over the lines of the input, each pass proved to be the pass
    `ReverseIterate` describes. The writer is the growing sequence `out`. */
module ReverseLoop {
  import opened Bytes
  import opened Encode
  import opened DumpGeometry
  import opened DumpSpec
  import opened ReverseSpec

  /** The scan `r0` of a whole line is what the loop has written so far,
      `o` and `c`, followed by the scan `r` of the rest of the line. */
  ghost predicate Resumes(r0: Scan, o: seq<Byte>, c: nat, r: Scan)
  {
    r0.out == o + r.out && r0.count == c + r.count && r0.ch == r.ch && r0.panicked == r.panicked
  }

  /** The hex-mode loop over one line, windows of `octs` bytes at `9 + i`,
      `i` stepping by five up to the length of the trimmed line. The source
      slices the trimmed line past its length, which reads the bytes that
      follow it in the line, so the windows are taken from the whole line. */
  method HexReverseLine(line: seq<Byte>, octs: nat, charBuf: array<Byte>) returns (o: seq<Byte>)
    requires octs == 2 && charBuf.Length == 1 && |line| >= 28
    modifies charBuf
    ensures var r := HexScan(line, 0, old(charBuf[0])); o == r.out && charBuf[0] == r.ch
  {
    ghost var r0 := HexScan(line, 0, charBuf[0]);
    var n := |line| - 28;
    o := [];
    var i := 0;
    while i <= n
      invariant 0 <= i && Resumes(r0, o, 0, HexScan(line, i, charBuf[0]))
      decreases |line| - i
    {
      var w := line[9 + i..9 + i + octs];
      HexScanStep(line, i, charBuf[0], PairValue(w), o, r0);
      PairDecode(w);
      var count, err := HexDecode(charBuf, w);
      if count != 0 {
        o := o + [charBuf[0]];
      }
      i := i + 5;
    }
  }

  /** The binary-mode loop over one line: binaryDecode on the eight bytes
      at `i`; anything but -1 moves on one byte, -1 writes and counts the
      decoded byte and moves past it. */
  method BinaryReverseLine(line: seq<Byte>, octs: nat, charBuf: array<Byte>) returns (o: seq<Byte>, c: nat)
    requires octs == 8 && charBuf.Length == 1
    modifies charBuf
    ensures var r := BinaryScan(line, 0, old(charBuf[0])); o == r.out && c == r.count && charBuf[0] == r.ch
  {
    ghost var r0 := BinaryScan(line, 0, charBuf[0]);
    o, c := [], 0;
    var i, n := 0, |line|;
    while n >= octs
      invariant i + n == |line| && 0 <= n && Resumes(r0, o, c, BinaryScan(line, i, charBuf[0]))
      decreases n
    {
      var w := line[i..i + octs];
      BinaryScanStep(line, i, charBuf[0], BinaryStatus(w), BinaryValue(w), o, c, r0);
      var k := BinaryDecode(charBuf, w);
      if k != -1 {
        i, n := i + 1, n - 1;
      } else {
        assert charBuf[0] == charBuf[..][0];
        o := o + [charBuf[0]];
        i, n := i + 8, n - 8;
        c := c + 1;
      }
    }
  }

  /** The plain-mode loop over one line: hexDecode on the two bytes at every
      position; a decoded pair is written and counted. */
  method PlainReverseLine(line: seq<Byte>, octs: nat, charBuf: array<Byte>) returns (o: seq<Byte>, c: nat)
    requires octs == 2 && charBuf.Length == 1
    modifies charBuf
    ensures var r := PlainScan(line, 0, old(charBuf[0])); o == r.out && c == r.count && charBuf[0] == r.ch
  {
    ghost var r0 := PlainScan(line, 0, charBuf[0]);
    o, c := [], 0;
    var i, n := 0, |line|;
    while n >= octs
      invariant i + n == |line| && 0 <= n && Resumes(r0, o, c, PlainScan(line, i, charBuf[0]))
      decreases n
    {
      var w := line[i..i + octs];
      PlainScanStep(line, i, charBuf[0], PairValue(w), o, c, r0);
      PairDecode(w);
      var count, err := HexDecode(charBuf, w);
      if count != 0 {
        o := o + [charBuf[0]];
        c := c + 1;
      }
      n := n - 1;
      i := i + 1;
    }
  }

  /** The C-mode loop over one line: hexDecode on the four bytes at `i`
      into the one-byte buffer. A count of 0 writes the buffer as it is; a
      count of 1 leaves the new byte in it. hexDecode never returns a
      negative count, so the source's branch for -1 is never taken. A
      window of two valid pairs makes hexDecode store past the buffer, a
      panic, checked here before the call. */
  method CReverseLine(line: seq<Byte>, octs: nat, charBuf: array<Byte>) returns (o: seq<Byte>, c: nat, panicked: bool)
    requires octs == 4 && charBuf.Length == 1
    modifies charBuf
    ensures var r := CScan(line, 0, old(charBuf[0]));
      o == r.out && c == r.count && panicked == r.panicked && charBuf[0] == r.ch
  {
    ghost var r0 := CScan(line, 0, charBuf[0]);
    o, c := [], 0;
    var i, n := 0, |line|;
    while n >= octs
      invariant i + n == |line| && 0 <= n && Resumes(r0, o, c, CScan(line, i, charBuf[0]))
      decreases n
    {
      var w := line[i..i + octs];
      CScanStep(line, i, charBuf[0], DecodePairs(w), o, c, r0);
      if |DecodePairs(w).bytes| > charBuf.Length {
        return o, c, true;
      }
      var count, err := HexDecode(charBuf, w);
      if count == 0 {
        o := o + [charBuf[0]];
        i, n := i + 4, n - 4;
        c := c + 1;
      } else {
        i, n := i + 2, n - 2;
      }
    }
    panicked := false;
  }

  /** The mode switch inside the read loop, for one line. */
  method ReverseLine(mode: Mode, octs: nat, line: seq<Byte>, charBuf: array<Byte>) returns (r: Scan)
    requires octs == ReverseOcts(mode) && charBuf.Length == 1
    modifies charBuf
    ensures r == ScanLine(mode, line, old(charBuf[0])) && charBuf[0] == r.ch
  {
    match mode
    case Hex =>
      if |line| < 28 {
        return Scan([], charBuf[0], 0, true);
      }
      var o := HexReverseLine(line, octs, charBuf);
      r := Scan(o, charBuf[0], 0, false);
    case Binary =>
      var o, c := BinaryReverseLine(line, octs, charBuf);
      r := Scan(o, charBuf[0], c, false);
    case Plain =>
      var o, c := PlainReverseLine(line, octs, charBuf);
      r := Scan(o, charBuf[0], c, false);
    case CFormat =>
      var o, c, panicked := CReverseLine(line, octs, charBuf);
      r := Scan(o, charBuf[0], c, panicked);
  }

  /** One pass of the read loop: the read, the exits it allows, the line's
      scan, and the exits after it. */
  method ReversePass(mode: Mode, octs: nat, cols: int, data: seq<Byte>, readFails: bool,
                     s: ReverseState, charBuf: array<Byte>) returns (r: ReverseStep)
    requires s.pos <= |data| && octs == ReverseOcts(mode) && charBuf.Length == 1 && charBuf[0] == s.ch
    modifies charBuf
    ensures r == ReverseIterate(mode, cols, data, readFails, s)
    ensures r.Continue? ==> charBuf[0] == r.next.ch
  {
    var (line, err) := ReadBytes(data, s.pos, readFails);
    if err {
      return Finish(s.out, ReadError);
    }
    if |line| == 0 {
      return Finish(s.out, Ok);
    }
    var scan := ReverseLine(mode, octs, line, charBuf);
    var out := s.out + scan.out;
    if scan.panicked {
      return Finish(out, Panicked);
    }
    var c := s.c + scan.count;
    if c == cols && cols > 0 {
      return Finish(out, Ok);
    }
    r := Continue(ReverseState(s.pos + |line|, charBuf[0], c, out));
  }

  /** HexxyReverse: the column limit, the window width, the buffer, and the
      read loop. */
  method HexxyReverse(mode: Mode, opts: Options, data: seq<Byte>, readFails: bool)
    returns (out: seq<Byte>, ending: Ending)
    ensures (out, ending) == Reverse(mode, opts, data, readFails)
  {
    var cols := 0;
    if opts.columns != -1 {
      cols := opts.columns;
    }
    var octs := ReverseOcts(mode);
    if opts.len != -1 && opts.len < cols {
      cols := opts.len;
    }
    assert cols == ReverseCols(opts);
    var charBuf := new Byte[1](_ => 0);
    var s := ReverseState(0, 0, 0, []);
    while true
      invariant s.pos <= |data| && charBuf.Length == 1 && charBuf[0] == s.ch
      invariant ReverseRun(mode, cols, data, readFails, s) == Reverse(mode, opts, data, readFails)
      decreases |data| - s.pos
    {
      var r := ReversePass(mode, octs, cols, data, readFails, s, charBuf);
      match r
      case Finish(o, e) =>
        return o, e;
      case Continue(t) =>
        s := t;
    }
  }

  /** One hex window: a window of two digits is written and becomes the
      buffer; any other is skipped. */
  lemma HexScanStep(line: seq<Byte>, i: nat, ch: Byte, v: Option<Byte>, o: seq<Byte>, r0: Scan)
    requires 28 <= |line| && i <= |line| - 28 && v == PairValue(line[9 + i..9 + i + 2])
    requires Resumes(r0, o, 0, HexScan(line, i, ch))
    ensures v.None? ==> Resumes(r0, o, 0, HexScan(line, i + 5, ch))
    ensures v.Some? ==> Resumes(r0, o + [v.value], 0, HexScan(line, i + 5, v.value))
  {
    if v.Some? {
      PrefixAppend(o, [v.value], HexScan(line, i + 5, v.value).out, o + [v.value]);
    }
  }

  /** One binary window: eight digits are written, counted and become the
      buffer; anything else moves the window by one byte. */
  lemma BinaryScanStep(line: seq<Byte>, i: nat, ch: Byte, k: int, v: Byte, o: seq<Byte>, c: nat, r0: Scan)
    requires i + 8 <= |line| && k == BinaryStatus(line[i..i + 8]) && v == BinaryValue(line[i..i + 8])
    requires Resumes(r0, o, c, BinaryScan(line, i, ch))
    ensures k != -1 ==> Resumes(r0, o, c, BinaryScan(line, i + 1, ch))
    ensures k == -1 ==> Resumes(r0, o + [v], c + 1, BinaryScan(line, i + 8, v))
  {
    if k == -1 {
      PrefixAppend(o, [v], BinaryScan(line, i + 8, v).out, o + [v]);
    }
  }

  /** One plain window: a pair of digits is written, counted and becomes
      the buffer; anything else is skipped. */
  lemma PlainScanStep(line: seq<Byte>, i: nat, ch: Byte, v: Option<Byte>, o: seq<Byte>, c: nat, r0: Scan)
    requires i + 2 <= |line| && v == PairValue(line[i..i + 2])
    requires Resumes(r0, o, c, PlainScan(line, i, ch))
    ensures v.None? ==> Resumes(r0, o, c, PlainScan(line, i + 1, ch))
    ensures v.Some? ==> Resumes(r0, o + [v.value], c + 1, PlainScan(line, i + 1, v.value))
  {
    if v.Some? {
      PrefixAppend(o, [v.value], PlainScan(line, i + 1, v.value).out, o + [v.value]);
    }
  }

  /** One C window, by the number of pairs hexDecode decodes from it. */
  lemma CScanStep(line: seq<Byte>, i: nat, ch: Byte, d: Decoded, o: seq<Byte>, c: nat, r0: Scan)
    requires i + 4 <= |line| && d == DecodePairs(line[i..i + 4])
    requires Resumes(r0, o, c, CScan(line, i, ch))
    ensures |d.bytes| == 0 ==> Resumes(r0, o + [ch], c + 1, CScan(line, i + 4, ch))
    ensures |d.bytes| == 1 ==> Resumes(r0, o, c, CScan(line, i + 2, d.bytes[0]))
    ensures |d.bytes| > 1 ==> Resumes(r0, o, c, Scan([], ch, 0, true))
  {
    if |d.bytes| == 0 {
      PrefixAppend(o, [ch], CScan(line, i + 4, ch).out, o + [ch]);
    }
  }
}
