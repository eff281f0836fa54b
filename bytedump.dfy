/** The earlier byte-at-a-time formatter (hexxy.go): the offset format and
    separator chosen from the options, the colour wrapper, the ASCII row,
    Hexdump's ReadByte loop over a 16-byte ASCII buffer, and HexdumpPlain.
    The reader is `data`, failing after its last byte when `readFails`
    holds; the writer is the output sequence. */
module ByteDump {
  import opened Bytes
  import opened Encode
  import opened DumpGeometry
  import opened DumpSpec

  /** The escape sequences the source writes: grey, and the reset that
      both CLR and Colorize's NOCOLOR spell. */
  const GREY: seq<Byte> := [0x1b] + Ascii("[38;2;111;111;111m")
  const CLR: seq<Byte> := [0x1b] + Ascii("[0m")

  /** The two default separators: "│" (U+2502, three bytes) and "|". */
  const LINE_SEPARATOR: seq<Byte> := [0xE2, 0x94, 0x82]
  const PIPE: seq<Byte> := Ascii("|")

  // ---------------------------------------------------------------------
  // Offset format and separator

  /** What getOffsetFormat leaves in its two globals: the offset format
      `prefix + "%08<radix>  " + suffix`, kept as its parts, and the
      separator. */
  datatype Layout = Layout(prefix: seq<Byte>, radix: nat, suffix: seq<Byte>, separator: seq<Byte>)

  /** getOffsetFormat: grey wrapping unless colour is off, the separator
      given or the default for the colour setting, and the radix named by
      "d", "o" or "x"; any other radix is an error. */
  function GetOffsetFormat(noColor: bool, separator: seq<Byte>, offsetFormat: seq<Byte>): (r: Option<Layout>)
    ensures r.Some? <==> offsetFormat in {Ascii("d"), Ascii("o"), Ascii("x")}
    ensures r.Some? ==> r.value.radix in {8, 10, 16}
    ensures r.Some? && offsetFormat == Ascii("d") ==> r.value.radix == 10
    ensures r.Some? && offsetFormat == Ascii("o") ==> r.value.radix == 8
    ensures r.Some? && offsetFormat == Ascii("x") ==> r.value.radix == 16
    ensures r.Some? && noColor ==> r.value.prefix == [] && r.value.suffix == []
    ensures r.Some? && !noColor ==> r.value.prefix == GREY && r.value.suffix == CLR
    ensures r.Some? ==>
      r.value.separator == r.value.prefix + (if separator != [] then separator else if noColor then PIPE else LINE_SEPARATOR) + r.value.suffix
  {
    var prefix := if noColor then [] else GREY;
    var suffix := if noColor then [] else CLR;
    var sep := if separator != [] then separator else if noColor then PIPE else LINE_SEPARATOR;
    assert Ascii("d")[0] == 'd' as int && Ascii("o")[0] == 'o' as int && Ascii("x")[0] == 'x' as int;
    if offsetFormat == Ascii("d") then Some(Layout(prefix, 10, suffix, prefix + sep + suffix))
    else if offsetFormat == Ascii("o") then Some(Layout(prefix, 8, suffix, prefix + sep + suffix))
    else if offsetFormat == Ascii("x") then Some(Layout(prefix, 16, suffix, prefix + sep + suffix))
    else None
  }

  /** The offset's digits in `radix`, zero-padded to at least eight. */
  function OffsetDigits(offset: nat, radix: nat): seq<Byte>
    requires radix in {8, 10, 16}
  {
    var digits := Digits(offset, radix);
    Repeat('0' as int, if |digits| < 8 then 8 - |digits| else 0) + digits
  }

  /** The padded digits read back as the offset, and are exactly eight wide
      while the offset fits in eight digits. */
  lemma OffsetDigitsReadBack(offset: nat, radix: nat)
    requires radix in {8, 10, 16}
    ensures |OffsetDigits(offset, radix)| >= 8
    ensures DigitsValue(OffsetDigits(offset, radix), radix) == offset
    ensures |OffsetDigits(offset, radix)| == 8 <==> offset < Pow(radix, 8)
  {
    var digits := Digits(offset, radix);
    var pad := Repeat('0' as int, if |digits| < 8 then 8 - |digits| else 0);
    LeadingZerosValue(|pad|, digits, radix);
    DigitsRoundTrip(offset, radix);
    DigitsFit(offset, radix, 8);
  }

  /** printOffset: the offset zero-padded to at least eight digits of the
      layout's radix, then two spaces, inside the layout's wrapping. */
  function PrintOffset(lay: Layout, offset: nat): (r: seq<Byte>)
    requires lay.radix in {8, 10, 16}
  {
    lay.prefix + OffsetDigits(offset, lay.radix) + (DOUBLE_SPACE + lay.suffix)
  }

  /** The offset field reads back as the offset, and is exactly eight
      digits wide while the offset fits in eight digits. */
  lemma PrintOffsetReadsBack(lay: Layout, offset: nat)
    requires lay.radix in {8, 10, 16}
    ensures var r := PrintOffset(lay, offset);
      && |r| >= |lay.prefix| + 8 + 2 + |lay.suffix|
      && r[..|lay.prefix|] == lay.prefix
      && r[|r| - 2 - |lay.suffix|..] == DOUBLE_SPACE + lay.suffix
      && DigitsValue(r[|lay.prefix|..|r| - 2 - |lay.suffix|], lay.radix) == offset
      && (|r| == |lay.prefix| + 8 + 2 + |lay.suffix| <==> offset < Pow(lay.radix, 8))
  {
    var r := PrintOffset(lay, offset);
    var d := OffsetDigits(offset, lay.radix);
    OffsetDigitsReadBack(offset, lay.radix);
    assert r[..|lay.prefix|] == lay.prefix;
    assert r[|r| - 2 - |lay.suffix|..] == DOUBLE_SPACE + lay.suffix;
    assert r[|lay.prefix|..|r| - 2 - |lay.suffix|] == d;
  }

  // ---------------------------------------------------------------------
  // Colour

  /** A Color: whether it is disabled, and its palette of 256 escape
      sequences (all empty until Compute fills them). */
  datatype Color = Color(disable: bool, values: seq<seq<Byte>>)

  /** A palette with no colour at all, as a Color that Compute never ran on. */
  predicate Uncoloured(c: Color)
  {
    |c.values| == 256 && forall k | 0 <= k < 256 :: c.values[k] == []
  }

  /** A palette whose entries can stand inside a format string: 256 of
      them, none holding a '%'. */
  predicate PaletteOk(c: Color)
  {
    |c.values| == 256 &&
    forall k | 0 <= k < 256 :: forall j | 0 <= j < |c.values[k]| :: c.values[k][j] != '%' as int
  }

  /** Colorize: the palette entry of `clr`, the text, and the reset. */
  function Colorize(c: Color, s: seq<Byte>, clr: Byte): (r: seq<Byte>)
    requires |c.values| == 256
    ensures |r| == |c.values[clr]| + |s| + |CLR|
  {
    c.values[clr] + s + CLR
  }

  /** With no colour the reset still follows every piece of text. */
  lemma UncolouredColorize(c: Color, s: seq<Byte>, clr: Byte)
    requires |c.values| == 256
    ensures Uncoloured(c) ==> Colorize(c, s, clr) == s + CLR
  {
  }

  // ---------------------------------------------------------------------
  // The ASCII row

  /** How asciiRow shows one byte: the printable characters 33..126 as
      themselves, everything else, the space included, as a dot. */
  function Shown(b: Byte): (r: seq<Byte>)
    ensures |r| == 1
    ensures r == [b] <==> 33 <= b <= 126
    ensures r != [b] ==> r == DOT
  {
    assert DOT == ['.' as int];
    if 33 <= b <= 126 then [b] else DOT
  }

  /** Every byte shown and coloured by its own value, in order. */
  function AsciiText(c: Color, bs: seq<Byte>): (r: seq<Byte>)
    requires |c.values| == 256
  {
    if bs == [] then []
    else AsciiText(c, bs[..|bs| - 1]) + Colorize(c, Shown(bs[|bs| - 1]), bs[|bs| - 1])
  }

  /** With no colour, each byte of the row takes five bytes: itself or a
      dot, and the reset. */
  lemma {:induction false} AsciiWidth(c: Color, bs: seq<Byte>)
    requires Uncoloured(c)
    ensures |AsciiText(c, bs)| == 5 * |bs|
    decreases |bs|
  {
    if bs != [] {
      UncolouredColorize(c, Shown(bs[|bs| - 1]), bs[|bs| - 1]);
      AsciiWidth(c, bs[..|bs| - 1]);
    }
  }

  /** With no colour, byte `k` of the row is shown at position 5k, followed
      by a reset. */
  lemma {:induction false} UncolouredAscii(c: Color, bs: seq<Byte>, k: nat)
    requires Uncoloured(c) && k < |bs|
    ensures |AsciiText(c, bs)| == 5 * |bs| && AsciiText(c, bs)[5 * k..5 * k + 5] == Shown(bs[k]) + CLR
    decreases |bs|
  {
    var n := |bs| - 1;
    var p := AsciiText(c, bs[..n]);
    UncolouredColorize(c, Shown(bs[n]), bs[n]);
    assert AsciiText(c, bs) == p + (Shown(bs[n]) + CLR);
    AsciiWidth(c, bs[..n]);
    AsciiWidth(c, bs);
    if k < n {
      assert AsciiText(c, bs)[5 * k..5 * k + 5] == p[5 * k..5 * k + 5];
      UncolouredAscii(c, bs[..n], k);
    }
  }

  /** asciiRow: writes the row one byte at a time. */
  method AsciiRow(c: Color, ascii: seq<Byte>) returns (s: seq<Byte>)
    requires |c.values| == 256
    ensures s == AsciiText(c, ascii)
  {
    s := [];
    for k := 0 to |ascii|
      invariant s == AsciiText(c, ascii[..k])
    {
      assert ascii[..k + 1][..k] == ascii[..k];
      s := s + Colorize(c, Shown(ascii[k]), ascii[k]);
    }
    assert ascii[..|ascii|] == ascii;
  }

  // ---------------------------------------------------------------------
  // Hexdump, one byte at a time

  /** One byte's cell: two lower-case hex digits coloured by the byte, and
      a space. */
  function Cell(c: Color, b: Byte): (r: seq<Byte>)
    requires |c.values| == 256
  {
    Colorize(c, [DigitChar(b / 16), DigitChar(b % 16)], b) + SPACE
  }

  /** A cell's digits are the byte's hex unit from the lower-case table;
      with no colour the cell is those digits, the reset and the space. */
  lemma CellDigits(c: Color, b: Byte)
    requires |c.values| == 256
    ensures Cell(c, b)[|c.values[b]|..|c.values[b]| + 2] == HexUnit(b, LDIGITS)
    ensures Uncoloured(c) ==> Cell(c, b) == HexUnit(b, LDIGITS) + CLR + SPACE
  {
    DigitTables();
    var u := HexUnit(b, LDIGITS);
    assert u == [DigitChar(b / 16), DigitChar(b % 16)];
    UncolouredColorize(c, u, b);
  }

  /** The loop's state: the byte count, the 16-byte ASCII buffer, and what
      has been written. */
  datatype ByteState = ByteState(i: nat, ascii: seq<Byte>, out: seq<Byte>)

  predicate LayoutOk(lay: Layout, c: Color)
  {
    lay.radix in {8, 10, 16} && PaletteOk(c)
  }

  /** What byte number `i` writes before any line end: an offset when it
      opens a line, its cell, and an extra space after every fourth byte. */
  function Written(lay: Layout, c: Color, i: nat, b: Byte): seq<Byte>
    requires LayoutOk(lay, c)
  {
    (if i % 16 == 0 then PrintOffset(lay, i) else []) + Cell(c, b) + (if (i + 1) % 4 == 0 then SPACE else [])
  }

  /** One byte: it goes into the buffer at `i % 16`; an offset opens every
      sixteenth byte; the byte's cell, with an extra space after every
      fourth; after every sixteenth, the separators around the first
      fifteen buffered bytes, a newline, and a cleared buffer. */
  function Step(lay: Layout, c: Color, s: ByteState, b: Byte): (r: ByteState)
    requires LayoutOk(lay, c) && |s.ascii| == 16
    ensures r.i == s.i + 1 && |r.ascii| == 16
  {
    var ascii := s.ascii[s.i % 16 := b];
    var out := s.out + Written(lay, c, s.i, b);
    if (s.i + 1) % 16 == 0 then ByteState(s.i + 1, Zeros(16), out + Closing(lay, c, ascii[..s.i % 16]))
    else ByteState(s.i + 1, ascii, out)
  }

  /** The state after the loop has consumed `data`. */
  function Steps(lay: Layout, c: Color, data: seq<Byte>): (r: ByteState)
    requires LayoutOk(lay, c)
    ensures r.i == |data| && |r.ascii| == 16
  {
    if data == [] then ByteState(0, Zeros(16), [])
    else Step(lay, c, Steps(lay, c, data[..|data| - 1]), data[|data| - 1])
  }

  /** The spaces that stand for the `left` missing cells of a short last line. */
  function TailPadding(left: nat): nat
  {
    3 * left + (if left >= 1 then (left - 1) / 4 else 0) + 1
  }

  /** After the loop: a short last line is padded, closed with its ASCII
      row between separators, and followed by a line holding the byte
      count as an offset; after a whole number of lines, nothing. */
  function Finish(lay: Layout, c: Color, i: nat, ascii: seq<Byte>): (r: seq<Byte>)
    requires LayoutOk(lay, c) && |ascii| == 16
    ensures i % 16 == 0 <==> r == []
  {
    if i % 16 != 0 then TailText(lay, c, i, ascii[..i % 16]) else []
  }

  /** The close of a short last line holding `shown`: the padding for the
      missing cells, the ASCII row between separators, and a line holding
      the byte count `i`. */
  function TailText(lay: Layout, c: Color, i: nat, shown: seq<Byte>): (r: seq<Byte>)
    requires LayoutOk(lay, c) && |shown| < 16
    ensures r != []
  {
    Repeat(' ' as int, TailPadding(16 - |shown|)) + lay.separator + AsciiText(c, shown) + lay.separator + NEW_LINE
    + PrintOffset(lay, i) + NEW_LINE
  }

  /** Hexdump over the whole input. A failing read ends it with the error
      before the short last line is closed. */
  function Hexdump(lay: Layout, c: Color, data: seq<Byte>, readFails: bool): (r: (seq<Byte>, Ending))
    requires LayoutOk(lay, c)
    ensures r.1 == (if readFails then ReadError else Ok)
  {
    var s := Steps(lay, c, data);
    if readFails then (s.out, ReadError) else (s.out + Finish(lay, c, s.i, s.ascii), Ok)
  }

  /** Hexdump as the source writes it: a counter, a 16-byte array, and a
      loop that reads a byte at a time. */
  method HexdumpBytes(lay: Layout, c: Color, data: seq<Byte>, readFails: bool)
    returns (out: seq<Byte>, ending: Ending)
    requires LayoutOk(lay, c)
    ensures (out, ending) == Hexdump(lay, c, data, readFails)
  {
    var ascii := new Byte[16](_ => 0);
    var i: nat := 0;
    out := [];
    while true
      invariant i <= |data| && ByteState(i, ascii[..], out) == Steps(lay, c, data[..i])
      decreases |data| - i
    {
      if i == |data| {
        if readFails {
          assert data[..i] == data;
          assert Steps(lay, c, data).out == out;
          return out, ReadError;
        }
        break;
      }
      assert data[..i + 1][..i] == data[..i];
      out := WriteByte(lay, c, ascii, i, out, data[i]);
      i := i + 1;
    }
    assert data[..i] == data;
    assert Steps(lay, c, data).i == i && Steps(lay, c, data).ascii == ascii[..] && Steps(lay, c, data).out == out;
    ghost var s := Steps(lay, c, data);
    if i % 16 != 0 {
      var tail := WriteTail(lay, c, ascii, i);
      out := out + tail;
    }
    assert out == s.out + Finish(lay, c, s.i, s.ascii);
    ending := Ok;
  }

  /** The body of the read loop for the byte `b` read as byte number `i`. */
  method WriteByte(lay: Layout, c: Color, ascii: array<Byte>, i: nat, out: seq<Byte>, b: Byte)
    returns (o: seq<Byte>)
    requires LayoutOk(lay, c) && ascii.Length == 16
    modifies ascii
    ensures ByteState(i + 1, ascii[..], o) == Step(lay, c, ByteState(i, old(ascii[..]), out), b)
  {
    ghost var buffered := old(ascii[..])[i % 16 := b];
    ascii[i % 16] := b;
    assert ascii[..] == buffered;
    o := out;
    if i % 16 == 0 {
      var offy := PrintOffset(lay, i);
      o := o + offy;
    }
    o := o + Cell(c, b);
    if (i + 1) % 4 == 0 {
      o := o + SPACE;
    }
    ghost var cells := o;
    assert cells == out + Written(lay, c, i, b);
    if (i + 1) % 16 == 0 {
      o := o + lay.separator;
      var row := AsciiRow(c, ascii[..i % 16]);
      o := o + row + lay.separator + NEW_LINE;
      forall k | 0 <= k < 16 {
        ascii[k] := 0;
      }
      assert ascii[..] == Zeros(16);
      assert o == cells + Closing(lay, c, buffered[..i % 16]);
    }
  }

  /** What follows the loop when the last line is short. */
  method WriteTail(lay: Layout, c: Color, ascii: array<Byte>, i: nat) returns (o: seq<Byte>)
    requires LayoutOk(lay, c) && ascii.Length == 16 && i % 16 != 0
    ensures o == Finish(lay, c, i, ascii[..])
  {
    assert Finish(lay, c, i, ascii[..]) == TailText(lay, c, i, ascii[..i % 16]);
    var left := 16 - i % 16;
    var spaces := 3 * left + (left - 1) / 4 + 1;
    assert spaces == TailPadding(left);
    o := Repeat(' ' as int, spaces) + lay.separator;
    var row := AsciiRow(c, ascii[..i % 16]);
    o := o + row + lay.separator + NEW_LINE;
    var offy := PrintOffset(lay, i);
    o := o + offy + NEW_LINE;
  }

  // ---------------------------------------------------------------------
  // Hexdump, line by line

  /** The cells of the bytes of one line, with an extra space after every
      fourth. With no colour each cell is two digits, a reset and a space. */
  function Cells(c: Color, bs: seq<Byte>): (r: seq<Byte>)
    requires |c.values| == 256
  {
    if bs == [] then []
    else Cells(c, bs[..|bs| - 1]) + Cell(c, bs[|bs| - 1]) + (if |bs| % 4 == 0 then SPACE else [])
  }

  /** With no colour each cell is seven bytes (two digits, the reset, a
      space), and every fourth adds a space. */
  lemma {:induction false} CellsWidth(c: Color, bs: seq<Byte>)
    requires Uncoloured(c)
    ensures |Cells(c, bs)| == 7 * |bs| + |bs| / 4
    decreases |bs|
  {
    if bs != [] {
      DivStep(|bs|, 4);
      CellDigits(c, bs[|bs| - 1]);
      CellsWidth(c, bs[..|bs| - 1]);
    }
  }

  /** The line still open at byte offset `off`: its offset and the cells
      written so far, nothing before its first byte. */
  function OpenLine(lay: Layout, c: Color, off: nat, bs: seq<Byte>): seq<Byte>
    requires LayoutOk(lay, c)
  {
    if bs == [] then [] else PrintOffset(lay, off) + Cells(c, bs)
  }

  /** A full line of sixteen bytes at byte offset `off`. Its ASCII column
      shows the first fifteen bytes only. */
  function FullLine(lay: Layout, c: Color, off: nat, chunk: seq<Byte>): seq<Byte>
    requires LayoutOk(lay, c) && |chunk| == 16
  {
    PrintOffset(lay, off) + Cells(c, chunk) + Closing(lay, c, chunk[..15])
  }

  /** What closes a full line: the ASCII row between separators, and the
      newline. */
  function Closing(lay: Layout, c: Color, shown: seq<Byte>): seq<Byte>
    requires LayoutOk(lay, c)
  {
    lay.separator + AsciiText(c, shown) + lay.separator + NEW_LINE
  }

  /** The `k` full lines of `data`. */
  function FullLines(lay: Layout, c: Color, data: seq<Byte>, k: nat): seq<Byte>
    requires LayoutOk(lay, c) && |data| == 16 * k
  {
    if k == 0 then []
    else FullLines(lay, c, data[..16 * (k - 1)], k - 1) + FullLine(lay, c, 16 * (k - 1), data[16 * (k - 1)..])
  }

  /** The short last line at byte offset `off`, padded to the separator's
      column, and the line holding the byte count that follows it. */
  function LastLine(lay: Layout, c: Color, off: nat, rest: seq<Byte>): seq<Byte>
    requires LayoutOk(lay, c) && 0 < |rest| < 16
  {
    PrintOffset(lay, off) + Cells(c, rest) + TailText(lay, c, off + |rest|, rest)
  }

  /** The dump described line by line: every full chunk of sixteen bytes,
      then the short chunk left over, if any. */
  function Lines(lay: Layout, c: Color, data: seq<Byte>): seq<Byte>
    requires LayoutOk(lay, c)
  {
    var k := |data| / 16;
    FullLines(lay, c, data[..16 * k], k) + (if 16 * k == |data| then [] else LastLine(lay, c, 16 * k, data[16 * k..]))
  }

  /** Byte `16k + j` is byte `j` of line `k`. */
  lemma LinePosition(n: nat, k: nat, j: nat)
    requires j < 16 && n == 16 * k + j
    ensures n % 16 == j
    ensures (n + 1) % 4 == 0 <==> (j + 1) % 4 == 0
    ensures (n + 1) % 16 == 0 <==> j == 15
  {
    ModUnique(16 * k + j, 16, k, j);
    if j == 15 {
      ModUnique(16 * k + j + 1, 16, k + 1, 0);
      ModUnique(16 * k + j + 1, 4, 4 * k + 4, 0);
    } else {
      ModUnique(16 * k + j + 1, 16, k, j + 1);
      ModUnique(16 * k + j + 1, 4, 4 * k + (j + 1) / 4, (j + 1) % 4);
    }
  }

  /** A byte that does not end its line: its slot in the buffer is set and
      what it writes is appended. */
  lemma StepWithinLine(lay: Layout, c: Color, t: ByteState, b: Byte)
    requires LayoutOk(lay, c) && |t.ascii| == 16 && (t.i + 1) % 16 != 0
    ensures Step(lay, c, t, b).ascii == t.ascii[t.i % 16 := b]
    ensures Step(lay, c, t, b).out == t.out + Written(lay, c, t.i, b)
  {
  }

  /** The open line grows by the offset (for its first byte), the cell and
      the group space. */
  lemma OpenLineSnoc(lay: Layout, c: Color, off: nat, line: seq<Byte>, b: Byte, sp: seq<Byte>)
    requires LayoutOk(lay, c)
    requires sp == if (|line| + 1) % 4 == 0 then SPACE else []
    ensures OpenLine(lay, c, off, line + [b])
      == OpenLine(lay, c, off, line) + ((if line == [] then PrintOffset(lay, off) else []) + Cell(c, b) + sp)
  {
    var line' := line + [b];
    assert line'[..|line|] == line;
    assert Cells(c, line') == Cells(c, line) + Cell(c, b) + sp;
  }

  /** A byte that does not end its line adds its cell to the open line and
      goes into the buffer after the line's earlier bytes. */
  lemma OpenStep(lay: Layout, c: Color, t: ByteState, done: seq<Byte>, off: nat, line: seq<Byte>, b: Byte)
    requires LayoutOk(lay, c) && |line| < 15 && t.i == off + |line|
    requires t.i % 16 == |line| && (t.i + 1) % 16 != 0
    requires (t.i + 1) % 4 == 0 <==> (|line| + 1) % 4 == 0
    requires t.ascii == line + Zeros(16 - |line|) && t.out == done + OpenLine(lay, c, off, line)
    ensures Step(lay, c, t, b).ascii == line + [b] + Zeros(15 - |line|)
    ensures Step(lay, c, t, b).out == done + OpenLine(lay, c, off, line + [b])
  {
    StepWithinLine(lay, c, t, b);
    assert t.ascii[|line| := b] == line + [b] + Zeros(15 - |line|);
    var sp := if (|line| + 1) % 4 == 0 then SPACE else [];
    var w := Written(lay, c, t.i, b);
    assert w == (if line == [] then PrintOffset(lay, off) else []) + Cell(c, b) + sp;
    OpenLineSnoc(lay, c, off, line, b, sp);
    PrefixAppend(done, OpenLine(lay, c, off, line), w, t.out);
  }

  /** A byte that ends its line: its cell and the line's close are
      appended, and the buffer is cleared. */
  lemma StepEndsLine(lay: Layout, c: Color, t: ByteState, b: Byte)
    requires LayoutOk(lay, c) && |t.ascii| == 16 && (t.i + 1) % 16 == 0
    ensures Step(lay, c, t, b).ascii == Zeros(16)
    ensures Step(lay, c, t, b).out == t.out + Written(lay, c, t.i, b) + Closing(lay, c, t.ascii[t.i % 16 := b][..t.i % 16])
  {
  }

  /** The open line of fifteen bytes, the sixteenth cell with its group
      space, and the close make up the full line. */
  lemma CloseLineText(lay: Layout, c: Color, off: nat, line: seq<Byte>, b: Byte)
    requires LayoutOk(lay, c) && |line| == 15
    ensures OpenLine(lay, c, off, line) + (Cell(c, b) + SPACE) + Closing(lay, c, line)
      == FullLine(lay, c, off, line + [b])
  {
    var line' := line + [b];
    var open, w, close := OpenLine(lay, c, off, line), Cell(c, b) + SPACE, Closing(lay, c, line);
    assert OpenLine(lay, c, off, line') == open + w by {
      OpenLineSnoc(lay, c, off, line, b, SPACE);
    }
    assert FullLine(lay, c, off, line') == OpenLine(lay, c, off, line') + close by {
      assert line'[..15] == line;
    }
  }

  /** The sixteenth byte of a line closes it: the full line is written and
      the buffer is cleared. */
  lemma CloseStep(lay: Layout, c: Color, t: ByteState, done: seq<Byte>, off: nat, line: seq<Byte>, b: Byte)
    requires LayoutOk(lay, c) && |line| == 15 && t.i == off + 15
    requires t.i % 16 == 15 && (t.i + 1) % 16 == 0 && (t.i + 1) % 4 == 0
    requires t.ascii == line + Zeros(16 - |line|) && t.out == done + OpenLine(lay, c, off, line)
    ensures Step(lay, c, t, b).ascii == Zeros(16)
    ensures Step(lay, c, t, b).out == done + FullLine(lay, c, off, line + [b])
  {
    StepEndsLine(lay, c, t, b);
    assert t.ascii[15 := b][..15] == line;
    var w := Written(lay, c, t.i, b);
    assert w == Cell(c, b) + SPACE;
    CloseLineText(lay, c, off, line, b);
    Regroup(done, OpenLine(lay, c, off, line), w, Closing(lay, c, line));
  }

  /** Dropping the last byte of `16k + j` bytes, `j > 0`: the full lines
      stay, and the open line loses its last byte. */
  lemma DropWithinLine(data: seq<Byte>, k: nat)
    requires 16 * k < |data|
    ensures data[..|data| - 1][..16 * k] == data[..16 * k]
    ensures data[..|data| - 1][16 * k..] + [data[|data| - 1]] == data[16 * k..]
  {
  }

  /** Dropping the last byte of `16k` bytes, `k > 0`: the last full line
      becomes the open line. */
  lemma DropLineEnd(data: seq<Byte>, k: nat)
    requires k > 0 && |data| == 16 * k
    ensures data[..16 * k] == data && data[16 * k..] == []
    ensures data[..|data| - 1][..16 * (k - 1)] == data[..16 * (k - 1)]
    ensures data[..|data| - 1][16 * (k - 1)..] + [data[|data| - 1]] == data[16 * (k - 1)..]
  {
  }

  /** The line-by-line picture of the state after `data`, whose first
      `16k` bytes are the full lines. */
  ghost predicate ByLines(lay: Layout, c: Color, data: seq<Byte>, k: nat)
    requires LayoutOk(lay, c) && 16 * k <= |data| <= 16 * k + 16
  {
    && Steps(lay, c, data).ascii == data[16 * k..] + Zeros(16 - |data[16 * k..]|)
    && Steps(lay, c, data).out == FullLines(lay, c, data[..16 * k], k) + OpenLine(lay, c, 16 * k, data[16 * k..])
  }

  /** The picture is kept by a byte that does not end its line. */
  lemma ByLinesOpen(lay: Layout, c: Color, data: seq<Byte>, k: nat)
    requires LayoutOk(lay, c) && 16 * k < |data| < 16 * k + 16
    requires ByLines(lay, c, data[..|data| - 1], k)
    ensures ByLines(lay, c, data, k)
  {
    var n := |data| - 1;
    var p, b := data[..n], data[n];
    var t := Steps(lay, c, p);
    var line := p[16 * k..];
    LinePosition(t.i, k, |line|);
    DropWithinLine(data, k);
    OpenStep(lay, c, t, FullLines(lay, c, p[..16 * k], k), 16 * k, line, b);
    assert Steps(lay, c, data).ascii == Step(lay, c, t, b).ascii;
    assert Steps(lay, c, data).out == Step(lay, c, t, b).out;
  }

  /** A byte that ends its line turns the open line into a full one. */
  lemma ByLinesClose(lay: Layout, c: Color, data: seq<Byte>, k: nat)
    requires LayoutOk(lay, c) && k > 0 && |data| == 16 * k
    requires ByLines(lay, c, data[..|data| - 1], k - 1)
    ensures ByLines(lay, c, data, k)
  {
    var n := |data| - 1;
    var p, b := data[..n], data[n];
    var t := Steps(lay, c, p);
    var line := p[16 * (k - 1)..];
    LinePosition(t.i, k - 1, |line|);
    DropLineEnd(data, k);
    var done := FullLines(lay, c, p[..16 * (k - 1)], k - 1);
    CloseStep(lay, c, t, done, 16 * (k - 1), line, b);
    assert Steps(lay, c, data).ascii == Step(lay, c, t, b).ascii;
    assert Steps(lay, c, data).out == Step(lay, c, t, b).out;
    assert FullLines(lay, c, data[..16 * k], k) == done + FullLine(lay, c, 16 * (k - 1), line + [b]);
  }

  /** The state after the first `16k + j` bytes, line by line: the `k` full
      lines written, the open line's offset and cells, and the buffer
      holding the open line's bytes over zeros. */
  lemma {:induction false} StepsByLines(lay: Layout, c: Color, data: seq<Byte>, k: nat, j: nat)
    requires LayoutOk(lay, c) && |data| == 16 * k + j && j < 16
    ensures ByLines(lay, c, data, k)
    decreases |data|
  {
    if data == [] {
      assert data[..0] == [] && data[0..] == [];
    } else if j == 0 {
      StepsByLines(lay, c, data[..|data| - 1], k - 1, 15);
      ByLinesClose(lay, c, data, k);
    } else {
      StepsByLines(lay, c, data[..|data| - 1], k, j - 1);
      ByLinesOpen(lay, c, data, k);
    }
  }

  /** A dump that ends with a short line of `j` bytes. */
  lemma ShortLastLine(lay: Layout, c: Color, data: seq<Byte>, k: nat, j: nat)
    requires LayoutOk(lay, c) && |data| == 16 * k + j && 0 < j < 16 && k == |data| / 16
    requires ByLines(lay, c, data, k)
    ensures Hexdump(lay, c, data, false).0 == Lines(lay, c, data)
  {
    var s := Steps(lay, c, data);
    var rest := data[16 * k..];
    var full := FullLines(lay, c, data[..16 * k], k);
    var open := PrintOffset(lay, 16 * k) + Cells(c, rest);
    var tail := TailText(lay, c, |data|, rest);
    assert Finish(lay, c, s.i, s.ascii) == tail by {
      LinePosition(|data|, k, j);
      assert s.ascii[..j] == rest;
    }
    assert s.out == full + open;
    LinesShort(lay, c, data, k);
    LastLineSplit(lay, c, 16 * k, rest, |data|);
    PrefixAppend(full, open, tail, s.out);
  }

  /** The short last line is its open part and its close. */
  lemma LastLineSplit(lay: Layout, c: Color, off: nat, rest: seq<Byte>, n: nat)
    requires LayoutOk(lay, c) && 0 < |rest| < 16 && n == off + |rest|
    ensures LastLine(lay, c, off, rest) == (PrintOffset(lay, off) + Cells(c, rest)) + TailText(lay, c, n, rest)
  {
  }

  /** The line-by-line description of a dump with a short last line. */
  lemma LinesShort(lay: Layout, c: Color, data: seq<Byte>, k: nat)
    requires LayoutOk(lay, c) && k == |data| / 16 && 16 * k < |data|
    ensures Lines(lay, c, data) == FullLines(lay, c, data[..16 * k], k) + LastLine(lay, c, 16 * k, data[16 * k..])
  {
  }

  /** A dump of whole lines only. */
  lemma NoShortLine(lay: Layout, c: Color, data: seq<Byte>, k: nat)
    requires LayoutOk(lay, c) && |data| == 16 * k && k == |data| / 16
    requires ByLines(lay, c, data, k)
    ensures Hexdump(lay, c, data, false).0 == Lines(lay, c, data)
  {
    LinePosition(|data|, k, 0);
    var s := Steps(lay, c, data);
    assert data[16 * k..] == [];
    assert OpenLine(lay, c, 16 * k, data[16 * k..]) == [];
    assert Finish(lay, c, s.i, s.ascii) == [];
  }

  /** Hexdump writes exactly the line-by-line description: each line opens
      with the byte offset of its first byte, a full line's ASCII column
      leaves out its sixteenth byte, and a short last line is padded and
      followed by the byte count. */
  lemma HexdumpByLines(lay: Layout, c: Color, data: seq<Byte>)
    requires LayoutOk(lay, c)
    ensures Hexdump(lay, c, data, false) == (Lines(lay, c, data), Ok)
  {
    var k := |data| / 16;
    var j := |data| - 16 * k;
    StepsByLines(lay, c, data, k, j);
    if j != 0 {
      ShortLastLine(lay, c, data, k, j);
    } else {
      NoShortLine(lay, c, data, k);
    }
  }

  /** The padding puts the separator of a short last line in the same
      screen column as on a full line: with no colour, the visible width
      of the cells (four bytes of each are the reset) plus the padding is
      that of sixteen cells. */
  lemma TailAligns(c: Color, rest: seq<Byte>, chunk: seq<Byte>)
    requires Uncoloured(c) && 0 < |rest| < 16 && |chunk| == 16
    ensures |Cells(c, rest)| - 4 * |rest| + TailPadding(16 - |rest|) == |Cells(c, chunk)| - 4 * 16
  {
    var r := |rest|;
    CellsWidth(c, rest);
    CellsWidth(c, chunk);
    assert |Cells(c, chunk)| == 116;
    assert TailPadding(16 - r) == 3 * (16 - r) + (15 - r) / 4 + 1;
    QuarterSplit(r);
  }

  /** The group spaces before and after the cut of a short line add up to
      those of a full line. */
  lemma QuarterSplit(r: nat)
    requires 0 < r < 16
    ensures r / 4 + (15 - r) / 4 == 3
  {
    if r < 4 {} else if r < 8 {} else if r < 12 {} else {}
  }

  // ---------------------------------------------------------------------
  // HexdumpPlain

  /** HexdumpPlain: the whole input read at once and written as lower-case
      hex with one newline; a failing read writes nothing. The digits
      decode back to the input. */
  function HexdumpPlain(data: seq<Byte>, readFails: bool): (r: (seq<Byte>, Ending))
    ensures readFails ==> r == ([], ReadError)
    ensures !readFails ==> r.1 == Ok && |r.0| == 2 * |data| + 1 && r.0[2 * |data|..] == NEW_LINE
    ensures !readFails ==> DecodePairs(r.0[..2 * |data|]) == Decoded(data, Nil)
  {
    if readFails then ([], ReadError)
    else
      var o := HexString(data, LDIGITS) + NEW_LINE;
      assert o[..2 * |data|] == HexString(data, LDIGITS);
      DigitTables();
      HexStringRoundTrip(data, LDIGITS);
      (o, Ok)
  }
}
