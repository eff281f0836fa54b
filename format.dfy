/** The pieces HexxyDump writes for one line (cmd/hexxy/hexxy.go:202-411):
    the offset field, the grouped hex or binary units, the C units, the
    plain-mode units, the short-line padding and the ASCII column. Each is
    a specification function; where the source loops, a method writes it
    the way the loop does and is proved equal to the function. */
module DumpFormat {
  import opened Bytes
  import opened Encode
  import opened DumpGeometry

  // ---------------------------------------------------------------------
  // Offset field

  /** The offset field of a hex or binary line: the line number in the
      offset radix, left-padded with `0` to six characters, then "0: ".
      None when the number needs more than six digits: the slice
      `zeroHeader[0:6-len]` then has a negative bound and Go panics. */
  function OffsetField(lineOffset: nat, radix: nat): (r: Option<seq<Byte>>)
    requires radix in {8, 10, 16}
    ensures r.Some? <==> lineOffset < Pow(radix, 6)
    ensures r.Some? ==> |r.value| == 9 && r.value[6..] == Ascii("0: ")
    ensures r.Some? ==> forall i | 0 <= i < 6 :: DigitValue(r.value[i], radix) < radix
    ensures r.Some? ==> DigitsValue(r.value[..6], radix) == lineOffset
  {
    var digits := Digits(lineOffset, radix);
    DigitsFit(lineOffset, radix, 6);
    if |digits| > 6 then None
    else
      var field := ZERO_HEADER[..6 - |digits|] + digits + ZERO_HEADER[6..];
      OffsetFieldValue(lineOffset, radix, field);
      Some(field)
  }

  lemma OffsetFieldValue(lineOffset: nat, radix: nat, field: seq<Byte>)
    requires radix in {8, 10, 16} && |Digits(lineOffset, radix)| <= 6
    requires field == ZERO_HEADER[..6 - |Digits(lineOffset, radix)|] + Digits(lineOffset, radix) + ZERO_HEADER[6..]
    ensures |field| == 9 && field[6..] == Ascii("0: ")
    ensures forall i | 0 <= i < 6 :: DigitValue(field[i], radix) < radix
    ensures DigitsValue(field[..6], radix) == lineOffset
  {
    var digits := Digits(lineOffset, radix);
    var pad := ZERO_HEADER[..6 - |digits|];
    assert pad == Repeat('0' as int, 6 - |digits|);
    assert field[..6] == pad + digits;
    LeadingZerosValue(6 - |digits|, digits, radix);
    DigitsRoundTrip(lineOffset, radix);
  }

  // ---------------------------------------------------------------------
  // Hex and binary units

  /** One byte as hexEncode or binaryEncode writes it. */
  function UnitText(mode: Mode, b: Byte, caps: seq<Byte>): (r: seq<Byte>)
    requires |caps| == 16
    ensures |r| == if mode == Binary then 8 else 2
  {
    if mode == Binary then BinaryUnit(b) else HexUnit(b, caps)
  }

  /** The gap after unit `j` of a line (counting from 0): one space exactly
      when the group size is at least 1 and divides `j + 1`. */
  function GroupGap(j: nat, groupSize: int): seq<Byte>
  {
    if groupSize >= 1 && (j + 1) % groupSize == 0 then SPACE else []
  }

  /** The units of a hex or binary line, each followed by its gap. */
  function Units(mode: Mode, bs: seq<Byte>, caps: seq<Byte>, groupSize: int): seq<Byte>
    requires |caps| == 16
  {
    if bs == [] then []
    else
      var j := |bs| - 1;
      Units(mode, bs[..j], caps, groupSize) + UnitText(mode, bs[j], caps) + GroupGap(j, groupSize)
  }

  /** The unit loops of hex and binary mode. The counter `k` grows by
      `octs` per unit and a space is written, and `k` reset, when it
      reaches `octs * groupSize`. */
  method WriteUnits(mode: Mode, line: array<Byte>, n: nat, unitBuf: array<Byte>,
                    octs: int, groupSize: int, caps: seq<Byte>) returns (o: seq<Byte>)
    requires HasOffset(mode) && octs == UnitWidth(mode) && unitBuf.Length == octs
    requires n <= line.Length && line != unitBuf && |caps| == 16
    modifies unitBuf
    ensures o == Units(mode, line[..n], caps, groupSize)
  {
    o := [];
    var i, k := 0, octs;
    ghost var m := 0;
    while i < n
      invariant 0 <= i <= n
      invariant o == Units(mode, line[..i], caps, groupSize)
      invariant m == if groupSize >= 1 then i % groupSize else i
      invariant k == octs * (m + 1)
    {
      if mode == Binary {
        BinaryEncode(unitBuf, line[i..i + 1]);
      } else {
        HexEncode(unitBuf, line[i..i + 1], caps);
      }
      assert unitBuf[..] == UnitText(mode, line[i], caps);
      assert line[..i + 1][..i] == line[..i];
      o := o + unitBuf[..];
      GapCounter(octs, groupSize, i, m);
      if k == octs * groupSize {
        k := 0;
        o := o + SPACE;
      }
      assert o == Units(mode, line[..i + 1], caps, groupSize);
      m := if groupSize >= 1 && (i + 1) % groupSize == 0 then 0 else m + 1;
      i, k := i + 1, k + octs;
    }
  }

  /** The counter reaches `octs * groupSize` after unit `i` exactly when a
      gap is due there, and otherwise counts on. */
  lemma GapCounter(octs: int, groupSize: int, i: nat, m: nat)
    requires octs >= 1
    requires m == if groupSize >= 1 then i % groupSize else i
    ensures octs * (m + 1) == octs * groupSize <==> GroupGap(i, groupSize) == SPACE
    ensures (if groupSize >= 1 && (i + 1) % groupSize == 0 then 0 else m + 1)
            == (if groupSize >= 1 then (i + 1) % groupSize else i + 1)
    ensures octs * (m + 1) + octs == octs * (m + 2)
  {
    if groupSize >= 1 {
      DivStep(i + 1, groupSize);
      if m + 1 != groupSize {
        if m + 1 < groupSize {
          MulStrict(octs, m + 1, groupSize);
        } else {
          MulStrict(octs, groupSize, m + 1);
        }
      }
    } else {
      MulStrict(octs, groupSize, m + 1);
    }
  }

  lemma MulStrict(a: int, x: int, y: int)
    requires a >= 1 && x < y
    ensures a * x < a * y
  {
  }

  /** A hex line has two digits per byte and a binary line eight, plus one
      space per complete group. */
  lemma {:induction false} UnitsLength(mode: Mode, bs: seq<Byte>, caps: seq<Byte>, groupSize: int)
    requires |caps| == 16
    ensures |Units(mode, bs, caps, groupSize)| ==
      (if mode == Binary then 8 else 2) * |bs| + (if groupSize >= 1 then |bs| / groupSize else 0)
  {
    if bs != [] {
      var j := |bs| - 1;
      var w := if mode == Binary then 8 else 2;
      UnitsLength(mode, bs[..j], caps, groupSize);
      assert w * |bs| == w * j + w;
      if groupSize >= 1 {
        DivStep(|bs|, groupSize);
      }
    }
  }

  // ---------------------------------------------------------------------
  // Short-line padding

  /** The filler for position `i` of the missing units: a space, and a
      second one when `i % octs == 1`. */
  function PadCell(i: int, octs: int): seq<Byte>
    requires octs >= 1
  {
    if i % octs == 1 then DOUBLE_SPACE else SPACE
  }

  /** The filler for positions `lo` up to `hi - 1`. */
  function PaddingRange(lo: int, hi: int, octs: int): seq<Byte>
    requires octs >= 1
    decreases hi - lo
  {
    if hi <= lo then [] else PaddingRange(lo, hi - 1, octs) + PadCell(hi - 1, octs)
  }

  /** The padding loop of a short hex or binary line: positions
      `n * octs` up to `cols * octs`. */
  method WritePadding(n: int, cols: int, octs: int) returns (o: seq<Byte>)
    requires octs >= 1
    ensures o == PaddingRange(n * octs, cols * octs, octs)
  {
    o := [];
    var i := n * octs;
    while i < cols * octs
      invariant n * octs <= i
      invariant i == n * octs || i <= cols * octs
      invariant o == PaddingRange(n * octs, i, octs)
      decreases cols * octs - i
    {
      o := o + PadCell(i, octs);
      i := i + 1;
    }
  }

  lemma {:induction false} PaddingSplit(lo: int, mid: int, hi: int, octs: int)
    requires octs >= 1 && lo <= mid <= hi
    ensures PaddingRange(lo, hi, octs) == PaddingRange(lo, mid, octs) + PaddingRange(mid, hi, octs)
    decreases hi - mid
  {
    if mid < hi {
      PaddingSplit(lo, mid, hi - 1, octs);
    }
  }

  /** Within one unit's worth of positions, starting at a multiple of
      `octs`, exactly one position gets the second space. */
  lemma {:induction false} PaddingUnitPrefix(a: int, j: int, octs: int)
    requires octs >= 2 && a >= 0 && a % octs == 0 && 0 <= j <= octs
    ensures |PaddingRange(a, a + j, octs)| == j + (if j >= 2 then 1 else 0)
  {
    if j > 0 {
      PaddingUnitPrefix(a, j - 1, octs);
      ModUnique(a + j - 1, octs, a / octs, j - 1);
    }
  }

  /** Each missing unit is padded with `octs + 1` characters. */
  lemma {:induction false} PaddingLength(n: nat, cols: nat, octs: int)
    requires octs >= 2 && n <= cols
    ensures |PaddingRange(n * octs, cols * octs, octs)| == (cols - n) * (octs + 1)
    decreases cols - n
  {
    if n < cols {
      var a, b, e := n * octs, (n + 1) * octs, cols * octs;
      PaddingArith(n, cols, octs);
      PaddingSplit(a, b, e, octs);
      PaddingLength(n + 1, cols, octs);
      PaddingUnitPrefix(a, octs, octs);
    }
  }

  lemma PaddingArith(n: nat, cols: nat, octs: int)
    requires octs >= 2 && n < cols
    ensures (n + 1) * octs == n * octs + octs <= cols * octs
    ensures n * octs >= 0 && (n * octs) % octs == 0
    ensures (cols - n) * (octs + 1) == (cols - (n + 1)) * (octs + 1) + (octs + 1)
  {
    MulMono(octs, n + 1, cols);
    ModUnique(n * octs, octs, n, 0);
  }

  /** With one unit per group, a short line's units and padding take as
      much room as a full line's units, so the ASCII column lines up. */
  lemma AlignedWithSingleGroups(bs: seq<Byte>, caps: seq<Byte>, cols: nat)
    requires |caps| == 16 && |bs| <= cols
    ensures |Units(Hex, bs, caps, 1)| + |PaddingRange(|bs| * 2, cols * 2, 2)| == 3 * cols
  {
    var n := |bs|;
    assert |Units(Hex, bs, caps, 1)| == 3 * n by {
      UnitsLength(Hex, bs, caps, 1);
      assert n / 1 == n;
    }
    assert |PaddingRange(n * 2, cols * 2, 2)| == 3 * (cols - n) by {
      PaddingLength(n, cols, 2);
      assert (cols - n) * (2 + 1) == 3 * (cols - n);
    }
  }

  lemma AlignedBinary(bs: seq<Byte>, cols: nat)
    requires |bs| <= cols
    ensures |Units(Binary, bs, LDIGITS, 1)| + |PaddingRange(|bs| * 8, cols * 8, 8)| == 9 * cols
  {
    var n := |bs|;
    assert |Units(Binary, bs, LDIGITS, 1)| == 9 * n by {
      UnitsLength(Binary, bs, LDIGITS, 1);
      assert n / 1 == n;
    }
    assert |PaddingRange(n * 8, cols * 8, 8)| == 9 * (cols - n) by {
      PaddingLength(n, cols, 8);
      assert (cols - n) * (8 + 1) == 9 * (cols - n);
    }
  }

  /** With hex mode's default pairs, a short line of `n` bytes is
      `48 - ceil(n / 2)` characters wide up to the ASCII column, against 40
      for a full 16-byte line: only lines of 15 or 16 bytes line up. */
  lemma MisalignedWithPairs(bs: seq<Byte>, caps: seq<Byte>)
    requires |caps| == 16 && 1 <= |bs| < 16
    ensures |Units(Hex, bs, caps, 2)| + |PaddingRange(|bs| * 2, 16 * 2, 2)| == 48 - (|bs| + 1) / 2
    ensures |Units(Hex, bs, caps, 2)| + |PaddingRange(|bs| * 2, 16 * 2, 2)| == 40 <==> |bs| == 15
  {
    var n := |bs|;
    assert |Units(Hex, bs, caps, 2)| == 2 * n + n / 2 by {
      UnitsLength(Hex, bs, caps, 2);
    }
    assert |PaddingRange(n * 2, 16 * 2, 2)| == 3 * (16 - n) by {
      PaddingLength(n, 16, 2);
    }
    var h := n / 2;
    if n % 2 == 0 {
      assert (n + 1) / 2 == h by { ModUnique(n + 1, 2, h, 1); }
    } else {
      assert (n + 1) / 2 == h + 1 by { ModUnique(n + 1, 2, h + 1, 0); }
    }
  }

  // ---------------------------------------------------------------------
  // ASCII column

  /** A byte of the ASCII column: itself when `0x1f < v < 0x7f`, else `.`. */
  function AsciiChar(v: Byte): (r: Byte)
    ensures 0x20 <= r <= 0x7e
    ensures 0x20 <= v <= 0x7e ==> r == v
  {
    if 0x1f < v < 0x7f then v else '.' as int
  }

  function AsciiColumn(bs: seq<Byte>): (r: seq<Byte>)
  {
    seq(|bs|, i requires 0 <= i < |bs| => AsciiChar(bs[i]))
  }

  /** The character loop of the ASCII column, without colour. */
  method WriteAscii(line: array<Byte>, n: nat) returns (o: seq<Byte>)
    requires n <= line.Length
    ensures o == AsciiColumn(line[..n])
  {
    o := [];
    var i := 0;
    while i < n
      invariant 0 <= i <= n
      invariant o == AsciiColumn(line[..i])
    {
      var v := line[i];
      if v > 0x1f && v < 0x7f {
        o := o + line[i..i + 1];
      } else {
        o := o + DOT;
      }
      assert o == AsciiColumn(line[..i + 1]);
      i := i + 1;
    }
  }

  /** The ASCII column has one printable character per byte, and printable
      text comes through unchanged. */
  lemma AsciiColumnPrintable(bs: seq<Byte>)
    ensures |AsciiColumn(bs)| == |bs|
    ensures forall i | 0 <= i < |bs| :: 0x20 <= AsciiColumn(bs)[i] <= 0x7e
    ensures (forall i | 0 <= i < |bs| :: 0x20 <= bs[i] <= 0x7e) ==> AsciiColumn(bs) == bs
  {
  }

  // ---------------------------------------------------------------------
  // C units

  /** What follows C unit `i` of an `n`-unit line: ", " before another
      unit; after the last one "," when the line is full, else nothing. */
  function CSep(i: nat, n: nat, cols: int): seq<Byte>
  {
    if i != n - 1 then COMMA_SPACE else if n == cols then COMMA else []
  }

  /** The first `count` units of a C line, with their separators. */
  function CUnits(bs: seq<Byte>, count: nat, caps: seq<Byte>, cols: int): seq<Byte>
    requires count <= |bs| && |caps| == 16
  {
    if count == 0 then []
    else CUnits(bs, count - 1, caps, cols) + CUnit(bs[count - 1], caps) + CSep(count - 1, |bs|, cols)
  }

  /** The unit loop of C mode. */
  method WriteCUnits(line: array<Byte>, n: nat, unitBuf: array<Byte>, cols: int, caps: seq<Byte>)
    returns (o: seq<Byte>)
    requires n <= line.Length && line != unitBuf && unitBuf.Length == 4 && |caps| == 16
    modifies unitBuf
    ensures o == CUnits(line[..n], n, caps, cols)
  {
    o := [];
    var i := 0;
    while i < n
      invariant 0 <= i <= n
      invariant o == CUnits(line[..n], i, caps, cols)
    {
      CfmtEncode(unitBuf, line[i..i + 1], caps);
      assert unitBuf[..] == CUnit(line[..n][i], caps);
      o := o + unitBuf[..];
      if i != n - 1 {
        o := o + COMMA_SPACE;
      } else if n == cols {
        o := o + COMMA;
      }
      i := i + 1;
    }
  }

  /** A C line of `n >= 1` units: four characters per unit, `", "` between
      units, and a trailing `,` only on a full line. */
  lemma {:induction false} CUnitsLength(bs: seq<Byte>, count: nat, caps: seq<Byte>, cols: int)
    requires 1 <= count <= |bs| && |caps| == 16
    ensures |CUnits(bs, count, caps, cols)| ==
      6 * count - (if count == |bs| then 2 - (if |bs| == cols then 1 else 0) else 0)
  {
    if count > 1 {
      CUnitsLength(bs, count - 1, caps, cols);
    }
  }

  // ---------------------------------------------------------------------
  // Plain units

  /** One byte in plain mode: the unit buffer is `cols` bytes long and
      hexEncode fills only its first two, so the two digits are followed by
      `cols - 2` zero bytes. */
  function PlainUnit(b: Byte, caps: seq<Byte>, cols: nat): (r: seq<Byte>)
    requires |caps| == 16 && cols >= 2
    ensures |r| == cols && r[..2] == HexUnit(b, caps) && AllZero(r[2..])
  {
    HexUnit(b, caps) + Zeros(cols - 2)
  }

  function PlainUnits(bs: seq<Byte>, caps: seq<Byte>, cols: nat): seq<Byte>
    requires |caps| == 16 && cols >= 2
  {
    if bs == [] then []
    else PlainUnits(bs[..|bs| - 1], caps, cols) + PlainUnit(bs[|bs| - 1], caps, cols)
  }

  /** The plain-mode loop: each byte is hexEncoded into the unit buffer and
      the whole buffer is written. */
  method WritePlainUnits(line: array<Byte>, n: nat, unitBuf: array<Byte>, caps: seq<Byte>)
    returns (o: seq<Byte>)
    requires n <= line.Length && line != unitBuf && unitBuf.Length >= 2 && |caps| == 16
    requires AllZero(unitBuf[2..])
    modifies unitBuf
    ensures o == PlainUnits(line[..n], caps, unitBuf.Length)
    ensures AllZero(unitBuf[2..])
  {
    o := [];
    var i := 0;
    while i < n
      invariant 0 <= i <= n
      invariant o == PlainUnits(line[..i], caps, unitBuf.Length)
      invariant AllZero(unitBuf[2..])
    {
      HexEncode(unitBuf, line[i..i + 1], caps);
      assert unitBuf[..] == unitBuf[..2] + unitBuf[2..];
      assert unitBuf[..] == PlainUnit(line[i], caps, unitBuf.Length);
      assert line[..i + 1][..i] == line[..i];
      o := o + unitBuf[..];
      i := i + 1;
    }
  }

  /** With two columns the plain dump is the input in hex, so decoding it
      gives the input back. */
  lemma {:induction false} PlainUnitsHex(bs: seq<Byte>, caps: seq<Byte>)
    requires IsHexTable(caps)
    ensures PlainUnits(bs, caps, 2) == HexString(bs, caps)
    ensures DecodePairs(PlainUnits(bs, caps, 2)) == Decoded(bs, Nil)
  {
    PlainUnitsHexString(bs, caps);
    HexStringRoundTrip(bs, caps);
  }

  lemma {:induction false} PlainUnitsHexString(bs: seq<Byte>, caps: seq<Byte>)
    requires |caps| == 16
    ensures PlainUnits(bs, caps, 2) == HexString(bs, caps)
  {
    if bs != [] {
      var j := |bs| - 1;
      PlainUnitsHexString(bs[..j], caps);
      HexStringSnoc(bs[..j], bs[j], caps);
      assert bs[..j] + [bs[j]] == bs;
    }
  }

  lemma {:induction false} HexStringSnoc(bs: seq<Byte>, b: Byte, caps: seq<Byte>)
    requires |caps| == 16
    ensures HexString(bs + [b], caps) == HexString(bs, caps) + HexUnit(b, caps)
  {
    if bs != [] {
      assert (bs + [b])[1..] == bs[1..] + [b];
      HexStringSnoc(bs[1..], b, caps);
    } else {
      assert HexString([b], caps) == HexUnit(b, caps) + HexString([], caps);
    }
  }

  /** Plain units of a concatenation are the units of each part, in order. */
  lemma {:induction false} PlainUnitsConcat(a: seq<Byte>, b: seq<Byte>, caps: seq<Byte>, cols: nat)
    requires |caps| == 16 && cols >= 2
    ensures PlainUnits(a + b, caps, cols) == PlainUnits(a, caps, cols) + PlainUnits(b, caps, cols)
    decreases |b|
  {
    if b != [] {
      var j := |b| - 1;
      assert (a + b)[..|a + b| - 1] == a + b[..j];
      PlainUnitsConcat(a, b[..j], caps, cols);
    } else {
      assert a + b == a;
    }
  }

  /** Every byte takes a whole `cols`-byte unit in plain mode. */
  lemma {:induction false} PlainUnitsLength(bs: seq<Byte>, caps: seq<Byte>, cols: nat)
    requires |caps| == 16 && cols >= 2
    ensures |PlainUnits(bs, caps, cols)| == |bs| * cols
  {
    if bs != [] {
      PlainUnitsLength(bs[..|bs| - 1], caps, cols);
      assert |bs| * cols == (|bs| - 1) * cols + cols;
    }
  }
}
