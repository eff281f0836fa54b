/** What HexxyReverse (reverse.go) does with what it reads: the one-byte
    buffer, the overlapping windows of plain mode, the windows of hex mode
    that fall on the first unit of each group, binary lines read back
    whole, C lines read back one byte late, and the column limit that hex
    mode never reaches. */
module ReverseProperties {
  import opened Bytes
  import opened Encode
  import opened DumpGeometry
  import opened DumpFormat
  import opened DumpSpec
  import opened ReverseSpec
  import opened DumpProperties

  // ---------------------------------------------------------------------
  // The one-byte buffer

  /** The buffer after a scan holds the last byte the scan wrote, or what
      it held before when nothing was written. */
  predicate HoldsLast(ch: Byte, r: Scan)
  {
    r.ch == if r.out == [] then ch else r.out[|r.out| - 1]
  }

  lemma {:induction false} HexScanLast(line: seq<Byte>, i: nat, ch: Byte)
    requires |line| >= 28
    ensures HoldsLast(ch, HexScan(line, i, ch))
    decreases |line| - i
  {
    if i <= |line| - 28 {
      match PairValue(line[9 + i..9 + i + 2])
      case None => HexScanLast(line, i + 5, ch);
      case Some(b) => HexScanLast(line, i + 5, b);
    }
  }

  lemma {:induction false} BinaryScanLast(line: seq<Byte>, i: nat, ch: Byte)
    requires i <= |line|
    ensures HoldsLast(ch, BinaryScan(line, i, ch))
    decreases |line| - i
  {
    if |line| - i >= 8 {
      var w := line[i..i + 8];
      if BinaryStatus(w) != -1 {
        BinaryScanLast(line, i + 1, ch);
      } else {
        BinaryScanLast(line, i + 8, BinaryValue(w));
      }
    }
  }

  lemma {:induction false} PlainScanLast(line: seq<Byte>, i: nat, ch: Byte)
    requires i <= |line|
    ensures HoldsLast(ch, PlainScan(line, i, ch))
    decreases |line| - i
  {
    if |line| - i >= 2 {
      match PairValue(line[i..i + 2])
      case None => PlainScanLast(line, i + 1, ch);
      case Some(b) => PlainScanLast(line, i + 1, b);
    }
  }

  /** In hex, binary and plain mode every decoded byte is written at once,
      so the buffer carried to the next line is the last byte written. */
  lemma ScanLineLast(mode: Mode, line: seq<Byte>, ch: Byte)
    requires mode != CFormat
    ensures !ScanLine(mode, line, ch).panicked ==> HoldsLast(ch, ScanLine(mode, line, ch))
  {
    match mode
    case Hex => if |line| >= 28 { HexScanLast(line, 0, ch); }
    case Binary => BinaryScanLast(line, 0, ch);
    case Plain => PlainScanLast(line, 0, ch);
  }

  // ---------------------------------------------------------------------
  // Plain mode: overlapping windows

  /** The byte the two digits at `k` and `k + 1` stand for. */
  function PairAt(line: seq<Byte>, k: nat): Byte
    requires k + 1 < |line| && ReverseHex(line[k]) <= 0x0f && ReverseHex(line[k + 1]) <= 0x0f
  {
    ReverseHex(line[k]) * 16 + ReverseHex(line[k + 1])
  }

  /** On a run of hex digits every position starts a window that decodes:
      `m` digits give `m - 1` bytes, the pair at each position in turn. */
  lemma {:induction false} PlainScanDigits(line: seq<Byte>, i: nat, ch: Byte)
    requires i <= |line| && forall k | i <= k < |line| :: ReverseHex(line[k]) <= 0x0f
    ensures var r := PlainScan(line, i, ch);
      && |r.out| == (if |line| - i >= 2 then |line| - i - 1 else 0)
      && forall k | 0 <= k < |r.out| :: r.out[k] == PairAt(line, i + k)
    decreases |line| - i
  {
    if |line| - i >= 2 {
      var b := PairValue(line[i..i + 2]).value;
      PlainScanDigits(line, i + 1, b);
    }
  }

  /** The digits of a hex string: the high digit of byte `k` at `2k`, the
      low one at `2k + 1`. */
  lemma HexStringPair(bs: seq<Byte>, table: seq<Byte>, k: nat)
    requires IsHexTable(table) && k < |bs|
    ensures ReverseHex(HexString(bs, table)[2 * k]) == bs[k] / 16
    ensures ReverseHex(HexString(bs, table)[2 * k + 1]) == bs[k] % 16
  {
    var s := HexString(bs, table);
    assert s[2 * k..2 * k + 2] == HexUnit(bs[k], table);
    assert s[2 * k] == s[2 * k..2 * k + 2][0];
    assert s[2 * k + 1] == s[2 * k..2 * k + 2][1];
  }

  /** A hex string is made of hex digits only. */
  lemma HexStringDigits(bs: seq<Byte>, table: seq<Byte>)
    requires IsHexTable(table)
    ensures forall m | 0 <= m < |HexString(bs, table)| :: ReverseHex(HexString(bs, table)[m]) <= 0x0f
  {
    var s := HexString(bs, table);
    forall m | 0 <= m < |s|
      ensures ReverseHex(s[m]) <= 0x0f
    {
      var k := m / 2;
      HexStringPair(bs, table, k);
      assert m == 2 * k || m == 2 * k + 1;
    }
  }

  /** Plain-mode reverse of the input written in hex: the windows overlap,
      so between every two bytes of the input comes the byte made of the
      low digit of the first and the high digit of the second. */
  lemma PlainOverlap(bs: seq<Byte>, table: seq<Byte>, ch: Byte)
    requires IsHexTable(table) && |bs| >= 1
    ensures var r := PlainScan(HexString(bs, table), 0, ch);
      && |r.out| == 2 * |bs| - 1 && r.count == 2 * |bs| - 1
      && (forall k | 0 <= k < |bs| :: r.out[2 * k] == bs[k])
      && (forall k | 0 <= k < |bs| - 1 :: r.out[2 * k + 1] == (bs[k] % 16) * 16 + bs[k + 1] / 16)
  {
    var s := HexString(bs, table);
    HexStringDigits(bs, table);
    PlainScanDigits(s, 0, ch);
    var r := PlainScan(s, 0, ch);
    forall k | 0 <= k < |bs|
      ensures r.out[2 * k] == bs[k]
    {
      HexStringPair(bs, table, k);
      assert r.out[2 * k] == PairAt(s, 2 * k);
    }
    forall k | 0 <= k < |bs| - 1
      ensures r.out[2 * k + 1] == (bs[k] % 16) * 16 + bs[k + 1] / 16
    {
      HexStringPair(bs, table, k);
      HexStringPair(bs, table, k + 1);
      assert r.out[2 * k + 1] == PairAt(s, 2 * k + 1);
    }
  }

  /** "4142" reads back as 0x41, 0x14, 0x42. */
  lemma PlainExample()
    ensures PlainScan(Ascii("4142"), 0, 0) == Scan([0x41, 0x14, 0x42], 0x42, 3, false)
  {
    var line := Ascii("4142");
    assert line == [0x34, 0x31, 0x34, 0x32];
    assert PlainScan(line, 3, 0x42) == Scan([], 0x42, 0, false);
    assert PairValue(line[2..4]) == Some(0x42);
    assert PlainScan(line, 2, 0x14) == Scan([0x42], 0x42, 1, false);
    assert PairValue(line[1..3]) == Some(0x14);
    assert PlainScan(line, 1, 0x41) == Scan([0x14, 0x42], 0x42, 2, false);
    assert PairValue(line[0..2]) == Some(0x41);
  }

  /** Plain-mode windows that each hold a zero decode nothing. */
  lemma {:induction false} PlainSkip(line: seq<Byte>, i: nat, j: nat, ch: Byte)
    requires i <= j <= |line|
    requires forall k | i <= k < j && k + 1 < |line| :: line[k] == 0 || line[k + 1] == 0
    ensures PlainScan(line, i, ch) == PlainScan(line, j, ch)
    decreases j - i
  {
    if i < j && |line| - i >= 2 {
      assert ReverseHex(0) == 0xff;
      assert PairValue(line[i..i + 2]) == None;
      PlainSkip(line, i + 1, j, ch);
    }
  }

  /** Scanning past a prefix is scanning what follows it. */
  lemma {:induction false} PlainShift(p: seq<Byte>, q: seq<Byte>, i: nat, ch: Byte)
    requires i <= |q|
    ensures PlainScan(p + q, |p| + i, ch) == PlainScan(q, i, ch)
    decreases |q| - i
  {
    if |q| - i >= 2 {
      assert (p + q)[|p| + i..|p| + i + 2] == q[i..i + 2];
      match PairValue(q[i..i + 2])
      case None => PlainShift(p, q, i + 1, ch);
      case Some(b) => PlainShift(p, q, i + 1, b);
    }
  }

  /** The last byte of `bs`, or `ch` when there is none. */
  function LastOr(bs: seq<Byte>, ch: Byte): Byte
  {
    if bs == [] then ch else bs[|bs| - 1]
  }

  /** One plain unit of three columns or more reads back as its byte, and
      the scan goes on at the next unit with that byte in the buffer. */
  lemma PlainUnitStep(b: Byte, caps: seq<Byte>, cols: nat, q: seq<Byte>, ch: Byte)
    requires IsHexTable(caps) && cols >= 3
    ensures PlainScan(PlainUnit(b, caps, cols) + q, 0, ch).out == [b] + PlainScan(q, 0, b).out
    ensures PlainScan(PlainUnit(b, caps, cols) + q, 0, ch).ch == PlainScan(q, 0, b).ch
  {
    var u := PlainUnit(b, caps, cols);
    var line := u + q;
    assert line[0..2] == HexUnit(b, caps);
    assert ReverseHex(caps[b / 16]) == b / 16 && ReverseHex(caps[b % 16]) == b % 16;
    assert PairValue(line[0..2]) == Some(b);
    forall k | 1 <= k < cols && k + 1 < |line|
      ensures line[k] == 0 || line[k + 1] == 0
    {
      if k == 1 {
        assert line[2] == u[2..][0];
      } else {
        assert line[k] == u[2..][k - 2];
      }
    }
    PlainSkip(line, 1, cols, b);
    PlainShift(u, q, 0, b);
  }

  lemma PlainUnitsCons(b: Byte, rest: seq<Byte>, caps: seq<Byte>, cols: nat)
    requires |caps| == 16 && cols >= 2
    ensures PlainUnits([b] + rest, caps, cols) == PlainUnit(b, caps, cols) + PlainUnits(rest, caps, cols)
  {
    assert [b][..0] == [];
    assert PlainUnits([b], caps, cols) == PlainUnit(b, caps, cols);
    PlainUnitsConcat([b], rest, caps, cols);
  }

  /** With units of three columns or more the zero padding after each pair
      of digits keeps the windows from overlapping: plain-mode reverse
      reads each unit's byte back, then goes on with what follows. */
  lemma {:induction false} PlainUnitsScan(bs: seq<Byte>, caps: seq<Byte>, cols: nat, tail: seq<Byte>, ch: Byte)
    requires IsHexTable(caps) && cols >= 3
    ensures PlainScan(PlainUnits(bs, caps, cols) + tail, 0, ch).out == bs + PlainScan(tail, 0, LastOr(bs, ch)).out
    ensures PlainScan(PlainUnits(bs, caps, cols) + tail, 0, ch).ch == PlainScan(tail, 0, LastOr(bs, ch)).ch
    decreases |bs|
  {
    if bs == [] {
      assert PlainUnits(bs, caps, cols) + tail == tail;
    } else {
      var b, rest := bs[0], bs[1..];
      var q := PlainUnits(rest, caps, cols) + tail;
      assert [b] + rest == bs;
      PlainUnitsCons(b, rest, caps, cols);
      assert PlainUnits(bs, caps, cols) + tail == PlainUnit(b, caps, cols) + q;
      PlainUnitStep(b, caps, cols, q, ch);
      PlainUnitsScan(rest, caps, cols, tail, b);
      assert LastOr(rest, b) == LastOr(bs, ch);
    }
  }

  /** The bytes of a plain dump are zeros and hex digits: never a newline. */
  lemma {:induction false} PlainUnitsNoNewline(bs: seq<Byte>, caps: seq<Byte>, cols: nat)
    requires IsHexTable(caps) && cols >= 2
    ensures forall k | 0 <= k < |PlainUnits(bs, caps, cols)| :: PlainUnits(bs, caps, cols)[k] != NL
  {
    if bs != [] {
      var init := bs[..|bs| - 1];
      var b := bs[|bs| - 1];
      PlainUnitsNoNewline(init, caps, cols);
      var u := PlainUnit(b, caps, cols);
      var p := PlainUnits(init, caps, cols);
      assert ReverseHex(caps[b / 16]) == b / 16 && ReverseHex(caps[b % 16]) == b % 16;
      assert ReverseHex(NL) == 0xff;
      forall k | 0 <= k < |u|
        ensures u[k] != NL
      {
        if k >= 2 {
          assert u[k] == u[2..][k - 2];
        }
      }
      assert forall k | 0 <= k < |p + u| :: (p + u)[k] == if k < |p| then p[k] else u[k - |p|];
    }
  }

  // ---------------------------------------------------------------------
  // Binary mode: one line

  predicate AllBinaryDigits(w: seq<Byte>)
  {
    forall j | 0 <= j < |w| :: IsBinaryDigit(w[j])
  }

  /** The eight bytes from `k` are all binary digits. */
  predicate BinaryWindow(line: seq<Byte>, k: nat)
  {
    k + 8 <= |line| && AllBinaryDigits(line[k..k + 8])
  }

  predicate NoBinaryDigits(w: seq<Byte>)
  {
    forall j | 0 <= j < |w| :: !IsBinaryDigit(w[j])
  }

  /** Without `-B` there is no bar; with it, the bar (the default delimiter
      or the `--separator`) holds no newline and no binary digit, so it
      neither splits a line nor lends a digit to a window. */
  predicate BarReadsBack(opts: Options)
  {
    !opts.bars || (NL !in Bar(opts) && NoBinaryDigits(Bar(opts)))
  }

  /** The default delimiter reads back. */
  lemma DefaultBarReadsBack(opts: Options)
    requires opts.separator == []
    ensures BarReadsBack(opts)
  {
    assert Bar(opts) == BAR == [0xE2, 0x94, 0x8A];
  }

  /** Binary windows that each hold something other than a binary digit
      move the scan on one byte at a time and decode nothing. */
  lemma {:induction false} BinarySkipTo(line: seq<Byte>, i: nat, j: nat, ch: Byte)
    requires i <= j <= |line|
    requires forall k | i <= k < j :: !BinaryWindow(line, k)
    ensures BinaryScan(line, i, ch) == BinaryScan(line, j, ch)
    decreases j - i
  {
    if i < j && |line| - i >= 8 {
      assert !BinaryWindow(line, i);
      BinaryStatusAllDigits(line[i..i + 8]);
      BinarySkipTo(line, i + 1, j, ch);
    }
  }

  /** Scanning past a prefix is scanning what follows it. */
  lemma {:induction false} BinaryShift(p: seq<Byte>, q: seq<Byte>, i: nat, ch: Byte)
    requires i <= |q|
    ensures BinaryScan(p + q, |p| + i, ch) == BinaryScan(q, i, ch)
    decreases |q| - i
  {
    if |q| - i >= 8 {
      var w := q[i..i + 8];
      assert (p + q)[|p| + i..|p| + i + 8] == w;
      if BinaryStatus(w) != -1 {
        BinaryShift(p, q, i + 1, ch);
      } else {
        BinaryShift(p, q, i + 8, BinaryValue(w));
      }
    }
  }

  /** A space in front of the scan is stepped over. */
  lemma BinarySpace(t: seq<Byte>, ch: Byte)
    ensures BinaryScan(SPACE + t, 0, ch) == BinaryScan(t, 0, ch)
  {
    var line := SPACE + t;
    if |line| >= 8 {
      assert !IsBinaryDigit(line[0..8][0]);
      BinarySkipTo(line, 0, 1, ch);
      BinaryShift(SPACE, t, 0, ch);
    }
  }

  /** One binary unit and its gap read back as the unit's byte. */
  lemma BinaryUnitStep(b: Byte, gap: seq<Byte>, t: seq<Byte>, ch: Byte)
    requires gap == [] || gap == SPACE
    ensures BinaryScan(BinaryUnit(b) + gap + t, 0, ch).out == [b] + BinaryScan(t, 0, b).out
    ensures BinaryScan(BinaryUnit(b) + gap + t, 0, ch).ch == BinaryScan(t, 0, b).ch
  {
    var u := BinaryUnit(b);
    BinaryUnitRoundTrip(b);
    var line := u + (gap + t);
    assert u + gap + t == line;
    assert line[0..8] == u;
    BinaryShift(u, gap + t, 0, b);
    if gap == SPACE {
      BinarySpace(t, b);
    } else {
      assert gap + t == t;
    }
  }

  /** The units of a binary line read back, whatever the grouping: each
      window that decodes starts on a unit, and the gaps are stepped over. */
  lemma {:induction false} BinaryUnitsScan(bs: seq<Byte>, caps: seq<Byte>, groupSize: int, tail: seq<Byte>, ch: Byte)
    requires |caps| == 16
    ensures BinaryScan(Units(Binary, bs, caps, groupSize) + tail, 0, ch).out
      == bs + BinaryScan(tail, 0, LastOr(bs, ch)).out
    ensures BinaryScan(Units(Binary, bs, caps, groupSize) + tail, 0, ch).ch
      == BinaryScan(tail, 0, LastOr(bs, ch)).ch
    decreases |bs|
  {
    if bs == [] {
      assert Units(Binary, bs, caps, groupSize) + tail == tail;
    } else {
      var j := |bs| - 1;
      var init, b := bs[..j], bs[j];
      var gap := GroupGap(j, groupSize);
      var t := BinaryUnit(b) + gap + tail;
      var u := Units(Binary, init, caps, groupSize);
      assert Units(Binary, bs, caps, groupSize) == u + BinaryUnit(b) + gap;
      Regroup(u, BinaryUnit(b), gap, tail);
      BinaryUnitsScan(init, caps, groupSize, t, ch);
      BinaryUnitStep(b, gap, tail, LastOr(init, ch));
      assert init + ([b] + BinaryScan(tail, 0, b).out) == bs + BinaryScan(tail, 0, b).out;
    }
  }

  /** The padding of a short line is spaces. */
  lemma {:induction false} PaddingSpaces(lo: int, hi: int, octs: int)
    requires octs >= 1
    ensures forall k | 0 <= k < |PaddingRange(lo, hi, octs)| :: PaddingRange(lo, hi, octs)[k] == ' ' as int
    decreases hi - lo
  {
    if lo < hi {
      PaddingSpaces(lo, hi - 1, octs);
      var p, c := PaddingRange(lo, hi - 1, octs), PadCell(hi - 1, octs);
      assert forall k | 0 <= k < |c| :: c[k] == ' ' as int;
      assert forall k | 0 <= k < |p + c| :: (p + c)[k] == if k < |p| then p[k] else c[k - |p|];
    }
  }

  /** No window of eight fits in a stretch of at most seven bytes between
      two runs that hold no binary digit. */
  lemma Bracketed(pre: seq<Byte>, a: seq<Byte>, post: seq<Byte>, ch: Byte)
    requires NoBinaryDigits(pre) && NoBinaryDigits(post) && |a| <= 7
    ensures BinaryScan(pre + a + post, 0, ch) == Scan([], ch, 0, false)
  {
    var line := pre + a + post;
    forall k | 0 <= k < |line|
      ensures !BinaryWindow(line, k)
    {
      if k + 8 > |line| {
      } else if k < |pre| {
        assert line[k..k + 8][0] == pre[k];
      } else {
        assert line[k..k + 8][7] == post[k + 7 - |pre| - |a|];
      }
    }
    BinarySkipTo(line, 0, |line|, ch);
  }

  /** The rest of a binary line after its units, when it shows at most
      seven bytes: padding, separators and newline around an ASCII column
      too short for a window of eight. */
  lemma BinaryTrailer(cfg: Config, bs: seq<Byte>, ch: Byte)
    requires ConfigOk(cfg) && cfg.mode == Binary && |bs| <= 7 && BarReadsBack(cfg.opts)
    ensures BinaryScan(Trailer(cfg, bs), 0, ch) == Scan([], ch, 0, false)
  {
    var g := cfg.geo;
    var bar := if cfg.opts.bars then Bar(cfg.opts) else [];
    var pad := if |bs| < g.cols then PaddingRange(|bs| * g.octs, g.cols * g.octs, g.octs) else [];
    PaddingSpaces(|bs| * g.octs, g.cols * g.octs, g.octs);
    assert NoBinaryDigits(SPACE) && NoBinaryDigits(bar) && NoBinaryDigits(NEW_LINE);
    var pre := pad + SPACE + bar;
    var post := bar + NEW_LINE;
    assert NoBinaryDigits(pre) by {
      assert forall k | 0 <= k < |pre| :: pre[k] in pad || pre[k] in SPACE || pre[k] in bar;
    }
    assert NoBinaryDigits(post) by {
      assert forall k | 0 <= k < |post| :: post[k] in bar || post[k] in NEW_LINE;
    }
    AsciiColumnPrintable(bs);
    assert Trailer(cfg, bs) == pre + AsciiColumn(bs) + post;
    Bracketed(pre, AsciiColumn(bs), post, ch);
  }

  /** Why `BinaryTrailer` asks for a bar that reads back: with `-B` and
      the separator `01000001`, the trailer of a one-byte line holding `A`
      reads back as two more bytes `A`, one from each bar. */
  lemma DigitBarReadsAsBytes(cfg: Config)
    requires ConfigOk(cfg) && cfg.mode == Binary && cfg.geo.cols == 1
    requires cfg.opts.bars && cfg.opts.separator == BinaryUnit(0x41)
    ensures BinaryScan(Trailer(cfg, [0x41]), 0, 0).out == [0x41, 0x41]
  {
    var sep := BinaryUnit(0x41);
    var rest := [0x41] + (sep + NEW_LINE);
    assert AsciiColumn([0x41]) == [0x41];
    assert Trailer(cfg, [0x41]) == SPACE + (sep + [] + rest);
    BinarySpace(sep + [] + rest, 0);
    BinaryUnitStep(0x41, [], rest, 0);
    assert !BinaryWindow(rest, 0) by {
      assert rest[0..8][0] == 0x41;
    }
    BinarySkipTo(rest, 0, 1, 0x41);
    BinaryShift([0x41], sep + NEW_LINE, 0, 0x41);
    assert sep + NEW_LINE == sep + [] + NEW_LINE;
    BinaryUnitStep(0x41, [], NEW_LINE, 0x41);
  }

  /** A binary line of at most seven bytes (six by default) reads back as
      exactly its bytes: the offset field ends in `:` and a space, so no
      window there decodes, and the ASCII column is too short to be taken
      for a unit. */
  lemma BinaryLineReadBack(cfg: Config, field: seq<Byte>, bs: seq<Byte>, ch: Byte)
    requires ConfigOk(cfg) && cfg.mode == Binary && |bs| <= 7 && BarReadsBack(cfg.opts)
    requires |field| == 9 && field[7] == ':' as int && field[8] == ' ' as int
    ensures ScanLine(Binary, field + HexLineBody(cfg, bs), ch) == Scan(bs, LastOr(bs, ch), |bs|, false)
  {
    var body := HexLineBody(cfg, bs);
    var line := field + body;
    forall k | 0 <= k < 9
      ensures !BinaryWindow(line, k)
    {
      if k + 8 > |line| {
      } else if k < 8 {
        assert line[k..k + 8][7 - k] == ':' as int;
      } else {
        assert line[k..k + 8][0] == ' ' as int;
      }
    }
    BinarySkipTo(line, 0, 9, ch);
    BinaryShift(field, body, 0, ch);
    BinaryUnitsScan(bs, cfg.caps, cfg.geo.groupSize, Trailer(cfg, bs), ch);
    BinaryTrailer(cfg, bs, LastOr(bs, ch));
    assert bs + [] == bs;
  }

  // ---------------------------------------------------------------------
  // The whole input

  /** An empty input writes nothing; a failing reader reports its error. */
  lemma ReverseEmpty(mode: Mode, opts: Options, readFails: bool)
    ensures Reverse(mode, opts, [], readFails) == ([], if readFails then ReadError else Ok)
  {
    var s := ReverseState(0, 0, 0, []);
    assert ReverseIterate(mode, ReverseCols(opts), [], readFails, s)
      == Finish([], if readFails then ReadError else Ok);
  }

  /** An input that is one line, ended by its only newline, is scanned once
      and the run ends there without error. */
  lemma OneLineReverse(mode: Mode, opts: Options, line: seq<Byte>)
    requires |line| > 0 && line[|line| - 1] == NL
    requires forall k | 0 <= k < |line| - 1 :: line[k] != NL
    requires !ScanLine(mode, line, 0).panicked
    ensures Reverse(mode, opts, line, false) == (ScanLine(mode, line, 0).out, Ok)
  {
    var e := LineEnd(line, 0);
    assert e == |line|;
    assert line[0..|line|] == line;
    var scan := ScanLine(mode, line, 0);
    assert [] + scan.out == scan.out;
    var s := ReverseState(0, 0, 0, []);
    var r := ReverseIterate(mode, ReverseCols(opts), line, false, s);
    if r.Continue? {
      assert r.next.pos == |line| && r.next.out == scan.out;
      assert ReverseIterate(mode, ReverseCols(opts), line, false, r.next) == Finish(r.next.out, Ok);
      assert ReverseRun(mode, ReverseCols(opts), line, false, r.next) == (scan.out, Ok);
    } else {
      assert r == Finish(scan.out, Ok);
    }
  }

  /** With units of three columns or more (thirty by default) a plain dump
      reads back, in plain mode, as exactly the bytes dumped, whatever the
      reverse column limit. */
  lemma PlainReverseRoundTrip(opts: Options, opts': Options, filename: seq<Byte>, data: seq<Byte>)
    requires ResolveGeometry(Plain, opts).cols >= 3
    ensures Reverse(Plain, opts', Dump(Plain, opts, filename, data, false).0, false) == (data, Ok)
  {
    var cfg := MakeConfig(Plain, opts, filename);
    PlainDump(opts, filename, data);
    var units := PlainUnits(data, cfg.caps, cfg.geo.cols);
    var dump := units + NEW_LINE;
    assert NEW_LINE == [NL];
    PlainUnitsNoNewline(data, cfg.caps, cfg.geo.cols);
    assert forall k | 0 <= k < |dump| - 1 :: dump[k] == units[k];
    PlainUnitsScan(data, cfg.caps, cfg.geo.cols, NEW_LINE, 0);
    assert PlainScan(NEW_LINE, 0, LastOr(data, 0)).out == [];
    assert data + [] == data;
    OneLineReverse(Plain, opts', dump);
  }

  /** Where a line ends does not depend on what comes before the place
      the read starts from. */
  lemma {:induction false} LineEndShift(p: seq<Byte>, q: seq<Byte>, i: nat)
    requires i <= |q|
    ensures LineEnd(p + q, |p| + i) == |p| + LineEnd(q, i)
    decreases |q| - i
  {
    if i < |q| {
      assert (p + q)[|p| + i] == q[i];
      if q[i] != NL {
        LineEndShift(p, q, i + 1);
      }
    }
  }

  /** One pass over `p + q` past `p` is the same pass over `q`. */
  lemma ReverseIterateShift(mode: Mode, cols: int, p: seq<Byte>, q: seq<Byte>, readFails: bool, s: ReverseState, s': ReverseState)
    requires s.pos <= |q| && s' == ReverseState(|p| + s.pos, s.ch, s.c, s.out)
    ensures ReverseIterate(mode, cols, q, readFails, s).Finish? ==>
      ReverseIterate(mode, cols, p + q, readFails, s') == ReverseIterate(mode, cols, q, readFails, s)
    ensures ReverseIterate(mode, cols, q, readFails, s).Continue? ==>
      && ReverseIterate(mode, cols, p + q, readFails, s').Continue?
      && ReverseIterate(mode, cols, p + q, readFails, s').next
         == Shifted(|p|, ReverseIterate(mode, cols, q, readFails, s).next)
  {
    LineEndShift(p, q, s.pos);
    var e := LineEnd(q, s.pos);
    assert (p + q)[|p| + s.pos..|p| + e] == q[s.pos..e];
    assert ReadBytes(p + q, s'.pos, readFails) == ReadBytes(q, s.pos, readFails);
  }

  /** The read loop over `p + q` past `p` is the loop over `q`: the lines
      that follow are read the same way. */
  lemma {:induction false} ReverseRunShift(mode: Mode, cols: int, p: seq<Byte>, q: seq<Byte>, readFails: bool, s: ReverseState)
    requires s.pos <= |q|
    ensures ReverseRun(mode, cols, p + q, readFails, Shifted(|p|, s)) == ReverseRun(mode, cols, q, readFails, s)
    decreases |q| - s.pos
  {
    var s' := Shifted(|p|, s);
    ReverseIterateShift(mode, cols, p, q, readFails, s, s');
    var r := ReverseIterate(mode, cols, q, readFails, s);
    var r' := ReverseIterate(mode, cols, p + q, readFails, s');
    if r.Continue? {
      var t := r.next;
      ReverseRunShift(mode, cols, p, q, readFails, t);
      assert ReverseRun(mode, cols, p + q, readFails, s') == ReverseRun(mode, cols, p + q, readFails, r'.next);
    } else {
      assert r'.out == r.out && r'.ending == r.ending;
    }
  }

  /** The same state, `d` bytes further into the input. */
  function Shifted(d: nat, s: ReverseState): (s': ReverseState)
    ensures s'.pos == d + s.pos && s'.ch == s.ch && s'.c == s.c && s'.out == s.out
  {
    ReverseState(d + s.pos, s.ch, s.c, s.out)
  }

  /** The first line of `p + q`, when `p` ends with its only newline, is `p`. */
  lemma FirstLine(p: seq<Byte>, q: seq<Byte>)
    requires |p| > 0 && p[|p| - 1] == NL
    requires forall k | 0 <= k < |p| - 1 :: p[k] != NL
    ensures LineEnd(p + q, 0) == |p|
  {
    assert (p + q)[|p| - 1] == NL;
    assert forall k | 0 <= k < |p| - 1 :: (p + q)[k] != NL;
  }

  // ---------------------------------------------------------------------
  // Hex mode: one line

  /** The two bytes at `5m` of `u` are `x`. */
  predicate HeadAt(u: seq<Byte>, m: nat, x: seq<Byte>)
  {
    5 * m + 2 <= |u| && u[5 * m..5 * m + 2] == x
  }

  /** The units of the first `n + 1` bytes of a hex line. */
  lemma HexUnitsSnoc(bs: seq<Byte>, caps: seq<Byte>, groupSize: int, n: nat)
    requires |caps| == 16 && n < |bs|
    ensures Units(Hex, bs[..n + 1], caps, groupSize)
      == Units(Hex, bs[..n], caps, groupSize) + HexUnit(bs[n], caps) + GroupGap(n, groupSize)
  {
    assert bs[..n + 1][..n] == bs[..n];
  }

  /** With pairs of units, a space follows every second unit. */
  lemma PairGaps(j: nat)
    ensures GroupGap(2 * j, 2) == [] && GroupGap(2 * j + 1, 2) == SPACE
  {
    assert (2 * j + 1) % 2 == 1 && (2 * j + 2) % 2 == 0;
  }

  /** With pairs of units, a group is both units' digits and a space. */
  lemma PairGroup(bs: seq<Byte>, caps: seq<Byte>, j: nat)
    requires |caps| == 16 && 2 * j + 2 <= |bs|
    ensures Units(Hex, bs[..2 * j + 2], caps, 2)
      == Units(Hex, bs[..2 * j], caps, 2) + HexUnit(bs[2 * j], caps) + HexUnit(bs[2 * j + 1], caps) + SPACE
  {
    var n := 2 * j;
    PairGaps(j);
    HexUnitsSnoc(bs, caps, 2, n);
    HexUnitsSnoc(bs, caps, 2, n + 1);
    assert Units(Hex, bs[..n], caps, 2) + HexUnit(bs[n], caps) + [] == Units(Hex, bs[..n], caps, 2) + HexUnit(bs[n], caps);
  }

  /** Group `m` of `u` starts with the digits of byte `2m`. */
  predicate GroupHead(u: seq<Byte>, bs: seq<Byte>, caps: seq<Byte>, m: nat)
    requires |caps| == 16
  {
    2 * m < |bs| && HeadAt(u, m, HexUnit(bs[2 * m], caps))
  }

  /** With pairs of units, group `m` starts at `5m` with the digits of byte
      `2m`. */
  lemma {:induction false} PairLayout(bs: seq<Byte>, caps: seq<Byte>, g: nat)
    requires |caps| == 16 && 2 * g <= |bs|
    ensures |Units(Hex, bs[..2 * g], caps, 2)| == 5 * g
    ensures forall m | 0 <= m < g :: GroupHead(Units(Hex, bs[..2 * g], caps, 2), bs, caps, m)
  {
    if g > 0 {
      var j := g - 1;
      PairLayout(bs, caps, j);
      PairGroup(bs, caps, j);
      var p := Units(Hex, bs[..2 * j], caps, 2);
      var q := HexUnit(bs[2 * j], caps) + HexUnit(bs[2 * j + 1], caps) + SPACE;
      assert 2 * g == 2 * j + 2;
      Regroup(p, HexUnit(bs[2 * j], caps), HexUnit(bs[2 * j + 1], caps), SPACE);
      LayoutStep(p, q, bs, caps, j);
    }
  }

  /** One more group keeps group `m` at `5m`. */
  lemma LayoutStep(p: seq<Byte>, q: seq<Byte>, bs: seq<Byte>, caps: seq<Byte>, j: nat)
    requires |caps| == 16 && 2 * j + 2 <= |bs| && |p| == 5 * j
    requires forall m | 0 <= m < j :: GroupHead(p, bs, caps, m)
    requires q == HexUnit(bs[2 * j], caps) + HexUnit(bs[2 * j + 1], caps) + SPACE
    ensures |p + q| == 5 * (j + 1)
    ensures forall m | 0 <= m < j + 1 :: GroupHead(p + q, bs, caps, m)
  {
    forall m | 0 <= m < j + 1
      ensures GroupHead(p + q, bs, caps, m)
    {
      if m < j {
        assert GroupHead(p, bs, caps, m);
        HeadAppend(p, q, m, HexUnit(bs[2 * m], caps));
      } else {
        assert (p + q)[5 * j..5 * j + 2] == q[..2];
      }
    }
  }

  lemma HeadAppend(p: seq<Byte>, q: seq<Byte>, m: nat, x: seq<Byte>)
    requires HeadAt(p, m, x)
    ensures HeadAt(p + q, m, x)
  {
    assert (p + q)[5 * m..5 * m + 2] == p[5 * m..5 * m + 2];
  }

  /** The hex windows from group `m` on read the heads of the groups. */
  lemma {:induction false} HexHeadsFrom(line: seq<Byte>, heads: seq<Byte>, caps: seq<Byte>, m: nat, ch: Byte)
    requires IsHexTable(caps) && |line| == 67 && |heads| == 8 && m <= 8
    requires forall m' | m <= m' < 8 :: HeadAt(line[9..], m', HexUnit(heads[m'], caps))
    ensures HexScan(line, 5 * m, ch).out == heads[m..]
    ensures HexScan(line, 5 * m, ch).ch == if m < 8 then heads[7] else ch
    decreases 8 - m
  {
    if m < 8 {
      var b := heads[m];
      assert HeadAt(line[9..], m, HexUnit(b, caps));
      assert line[9 + 5 * m..9 + 5 * m + 2] == line[9..][5 * m..5 * m + 2];
      assert ReverseHex(caps[b / 16]) == b / 16 && ReverseHex(caps[b % 16]) == b % 16;
      assert PairValue(line[9 + 5 * m..9 + 5 * m + 2]) == Some(b);
      HexHeadsFrom(line, heads, caps, m + 1, b);
      assert 5 * m + 5 == 5 * (m + 1);
      assert [b] + heads[m + 1..] == heads[m..];
    }
  }

  /** A full line of the default hex listing, without bars, reads back as
      the first byte of each of its eight groups: the windows advance five
      characters at a time, one group, and take two digits, one byte. */
  lemma HexLineHeads(cfg: Config, field: seq<Byte>, bs: seq<Byte>, ch: Byte)
    requires ConfigOk(cfg) && cfg.mode == Hex && IsHexTable(cfg.caps) && !cfg.opts.bars
    requires cfg.geo.groupSize == 2 && cfg.geo.cols == 16 && |bs| == 16 && |field| == 9
    ensures ScanLine(Hex, field + HexLineBody(cfg, bs), ch).out == seq(8, m requires 0 <= m < 8 => bs[2 * m])
    ensures ScanLine(Hex, field + HexLineBody(cfg, bs), ch).ch == bs[14]
  {
    var caps := cfg.caps;
    var u := Units(Hex, bs, caps, 2);
    assert bs[..2 * 8] == bs;
    PairLayout(bs, caps, 8);
    AsciiColumnPrintable(bs);
    assert |Trailer(cfg, bs)| == 18;
    var line := field + HexLineBody(cfg, bs);
    assert |line| == 67;
    var heads := seq(8, m requires 0 <= m < 8 => bs[2 * m]);
    forall m' | 0 <= m' < 8
      ensures HeadAt(line[9..], m', HexUnit(heads[m'], caps))
    {
      assert GroupHead(u, bs, caps, m');
      assert line[9..][5 * m'..5 * m' + 2] == u[5 * m'..5 * m' + 2];
    }
    HexHeadsFrom(line, heads, caps, 0, ch);
  }

  // ---------------------------------------------------------------------
  // C mode: one line

  /** Unit `k` of C units `u`: its two digits at `6k + 2` and the comma
      after them. */
  predicate CUnitAt(u: seq<Byte>, bs: seq<Byte>, caps: seq<Byte>, k: nat)
    requires |caps| == 16
  {
    && k < |bs| && 6 * k + 5 <= |u|
    && u[6 * k + 2] == caps[bs[k] / 16] && u[6 * k + 3] == caps[bs[k] % 16]
    && u[6 * k + 4] == ',' as int
  }

  /** One more unit keeps unit `k` at `6k`. */
  lemma CLayoutStep(p: seq<Byte>, q: seq<Byte>, bs: seq<Byte>, caps: seq<Byte>, c: nat)
    requires |caps| == 16 && c < |bs| && |p| == 6 * c
    requires forall k | 0 <= k < c :: CUnitAt(p, bs, caps, k)
    requires q == CUnit(bs[c], caps) + COMMA_SPACE
    ensures |p + q| == 6 * (c + 1)
    ensures forall k | 0 <= k < c + 1 :: CUnitAt(p + q, bs, caps, k)
  {
    assert q[2] == caps[bs[c] / 16] && q[3] == caps[bs[c] % 16] && q[4] == ',' as int;
    forall k | 0 <= k < c + 1
      ensures CUnitAt(p + q, bs, caps, k)
    {
      if k < c {
        assert CUnitAt(p, bs, caps, k);
      }
    }
  }

  /** Every unit of a C line but the last is `0x`, two digits and `, `. */
  lemma {:induction false} CLayout(bs: seq<Byte>, caps: seq<Byte>, cols: int, c: nat)
    requires |caps| == 16 && c < |bs|
    ensures |CUnits(bs, c, caps, cols)| == 6 * c
    ensures forall k | 0 <= k < c :: CUnitAt(CUnits(bs, c, caps, cols), bs, caps, k)
  {
    if c > 0 {
      var j := c - 1;
      CLayout(bs, caps, cols, j);
      assert CSep(j, |bs|, cols) == COMMA_SPACE;
      assert CUnits(bs, c, caps, cols) == CUnits(bs, j, caps, cols) + (CUnit(bs[j], caps) + COMMA_SPACE);
      CLayoutStep(CUnits(bs, j, caps, cols), CUnit(bs[j], caps) + COMMA_SPACE, bs, caps, j);
    }
  }

  /** Slot `i` of a C line: a window at `6i` that starts with something
      other than a hex digit, then the digits of byte `i` at `6i + 4`
      followed by something other than a hex digit. */
  predicate CSlot(line: seq<Byte>, bs: seq<Byte>, caps: seq<Byte>, i: nat)
    requires |caps| == 16
  {
    && i < |bs| && 6 * i + 7 <= |line|
    && ReverseHex(line[6 * i]) > 0x0f
    && line[6 * i + 4] == caps[bs[i] / 16] && line[6 * i + 5] == caps[bs[i] % 16]
    && ReverseHex(line[6 * i + 6]) > 0x0f
  }

  /** Slot `i` of two spaces, the units `p` of all bytes but the last and
      a last unit `r` whose digits are followed by a non-digit. */
  lemma CSlotFrom(p: seq<Byte>, r: seq<Byte>, bs: seq<Byte>, caps: seq<Byte>, i: nat)
    requires |caps| == 16 && i < |bs| && |p| == 6 * (|bs| - 1)
    requires forall k | 0 <= k < |bs| - 1 :: CUnitAt(p, bs, caps, k)
    requires |r| >= 5 && r[2] == caps[bs[|bs| - 1] / 16] && r[3] == caps[bs[|bs| - 1] % 16]
    requires ReverseHex(r[4]) > 0x0f
    ensures CSlot(DOUBLE_SPACE + p + r, bs, caps, i)
  {
    var line := DOUBLE_SPACE + p + r;
    var n := |bs|;
    assert ReverseHex(' ' as int) > 0x0f && ReverseHex(',' as int) > 0x0f;
    if i > 0 {
      assert CUnitAt(p, bs, caps, i - 1);
      assert line[6 * i] == p[6 * (i - 1) + 4];
    } else {
      assert line[0] == ' ' as int;
    }
    if i < n - 1 {
      assert CUnitAt(p, bs, caps, i);
      assert line[6 * i + 4] == p[6 * i + 2] && line[6 * i + 5] == p[6 * i + 3];
      assert line[6 * i + 6] == p[6 * i + 4];
    } else {
      assert line[6 * i + 4] == r[2] && line[6 * i + 5] == r[3] && line[6 * i + 6] == r[4];
    }
  }

  /** Every slot of two spaces, `p` and `r`, as in CSlotFrom. */
  lemma CSlotsFrom(p: seq<Byte>, r: seq<Byte>, bs: seq<Byte>, caps: seq<Byte>)
    requires |caps| == 16 && 0 < |bs| && |p| == 6 * (|bs| - 1)
    requires forall k | 0 <= k < |bs| - 1 :: CUnitAt(p, bs, caps, k)
    requires |r| >= 5 && r[2] == caps[bs[|bs| - 1] / 16] && r[3] == caps[bs[|bs| - 1] % 16]
    requires ReverseHex(r[4]) > 0x0f
    ensures forall i | 0 <= i < |bs| :: CSlot(DOUBLE_SPACE + p + r, bs, caps, i)
  {
    forall i | 0 <= i < |bs|
      ensures CSlot(DOUBLE_SPACE + p + r, bs, caps, i)
    {
      CSlotFrom(p, r, bs, caps, i);
    }
  }

  /** A C line: two spaces, the units, the newline. A full line has a comma
      after its last unit. */
  lemma CLineSlots(cfg: Config, bs: seq<Byte>)
    requires ConfigOk(cfg) && IsHexTable(cfg.caps) && 0 < |bs|
    ensures |CLine(cfg, bs)| == 6 * |bs| + 1 + (if |bs| == cfg.geo.cols then 1 else 0)
    ensures forall i | 0 <= i < |bs| :: CSlot(CLine(cfg, bs), bs, cfg.caps, i)
  {
    var caps, n := cfg.caps, |bs|;
    var j := n - 1;
    var p := CUnits(bs, j, caps, cfg.geo.cols);
    CLayout(bs, caps, cfg.geo.cols, j);
    var r := CUnit(bs[j], caps) + CSep(j, n, cfg.geo.cols) + NEW_LINE;
    assert CUnits(bs, n, caps, cfg.geo.cols) == p + (CUnit(bs[j], caps) + CSep(j, n, cfg.geo.cols));
    Regroup(DOUBLE_SPACE, p, CUnit(bs[j], caps) + CSep(j, n, cfg.geo.cols), NEW_LINE);
    assert CLine(cfg, bs) == DOUBLE_SPACE + p + r;
    assert ReverseHex(',' as int) > 0x0f && ReverseHex(NL) > 0x0f;
    assert r[2] == caps[bs[j] / 16] && r[3] == caps[bs[j] % 16] && ReverseHex(r[4]) > 0x0f;
    CSlotsFrom(p, r, bs, caps);
  }

  /** The C scan from slot `i` on: each slot writes the buffer and then
      loads byte `i`; a full line's last byte is loaded and never written,
      a short line's last byte is never even read. */
  lemma {:induction false} CScanSlots(line: seq<Byte>, bs: seq<Byte>, caps: seq<Byte>, full: bool, i: nat, ch: Byte)
    requires IsHexTable(caps) && i < |bs|
    requires |line| == 6 * |bs| + 1 + (if full then 1 else 0)
    requires forall k | i <= k < |bs| :: CSlot(line, bs, caps, k)
    ensures CScan(line, 6 * i, ch).out == [ch] + bs[i..|bs| - 1]
    ensures CScan(line, 6 * i, ch).ch
      == if full then bs[|bs| - 1] else if i < |bs| - 1 then bs[|bs| - 2] else ch
    ensures !CScan(line, 6 * i, ch).panicked
    decreases |bs| - i
  {
    var n := |bs|;
    assert CSlot(line, bs, caps, i);
    var b := bs[i];
    assert ReverseHex(caps[b / 16]) == b / 16 && ReverseHex(caps[b % 16]) == b % 16;
    var w := line[6 * i..6 * i + 4];
    assert w[0] == line[6 * i];
    assert DecodePairs(w).bytes == [];
    if i < n - 1 || full {
      var v := line[6 * i + 4..6 * i + 8];
      assert v[0] == line[6 * i + 4] && v[1] == line[6 * i + 5] && v[2] == line[6 * i + 6];
      assert v[2..][0] == v[2];
      assert DecodePairs(v[2..]).bytes == [];
      assert DecodePairs(v).bytes == [b];
      if i < n - 1 {
        assert 6 * i + 6 == 6 * (i + 1);
        CScanSlots(line, bs, caps, full, i + 1, b);
        assert [b] + bs[i + 1..n - 1] == bs[i..n - 1];
      } else {
        assert CScan(line, 6 * i + 6, b) == Scan([], b, 0, false);
      }
    } else {
      assert CScan(line, 6 * i + 4, ch) == Scan([], ch, 0, false);
    }
  }

  /** C mode reads a line one byte late: the buffer carried in from the
      line before is written first, each byte of the line is written only
      when the next unit is reached, and the last byte stays in the buffer
      (a full line) or is lost (a short line, which has no comma after it). */
  lemma CLineLate(cfg: Config, bs: seq<Byte>, ch: Byte)
    requires ConfigOk(cfg) && IsHexTable(cfg.caps) && 0 < |bs|
    ensures ScanLine(CFormat, CLine(cfg, bs), ch).out == [ch] + bs[..|bs| - 1]
    ensures ScanLine(CFormat, CLine(cfg, bs), ch).ch
      == if |bs| == cfg.geo.cols then bs[|bs| - 1] else if |bs| >= 2 then bs[|bs| - 2] else ch
    ensures !ScanLine(CFormat, CLine(cfg, bs), ch).panicked
  {
    CLineSlots(cfg, bs);
    CScanSlots(CLine(cfg, bs), bs, cfg.caps, |bs| == cfg.geo.cols, 0, ch);
    assert ScanLine(CFormat, CLine(cfg, bs), ch) == CScan(CLine(cfg, bs), 6 * 0, ch);
    assert bs[0..|bs| - 1] == bs[..|bs| - 1];
  }

  // ---------------------------------------------------------------------
  // Binary mode: the whole dump

  /** An offset field is digits, then `0: `: it holds no newline and ends
      in `:` and a space. */
  lemma OffsetFieldShape(lineOffset: nat, radix: nat, field: seq<Byte>)
    requires radix in {8, 10, 16} && OffsetField(lineOffset, radix) == Some(field)
    ensures field[7] == ':' as int && field[8] == ' ' as int
    ensures forall k | 0 <= k < 9 :: field[k] != NL
  {
    assert field[6..] == Ascii("0: ");
    assert field[6] == field[6..][0] && field[7] == field[6..][1] && field[8] == field[6..][2];
    forall k | 0 <= k < 6
      ensures field[k] != NL
    {
      assert DigitValue(field[k], radix) < radix;
    }
  }

  /** Units hold digits and spaces, never a newline. */
  lemma {:induction false} UnitsNoNewline(mode: Mode, bs: seq<Byte>, caps: seq<Byte>, groupSize: int)
    requires IsHexTable(caps)
    ensures forall k | 0 <= k < |Units(mode, bs, caps, groupSize)| :: Units(mode, bs, caps, groupSize)[k] != NL
  {
    if bs != [] {
      var j := |bs| - 1;
      var p := Units(mode, bs[..j], caps, groupSize);
      var u := UnitText(mode, bs[j], caps);
      var gap := GroupGap(j, groupSize);
      UnitsNoNewline(mode, bs[..j], caps, groupSize);
      assert ReverseHex(NL) == 0xff;
      assert ReverseHex(caps[bs[j] / 16]) == bs[j] / 16 && ReverseHex(caps[bs[j] % 16]) == bs[j] % 16;
      assert forall k | 0 <= k < |u| :: u[k] != NL;
      assert forall k | 0 <= k < |gap| :: gap[k] != NL;
      assert forall k | 0 <= k < |p + u + gap| ::
        (p + u + gap)[k] == if k < |p| then p[k] else if k < |p| + |u| then u[k - |p|] else gap[k - |p| - |u|];
    }
  }

  /** The rest of a line after its units ends with its only newline. */
  lemma TrailerNewline(cfg: Config, bs: seq<Byte>)
    requires ConfigOk(cfg) && HasOffset(cfg.mode) && (!cfg.opts.bars || NL !in Bar(cfg.opts))
    ensures var t := Trailer(cfg, bs);
      |t| > 0 && t[|t| - 1] == NL && forall k | 0 <= k < |t| - 1 :: t[k] != NL
  {
    var g := cfg.geo;
    var bar := if cfg.opts.bars then Bar(cfg.opts) else [];
    var pad := if |bs| < g.cols then PaddingRange(|bs| * g.octs, g.cols * g.octs, g.octs) else [];
    PaddingSpaces(|bs| * g.octs, g.cols * g.octs, g.octs);
    AsciiColumnPrintable(bs);
    var pre := pad + SPACE + bar + AsciiColumn(bs) + bar;
    assert forall k | 0 <= k < |pre| :: pre[k] in pad || pre[k] in SPACE || pre[k] in bar || pre[k] in AsciiColumn(bs);
    assert NEW_LINE == [NL];
    assert Trailer(cfg, bs) == pre + [NL];
  }

  /** A hex or binary line ends with its only newline. */
  lemma LineNewline(cfg: Config, field: seq<Byte>, bs: seq<Byte>)
    requires ConfigOk(cfg) && HasOffset(cfg.mode) && IsHexTable(cfg.caps)
    requires !cfg.opts.bars || NL !in Bar(cfg.opts)
    requires forall k | 0 <= k < |field| :: field[k] != NL
    ensures var line := field + HexLineBody(cfg, bs);
      |line| > 0 && line[|line| - 1] == NL && forall k | 0 <= k < |line| - 1 :: line[k] != NL
  {
    var u := Units(cfg.mode, bs, cfg.caps, cfg.geo.groupSize);
    var t := Trailer(cfg, bs);
    UnitsNoNewline(cfg.mode, bs, cfg.caps, cfg.geo.groupSize);
    TrailerNewline(cfg, bs);
    var line := field + u + t;
    assert field + HexLineBody(cfg, bs) == line;
    assert forall k | 0 <= k < |line| ::
      line[k] == if k < |field| then field[k] else if k < |field| + |u| then u[k - |field|] else t[k - |field| - |u|];
  }

  /** One binary line of the listing is read, written back, and the loop
      goes on with the next line. */
  lemma BinaryLineStep(cfg: Config, field: seq<Byte>, bs: seq<Byte>, line: seq<Byte>, rest: seq<Byte>, cols: int, s: ReverseState)
    requires ConfigOk(cfg) && cfg.mode == Binary && |bs| <= 7 && IsHexTable(cfg.caps) && cols <= 0
    requires BarReadsBack(cfg.opts)
    requires |field| == 9 && field[7] == ':' as int && field[8] == ' ' as int
    requires forall k | 0 <= k < 9 :: field[k] != NL
    requires s.pos == 0 && |bs| > 0 && line == field + HexLineBody(cfg, bs)
    ensures ReverseIterate(Binary, cols, line + rest, false, s)
      == Continue(ReverseState(|line|, bs[|bs| - 1], s.c + |bs|, s.out + bs))
  {
    LineNewline(cfg, field, bs);
    FirstLine(line, rest);
    assert (line + rest)[0..|line|] == line;
    BinaryLineReadBack(cfg, field, bs, s.ch);
  }

  /** A pass that continues leaves the rest of the loop to the state it
      continues with. */
  lemma RunContinues(mode: Mode, cols: int, data: seq<Byte>, s: ReverseState, t: ReverseState)
    requires s.pos <= |data| && ReverseIterate(mode, cols, data, false, s) == Continue(t)
    ensures ReverseRun(mode, cols, data, false, s) == ReverseRun(mode, cols, data, false, t)
  {
  }

  /** The first line of a binary listing is read back, and the loop goes
      on with the listing of the rest. */
  lemma BinaryFirstLine(cfg: Config, data: seq<Byte>, k: nat, cols: int, s: ReverseState, n: nat)
    requires ConfigOk(cfg) && cfg.mode == Binary && 1 <= cfg.geo.cols <= 7 && IsHexTable(cfg.caps)
    requires BarReadsBack(cfg.opts)
    requires cols <= 0 && s.pos == 0 && data != [] && OffsetField(k, cfg.geo.radix).Some?
    requires n == Min(cfg.geo.cols, |data|)
    ensures
      ReverseRun(Binary, cols, HexLines(cfg, data, k).0, false, s)
      == ReverseRun(Binary, cols, HexLines(cfg, data[n..], k + 1).0, false,
                    ReverseState(0, data[n - 1], s.c + n, s.out + data[..n]))
  {
    var field := OffsetField(k, cfg.geo.radix).value;
    var bs := data[..n];
    var line := field + HexLineBody(cfg, bs);
    var rest := HexLines(cfg, data[n..], k + 1);
    assert HexLines(cfg, data, k).0 == line + rest.0;
    OffsetFieldShape(k, cfg.geo.radix, field);
    BinaryLineStep(cfg, field, bs, line, rest.0, cols, s);
    var t := ReverseState(0, data[n - 1], s.c + n, s.out + data[..n]);
    assert Shifted(|line|, t) == ReverseState(|line|, bs[|bs| - 1], s.c + |bs|, s.out + bs);
    RunContinues(Binary, cols, line + rest.0, s, Shifted(|line|, t));
    ReverseRunShift(Binary, cols, line, rest.0, false, t);
  }

  /** Nothing left to read: the loop ends with what it has written. */
  lemma ReverseEmptyRest(mode: Mode, cols: int, s: ReverseState)
    requires s.pos == 0
    ensures ReverseRun(mode, cols, [], false, s) == (s.out, Ok)
  {
    assert ReverseIterate(mode, cols, [], false, s) == Finish(s.out, Ok);
  }

  lemma SplitAt(a: seq<Byte>, data: seq<Byte>, n: nat)
    requires n <= |data|
    ensures a + data[..n] + data[n..] == a + data
  {
    assert data[..n] + data[n..] == data;
  }

  /** Reading back a binary listing of lines of at most seven bytes, with
      no column limit, writes every byte of it and ends without error. */
  lemma {:induction false} BinaryLinesReverse(cfg: Config, data: seq<Byte>, k: nat, cols: int, s: ReverseState)
    requires ConfigOk(cfg) && cfg.mode == Binary && 1 <= cfg.geo.cols <= 7 && IsHexTable(cfg.caps)
    requires BarReadsBack(cfg.opts)
    requires cols <= 0 && s.pos == 0 && HexLines(cfg, data, k).1 == Ok
    ensures ReverseRun(Binary, cols, HexLines(cfg, data, k).0, false, s) == (s.out + data, Ok)
    decreases |data|
  {
    if data == [] {
      ReverseEmptyRest(Binary, cols, s);
      assert HexLines(cfg, data, k).0 == [];
      assert s.out + data == s.out;
    } else {
      var n := Min(cfg.geo.cols, |data|);
      var t := ReverseState(0, data[n - 1], s.c + n, s.out + data[..n]);
      var rest := HexLines(cfg, data[n..], k + 1).0;
      BinaryFirstLine(cfg, data, k, cols, s, n);
      BinaryLinesReverse(cfg, data[n..], k + 1, cols, t);
      SplitAt(s.out, data, n);
    }
  }

  /** With lines of at most seven bytes (six by default), no autoskip, no
      length limit and a bar that reads back, reverse in binary mode with no column limit gives
      back exactly the bytes a binary dump listed. */
  lemma BinaryReverseRoundTrip(opts: Options, opts': Options, filename: seq<Byte>, data: seq<Byte>)
    requires !opts.autoskip && opts.len == -1 && 1 <= ResolveGeometry(Binary, opts).cols <= 7
    requires BarReadsBack(opts) && ReverseCols(opts') <= 0
    requires Dump(Binary, opts, filename, data, false).1 == Ok
    ensures Reverse(Binary, opts', Dump(Binary, opts, filename, data, false).0, false) == (data, Ok)
  {
    var cfg := MakeConfig(Binary, opts, filename);
    HexDumpLines(Binary, opts, filename, data);
    BinaryLinesReverse(cfg, data, 0, ReverseCols(opts'), ReverseState(0, 0, 0, []));
    assert [] + data == data;
  }

  /** Hex mode never counts, so the column limit never ends its run. */
  lemma {:induction false} HexRunIgnoresCols(cols: int, cols': int, data: seq<Byte>, readFails: bool, s: ReverseState)
    requires s.pos <= |data| && s.c == 0
    ensures ReverseRun(Hex, cols, data, readFails, s) == ReverseRun(Hex, cols', data, readFails, s)
    decreases |data| - s.pos
  {
    var r := ReverseIterate(Hex, cols, data, readFails, s);
    assert r == ReverseIterate(Hex, cols', data, readFails, s);
    if r.Continue? {
      HexRunIgnoresCols(cols, cols', data, readFails, r.next);
    }
  }

  /** In hex mode `-c` and `-l` change nothing. */
  lemma HexIgnoresCols(opts: Options, opts': Options, data: seq<Byte>, readFails: bool)
    ensures Reverse(Hex, opts, data, readFails) == Reverse(Hex, opts', data, readFails)
  {
    HexRunIgnoresCols(ReverseCols(opts), ReverseCols(opts'), data, readFails, ReverseState(0, 0, 0, []));
  }
}
