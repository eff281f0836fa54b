/** What the dump loop of HexxyDump does over a whole input, mode by mode,
    stated against direct definitions of the expected output, and what a
    single pass does to the counters. */
module DumpProperties {
  import opened Bytes
  import opened Encode
  import opened DumpGeometry
  import opened DumpFormat
  import opened DumpSpec

  // ---------------------------------------------------------------------
  // Reference definitions

  /** A hex or binary dump written chunk by chunk: each `cols`-byte chunk
      (the last one possibly shorter) is one line whose offset field holds
      the line number `k`; an offset that does not fit the field panics. */
  function HexLines(cfg: Config, data: seq<Byte>, k: nat): (seq<Byte>, Ending)
    requires ConfigOk(cfg) && HasOffset(cfg.mode) && cfg.geo.cols >= 1
    decreases |data|
  {
    if data == [] then ([], Ok)
    else
      var n := Min(cfg.geo.cols, |data|);
      match OffsetField(k, cfg.geo.radix)
      case None => ([], Panicked)
      case Some(field) =>
        var rest := HexLines(cfg, data[n..], k + 1);
        (field + HexLineBody(cfg, data[..n]) + rest.0, rest.1)
  }

  /** The body of a C array: one line per `cols`-byte chunk. */
  function CLines(cfg: Config, data: seq<Byte>): seq<Byte>
    requires ConfigOk(cfg) && cfg.geo.cols >= 1
    decreases |data|
  {
    if data == [] then []
    else
      var n := Min(cfg.geo.cols, |data|);
      CLine(cfg, data[..n]) + CLines(cfg, data[n..])
  }

  /** The line buffer after the read of the pass starting at `s`. */
  function LineAfterRead(cfg: Config, data: seq<Byte>, s: DumpState): (line: seq<Byte>)
    requires Ready(cfg, data, s)
    ensures |line| == cfg.geo.cols
    ensures line[..ReadCount(cfg, data, s)] == data[s.pos..s.pos + ReadCount(cfg, data, s)]
  {
    var n := ReadCount(cfg, data, s);
    data[s.pos..s.pos + n] + s.line[n..]
  }

  /** The state a pass hands to its printing once it has read its line and
      counted it against the length limit. */
  function Printed(cfg: Config, data: seq<Byte>, s: DumpState): (t: DumpState)
    requires Ready(cfg, data, s)
    ensures t.pos == s.pos + ReadCount(cfg, data, s) && t.line == LineAfterRead(cfg, data, s)
    ensures t.out == s.out && t.c == s.c && t.lineOffset == s.lineOffset && t.doCheader == s.doCheader
  {
    s.(pos := s.pos + ReadCount(cfg, data, s), line := LineAfterRead(cfg, data, s),
       totalOcts := if cfg.opts.len != -1 then s.totalOcts + cfg.opts.len else s.totalOcts)
  }

  /** A pass that is not ended by the read, by the plain fast path, by an
      empty read outside C mode or by the length limit, and that does not
      autoskip, prints its line. */
  lemma PassPrints(cfg: Config, data: seq<Byte>, readFails: bool, s: DumpState)
    requires Ready(cfg, data, s) && cfg.mode != Plain
    requires !(ReadCount(cfg, data, s) < cfg.geo.cols && readFails)
    requires ReadCount(cfg, data, s) != 0 || cfg.mode == CFormat
    requires !(cfg.opts.len != -1 && s.totalOcts == cfg.opts.len)
    requires !(cfg.opts.autoskip && AllZero(LineAfterRead(cfg, data, s)))
    ensures Iterate(cfg, data, readFails, s)
      == PrintLine(cfg, Printed(cfg, data, s), data[s.pos..s.pos + ReadCount(cfg, data, s)])
  {
  }

  // ---------------------------------------------------------------------
  // Whole dumps

  /** Hex and binary mode without autoskip or length limit: the dump is the
      chunked listing, line numbers counting from 0. Stale bytes in the
      line buffer never show. */
  lemma HexDumpLines(mode: Mode, opts: Options, filename: seq<Byte>, data: seq<Byte>)
    requires HasOffset(mode) && !opts.autoskip && opts.len == -1
    requires ResolveGeometry(mode, opts).cols >= 1
    ensures Dump(mode, opts, filename, data, false) == HexLines(MakeConfig(mode, opts, filename), data, 0)
  {
    var cfg := MakeConfig(mode, opts, filename);
    var s := Start(cfg.geo.cols);
    assert Dump(mode, opts, filename, data, false) == Run(cfg, data, false, s);
    RunHex(cfg, data, s);
    assert data[s.pos..] == data;
    var h := HexLines(cfg, data, 0);
    assert [] + h.0 == h.0;
  }

  lemma {:induction false} RunHex(cfg: Config, data: seq<Byte>, s: DumpState)
    requires Ready(cfg, data, s) && HasOffset(cfg.mode) && cfg.geo.cols >= 1
    requires !cfg.opts.autoskip && cfg.opts.len == -1
    ensures Run(cfg, data, false, s).0 == s.out + HexLines(cfg, data[s.pos..], s.lineOffset).0
    ensures Run(cfg, data, false, s).1 == HexLines(cfg, data[s.pos..], s.lineOffset).1
    decreases |data| - s.pos, 1
  {
    if s.pos == |data| || OffsetField(s.lineOffset, cfg.geo.radix).None? {
      RunHexLast(cfg, data, s);
    } else {
      RunHexLine(cfg, data, s);
    }
  }

  /** A pass that prints a line, then the run from the next pass. */
  lemma {:induction false} RunHexLine(cfg: Config, data: seq<Byte>, s: DumpState)
    requires Ready(cfg, data, s) && HasOffset(cfg.mode) && cfg.geo.cols >= 1
    requires !cfg.opts.autoskip && cfg.opts.len == -1 && s.pos < |data|
    requires OffsetField(s.lineOffset, cfg.geo.radix).Some?
    ensures Run(cfg, data, false, s).0 == s.out + HexLines(cfg, data[s.pos..], s.lineOffset).0
    ensures Run(cfg, data, false, s).1 == HexLines(cfg, data[s.pos..], s.lineOffset).1
    decreases |data| - s.pos, 0
  {
    var u := HexPass(cfg, data, s);
    RunHex(cfg, data, u);
    HexLineJoin(cfg, data, s, u, OffsetField(s.lineOffset, cfg.geo.radix).value);
  }

  /** The line a pass prints joined to the listing the next passes print. */
  lemma HexLineJoin(cfg: Config, data: seq<Byte>, s: DumpState, u: DumpState, field: seq<Byte>)
    requires Ready(cfg, data, s) && Ready(cfg, data, u) && HasOffset(cfg.mode) && cfg.geo.cols >= 1 && s.pos < |data|
    requires OffsetField(s.lineOffset, cfg.geo.radix) == Some(field)
    requires u.pos == s.pos + Min(cfg.geo.cols, |data| - s.pos) && u.lineOffset == s.lineOffset + 1
    requires u.out == s.out + (field + HexLineBody(cfg, data[s.pos..u.pos]))
    requires Run(cfg, data, false, s) == Run(cfg, data, false, u)
    requires Run(cfg, data, false, u).0 == u.out + HexLines(cfg, data[u.pos..], u.lineOffset).0
    requires Run(cfg, data, false, u).1 == HexLines(cfg, data[u.pos..], u.lineOffset).1
    ensures Run(cfg, data, false, s).0 == s.out + HexLines(cfg, data[s.pos..], s.lineOffset).0
    ensures Run(cfg, data, false, s).1 == HexLines(cfg, data[s.pos..], s.lineOffset).1
  {
    var line := field + HexLineBody(cfg, data[s.pos..u.pos]);
    var hs, hu := HexLines(cfg, data[s.pos..], s.lineOffset), HexLines(cfg, data[u.pos..], u.lineOffset);
    HexLinesStep(cfg, data, s.pos, u.pos, s.lineOffset, field);
    assert hs.0 == line + hu.0 && hs.1 == hu.1;
    ListingStep(s.out, line, u.out, Run(cfg, data, false, s), Run(cfg, data, false, u), hs, hu);
  }

  /** A printed line followed by the rest of the listing: when the run from
      the next pass writes the rest, the run from this one writes the line
      and the rest. */
  lemma ListingStep(sOut: seq<Byte>, line: seq<Byte>, uOut: seq<Byte>,
                    rs: (seq<Byte>, Ending), ru: (seq<Byte>, Ending),
                    hs: (seq<Byte>, Ending), hu: (seq<Byte>, Ending))
    requires uOut == sOut + line && rs == ru
    requires ru.0 == uOut + hu.0 && ru.1 == hu.1
    requires hs.0 == line + hu.0 && hs.1 == hu.1
    ensures rs.0 == sOut + hs.0 && rs.1 == hs.1
  {
    PrefixAppend(sOut, line, hu.0, uOut);
  }

  /** The end of the input, or an offset that no longer fits. */
  lemma RunHexLast(cfg: Config, data: seq<Byte>, s: DumpState)
    requires Ready(cfg, data, s) && HasOffset(cfg.mode) && cfg.geo.cols >= 1
    requires !cfg.opts.autoskip && cfg.opts.len == -1
    requires s.pos == |data| || OffsetField(s.lineOffset, cfg.geo.radix).None?
    ensures Run(cfg, data, false, s).0 == s.out + HexLines(cfg, data[s.pos..], s.lineOffset).0
    ensures Run(cfg, data, false, s).1 == HexLines(cfg, data[s.pos..], s.lineOffset).1
  {
    if s.pos == |data| {
      assert data[s.pos..] == [];
      assert Iterate(cfg, data, false, s) == Done(s.out, Ok);
    } else {
      assert HexLines(cfg, data[s.pos..], s.lineOffset) == ([], Panicked);
      PassPrints(cfg, data, false, s);
    }
    assert s.out + [] == s.out;
  }

  /** The state after a hex or binary pass that prints its line. */
  lemma HexPass(cfg: Config, data: seq<Byte>, s: DumpState) returns (u: DumpState)
    requires Ready(cfg, data, s) && HasOffset(cfg.mode) && cfg.geo.cols >= 1
    requires !cfg.opts.autoskip && cfg.opts.len == -1 && s.pos < |data|
    requires OffsetField(s.lineOffset, cfg.geo.radix).Some?
    ensures Ready(cfg, data, u) && Run(cfg, data, false, s) == Run(cfg, data, false, u)
    ensures u.pos == s.pos + Min(cfg.geo.cols, |data| - s.pos) && u.lineOffset == s.lineOffset + 1
    ensures u.out == s.out + (OffsetField(s.lineOffset, cfg.geo.radix).value + HexLineBody(cfg, data[s.pos..u.pos]))
  {
    PassPrints(cfg, data, false, s);
    u := HexPassPrints(cfg, data, s);
    RunNext(cfg, data, false, s);
  }

  /** The printing of the pass: the line goes after the output. */
  lemma HexPassPrints(cfg: Config, data: seq<Byte>, s: DumpState) returns (u: DumpState)
    requires Ready(cfg, data, s) && HasOffset(cfg.mode) && cfg.geo.cols >= 1 && s.pos < |data|
    requires OffsetField(s.lineOffset, cfg.geo.radix).Some?
    ensures PrintLine(cfg, Printed(cfg, data, s), data[s.pos..s.pos + ReadCount(cfg, data, s)]) == Next(u)
    ensures u.pos == s.pos + Min(cfg.geo.cols, |data| - s.pos) && u.lineOffset == s.lineOffset + 1
    ensures u.out == s.out + (OffsetField(s.lineOffset, cfg.geo.radix).value + HexLineBody(cfg, data[s.pos..u.pos]))
  {
    var n := ReadCount(cfg, data, s);
    var bs := data[s.pos..s.pos + n];
    var t := Printed(cfg, data, s);
    var field := OffsetField(s.lineOffset, cfg.geo.radix).value;
    var line := field + HexLineBody(cfg, bs);
    u := t.(lineOffset := t.lineOffset + 1, c := t.c + |bs|, out := t.out + line);
    PrintLineHex(cfg, t, bs, field);
    assert u.pos == s.pos + n && u.out == s.out + line;
    assert data[s.pos..u.pos] == bs;
  }

  /** A hex or binary line whose offset fits is printed after the output. */
  lemma PrintLineHex(cfg: Config, t: DumpState, bs: seq<Byte>, field: seq<Byte>)
    requires ConfigOk(cfg) && HasOffset(cfg.mode) && OffsetField(t.lineOffset, cfg.geo.radix) == Some(field)
    ensures PrintLine(cfg, t, bs)
      == Next(t.(lineOffset := t.lineOffset + 1, c := t.c + |bs|, out := t.out + (field + HexLineBody(cfg, bs))))
  {
    assert t.out + field + HexLineBody(cfg, bs) == t.out + (field + HexLineBody(cfg, bs));
  }

  /** One chunk of the reference listing. */
  lemma HexLinesStep(cfg: Config, data: seq<Byte>, p: nat, q: nat, k: nat, field: seq<Byte>)
    requires ConfigOk(cfg) && HasOffset(cfg.mode) && cfg.geo.cols >= 1 && p < |data|
    requires q == p + Min(cfg.geo.cols, |data| - p)
    requires OffsetField(k, cfg.geo.radix) == Some(field)
    ensures HexLines(cfg, data[p..], k).0 == field + HexLineBody(cfg, data[p..q]) + HexLines(cfg, data[q..], k + 1).0
    ensures HexLines(cfg, data[p..], k).1 == HexLines(cfg, data[q..], k + 1).1
  {
    var d := data[p..];
    var n := q - p;
    assert d != [] && Min(cfg.geo.cols, |d|) == n;
    assert d[..n] == data[p..q];
    assert d[n..] == data[q..];
    var rest := HexLines(cfg, d[n..], k + 1);
    assert HexLines(cfg, d, k) == (field + HexLineBody(cfg, d[..n]) + rest.0, rest.1);
  }

  /** A pass that goes on and reads something hands over to the next one. */
  lemma RunNext(cfg: Config, data: seq<Byte>, readFails: bool, s: DumpState)
    requires Ready(cfg, data, s)
    requires Iterate(cfg, data, readFails, s).Next? && Iterate(cfg, data, readFails, s).next.pos > s.pos
    ensures Run(cfg, data, readFails, s) == Run(cfg, data, readFails, Iterate(cfg, data, readFails, s).next)
  {
  }

  /** C mode without autoskip or length limit: the header, one line per
      chunk, and a footer whose count is the length of the input. */
  lemma CDumpArray(opts: Options, filename: seq<Byte>, data: seq<Byte>)
    requires !opts.autoskip && opts.len == -1
    requires ResolveGeometry(CFormat, opts).cols >= 1
    ensures var cfg := MakeConfig(CFormat, opts, filename);
      Dump(CFormat, opts, filename, data, false)
      == (CDeclChar(filename) + NEW_LINE + CLines(cfg, data) + Footer(cfg, |data|), Ok)
  {
    var cfg := MakeConfig(CFormat, opts, filename);
    CArrayFromStart(cfg, data);
  }

  /** The C dump from the first pass, for any configuration. */
  lemma CArrayFromStart(cfg: Config, data: seq<Byte>)
    requires ConfigOk(cfg) && cfg.mode == CFormat && cfg.geo.cols >= 1
    requires !cfg.opts.autoskip && cfg.opts.len == -1
    ensures Run(cfg, data, false, Start(cfg.geo.cols))
      == (cfg.declChar + NEW_LINE + CLines(cfg, data) + Footer(cfg, |data|), Ok)
  {
    var s := Start(cfg.geo.cols);
    RunC(cfg, data, s);
    assert data[s.pos..] == data;
    assert s.c == 0 && s.out == [] && CHeader(cfg, s) == cfg.declChar + NEW_LINE;
    assert [] + (cfg.declChar + NEW_LINE) == cfg.declChar + NEW_LINE;
  }

  lemma {:induction false} RunC(cfg: Config, data: seq<Byte>, s: DumpState)
    requires Ready(cfg, data, s) && cfg.mode == CFormat && cfg.geo.cols >= 1
    requires !cfg.opts.autoskip && cfg.opts.len == -1
    ensures Run(cfg, data, false, s)
      == (s.out + CHeader(cfg, s) + CLines(cfg, data[s.pos..]) + Footer(cfg, s.c + |data| - s.pos), Ok)
    decreases |data| - s.pos
  {
    if s.pos == |data| {
      RunCLast(cfg, data, s);
    } else {
      var u := CPass(cfg, data, s);
      RunC(cfg, data, u);
      RunNext(cfg, data, false, s);
      CLineAppend(cfg, data, s, u);
    }
  }

  /** The header, while it is still due. */
  function CHeader(cfg: Config, s: DumpState): (h: seq<Byte>)
    ensures s.doCheader ==> h == cfg.declChar + NEW_LINE
    ensures !s.doCheader ==> h == []
  {
    if s.doCheader then cfg.declChar + NEW_LINE else []
  }

  /** The pass at the end of the input writes the header if still due and the footer. */
  lemma RunCLast(cfg: Config, data: seq<Byte>, s: DumpState)
    requires Ready(cfg, data, s) && cfg.mode == CFormat && cfg.geo.cols >= 1
    requires !cfg.opts.autoskip && cfg.opts.len == -1 && s.pos == |data|
    ensures Run(cfg, data, false, s)
      == (s.out + CHeader(cfg, s) + CLines(cfg, data[s.pos..]) + Footer(cfg, s.c + |data| - s.pos), Ok)
  {
    var done := s.out + CHeader(cfg, s) + Footer(cfg, s.c);
    assert data[s.pos..s.pos + ReadCount(cfg, data, s)] == [];
    assert Counted(cfg, s, 0, LineAfterRead(cfg, data, s), []) == Done(done, Ok);
    assert Iterate(cfg, data, false, s) == Done(done, Ok);
    assert data[s.pos..] == [];
    assert s.out + CHeader(cfg, s) + [] == s.out + CHeader(cfg, s);
  }

  /** The state after a C pass that reads something. */
  lemma CPass(cfg: Config, data: seq<Byte>, s: DumpState) returns (u: DumpState)
    requires Ready(cfg, data, s) && cfg.mode == CFormat && cfg.geo.cols >= 1
    requires !cfg.opts.autoskip && cfg.opts.len == -1 && s.pos < |data|
    ensures Iterate(cfg, data, false, s) == Next(u)
    ensures u.pos == s.pos + Min(cfg.geo.cols, |data| - s.pos)
    ensures u.c == s.c + (u.pos - s.pos) && !u.doCheader
    ensures u.out == s.out + CHeader(cfg, s) + CLine(cfg, data[s.pos..u.pos])
  {
    PassPrints(cfg, data, false, s);
    u := Iterate(cfg, data, false, s).next;
  }

  /** One chunk of the reference C body. */
  lemma CLinesStep(cfg: Config, data: seq<Byte>, p: nat, q: nat)
    requires ConfigOk(cfg) && cfg.geo.cols >= 1 && p < |data|
    requires q == p + Min(cfg.geo.cols, |data| - p)
    ensures CLines(cfg, data[p..]) == CLine(cfg, data[p..q]) + CLines(cfg, data[q..])
  {
    var d := data[p..];
    var n := q - p;
    assert d != [] && Min(cfg.geo.cols, |d|) == n;
    assert d[..n] == data[p..q];
    assert d[n..] == data[q..];
    assert CLines(cfg, d) == CLine(cfg, d[..n]) + CLines(cfg, d[n..]);
  }

  /** What is left to write after a printed C line: the array from `s` is
      the line followed by the array from `u`, with the same count. */
  lemma CLineAppend(cfg: Config, data: seq<Byte>, s: DumpState, u: DumpState)
    requires ConfigOk(cfg) && cfg.geo.cols >= 1 && s.pos < |data|
    requires u.pos == s.pos + Min(cfg.geo.cols, |data| - s.pos) && u.c == s.c + (u.pos - s.pos) && !u.doCheader
    requires u.out == s.out + CHeader(cfg, s) + CLine(cfg, data[s.pos..u.pos])
    ensures s.out + CHeader(cfg, s) + CLines(cfg, data[s.pos..]) + Footer(cfg, s.c + |data| - s.pos)
         == u.out + CHeader(cfg, u) + CLines(cfg, data[u.pos..]) + Footer(cfg, u.c + |data| - u.pos)
  {
    CLinesStep(cfg, data, s.pos, u.pos);
    assert u.c + |data| - u.pos == s.c + |data| - s.pos;
    AppendAssoc5(s.out, CHeader(cfg, s), CLine(cfg, data[s.pos..u.pos]), CLines(cfg, data[u.pos..]),
                 Footer(cfg, s.c + |data| - s.pos));
  }

  /** Plain mode: every byte as two digits and `cols - 2` zero bytes, then
      one newline, whatever the autoskip and length options say. */
  lemma PlainDump(opts: Options, filename: seq<Byte>, data: seq<Byte>)
    requires ResolveGeometry(Plain, opts).cols >= 2
    ensures var cfg := MakeConfig(Plain, opts, filename);
      Dump(Plain, opts, filename, data, false) == (PlainUnits(data, cfg.caps, cfg.geo.cols) + NEW_LINE, Ok)
  {
    var cfg := MakeConfig(Plain, opts, filename);
    var s := Start(cfg.geo.cols);
    assert Dump(Plain, opts, filename, data, false) == Run(cfg, data, false, s);
    RunPlain(cfg, data, s);
    assert data[s.pos..] == data;
    assert [] + PlainUnits(data, cfg.caps, cfg.geo.cols) == PlainUnits(data, cfg.caps, cfg.geo.cols);
  }

  lemma {:induction false} RunPlain(cfg: Config, data: seq<Byte>, s: DumpState)
    requires Ready(cfg, data, s) && cfg.mode == Plain && cfg.geo.cols >= 2
    ensures Run(cfg, data, false, s)
      == (s.out + PlainUnits(data[s.pos..], cfg.caps, cfg.geo.cols) + NEW_LINE, Ok)
    decreases |data| - s.pos
  {
    if s.pos == |data| {
      assert data[s.pos..] == [];
      assert Iterate(cfg, data, false, s) == Done(s.out + NEW_LINE, Ok);
      assert s.out + [] == s.out;
    } else {
      var u := PlainPass(cfg, data, s);
      RunPlain(cfg, data, u);
      RunNext(cfg, data, false, s);
      PlainAppend(cfg, data, s, u);
    }
  }

  /** The state after a plain pass that reads something. */
  lemma PlainPass(cfg: Config, data: seq<Byte>, s: DumpState) returns (u: DumpState)
    requires Ready(cfg, data, s) && cfg.mode == Plain && cfg.geo.cols >= 2 && s.pos < |data|
    ensures Iterate(cfg, data, false, s) == Next(u)
      && u.pos == s.pos + ReadCount(cfg, data, s) && s.pos < u.pos
      && u.out == s.out + PlainUnits(data[s.pos..u.pos], cfg.caps, cfg.geo.cols)
  {
    u := Iterate(cfg, data, false, s).next;
  }

  /** What is left to write after a plain pass: the units from `s` are
      the pass's units followed by the units from `u`. */
  lemma PlainAppend(cfg: Config, data: seq<Byte>, s: DumpState, u: DumpState)
    requires ConfigOk(cfg) && cfg.geo.cols >= 2 && s.pos < u.pos <= |data|
    requires u.out == s.out + PlainUnits(data[s.pos..u.pos], cfg.caps, cfg.geo.cols)
    ensures s.out + PlainUnits(data[s.pos..], cfg.caps, cfg.geo.cols) + NEW_LINE
         == u.out + PlainUnits(data[u.pos..], cfg.caps, cfg.geo.cols) + NEW_LINE
  {
    assert data[s.pos..] == data[s.pos..u.pos] + data[u.pos..];
    PlainUnitsConcat(data[s.pos..u.pos], data[u.pos..], cfg.caps, cfg.geo.cols);
    AppendAssoc4(s.out, PlainUnits(data[s.pos..u.pos], cfg.caps, cfg.geo.cols),
                 PlainUnits(data[u.pos..], cfg.caps, cfg.geo.cols), NEW_LINE);
  }

  /** With two columns the plain dump is the input in hex and a newline, so
      decoding it gives the input back. */
  lemma PlainDumpRoundTrip(opts: Options, filename: seq<Byte>, data: seq<Byte>)
    requires opts.columns == 2 && (opts.len == -1 || opts.len >= 2)
    ensures var out := Dump(Plain, opts, filename, data, false);
      out.1 == Ok && |out.0| == 2 * |data| + 1
      && out.0[..2 * |data|] == HexString(data, DigitTable(opts))
      && DecodePairs(out.0[..2 * |data|]) == Decoded(data, Nil)
  {
    var cfg := MakeConfig(Plain, opts, filename);
    PlainDump(opts, filename, data);
    PlainUnitsHex(data, cfg.caps);
    var out := Dump(Plain, opts, filename, data, false);
    assert out.0[..2 * |data|] == PlainUnits(data, cfg.caps, 2);
  }

  /** With a length limit, hex and binary mode print at most one line: the
      first `cols` bytes, however large the limit. */
  lemma LenOneLine(mode: Mode, opts: Options, filename: seq<Byte>, data: seq<Byte>)
    requires HasOffset(mode) && !opts.autoskip && opts.len != -1
    requires ResolveGeometry(mode, opts).cols >= 1
    ensures var cols := ResolveGeometry(mode, opts).cols;
      Dump(mode, opts, filename, data, false)
      == HexLines(MakeConfig(mode, opts, filename), data[..Min(cols, |data|)], 0)
  {
    var cfg := MakeConfig(mode, opts, filename);
    var s := Start(cfg.geo.cols);
    var n := Min(cfg.geo.cols, |data|);
    assert Dump(mode, opts, filename, data, false) == Run(cfg, data, false, s);
    if n == 0 {
      assert data[..n] == [];
      assert Iterate(cfg, data, false, s) == Done([], Ok);
    } else {
      var field := OffsetField(0, cfg.geo.radix).value;
      var u := LenFirstLine(cfg, data, s);
      LenStops(cfg, data, u);
      RunNext(cfg, data, false, s);
      HexLinesOne(cfg, data[..n], field);
    }
  }

  /** A chunk that fits one line is listed as that one line. */
  lemma HexLinesOne(cfg: Config, bs: seq<Byte>, field: seq<Byte>)
    requires ConfigOk(cfg) && HasOffset(cfg.mode) && 0 < |bs| <= cfg.geo.cols
    requires OffsetField(0, cfg.geo.radix) == Some(field)
    ensures HexLines(cfg, bs, 0) == (field + HexLineBody(cfg, bs), Ok)
  {
    var n := |bs|;
    HexLinesStep(cfg, bs, 0, n, 0, field);
    assert bs[0..] == bs && bs[0..n] == bs && bs[n..] == [];
    assert field + HexLineBody(cfg, bs) + [] == field + HexLineBody(cfg, bs);
  }

  /** The first pass of a limited hex or binary dump prints the first chunk
      and sets `totalOcts` to the limit. */
  lemma LenFirstLine(cfg: Config, data: seq<Byte>, s: DumpState) returns (u: DumpState)
    requires Ready(cfg, data, s) && HasOffset(cfg.mode) && cfg.geo.cols >= 1
    requires !cfg.opts.autoskip && cfg.opts.len >= cfg.geo.cols
    requires s == Start(cfg.geo.cols) && 0 < |data|
    ensures Iterate(cfg, data, false, s) == Next(u) && 0 < u.pos && u.totalOcts == cfg.opts.len
    ensures u.out == OffsetField(0, cfg.geo.radix).value + HexLineBody(cfg, data[..Min(cfg.geo.cols, |data|)])
  {
    var n := ReadCount(cfg, data, s);
    assert data[s.pos..s.pos + n] == data[..Min(cfg.geo.cols, |data|)];
    PassPrints(cfg, data, false, s);
    u := Iterate(cfg, data, false, s).next;
    assert [] + OffsetField(0, cfg.geo.radix).value == OffsetField(0, cfg.geo.radix).value;
  }

  /** `-l 0` lowers the line to no bytes: the first read takes nothing
      and, whatever the input and the reader, hex, binary and C mode write
      nothing and plain mode a lone newline. */
  lemma LenZero(mode: Mode, opts: Options, filename: seq<Byte>, data: seq<Byte>, readFails: bool)
    requires opts.len == 0 && ResolveGeometry(mode, opts).cols >= 0
    ensures ResolveGeometry(mode, opts).cols == 0
    ensures Dump(mode, opts, filename, data, readFails) == (if mode == Plain then NEW_LINE else [], Ok)
  {
    var cfg := MakeConfig(mode, opts, filename);
    var s := Start(cfg.geo.cols);
    assert Dump(mode, opts, filename, data, readFails) == Run(cfg, data, readFails, s);
    assert ReadCount(cfg, data, s) == 0;
    assert Iterate(cfg, data, readFails, s) == Done(if mode == Plain then NEW_LINE else [], Ok);
  }

  /** Outside plain mode, a pass that finds the limit reached ends the dump
      with nothing more written. */
  lemma LenStops(cfg: Config, data: seq<Byte>, u: DumpState)
    requires Ready(cfg, data, u) && cfg.mode != Plain
    requires cfg.opts.len != -1 && u.totalOcts == cfg.opts.len
    ensures Run(cfg, data, false, u) == (u.out, Ok)
  {
    assert Iterate(cfg, data, false, u) == Done(u.out, Ok);
  }

  /** With a length limit, C mode writes the header and the first line and
      then stops at the limit without the footer. */
  lemma CLenDropsFooter(opts: Options, filename: seq<Byte>, data: seq<Byte>)
    requires !opts.autoskip && opts.len != -1 && |data| >= 1
    requires ResolveGeometry(CFormat, opts).cols >= 1
    ensures var cfg := MakeConfig(CFormat, opts, filename);
      Dump(CFormat, opts, filename, data, false)
      == (CDeclChar(filename) + NEW_LINE + CLine(cfg, data[..Min(cfg.geo.cols, |data|)]), Ok)
  {
    var cfg := MakeConfig(CFormat, opts, filename);
    var s := Start(cfg.geo.cols);
    assert Dump(CFormat, opts, filename, data, false) == Run(cfg, data, false, s);
    var u := CLenFirstLine(cfg, data, s);
    LenStops(cfg, data, u);
    RunNext(cfg, data, false, s);
  }

  /** The first pass of a limited C dump writes the header and the first
      line and sets `totalOcts` to the limit. */
  lemma CLenFirstLine(cfg: Config, data: seq<Byte>, s: DumpState) returns (u: DumpState)
    requires Ready(cfg, data, s) && cfg.mode == CFormat && cfg.geo.cols >= 1
    requires !cfg.opts.autoskip && cfg.opts.len >= cfg.geo.cols
    requires s == Start(cfg.geo.cols) && 0 < |data|
    ensures Iterate(cfg, data, false, s) == Next(u) && 0 < u.pos && u.totalOcts == cfg.opts.len
    ensures u.out == cfg.declChar + NEW_LINE + CLine(cfg, data[..Min(cfg.geo.cols, |data|)])
  {
    var n := ReadCount(cfg, data, s);
    assert data[s.pos..s.pos + n] == data[..Min(cfg.geo.cols, |data|)];
    PassPrints(cfg, data, false, s);
    u := Iterate(cfg, data, false, s).next;
    assert [] + cfg.declChar == cfg.declChar;
  }

  /** An empty input: nothing in hex and binary mode, a lone newline in
      plain mode, and in C mode an empty array with a zero length, except
      that a zero length limit stops before the header. */
  lemma EmptyInput(mode: Mode, opts: Options, filename: seq<Byte>)
    requires ResolveGeometry(mode, opts).cols >= 0
    ensures Dump(mode, opts, filename, [], false) ==
      match mode
      case Hex => ([], Ok)
      case Binary => ([], Ok)
      case Plain => (NEW_LINE, Ok)
      case CFormat =>
        if opts.len == 0 then ([], Ok)
        else (CDeclChar(filename) + NEW_LINE + CDeclInt(filename) + Ascii("0") + SEMI_COLON_NL, Ok)
  {
    var cfg := MakeConfig(mode, opts, filename);
    var s := Start(cfg.geo.cols);
    assert Dump(mode, opts, filename, [], false) == Run(cfg, [], false, s);
    assert ReadCount(cfg, [], s) == 0;
    if mode == CFormat && opts.len != 0 {
      EmptyArray(cfg, s);
    } else if mode == Plain {
      assert Iterate(cfg, [], false, s) == Done(NEW_LINE, Ok);
    } else {
      assert Iterate(cfg, [], false, s) == Done([], Ok);
    }
  }

  /** The C run over an empty input, autoskip or not. */
  lemma EmptyArray(cfg: Config, s: DumpState)
    requires cfg.mode == CFormat && cfg.opts.len != 0 && cfg.geo.cols >= 0
    requires Ready(cfg, [], s) && s == Start(cfg.geo.cols)
    ensures Run(cfg, [], false, s) == (cfg.declChar + NEW_LINE + cfg.declInt + Ascii("0") + SEMI_COLON_NL, Ok)
  {
    assert Digits(0, 10) == Ascii("0");
    assert LineAfterRead(cfg, [], s) == s.line;
    var t := s.(totalOcts := if cfg.opts.len != -1 then cfg.opts.len else 0,
                nulLine := if cfg.opts.autoskip then 1 else 0);
    assert Iterate(cfg, [], false, s) == PrintLine(cfg, t, []);
    assert PrintLine(cfg, t, []) == Done([] + (cfg.declChar + NEW_LINE) + Footer(cfg, 0), Ok);
    assert [] + (cfg.declChar + NEW_LINE) + Footer(cfg, 0)
        == cfg.declChar + NEW_LINE + cfg.declInt + Ascii("0") + SEMI_COLON_NL;
  }

  // ---------------------------------------------------------------------
  // Single passes

  /** In hex and binary mode every pass that goes on has read at least one
      byte and moves the line number on by exactly one, whether it printed
      the line or autoskip suppressed it. */
  lemma OffsetCountsLines(cfg: Config, data: seq<Byte>, readFails: bool, s: DumpState)
    requires Ready(cfg, data, s) && HasOffset(cfg.mode)
    requires Iterate(cfg, data, readFails, s).Next?
    ensures var t := Iterate(cfg, data, readFails, s).next;
      t.lineOffset == s.lineOffset + 1 && t.pos > s.pos
  {
  }

  /** `nulLine` is never reset: no pass lowers it. */
  lemma NulLineNeverReset(cfg: Config, data: seq<Byte>, readFails: bool, s: DumpState)
    requires Ready(cfg, data, s)
    requires Iterate(cfg, data, readFails, s).Next?
    ensures Iterate(cfg, data, readFails, s).next.nulLine >= s.nulLine
  {
  }

  /** Autoskip on a buffer that is all zero after the read (stale bytes
      past a short read included): the first such buffer is printed as any
      other line, the second is replaced by `*`, and every later one is
      dropped silently; the line number moves on in every case. */
  lemma ZeroLine(cfg: Config, data: seq<Byte>, s: DumpState)
    requires Ready(cfg, data, s) && cfg.mode != Plain
    requires cfg.opts.autoskip && cfg.opts.len == -1
    requires cfg.geo.cols >= 1 && s.pos < |data|
    requires var n := ReadCount(cfg, data, s);
      AllZero(data[s.pos..s.pos + n] + s.line[n..])
    ensures var n := ReadCount(cfg, data, s);
      var line := data[s.pos..s.pos + n] + s.line[n..];
      var r := Iterate(cfg, data, false, s);
      && (s.nulLine == 0 ==>
            r == PrintLine(cfg, s.(pos := s.pos + n, line := line, nulLine := 1), data[s.pos..s.pos + n]))
      && (s.nulLine >= 1 ==>
            r.Next? && r.next.pos == s.pos + n && r.next.nulLine == s.nulLine + 1
            && r.next.lineOffset == s.lineOffset + 1
            && r.next.out == s.out + (if s.nulLine == 1 then ASTERISK + NEW_LINE else []))
  {
  }

  /** A pass that reads nothing and goes on (C mode, autoskip, a stale
      all-zero buffer already counted once, no length limit) is followed
      by another such pass that writes nothing: the loop spins for ever. */
  lemma SpinRepeats(cfg: Config, data: seq<Byte>, readFails: bool, s: DumpState)
    requires Ready(cfg, data, s) && cfg.opts.len == -1
    requires Iterate(cfg, data, readFails, s).Next?
    requires Iterate(cfg, data, readFails, s).next.pos == s.pos
    ensures var t := Iterate(cfg, data, readFails, s).next;
      var u := Iterate(cfg, data, readFails, t);
      u.Next? && u.next.pos == t.pos && u.next.out == t.out && u.next.line == t.line
      && cfg.mode == CFormat && cfg.opts.autoskip && AllZero(t.line)
  {
    var t := Iterate(cfg, data, readFails, s).next;
    assert ReadCount(cfg, data, s) == 0;
    assert data[s.pos..s.pos] + s.line[0..] == s.line;
    assert ReadCount(cfg, data, t) == 0;
    assert data[t.pos..t.pos] + t.line[0..] == t.line;
  }

  /** Only C mode with autoskip and no length limit can spin. */
  lemma {:induction false} DivergesOnlyInC(cfg: Config, data: seq<Byte>, readFails: bool, s: DumpState)
    requires Ready(cfg, data, s)
    requires Run(cfg, data, readFails, s).1 == Diverges
    ensures cfg.mode == CFormat && cfg.opts.autoskip && cfg.opts.len == -1
    decreases |data| - s.pos, if s.totalOcts == cfg.opts.len then 0 else 1
  {
    var r := Iterate(cfg, data, readFails, s);
    assert r.Next?;
    if r.next.pos == s.pos && cfg.opts.len == -1 {
      SpinRepeats(cfg, data, readFails, s);
    } else {
      DivergesOnlyInC(cfg, data, readFails, r.next);
    }
  }
}
