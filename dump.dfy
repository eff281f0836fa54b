/** HexxyDump (cmd/hexxy/hexxy.go) as the source writes it: a line buffer
    and a unit buffer, local counters, and a read loop whose every pass is
    proved to be the pass `Iterate` describes. The writer is the growing
    sequence `out`; the reader is `data`, failing at its end when
    `readFails` holds. */
module DumpLoop {
  import opened Bytes
  import opened Encode
  import opened DumpGeometry
  import opened DumpFormat
  import opened DumpSpec

  /** io.ReadFull into `line` from position `pos` of the input: fills the
      buffer or stops at the end of the input, leaving the bytes past a
      short read as they were. */
  method ReadFull(data: seq<Byte>, pos: nat, line: array<Byte>) returns (n: nat)
    requires pos <= |data|
    modifies line
    ensures n == Min(line.Length, |data| - pos)
    ensures line[..] == data[pos..pos + n] + old(line[..])[n..]
  {
    var i := 0;
    while i < line.Length && pos + i < |data|
      invariant 0 <= i <= line.Length && pos + i <= |data|
      invariant forall j | 0 <= j < i :: line[j] == data[pos + j]
      invariant forall j | i <= j < line.Length :: line[j] == old(line[j])
    {
      line[i] := data[pos + i];
      i := i + 1;
    }
    n := i;
    assert line[..] == data[pos..pos + n] + old(line[..])[n..];
  }

  /** The trailer of a hex or binary line: padding, space, the ASCII column
      between optional bars, newline. */
  method WriteTrailer(cfg: Config, line: array<Byte>, n: nat) returns (o: seq<Byte>)
    requires ConfigOk(cfg) && HasOffset(cfg.mode) && n <= line.Length == cfg.geo.cols
    ensures o == Trailer(cfg, line[..n])
  {
    o := [];
    if n < line.Length {
      o := WritePadding(n, line.Length, cfg.geo.octs);
    }
    o := o + SPACE;
    if cfg.opts.bars {
      o := o + Bar(cfg.opts);
    }
    var ascii := WriteAscii(line, n);
    o := o + ascii;
    if cfg.opts.bars {
      o := o + Bar(cfg.opts);
    }
    o := o + NEW_LINE;
  }

  /** The printing half of a hex or binary pass: the offset field (a panic
      when it no longer fits), the units and the trailer. */
  method PrintHexPass(cfg: Config, t: DumpState, line: array<Byte>, n: nat, unitBuf: array<Byte>)
    returns (r: Pass)
    requires ConfigOk(cfg) && HasOffset(cfg.mode) && n <= line.Length == cfg.geo.cols
    requires unitBuf.Length == cfg.geo.octs == UnitWidth(cfg.mode) && line != unitBuf
    modifies unitBuf
    ensures r == PrintLine(cfg, t, line[..n])
  {
    var field := OffsetField(t.lineOffset, cfg.geo.radix);
    if field.None? {
      return Done(t.out, Panicked);
    }
    var units := WriteUnits(cfg.mode, line, n, unitBuf, cfg.geo.octs, cfg.geo.groupSize, cfg.caps);
    var trailer := WriteTrailer(cfg, line, n);
    var out := t.out + field.value + (units + trailer);
    r := Next(t.(lineOffset := t.lineOffset + 1, c := t.c + n, out := out));
  }

  /** The printing half of a C pass: the header while it is due, then the
      footer after an empty read or the indented units otherwise. */
  method PrintCPass(cfg: Config, t: DumpState, line: array<Byte>, n: nat, unitBuf: array<Byte>)
    returns (r: Pass)
    requires ConfigOk(cfg) && cfg.mode == CFormat && n <= line.Length == cfg.geo.cols
    requires unitBuf.Length == 4 && line != unitBuf
    modifies unitBuf
    ensures r == PrintLine(cfg, t, line[..n])
  {
    var doCEnd := n == 0;
    var header := [];
    if t.doCheader {
      header := cfg.declChar + NEW_LINE;
    }
    var body := [];
    if !doCEnd {
      body := DOUBLE_SPACE;
    }
    var units := WriteCUnits(line, n, unitBuf, cfg.geo.cols, cfg.caps);
    body := body + units;
    var c := t.c + n;
    if doCEnd {
      assert line[..n] == [];
      assert body == [];
      return Done(t.out + header + (cfg.declInt + Digits(c, 10) + SEMI_COLON_NL), Ok);
    }
    body := body + NEW_LINE;
    r := Next(t.(doCheader := false, c := c, out := t.out + header + body));
  }

  /** One pass of the loop: read, then the early exits in the order the
      source tests them, the autoskip bookkeeping, and the printing. */
  method DumpPass(cfg: Config, data: seq<Byte>, readFails: bool, s: DumpState,
                  line: array<Byte>, unitBuf: array<Byte>) returns (r: Pass)
    requires Ready(cfg, data, s) && line[..] == s.line && line != unitBuf
    requires unitBuf.Length == cfg.geo.octs
    requires if cfg.mode == Plain then cfg.geo.octs == cfg.geo.cols else cfg.geo.octs == UnitWidth(cfg.mode)
    requires cfg.mode == Plain && unitBuf.Length >= 2 ==> AllZero(unitBuf[2..])
    modifies line, unitBuf
    ensures r == Iterate(cfg, data, readFails, s)
    ensures r.Next? ==> line[..] == r.next.line
    ensures cfg.mode == Plain && unitBuf.Length >= 2 ==> AllZero(unitBuf[2..])
  {
    var n := ReadFull(data, s.pos, line);
    assert line[..n] == data[s.pos..s.pos + n];
    AfterRead(cfg, data, readFails, s, n, line[..], line[..n]);
    if n < line.Length && readFails {
      return Done(s.out, ReadError);
    }
    if cfg.mode == Plain && n != 0 {
      if unitBuf.Length < 2 {
        return Done(s.out, Panicked);
      }
      var units := WritePlainUnits(line, n, unitBuf, cfg.caps);
      return Next(s.(pos := s.pos + n, line := line[..], c := s.c + n, out := s.out + units));
    }
    if n == 0 && cfg.mode != CFormat {
      var out := s.out;
      if cfg.mode == Plain {
        out := out + NEW_LINE;
      }
      return Done(out, Ok);
    }
    r := CountedPass(cfg, s, n, line, unitBuf);
  }

  /** The part of a pass after the read: the length limit, the autoskip
      bookkeeping, and the printing. */
  method CountedPass(cfg: Config, s: DumpState, n: nat, line: array<Byte>, unitBuf: array<Byte>)
    returns (r: Pass)
    requires ConfigOk(cfg) && cfg.mode != Plain && n <= line.Length == cfg.geo.cols && line != unitBuf
    requires unitBuf.Length == cfg.geo.octs == UnitWidth(cfg.mode)
    modifies unitBuf
    ensures r == Counted(cfg, s, n, line[..], line[..n])
  {
    var totalOcts := s.totalOcts;
    if cfg.opts.len != -1 {
      if totalOcts == cfg.opts.len {
        return Done(s.out, Ok);
      }
      totalOcts := totalOcts + cfg.opts.len;
    }
    var nulLine, out := s.nulLine, s.out;
    if cfg.opts.autoskip {
      var empty := IsEmpty(line);
      if empty {
        if nulLine == 1 {
          out := out + ASTERISK + NEW_LINE;
        }
        nulLine := nulLine + 1;
        if nulLine > 1 {
          return Next(s.(pos := s.pos + n, line := line[..], totalOcts := totalOcts, nulLine := nulLine,
                         lineOffset := s.lineOffset + 1, out := out));
        }
      }
    }
    var t := s.(pos := s.pos + n, line := line[..], totalOcts := totalOcts, nulLine := nulLine, out := out);
    CountedPrints(cfg, s, n, line[..], line[..n], t);
    if HasOffset(cfg.mode) {
      r := PrintHexPass(cfg, t, line, n, unitBuf);
    } else {
      r := PrintCPass(cfg, t, line, n, unitBuf);
    }
  }

  /** A pass once the read has put `n` bytes into the buffer. */
  lemma AfterRead(cfg: Config, data: seq<Byte>, readFails: bool, s: DumpState, n: nat,
                  line: seq<Byte>, bs: seq<Byte>)
    requires Ready(cfg, data, s) && n == ReadCount(cfg, data, s)
    requires line == data[s.pos..s.pos + n] + s.line[n..] && bs == data[s.pos..s.pos + n]
    ensures Iterate(cfg, data, readFails, s) ==
      if n < cfg.geo.cols && readFails then Done(s.out, ReadError)
      else if cfg.mode == Plain && n != 0 then
        if cfg.geo.cols < 2 then Done(s.out, Panicked)
        else Next(s.(pos := s.pos + n, line := line, c := s.c + n, out := s.out + PlainUnits(bs, cfg.caps, cfg.geo.cols)))
      else if n == 0 && cfg.mode != CFormat then Done(s.out + (if cfg.mode == Plain then NEW_LINE else []), Ok)
      else Counted(cfg, s, n, line, bs)
  {
  }

  /** A pass past the length check that autoskip does not swallow prints
      its line from the updated state. */
  lemma CountedPrints(cfg: Config, s: DumpState, n: nat, line: seq<Byte>, bs: seq<Byte>, t: DumpState)
    requires ConfigOk(cfg) && cfg.mode != Plain
    requires !(cfg.opts.len != -1 && s.totalOcts == cfg.opts.len)
    requires !(cfg.opts.autoskip && AllZero(line) && s.nulLine >= 1)
    requires t == s.(pos := s.pos + n, line := line,
                     totalOcts := if cfg.opts.len != -1 then s.totalOcts + cfg.opts.len else s.totalOcts,
                     nulLine := if cfg.opts.autoskip && AllZero(line) then s.nulLine + 1 else s.nulLine)
    ensures Counted(cfg, s, n, line, bs) == PrintLine(cfg, t, bs)
  {
  }

  /** HexxyDump: the C declarations, the geometry, the two buffers, and the
      read loop. A pass that reads nothing and goes on would repeat for
      ever in the source; here the loop stops there with `Diverges`. */
  method HexxyDump(mode: Mode, opts: Options, filename: seq<Byte>, data: seq<Byte>, readFails: bool)
    returns (out: seq<Byte>, ending: Ending)
    ensures (out, ending) == Dump(mode, opts, filename, data, readFails)
  {
    var varDeclChar := new Byte[14 + |filename| + 6](_ => 0);
    var varDeclInt := new Byte[16 + |filename| + 7](_ => 0);
    if mode == CFormat {
      varDeclChar, varDeclInt := BuildCDecls(filename);
    }
    var geo := ResolveGeometry(mode, opts);
    var cfg := Config(mode, opts, geo, DigitTable(opts), varDeclChar[..], varDeclInt[..]);
    assert cfg == MakeConfig(mode, opts, filename);
    if geo.cols < 0 {
      return [], Panicked;
    }
    var line := new Byte[geo.cols](_ => 0);
    var unitBuf := new Byte[geo.octs](_ => 0);
    var s := DumpState(0, line[..], 0, 0, 0, 0, true, []);
    assert s == Start(geo.cols);
    while true
      invariant Ready(cfg, data, s) && line[..] == s.line && line != unitBuf
      invariant unitBuf.Length == geo.octs
      invariant mode == Plain && unitBuf.Length >= 2 ==> AllZero(unitBuf[2..])
      invariant Run(cfg, data, readFails, s) == Run(cfg, data, readFails, Start(geo.cols))
      decreases |data| - s.pos, if s.totalOcts == opts.len then 0 else 1
    {
      var r := DumpPass(cfg, data, readFails, s, line, unitBuf);
      match r
      case Done(o, e) =>
        return o, e;
      case Next(t) =>
        if t.pos == s.pos && opts.len == -1 {
          return t.out, Diverges;
        }
        s := t;
    }
  }
}
