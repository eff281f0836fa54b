/** The forward dump of HexxyDump (cmd/hexxy/hexxy.go) as a specification:
    one pass of its read loop is a function from the loop state to the next
    state or to the end of the dump, and the whole dump runs those passes
    over the input. Colour is off throughout. */
module DumpSpec {
  import opened Bytes
  import opened Encode
  import opened DumpGeometry
  import opened DumpFormat

  /** How a dump ends: `return nil` (or the `break` of the length limit),
      the wrapped read error, a Go runtime panic, or the loop that never
      ends (see `Run`). */
  datatype Ending = Ok | ReadError | Panicked | Diverges

  /** Everything settled before the loop: mode and options, the resolved
      geometry, the digit table and the two C declaration buffers (filled
      in C mode only, zero otherwise). */
  datatype Config = Config(mode: Mode, opts: Options, geo: Geometry, caps: seq<Byte>,
                           declChar: seq<Byte>, declInt: seq<Byte>)

  /** What the loop relies on: a 16-digit table, a radix strconv can
      write, and at least one character per unit in hex and binary mode. */
  predicate ConfigOk(cfg: Config)
  {
    |cfg.caps| == 16 && cfg.geo.radix in {8, 10, 16} && (HasOffset(cfg.mode) ==> cfg.geo.octs >= 2)
  }

  function MakeConfig(mode: Mode, opts: Options, filename: seq<Byte>): (cfg: Config)
    ensures ConfigOk(cfg) && cfg.mode == mode && cfg.opts == opts
    ensures cfg.geo == ResolveGeometry(mode, opts) && cfg.caps == DigitTable(opts)
    ensures mode == CFormat ==> cfg.declChar == CDeclChar(filename) && cfg.declInt == CDeclInt(filename)
    ensures mode != CFormat ==>
      cfg.declChar == Zeros(14 + |filename| + 6) && cfg.declInt == Zeros(16 + |filename| + 7)
  {
    var declChar := if mode == CFormat then CDeclChar(filename) else Zeros(14 + |filename| + 6);
    var declInt := if mode == CFormat then CDeclInt(filename) else Zeros(16 + |filename| + 7);
    Config(mode, opts, ResolveGeometry(mode, opts), DigitTable(opts), declChar, declInt)
  }

  /** The loop's state: how much input has been read, the line buffer (which
      keeps stale bytes past a short read), the counters, whether the C
      header is still due, and everything written so far. `doCEnd` is not
      kept: it holds exactly when the pass read nothing in C mode. */
  datatype DumpState = DumpState(pos: nat, line: seq<Byte>, lineOffset: nat, nulLine: nat,
                                 totalOcts: int, c: nat, doCheader: bool, out: seq<Byte>)

  /** The result of one pass: the state the next pass starts from, or the
      end of the dump with its output. */
  datatype Pass = Next(next: DumpState) | Done(out: seq<Byte>, ending: Ending)

  /** The state before the first pass: a zeroed line buffer of `cols` bytes. */
  function Start(cols: nat): (s: DumpState)
    ensures |s.line| == cols && AllZero(s.line) && s.pos == 0 && s.out == []
  {
    DumpState(0, Zeros(cols), 0, 0, 0, 0, true, [])
  }

  /** The states a pass can start from. `totalOcts` is 0 until the first
      counted pass, and `len` after it. */
  predicate Ready(cfg: Config, data: seq<Byte>, s: DumpState)
  {
    ConfigOk(cfg) && cfg.geo.cols >= 0 && |s.line| == cfg.geo.cols && s.pos <= |data|
    && (s.totalOcts == 0 || (cfg.opts.len != -1 && s.totalOcts == cfg.opts.len))
  }

  /** io.ReadFull into the line buffer: as many bytes as the buffer holds or
      the input has left. */
  function ReadCount(cfg: Config, data: seq<Byte>, s: DumpState): (n: nat)
    requires Ready(cfg, data, s)
    ensures n <= cfg.geo.cols && s.pos + n <= |data|
    ensures n < cfg.geo.cols ==> s.pos + n == |data|
  {
    Min(cfg.geo.cols, |data| - s.pos)
  }

  /** What a hex or binary line writes after its units: the padding of a
      short line, one space, the ASCII column (between bars with `-B`, the
      bar being the `--separator` when one is given) and
      the newline. */
  function Trailer(cfg: Config, bs: seq<Byte>): seq<Byte>
    requires ConfigOk(cfg) && HasOffset(cfg.mode)
  {
    var g := cfg.geo;
    var bar := if cfg.opts.bars then Bar(cfg.opts) else [];
    (if |bs| < g.cols then PaddingRange(|bs| * g.octs, g.cols * g.octs, g.octs) else [])
    + SPACE + bar + AsciiColumn(bs) + bar + NEW_LINE
  }

  /** A whole hex or binary line after its offset field. */
  function HexLineBody(cfg: Config, bs: seq<Byte>): seq<Byte>
    requires ConfigOk(cfg) && HasOffset(cfg.mode)
  {
    Units(cfg.mode, bs, cfg.caps, cfg.geo.groupSize) + Trailer(cfg, bs)
  }

  /** A C body line: two spaces, the units, the newline. */
  function CLine(cfg: Config, bs: seq<Byte>): seq<Byte>
    requires ConfigOk(cfg)
  {
    DOUBLE_SPACE + CUnits(bs, |bs|, cfg.caps, cfg.geo.cols) + NEW_LINE
  }

  /** The C footer: `};`, the length declaration and the byte count. */
  function Footer(cfg: Config, c: nat): seq<Byte>
  {
    cfg.declInt + Digits(c, 10) + SEMI_COLON_NL
  }

  /** The part of a pass after the length and autoskip checks: the offset
      field or the C header, the units, and then either the C footer (when
      nothing was read) or the rest of the line. */
  function PrintLine(cfg: Config, t: DumpState, bs: seq<Byte>): (r: Pass)
    requires ConfigOk(cfg) && cfg.mode != Plain
    ensures r.Next? ==> r.next.pos == t.pos && r.next.line == t.line && r.next.nulLine == t.nulLine
                        && r.next.totalOcts == t.totalOcts && r.next.c == t.c + |bs|
    ensures r.Next? && HasOffset(cfg.mode) ==> r.next.lineOffset == t.lineOffset + 1
    ensures r.Done? ==> bs == [] || HasOffset(cfg.mode)
  {
    if HasOffset(cfg.mode) then
      match OffsetField(t.lineOffset, cfg.geo.radix)
      case None => Done(t.out, Panicked)
      case Some(field) =>
        Next(t.(lineOffset := t.lineOffset + 1, c := t.c + |bs|,
                out := t.out + field + HexLineBody(cfg, bs)))
    else
      var header := if t.doCheader then cfg.declChar + NEW_LINE else [];
      if bs == [] then Done(t.out + header + Footer(cfg, t.c), Ok)
      else Next(t.(doCheader := false, c := t.c + |bs|, out := t.out + header + CLine(cfg, bs)))
  }

  /** One pass of the loop, in the order the source takes its branches. */
  function Iterate(cfg: Config, data: seq<Byte>, readFails: bool, s: DumpState): (r: Pass)
    requires Ready(cfg, data, s)
    ensures r.Next? ==> Ready(cfg, data, r.next) && s.pos <= r.next.pos
    ensures r.Next? && r.next.pos == s.pos ==>
      cfg.mode == CFormat && s.totalOcts != cfg.opts.len
      && (cfg.opts.len != -1 ==> r.next.totalOcts == cfg.opts.len)
  {
    var cols := cfg.geo.cols;
    var n := ReadCount(cfg, data, s);
    if n < cols && readFails then Done(s.out, ReadError)
    else
      var line := data[s.pos..s.pos + n] + s.line[n..];
      var bs := data[s.pos..s.pos + n];
      if cfg.mode == Plain && n != 0 then
        if cols < 2 then Done(s.out, Panicked)
        else Next(s.(pos := s.pos + n, line := line, c := s.c + n,
                     out := s.out + PlainUnits(bs, cfg.caps, cols)))
      else if n == 0 && cfg.mode != CFormat then
        Done(s.out + (if cfg.mode == Plain then NEW_LINE else []), Ok)
      else Counted(cfg, s, n, line, bs)
  }

  /** The rest of a pass once it has read `n` bytes into `line`: the length
      limit, autoskip, and the printing. */
  function Counted(cfg: Config, s: DumpState, n: nat, line: seq<Byte>, bs: seq<Byte>): (r: Pass)
    requires ConfigOk(cfg) && cfg.mode != Plain
    ensures r.Next? ==> r.next.pos == s.pos + n && r.next.line == line && r.next.nulLine >= s.nulLine
    ensures r.Next? ==> r.next.totalOcts == if cfg.opts.len != -1 then s.totalOcts + cfg.opts.len else s.totalOcts
    ensures r.Next? ==> cfg.opts.len == -1 || s.totalOcts != cfg.opts.len
  {
    if cfg.opts.len != -1 && s.totalOcts == cfg.opts.len then
      Done(s.out, Ok)
    else
      var totalOcts := if cfg.opts.len != -1 then s.totalOcts + cfg.opts.len else s.totalOcts;
      var skip := cfg.opts.autoskip && AllZero(line);
      var t := s.(pos := s.pos + n, line := line, totalOcts := totalOcts,
                  nulLine := if skip then s.nulLine + 1 else s.nulLine,
                  out := if skip && s.nulLine == 1 then s.out + ASTERISK + NEW_LINE else s.out);
      if skip && t.nulLine > 1 then Next(t.(lineOffset := s.lineOffset + 1))
      else PrintLine(cfg, t, bs)
  }

  /** The passes from `s` to the end. A pass that reads nothing and still
      continues leaves the state as it found it, apart from the counters,
      so the loop of the source never ends there (`SpinRepeats`): the run
      stops with `Diverges` and what was written up to then. */
  function Run(cfg: Config, data: seq<Byte>, readFails: bool, s: DumpState): (seq<Byte>, Ending)
    requires Ready(cfg, data, s)
    decreases |data| - s.pos, if s.totalOcts == cfg.opts.len then 0 else 1
  {
    match Iterate(cfg, data, readFails, s)
    case Done(out, ending) => (out, ending)
    case Next(t) =>
      if t.pos == s.pos && cfg.opts.len == -1 then (t.out, Diverges)
      else Run(cfg, data, readFails, t)
  }

  /** HexxyDump on an input: a negative column count panics in `make`
      before anything is written. `readFails` says whether the reader
      reports an error, rather than EOF, once the input is used up. */
  function Dump(mode: Mode, opts: Options, filename: seq<Byte>, data: seq<Byte>, readFails: bool)
    : (seq<Byte>, Ending)
  {
    var cfg := MakeConfig(mode, opts, filename);
    if cfg.geo.cols < 0 then ([], Panicked)
    else Run(cfg, data, readFails, Start(cfg.geo.cols))
  }
}
