/** What HexxyDump settles before its loop (cmd/hexxy/hexxy.go): the output
    mode, the options it reads, its digit tables and byte constants, the
    line geometry, and the C array declarations. */
module DumpGeometry {
  import opened Bytes
  import opened Encode

  /** dumpHex, dumpBinary, dumpCformat and dumpPlain, in that order. */
  datatype Mode = Hex | Binary | CFormat | Plain

  /** `dumpType <= dumpBinary`: the modes with an offset field and an ASCII column. */
  predicate HasOffset(mode: Mode)
  {
    mode == Hex || mode == Binary
  }

  /** The options the dump and the reverse read. The integers use -1 for
      "not given", as their flag defaults do; an empty `separator` is a
      `--separator` not given. */
  datatype Options = Options(
    offsetFormat: string,
    autoskip: bool,
    bars: bool,
    len: int,
    columns: int,
    groupSize: int,
    upper: bool,
    separator: seq<Byte>)

  const UDIGITS: seq<Byte> := Ascii("0123456789ABCDEF")
  const LDIGITS: seq<Byte> := Ascii("0123456789abcdef")

  const SPACE: seq<Byte> := Ascii(" ")
  const DOUBLE_SPACE: seq<Byte> := Ascii("  ")
  const DOT: seq<Byte> := Ascii(".")
  const NEW_LINE: seq<Byte> := Ascii("\n")
  const ZERO_HEADER: seq<Byte> := Ascii("0000000: ")
  const UNSIGNED_CHAR: seq<Byte> := Ascii("unsigned char ")
  const UNSIGNED_INT: seq<Byte> := Ascii("};\nunsigned int ")
  const LEN_EQUALS: seq<Byte> := Ascii("_len = ")
  const BRACKETS: seq<Byte> := Ascii("[] = {")
  const ASTERISK: seq<Byte> := Ascii("*")
  const COMMA_SPACE: seq<Byte> := Ascii(", ")
  const COMMA: seq<Byte> := Ascii(",")
  const SEMI_COLON_NL: seq<Byte> := Ascii(";\n")
  /** "┊" in UTF-8: the default delimiter of the ASCII column. */
  const BAR: seq<Byte> := [0xE2, 0x94, 0x8A]

  /** The `bar` global once `main` has read the options: the separator
      when one is given, the default delimiter otherwise. */
  function Bar(opts: Options): (r: seq<Byte>)
    ensures r != [] && (r == opts.separator || r == BAR)
  {
    if opts.separator != [] then opts.separator else BAR
  }

  /** Both digit tables read back digit by digit through reverseHexTable,
      and the lower-case one is the alphabet strconv writes offsets in. */
  lemma DigitTables()
    ensures IsHexTable(LDIGITS) && IsHexTable(UDIGITS)
    ensures forall k | 0 <= k < 16 :: LDIGITS[k] == DigitChar(k)
    ensures forall k | 10 <= k < 16 :: UDIGITS[k] == LDIGITS[k] - 32
  {
    assert forall k | 0 <= k < 16 :: ReverseHex(LDIGITS[k]) == k;
    assert forall k | 0 <= k < 16 :: ReverseHex(UDIGITS[k]) == k;
  }

  /** `caps`: the digit table `-u` selects. */
  function DigitTable(opts: Options): (t: seq<Byte>)
    ensures IsHexTable(t)
  {
    DigitTables();
    if opts.upper then UDIGITS else LDIGITS
  }

  /** The resolved line geometry: bytes per line, characters per unit,
      units per group, and the radix of the offset field. */
  datatype Geometry = Geometry(cols: int, octs: int, groupSize: int, radix: nat)

  /** The column count a mode uses when `-c` is not given. */
  function DefaultColumns(mode: Mode): nat
  {
    match mode
    case Plain => 30
    case CFormat => 12
    case Binary => 6
    case Hex => 16
  }

  /** Characters per unit before the plain-mode fallback. */
  function UnitWidth(mode: Mode): nat
  {
    match mode
    case Binary => 8
    case Plain => 0
    case CFormat => 4
    case Hex => 2
  }

  /** Units per group when `-g` is not given. */
  function DefaultGroup(mode: Mode): int
  {
    match mode
    case Binary => 1
    case Hex => 2
    case _ => 0
  }

  /** The radix of the offset field: `d` decimal, `o` octal, anything else hex. */
  function Radix(offsetFormat: string): (r: nat)
    ensures r in {8, 10, 16}
    ensures r == 10 <==> offsetFormat == "d"
    ensures r == 8 <==> offsetFormat == "o"
  {
    if offsetFormat == "d" then 10 else if offsetFormat == "o" then 8 else 16
  }

  /** The geometry prelude of HexxyDump. `cols` is the column option or the
      mode's default, lowered to `len` when a smaller length is given;
      `octs` is the mode's unit width, or `cols` in plain mode; the group
      option replaces the mode's group size. */
  function ResolveGeometry(mode: Mode, opts: Options): (g: Geometry)
    ensures var base := if opts.columns == -1 then DefaultColumns(mode) else opts.columns;
      && g.cols <= base
      && (opts.len != -1 ==> g.cols <= opts.len)
      && (g.cols == base || (opts.len != -1 && g.cols == opts.len))
    ensures mode == Plain ==> g.octs == g.cols
    ensures mode != Plain ==> g.octs == UnitWidth(mode) && g.octs >= 2
    ensures g.groupSize == if opts.groupSize != -1 then opts.groupSize else DefaultGroup(mode)
    ensures g.radix == Radix(opts.offsetFormat)
  {
    var cols0 := if opts.columns == -1 then DefaultColumns(mode) else opts.columns;
    var octs0 := UnitWidth(mode);
    var group := if opts.groupSize != -1 then opts.groupSize else DefaultGroup(mode);
    var cols := if opts.len != -1 && opts.len < cols0 then opts.len else cols0;
    var octs := if octs0 < 1 then cols else octs0;
    Geometry(cols, octs, group, Radix(opts.offsetFormat))
  }

  /** With no overrides: hex 16 bytes of 2 digits in pairs, binary 6 bytes
      of 8 digits one per group, C 12 bytes of `0xNN` ungrouped, plain 30
      bytes each taking a 30-byte unit. */
  lemma GeometryDefaults(mode: Mode, format: string, autoskip: bool, bars: bool, upper: bool)
    ensures var g := ResolveGeometry(mode, Options(format, autoskip, bars, -1, -1, -1, upper, []));
      match mode
      case Hex => g.cols == 16 && g.octs == 2 && g.groupSize == 2
      case Binary => g.cols == 6 && g.octs == 8 && g.groupSize == 1
      case CFormat => g.cols == 12 && g.octs == 4 && g.groupSize == 0
      case Plain => g.cols == 30 && g.octs == 30 && g.groupSize == 0
  {
  }

  // ---------------------------------------------------------------------
  // C array declarations

  /** The filename as a C identifier: every isSpecial character becomes
      `_`; everything else, `.` included, is kept. */
  function CName(filename: seq<Byte>): (r: seq<Byte>)
    ensures |r| == |filename|
    ensures forall i | 0 <= i < |r| :: !IsSpecial(r[i])
    ensures forall i | 0 <= i < |r| :: !IsSpecial(filename[i]) ==> r[i] == filename[i]
  {
    seq(|filename|, i requires 0 <= i < |filename| =>
      if IsSpecial(filename[i]) then '_' as int else filename[i])
  }

  /** `unsigned char NAME[] = {` */
  function CDeclChar(filename: seq<Byte>): seq<Byte>
  {
    UNSIGNED_CHAR + CName(filename) + BRACKETS
  }

  /** `};` newline `unsigned int NAME_len = ` */
  function CDeclInt(filename: seq<Byte>): seq<Byte>
  {
    UNSIGNED_INT + CName(filename) + LEN_EQUALS
  }

  /** Builds varDeclChar and varDeclInt in buffers sized 14+len+6 and
      16+len+7, as the C branch of the prelude does; the buffers come out
      exactly full. */
  method BuildCDecls(filename: seq<Byte>) returns (varDeclChar: array<Byte>, varDeclInt: array<Byte>)
    ensures fresh(varDeclChar) && fresh(varDeclInt)
    ensures varDeclChar[..] == CDeclChar(filename)
    ensures varDeclInt[..] == CDeclInt(filename)
  {
    var len := |filename|;
    varDeclChar := new Byte[14 + len + 6](_ => 0);
    varDeclInt := new Byte[16 + len + 7](_ => 0);
    CopyInto(varDeclChar, 0, UNSIGNED_CHAR);
    CopyInto(varDeclInt, 0, UNSIGNED_INT);
    CopyName(varDeclChar, varDeclInt, filename);
    CopyInto(varDeclChar, 14 + len, BRACKETS);
    CopyInto(varDeclInt, 16 + len, LEN_EQUALS);
    Assembled(varDeclChar[..], UNSIGNED_CHAR, CName(filename), BRACKETS);
    Assembled(varDeclInt[..], UNSIGNED_INT, CName(filename), LEN_EQUALS);
  }

  /** The loop of the C prelude: the filename goes into both buffers, after
      their 14- and 16-byte prefixes, with every isSpecial character
      replaced by `_`. */
  method CopyName(varDeclChar: array<Byte>, varDeclInt: array<Byte>, filename: seq<Byte>)
    requires varDeclChar != varDeclInt
    requires 14 + |filename| <= varDeclChar.Length && 16 + |filename| <= varDeclInt.Length
    modifies varDeclChar, varDeclInt
    ensures forall k | 0 <= k < |filename| :: varDeclChar[14 + k] == CName(filename)[k]
    ensures forall k | 0 <= k < |filename| :: varDeclInt[16 + k] == CName(filename)[k]
    ensures forall k | 0 <= k < varDeclChar.Length && !(14 <= k < 14 + |filename|) :: varDeclChar[k] == old(varDeclChar[k])
    ensures forall k | 0 <= k < varDeclInt.Length && !(16 <= k < 16 + |filename|) :: varDeclInt[k] == old(varDeclInt[k])
  {
    ghost var name := CName(filename);
    var i := 0;
    while i < |filename|
      invariant 0 <= i <= |filename|
      invariant forall k | 0 <= k < i :: varDeclChar[14 + k] == name[k] && varDeclInt[16 + k] == name[k]
      invariant forall k | 0 <= k < varDeclChar.Length && !(14 <= k < 14 + i) :: varDeclChar[k] == old(varDeclChar[k])
      invariant forall k | 0 <= k < varDeclInt.Length && !(16 <= k < 16 + i) :: varDeclInt[k] == old(varDeclInt[k])
    {
      if !IsSpecial(filename[i]) {
        varDeclChar[14 + i] := filename[i];
        varDeclInt[16 + i] := filename[i];
      } else {
        varDeclChar[14 + i] := '_' as int;
        varDeclInt[16 + i] := '_' as int;
      }
      i := i + 1;
    }
  }

  /** A buffer holding a prefix, a name and a suffix, each at its place,
      is their concatenation. */
  lemma Assembled(s: seq<Byte>, prefix: seq<Byte>, name: seq<Byte>, suffix: seq<Byte>)
    requires |s| == |prefix| + |name| + |suffix|
    requires forall k | 0 <= k < |prefix| :: s[k] == prefix[k]
    requires forall k | 0 <= k < |name| :: s[|prefix| + k] == name[k]
    requires forall k | 0 <= k < |suffix| :: s[|prefix| + |name| + k] == suffix[k]
    ensures s == prefix + name + suffix
  {
    var whole := prefix + name + suffix;
    forall k | 0 <= k < |s|
      ensures s[k] == whole[k]
    {
      if k >= |prefix| + |name| {
        var j := k - |prefix| - |name|;
        assert s[|prefix| + |name| + j] == suffix[j];
      } else if k >= |prefix| {
        var j := k - |prefix|;
        assert s[|prefix| + j] == name[j];
      }
    }
  }

  /** `copy(dst[at:], src)` where `src` fits. */
  method CopyInto(dst: array<Byte>, at: nat, src: seq<Byte>)
    requires at + |src| <= dst.Length
    modifies dst
    ensures forall k | 0 <= k < |src| :: dst[at + k] == src[k]
    ensures forall k | 0 <= k < dst.Length && !(at <= k < at + |src|) :: dst[k] == old(dst[k])
  {
    var i := 0;
    while i < |src|
      invariant 0 <= i <= |src|
      invariant forall k | 0 <= k < i :: dst[at + k] == src[k]
      invariant forall k | 0 <= k < dst.Length && !(at <= k < at + i) :: dst[k] == old(dst[k])
    {
      dst[at + i] := src[i];
      i := i + 1;
    }
  }

  /** The identifier keeps `.`: `hi.bin` is declared as `hi.bin`, and
      `a/b` as `a_b`. */
  lemma CNameExamples()
    ensures CName(Ascii("hi.bin")) == Ascii("hi.bin")
    ensures CName(Ascii("a/b")) == Ascii("a_b")
  {
  }

  /** Replacing the special characters is idempotent. */
  lemma CNameIdempotent(filename: seq<Byte>)
    ensures CName(CName(filename)) == CName(filename)
  {
  }
}
