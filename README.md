# hexxy, modelled in Dafny

hexxy is a hex-dump tool written in Go. It is an xxd look-alike. This project models its two directions and proves properties about them.

The forward dump, `HexxyDump` (cmd/hexxy/hexxy.go), reads its input in lines of `cols` bytes. It writes each line in one of four modes:

- hex: an offset field, grouped two-digit units and an ASCII column;
- binary: the same layout with eight-digit units;
- C: an `unsigned char NAME[] = {` array and a `NAME_len` footer;
- plain: the digits only.

The reverse direction, `HexxyReverse` (reverse.go), reads lines of text back into bytes. It decodes through a one-byte buffer, with `hexDecode` and `binaryDecode`. The byte codec primitives of src/encode.go are modelled, and so is the earlier byte-at-a-time formatter in hexxy.go (`Hexdump`, `HexdumpPlain`, the offset format, the separator, the colour wrapper and the ASCII row).

Each Go routine that works step by step is a Dafny `method` over arrays and local counters. The encoders write into a caller's `dst` array. Each dump and reverse loop carries its invariants. Each method is proved equal to a specification function:

- `DumpSpec.Iterate` and `DumpSpec.Run` for the dump;
- `ReverseSpec.ReverseIterate` and `ReverseSpec.Reverse` for the reverse;
- `ByteDump.Step` and `ByteDump.Hexdump` for the earlier formatter.

The properties are proved about those functions:

- what a whole dump writes, mode by mode, against direct line-by-line definitions;
- what reverse reads back from a dump;
- the codec round trips;
- the autoskip and length-limit behaviour.

Writers are the output sequence the loop appends to. A reader is the input `data` and a flag `readFails`. The flag says whether the reader reports an error instead of EOF once the input is used up. A Go runtime panic is an explicit `Panicked` ending, and so is a slice out of range or an index past the one-byte buffer. The dump loop of the source can also spin for ever. The model stops at the first pass that would repeat itself, with the ending `Diverges`.

The modules are:

- `Bytes`: bytes, strings and strconv-style digits;
- `Encode`: src/encode.go;
- `DumpGeometry`: the prelude of `HexxyDump`, and the `--separator` that `main` puts in place of the default bar `┊`;
- `DumpFormat`: the pieces of one dumped line;
- `DumpSpec` and `DumpLoop`: the dump as a function and as a method;
- `DumpProperties`: whole-dump properties;
- `ReverseSpec` and `ReverseLoop`: the reverse as a function and as a method;
- `ReverseProperties`: what reverse reads back;
- `ByteDump`: hexxy.go.

## Where the code and its documented intent differ

The model follows the code in every case below.

- **Round trips.** The flag texts differ mode by mode. The `-r` text says reverse turns a hex dump back into bytes (cmd/hexxy/hexxy.go:21). The `-p` text pairs plain output with `-r`, and the usage shows `hexxy -rp` (lines 29 and 505). The `-b` text calls binary output incompatible with reverse (line 20). No text pairs `-r` with `-i`. The code does this:
  - Plain, the documented pairing: dumps with three or more columns read back as their input (`PlainReverseRoundTrip`). Plain reverse decodes a pair at every position, so the windows overlap. With two columns the extra bytes made of two neighbouring digits appear (`PlainOverlap`, `PlainExample`).
  - Hex, the default dump `-r` names: reverse steps five characters at a time and reads two. With the default pairs it reads only the first byte of each group (`HexLineHeads`).
  - Binary, which the flag calls incompatible: dumps of at most seven bytes per line do read back as their input, provided the bar holds no binary digit and no newline (`BinaryReverseRoundTrip`). A `--separator` of binary digits reads back as extra bytes (`DigitBarReadsAsBytes`).
  - C: reverse writes the byte held over from the previous window, so it runs one byte late (`CLineLate`).
- **Plain output.** Plain mode writes each byte as two digits followed by `cols - 2` zero bytes. The unit buffer is `cols` long and `hexEncode` fills only its first two bytes. Only `-c 2` gives a clean `4142\n`.
- **C reverse.** C reverse has no per-error stride of one or two. `hexDecode` never returns a negative count, so those branches are dead. A count of 0 writes the buffer and moves four bytes on, and a count of 1 moves two.
- **`*` lines.** No `*` line is expanded back into zero lines.
- **C identifiers.** The C identifier keeps `.`, because `isSpecial` does not list it. `hi.bin` stays `hi.bin` (`CNameExamples`).
- **Length limit.** The `-l` limit does not stop after that many bytes. The first counted line raises `totalOcts` by the whole limit. With a limit of 1 or more, a hex, binary or C dump therefore prints only its first line. C mode then also loses its footer (`LenOneLine`, `CLenDropsFooter`). With `-l 0`, `cols` is lowered to 0 and the first read takes nothing. Hex, binary and C mode then write nothing, and plain mode a lone newline (`LenZero`).
- **Autoskip.** Autoskip also acts in C mode. It tests the whole line buffer, so stale bytes left after a short read count too. In C mode with autoskip and no `-l`, the loop repeats for ever after a non-empty input whose last buffer is all zero, stale bytes included (`SpinRepeats`, `DivergesOnlyInC`). An empty input ends, as its first empty read prints the footer (`EmptyArray`). Any `-l` ends the loop by its second pass.
- **Offset field.** The offset field is the line number, not the byte offset. It is padded to six digits and followed by a literal `0: `.

## Model

| member | source | states |
|---|---|---|
| Bytes.Digits | cmd/hexxy/hexxy.go:247-266 | strconv.AppendInt writes at least one character, each a digit of the radix |
| Bytes.DigitsRoundTrip | cmd/hexxy/hexxy.go:247-266 | reading the written digits back gives the line number again |
| Bytes.DigitsFit | cmd/hexxy/hexxy.go:247-266 | the digits fit in `k` characters exactly when the number is below radix^k, which decides whether the six-wide offset slice is in range |
| Bytes.LeadingZerosValue | cmd/hexxy/hexxy.go:254-262 | the zero padding in front of the offset digits does not change the number they stand for |
| Encode.ReverseHex | src/encode.go:8-26 | the table value is a nibble exactly for the bytes fromHexChar accepts, equals fromHexChar's value there, and is 0xff everywhere else |
| Encode.ReverseHexTable | src/encode.go:8-26 | the 16×16 reverseHexTable holds, at row c/16 and column c%16, the value of c as a hex digit |
| Encode.FromHexChar | src/encode.go:122-134 | a valid digit yields a nibble; an invalid one yields 0 and false |
| Encode.HexEncode | src/encode.go:82-87 | dst[0..2] become the high and low digits of the byte from the given table, and nothing after them changes |
| Encode.CfmtEncode | src/encode.go:74-80 | dst[0..4] become `0x` and the two digits, and nothing after them changes |
| Encode.BinaryEncode | src/encode.go:37-48 | dst[0..8] become the eight bits, most significant first, and nothing after them changes |
| Encode.BinaryUnitBits | src/encode.go:37-48 | character 7-d of the unit is `1` exactly when bit d of the byte is set, and is always a binary digit |
| Encode.BinaryDecode | src/encode.go:50-72 | returns the status code; writes dst[0] (and nothing else) only when it returns -1 |
| Encode.BinaryStatusSpec | src/encode.go:50-72 | at the first non-digit the code is 1 for a separator at index 0, else that index |
| Encode.BinaryStatusAllDigits | src/encode.go:50-72 | -1 is returned exactly when every character is `0` or `1` |
| Encode.BinaryUnitPrefix | src/encode.go:50-72 | decoding the first k digits of a byte's unit gives the byte's top k bits |
| Encode.BinaryUnitRoundTrip | src/encode.go:37-72 | binaryDecode of what binaryEncode wrote returns -1 and restores the byte |
| Encode.DecodePairs | src/encode.go:89-120 | hexDecode never produces more bytes than half its input |
| Encode.HexDecode | src/encode.go:89-120 | returns the count and error of the reference decoding, writes exactly the decoded bytes into dst[0..count] and leaves the rest of dst unchanged |
| Encode.DecodePairsByte | src/encode.go:89-120 | each decoded byte k comes from two valid digits at 2k and 2k+1 of the input |
| Encode.DecodePairsError | src/encode.go:89-120 | the error is nil when the whole input is decoded; ErrLength only for a final lone valid digit; otherwise InvalidByteError of the first bad character of the first undecoded pair |
| Encode.HexString | src/encode.go:82-87 | hex-encoding a whole buffer writes two characters per byte, byte i's digits at 2i |
| Encode.HexUnitRoundTrip | src/encode.go:82-120 | hexDecode of a byte's two digits gives the byte back and nil |
| Encode.HexStringRoundTrip | src/encode.go:82-120 | hexDecode of a whole hex string gives every byte back and nil |
| Encode.IsEmpty | src/encode.go:136-144 | true exactly when every byte of the buffer is 0 |
| Encode.IsSpecial | src/encode.go:146-154 | true exactly for the eighteen listed characters |
| Encode.IsSpace | src/encode.go:218-226 | true exactly for tab, form feed and space; never a newline or binary digit |
| Encode.IsPrefix | src/encode.go:228-231 | true exactly when the first two bytes are `0x` or `0X` |
| DumpGeometry.DigitTables | cmd/hexxy/hexxy.go:50-53 | both digit tables read back digit by digit, the lower-case one is strconv's alphabet, and the upper-case letters are the lower-case ones shifted by 32 |
| DumpGeometry.DigitTable | cmd/hexxy/hexxy.go:122-124 | `-u` selects a table that reads back digit by digit |
| DumpGeometry.Radix | cmd/hexxy/hexxy.go:168-177 | `d` gives 10, `o` gives 8, anything else 16 |
| DumpGeometry.ResolveGeometry | cmd/hexxy/hexxy.go:126-166 | cols is `-c` or the mode default, lowered to `-l` when smaller; octs is the mode's unit width, or cols in plain mode; the group size is `-g` or the mode default; the radix follows the offset format |
| DumpGeometry.Bar | cmd/hexxy/hexxy.go:644-646 | the bar is the `--separator` when one is given and the default `┊` otherwise, so it is never empty |
| DumpGeometry.GeometryDefaults | cmd/hexxy/hexxy.go:126-156 | with no overrides the geometries are hex 16/2/2, binary 6/8/1, C 12/4 and plain 30/30 |
| DumpGeometry.CName | cmd/hexxy/hexxy.go:104-120 | the identifier has the filename's length, contains no special character, and keeps every other character |
| DumpGeometry.BuildCDecls | cmd/hexxy/hexxy.go:104-120 | the two freshly allocated declaration buffers come out exactly full, holding `unsigned char NAME[] = {` and `};\nunsigned int NAME_len = ` |
| DumpGeometry.CopyName | cmd/hexxy/hexxy.go:109-117 | the sanitised name lands at offset 14 and offset 16 of the two buffers, and every other byte is unchanged |
| DumpGeometry.CopyInto | cmd/hexxy/hexxy.go:104-120 | Go's copy writes the source at the offset and leaves the rest of the buffer unchanged |
| DumpGeometry.CNameExamples | cmd/hexxy/hexxy.go:104-120 | `hi.bin` keeps its dot; `a/b` becomes `a_b` |
| DumpGeometry.CNameIdempotent | cmd/hexxy/hexxy.go:104-120 | sanitising a sanitised name changes nothing |
| DumpFormat.OffsetField | cmd/hexxy/hexxy.go:247-266 | the field exists exactly when the line number fits six digits; it is nine bytes ending in `0: `, its first six are digits of the radix and read back as the line number |
| DumpFormat.OffsetFieldValue | cmd/hexxy/hexxy.go:247-266 | any field the dump writes has that shape and reads back as its line number |
| DumpFormat.UnitText | cmd/hexxy/hexxy.go:273-339 | a unit is two characters in hex mode and eight in binary mode |
| DumpFormat.WriteUnits | cmd/hexxy/hexxy.go:273-339 | the counter-driven unit loop writes each unit followed by a space exactly after every complete group |
| DumpFormat.GapCounter | cmd/hexxy/hexxy.go:273-339 | the counter reaches octs*groupSize exactly where a group ends, and is reset there |
| DumpFormat.UnitsLength | cmd/hexxy/hexxy.go:273-339 | a line's units take 2 (hex) or 8 (binary) characters per byte plus one per complete group |
| DumpFormat.WritePadding | cmd/hexxy/hexxy.go:348-356 | the padding loop writes the filler for positions n*octs up to cols*octs |
| DumpFormat.PaddingLength | cmd/hexxy/hexxy.go:348-356 | each missing unit is padded with octs+1 characters |
| DumpFormat.AlignedWithSingleGroups | cmd/hexxy/hexxy.go:318-356 | with one unit per group a short hex line's units and padding are as wide as a full line's |
| DumpFormat.AlignedBinary | cmd/hexxy/hexxy.go:273-356 | binary mode's short lines line up with its full lines |
| DumpFormat.MisalignedWithPairs | cmd/hexxy/hexxy.go:318-356 | with the default pairs a short line of n bytes is 48-ceil(n/2) wide against 40, so only a 15-byte line lines up |
| DumpFormat.AsciiChar | cmd/hexxy/hexxy.go:362-410 | the column shows a printable character, and any byte 0x20..0x7e as itself |
| DumpFormat.WriteAscii | cmd/hexxy/hexxy.go:362-410 | the loop writes the ASCII column of the bytes read |
| DumpFormat.AsciiColumnPrintable | cmd/hexxy/hexxy.go:362-410 | one printable character per byte, and printable text passes unchanged |
| DumpFormat.WriteCUnits | cmd/hexxy/hexxy.go:302-317 | the C loop writes `0xNN` units separated by `, `, with a trailing `,` only on a full line |
| DumpFormat.CUnitsLength | cmd/hexxy/hexxy.go:302-317 | a C line of n units is 6n-2 characters, plus one on a full line |
| DumpFormat.PlainUnit | cmd/hexxy/hexxy.go:202-209 | a plain unit is cols bytes: the two digits, then zeros |
| DumpFormat.WritePlainUnits | cmd/hexxy/hexxy.go:202-209 | the plain loop writes every byte's whole unit buffer, whose tail stays zero |
| DumpFormat.PlainUnitsHex | cmd/hexxy/hexxy.go:202-209 | with two columns the plain units are the input in hex and decode back to it |
| DumpFormat.PlainUnitsConcat | cmd/hexxy/hexxy.go:202-209 | plain units of a concatenation are the units of each part |
| DumpFormat.PlainUnitsLength | cmd/hexxy/hexxy.go:202-209 | every byte takes cols bytes of output |
| DumpSpec.MakeConfig | cmd/hexxy/hexxy.go:104-183 | the prelude keeps mode and options, resolves the geometry and digit table, and fills the C declarations only in C mode |
| DumpSpec.Start | cmd/hexxy/hexxy.go:180-186 | the loop starts with a zeroed line buffer of cols bytes, nothing read and nothing written |
| DumpSpec.ReadCount | cmd/hexxy/hexxy.go:195-198 | io.ReadFull reads at most cols bytes, and fewer only at the end of the input |
| DumpSpec.PrintLine | cmd/hexxy/hexxy.go:247-413 | printing keeps the position and buffer, advances the line number by one in hex and binary mode, and ends the dump only on an empty C read or an offset that no longer fits |
| DumpSpec.Counted | cmd/hexxy/hexxy.go:224-243 | a pass that goes on has passed the length check, moved past the bytes read, raised totalOcts by the whole limit and never lowered nulLine |
| DumpSpec.Iterate | cmd/hexxy/hexxy.go:195-413 | a pass that goes on leaves a valid state no earlier in the input, and one that goes on without reading anything is in C mode, where an empty read does not end the loop |
| DumpLoop.ReadFull | cmd/hexxy/hexxy.go:195-198 | reads min(cols, remaining) bytes into the buffer and leaves the stale bytes after them |
| DumpLoop.WriteTrailer | cmd/hexxy/hexxy.go:348-413 | writes the padding, the space, the ASCII column between optional bars (the `--separator` when given) and the newline |
| DumpLoop.PrintHexPass | cmd/hexxy/hexxy.go:247-413 | the printing half of a hex or binary pass is the specification's PrintLine |
| DumpLoop.PrintCPass | cmd/hexxy/hexxy.go:267-346 | the printing half of a C pass (header, footer or units) is PrintLine |
| DumpLoop.DumpPass | cmd/hexxy/hexxy.go:195-413 | one pass of the loop on arrays equals Iterate, and leaves the buffer as Iterate's state says |
| DumpLoop.CountedPass | cmd/hexxy/hexxy.go:224-413 | the part after the read equals Counted |
| DumpLoop.CountedPrints | cmd/hexxy/hexxy.go:224-243 | past the length and autoskip checks, the pass prints its line from the updated state |
| DumpLoop.HexxyDump | cmd/hexxy/hexxy.go:87-417 | the whole method writes exactly Dump's output and ends the same way |
| DumpProperties.LineAfterRead | cmd/hexxy/hexxy.go:195-198 | the buffer after a read starts with the bytes read and keeps its length |
| DumpProperties.Printed | cmd/hexxy/hexxy.go:224-229 | the counted state has moved past the bytes read and changed none of the other counters |
| DumpProperties.PassPrints | cmd/hexxy/hexxy.go:195-243 | a pass that no exit ends and autoskip does not swallow prints its line |
| DumpProperties.HexDumpLines | cmd/hexxy/hexxy.go:87-417 | without autoskip or limit, a hex or binary dump is one line per cols-byte chunk numbered from 0, and stale buffer bytes never show |
| DumpProperties.RunHex | cmd/hexxy/hexxy.go:194-413 | from any state, the rest of a hex or binary dump is the listing of the rest of the input, numbered from the current line |
| DumpProperties.HexPass | cmd/hexxy/hexxy.go:195-413 | a printing pass moves one chunk on, counts one line and appends the offset field and the line body |
| DumpProperties.CDumpArray | cmd/hexxy/hexxy.go:87-417 | without autoskip or limit, a C dump is the header, one line per chunk, and a footer counting every input byte |
| DumpProperties.CArrayFromStart | cmd/hexxy/hexxy.go:194-346 | the same C array written from the first pass, for any configuration |
| DumpProperties.RunC | cmd/hexxy/hexxy.go:194-346 | from any state, the rest of a C dump is the remaining lines and a footer counting all bytes |
| DumpProperties.CHeader | cmd/hexxy/hexxy.go:267-271 | the header is the declaration and a newline while it is still due, otherwise nothing |
| DumpProperties.RunCLast | cmd/hexxy/hexxy.go:341-346 | at the end of the input a C dump writes the header if still due and then the footer |
| DumpProperties.CPass | cmd/hexxy/hexxy.go:267-317 | a C pass that reads something writes the due header and one indented line, and counts the bytes |
| DumpProperties.PlainDump | cmd/hexxy/hexxy.go:202-222 | a plain dump is every byte's unit and one newline, whatever `-a` and `-l` say |
| DumpProperties.RunPlain | cmd/hexxy/hexxy.go:202-222 | from any state the rest of a plain dump is the remaining units and a newline |
| DumpProperties.PlainPass | cmd/hexxy/hexxy.go:202-209 | a plain pass appends the units of the bytes it read |
| DumpProperties.PlainDumpRoundTrip | cmd/hexxy/hexxy.go:202-222 | with `-c 2` the plain dump is the input in hex and a newline, and decoding the digits gives the input back |
| DumpProperties.LenOneLine | cmd/hexxy/hexxy.go:224-229 | with a length limit a hex or binary dump prints only the first chunk, however large the limit |
| DumpProperties.LenFirstLine | cmd/hexxy/hexxy.go:224-229 | the first limited pass prints the first chunk and sets totalOcts to the limit |
| DumpProperties.LenStops | cmd/hexxy/hexxy.go:224-229 | once totalOcts equals the limit, the dump ends with nothing more written |
| DumpProperties.LenZero | cmd/hexxy/hexxy.go:158-162 | with `-l 0` the line has no bytes: whatever the input and the reader, hex, binary and C mode write nothing and plain mode a lone newline |
| DumpProperties.CLenDropsFooter | cmd/hexxy/hexxy.go:224-229 | a limited C dump writes the header and one line and never its footer |
| DumpProperties.CLenFirstLine | cmd/hexxy/hexxy.go:224-317 | the first limited C pass writes the header and the first line and sets totalOcts to the limit |
| DumpProperties.EmptyInput | cmd/hexxy/hexxy.go:211-222 | an empty input dumps to nothing in hex and binary mode, a newline in plain mode, and an empty array of length 0 in C mode unless `-l 0` |
| DumpProperties.EmptyArray | cmd/hexxy/hexxy.go:211-222 | the C run over an empty input is the header and a zero-length footer, autoskip or not |
| DumpProperties.OffsetCountsLines | cmd/hexxy/hexxy.go:231-266 | every hex or binary pass that goes on reads something and advances the line number by one, printed or skipped |
| DumpProperties.NulLineNeverReset | cmd/hexxy/hexxy.go:231-243 | no pass lowers the zero-line counter |
| DumpProperties.ZeroLine | cmd/hexxy/hexxy.go:231-243 | the first all-zero buffer is printed, the second becomes `*`, later ones vanish, and the line number advances every time |
| DumpProperties.SpinRepeats | cmd/hexxy/hexxy.go:211-243 | a pass that reads nothing and goes on is C autoskip on a zero buffer, and the next pass repeats it writing nothing |
| DumpProperties.DivergesOnlyInC | cmd/hexxy/hexxy.go:211-243 | only C mode with autoskip and no limit can loop for ever |
| ReverseSpec.ReverseCols | reverse.go:17-34 | the limit is `-c` or 0, lowered to `-l` when smaller |
| ReverseSpec.ReverseOcts | reverse.go:21-38 | the window is 8 for binary, 4 for C and 2 otherwise, the unit width of the dump |
| ReverseSpec.LineEnd | reverse.go:45-46 | a line ends just past its first newline, or at the end of the input |
| ReverseSpec.ReadBytes | reverse.go:45-53 | ReadBytes returns the next line (no inner newline), empty only at the end, and fails only on a line without a newline from a failing reader |
| ReverseSpec.PairValue | reverse.go:55-69 | a pair of digits stands for high*16+low |
| ReverseSpec.PairDecode | reverse.go:55-69 | hexDecode on a pair decodes exactly that pair's value, or nothing |
| ReverseSpec.HexScan | reverse.go:55-69 | hex mode never counts and never panics once the line is long enough |
| ReverseSpec.BinaryScan | reverse.go:88-100 | binary mode counts exactly the bytes it writes and never panics |
| ReverseSpec.PlainScan | reverse.go:101-108 | plain mode counts exactly the bytes it writes and never panics |
| ReverseSpec.CScan | reverse.go:109-123 | C mode counts exactly the bytes it writes |
| ReverseSpec.ScanLine | reverse.go:55-123 | only C mode and too-short hex lines panic; hex mode counts nothing, the others count what they write |
| ReverseSpec.ReverseIterate | reverse.go:43-129 | a pass that goes on consumes input and only appends; a read error writes nothing; a pass ends only with Ok, ReadError or Panicked |
| ReverseSpec.ReverseRun | reverse.go:43-129 | the loop only appends, and reports a read error only from a failing reader |
| ReverseSpec.Reverse | reverse.go:10-130 | the whole reverse ends with Ok, ReadError or Panicked, and ReadError only from a failing reader |
| ReverseLoop.HexReverseLine | reverse.go:55-69 | the hex window loop over the one-byte buffer writes HexScan's bytes and leaves its buffer |
| ReverseLoop.BinaryReverseLine | reverse.go:88-100 | the binary loop writes and counts BinaryScan's bytes and leaves its buffer |
| ReverseLoop.PlainReverseLine | reverse.go:101-108 | the plain loop writes and counts PlainScan's bytes and leaves its buffer |
| ReverseLoop.CReverseLine | reverse.go:109-123 | the C loop writes, counts and panics as CScan says |
| ReverseLoop.ReverseLine | reverse.go:55-123 | the mode switch scans the line as ScanLine says |
| ReverseLoop.ReversePass | reverse.go:45-128 | one pass of the loop equals ReverseIterate and leaves the buffer it continues with |
| ReverseLoop.HexxyReverse | reverse.go:10-130 | the whole method writes exactly Reverse's output and ends the same way |
| ReverseProperties.ScanLineLast | reverse.go:55-108 | in hex, binary and plain mode the buffer carried to the next line is the last byte written, or unchanged when none was |
| ReverseProperties.PlainScanDigits | reverse.go:101-108 | on m hex digits plain mode writes m-1 bytes, the pair at each position |
| ReverseProperties.PlainOverlap | reverse.go:101-108 | reversing a hex string in plain mode gives every input byte at even positions, with the low digit of one and the high digit of the next between them |
| ReverseProperties.PlainExample | reverse.go:101-108 | `4142` reads back as 0x41, 0x14, 0x42 |
| ReverseProperties.PlainUnitsScan | reverse.go:101-108 | plain units of three or more columns read back as exactly their bytes, then the scan goes on with what follows |
| ReverseProperties.PlainReverseRoundTrip | reverse.go:101-108 | a plain dump of three or more columns reads back as exactly the input, whatever the reverse's limit |
| ReverseProperties.BinaryUnitsScan | reverse.go:88-100 | the units of a binary line read back as their bytes, whatever the grouping |
| ReverseProperties.DefaultBarReadsBack | cmd/hexxy/hexxy.go:70 | the default bar `┊` holds no newline and no binary digit |
| ReverseProperties.DigitBarReadsAsBytes | reverse.go:88-100 | with `-B --separator 01000001`, the trailer of a one-byte line `A` reads back as two bytes `A`, one per bar |
| ReverseProperties.BinaryLineReadBack | reverse.go:88-100 | a binary dump line of at most seven bytes, whose bar holds no binary digit, reads back as exactly its bytes, counted, with no panic |
| ReverseProperties.BinaryReverseRoundTrip | reverse.go:88-100 | a binary dump of at most seven bytes per line, whose bar holds no binary digit or newline, reads back as exactly the input, with no limit |
| ReverseProperties.ReverseEmpty | reverse.go:45-53 | an empty input writes nothing and ends with Ok, or the read error from a failing reader |
| ReverseProperties.OneLineReverse | reverse.go:43-129 | a one-line input is scanned once and the run ends there without error |
| ReverseProperties.ReverseRunShift | reverse.go:43-129 | the loop over p+q past p is the loop over q |
| ReverseProperties.HexLineHeads | reverse.go:55-69 | a full default hex line without bars reads back as the first byte of each of its eight groups, and the buffer keeps byte 14 |
| ReverseProperties.CLineLate | reverse.go:109-123 | a C line reads back as the held-over byte and all its bytes but the last, which stays in the buffer on a full line and is lost on a short one |
| ReverseProperties.HexIgnoresCols | reverse.go:126-128 | in hex mode `-c` and `-l` change nothing, as nothing is counted |
| ByteDump.GetOffsetFormat | hexxy.go:221-262 | succeeds exactly for `d`, `o`, `x`, with radix 10, 8, 16; grey wrapping unless colour is off; the separator given or the colour default, wrapped |
| ByteDump.OffsetDigitsReadBack | hexxy.go:84-86 | `%08` digits are at least eight, read back as the offset, and exactly eight while it fits |
| ByteDump.PrintOffsetReadsBack | hexxy.go:84-86 | the offset field is the wrapping around digits that read back as the offset and two spaces |
| ByteDump.Colorize | hexxy.go:57-60 | the text stands between the palette entry and the reset |
| ByteDump.UncolouredColorize | hexxy.go:57-60 | with an empty palette the reset still follows every piece of text |
| ByteDump.Shown | hexxy.go:71-82 | bytes 33..126 show as themselves, every other one, space included, as a dot |
| ByteDump.AsciiRow | hexxy.go:71-82 | the loop writes each byte shown and coloured by its value |
| ByteDump.UncolouredAscii | hexxy.go:71-82 | without colour byte k shows at position 5k, followed by the reset |
| ByteDump.CellDigits | hexxy.go:126 | a cell holds the byte's two lower-case digits; without colour it is the digits, the reset and a space |
| ByteDump.CellsWidth | hexxy.go:125-131 | without colour each cell is seven bytes and every fourth adds a space |
| ByteDump.Step | hexxy.go:115-146 | each byte moves the counter by one and keeps a 16-byte buffer |
| ByteDump.Finish | hexxy.go:149-162 | something follows the loop exactly when the last line is short |
| ByteDump.WriteByte | hexxy.go:115-146 | the loop body on the array is Step |
| ByteDump.WriteTail | hexxy.go:149-162 | the code after the loop is Finish |
| ByteDump.Hexdump | hexxy.go:97-165 | a failing read ends with the error, otherwise Ok |
| ByteDump.HexdumpBytes | hexxy.go:97-165 | the ReadByte loop writes exactly Hexdump's output |
| ByteDump.HexdumpByLines | hexxy.go:88-165 | the dump is line by line: the byte offset opens each line, a full line's ASCII row leaves out its sixteenth byte, a short last line is padded and followed by the byte count |
| ByteDump.TailAligns | hexxy.go:149-153 | the padding puts a short line's separator in the same screen column as a full line's |
| ByteDump.HexdumpPlain | hexxy.go:167-195 | a failing read writes nothing; otherwise two hex digits per byte and a newline, and the digits decode back to the input |

## Left out

- Colour palette computation (`Color.Compute`, color.go) and the `USE_COLOR` paths of `HexxyDump`: terminal decoration only. Colorize is modelled with any 256-entry palette.
- `parseSpecifier` in src/encode.go: not called by the modelled core.
- Flag parsing, file opening, `bufio` buffering and flushing, and the wrapping of errors into messages: I/O glue. Inputs are a byte sequence and a `readFails` flag; outputs are the written sequence and an `Ending`.
- A reader that fails in the middle of its input is not modelled: `readFails` makes it fail only once the input is used up.
- `DumpSpec.Run`: a loop that never ends is stopped at the first pass that would repeat, with `Diverges`, instead of running for ever.
- Go's int64 counters (`c`, `totalOcts`, `lineOffset`) and Hexdump's uint64 `i` are unbounded integers; overflow is not modelled.
- The dead branches are not modelled as reachable. These are `octs < 1` in HexxyReverse, and the `rv == -1` and `rv == -2` arms of C reverse, because hexDecode never returns a negative count.
- ByteDump.HexdumpBytes: the palette is assumed to hold no `%`, since Colorize's result is used as a Printf format; a `%` in a palette entry is not modelled.
- ReverseProperties.HexLineHeads: proved only for full 16-byte lines with groups of two and no bars. With bars the windows of the last group read characters of the ASCII column; that is not proved.
- ReverseProperties.BinaryReverseRoundTrip: proved only for lines of at most seven bytes, no autoskip, length limit or column limit, and a bar with no binary digit or newline. Longer lines put eight ASCII characters within reach of a window, and a `*` line is not read back. A `--separator` of binary digits adds bytes (`DigitBarReadsAsBytes`); one holding a newline splits the line.
- ReverseProperties.PlainReverseRoundTrip: proved only for three columns or more; with two columns the windows overlap (`PlainOverlap`).
