/** The byte codec primitives of src/encode.go: single-byte hex, C `0xNN`
    and 8-bit binary encoders, their table-driven decoders, and the
    character-class predicates used around them. The encoders and decoders
    fill a caller-supplied `dst` buffer in place, as in the source; each is
    proved against a specification function, and the round trips are
    lemmas about those functions. */
module Encode {
  import opened Bytes

  /** The `error` values hexDecode returns: nil, InvalidByteError(c) and
      ErrLength ("odd length hex string"). */
  datatype HexError = Nil | InvalidByteError(b: Byte) | ErrLength

  // reverseHexTable, written as its sixteen rows of sixteen entries.
  const NO_HEX_ROW: seq<Byte> :=
    [0xff, 0xff, 0xff, 0xff, 0xff, 0xff, 0xff, 0xff, 0xff, 0xff, 0xff, 0xff, 0xff, 0xff, 0xff, 0xff]
  const DIGIT_ROW: seq<Byte> :=
    [0x00, 0x01, 0x02, 0x03, 0x04, 0x05, 0x06, 0x07, 0x08, 0x09, 0xff, 0xff, 0xff, 0xff, 0xff, 0xff]
  const LETTER_ROW: seq<Byte> :=
    [0xff, 0x0a, 0x0b, 0x0c, 0x0d, 0x0e, 0x0f, 0xff, 0xff, 0xff, 0xff, 0xff, 0xff, 0xff, 0xff, 0xff]
  const REVERSE_HEX_TABLE: seq<seq<Byte>> := [
    NO_HEX_ROW, NO_HEX_ROW, NO_HEX_ROW, DIGIT_ROW,
    LETTER_ROW, NO_HEX_ROW, LETTER_ROW, NO_HEX_ROW,
    NO_HEX_ROW, NO_HEX_ROW, NO_HEX_ROW, NO_HEX_ROW,
    NO_HEX_ROW, NO_HEX_ROW, NO_HEX_ROW, NO_HEX_ROW]

  /** `reverseHexTable[c]`: the nibble a hex digit stands for, 0xff for
      every other byte. ReverseHexTable shows that the table holds exactly
      these entries. */
  function ReverseHex(c: Byte): (v: Byte)
    ensures v <= 0x0f <==> FromHexChar(c).1
    ensures FromHexChar(c).1 ==> v == FromHexChar(c).0
    ensures v > 0x0f ==> v == 0xff
  {
    if FromHexChar(c).1 then FromHexChar(c).0 else 0xff
  }

  /** Row `hi` of the table holds ReverseHex of the bytes `16 * hi` to
      `16 * hi + 15`. */
  lemma ReverseHexRow(hi: nat)
    requires hi < 16
    ensures forall lo | 0 <= lo < 16 :: REVERSE_HEX_TABLE[hi][lo] == ReverseHex(16 * hi + lo)
  {
    if hi == 3 {
      assert REVERSE_HEX_TABLE[hi] == DIGIT_ROW;
    } else if hi == 4 || hi == 6 {
      assert REVERSE_HEX_TABLE[hi] == LETTER_ROW;
    } else {
      assert REVERSE_HEX_TABLE[hi] == NO_HEX_ROW;
    }
  }

  /** The table entry at `c` is ReverseHex(c): the table maps `0-9`, `a-f`,
      `A-F` to their values and nothing else below 0xff. */
  lemma ReverseHexTable(c: Byte)
    ensures |REVERSE_HEX_TABLE| == 16 && |REVERSE_HEX_TABLE[c / 16]| == 16
    ensures REVERSE_HEX_TABLE[c / 16][c % 16] == ReverseHex(c)
  {
    ReverseHexRow(c / 16);
  }

  /** fromHexChar: the value of `0-9`, `a-f` or `A-F`, and whether `c` is one. */
  function FromHexChar(c: Byte): (r: (Byte, bool))
    ensures r.1 ==> r.0 <= 0x0f
    ensures !r.1 ==> r.0 == 0
  {
    if '0' as int <= c <= '9' as int then (c - '0' as int, true)
    else if 'a' as int <= c <= 'f' as int then (c - 'a' as int + 10, true)
    else if 'A' as int <= c <= 'F' as int then (c - 'A' as int + 10, true)
    else (0, false)
  }

  /** A 16-entry digit table whose k-th character reads back as nibble k. */
  predicate IsHexTable(t: seq<Byte>)
  {
    |t| == 16 && forall k | 0 <= k < 16 :: ReverseHex(t[k]) == k
  }

  // ---------------------------------------------------------------------
  // Encoders

  /** The two digits hexEncode writes for `b`: `hextable[b>>4]`, then
      `hextable[b&0x0f]`. */
  function HexUnit(b: Byte, hextable: seq<Byte>): (r: seq<Byte>)
    requires |hextable| == 16
  {
    [hextable[b / 16], hextable[b % 16]]
  }

  /** The four characters cfmtEncode writes: `0`, `x`, then the two digits. */
  function CUnit(b: Byte, hextable: seq<Byte>): (r: seq<Byte>)
    requires |hextable| == 16
  {
    Ascii("0x") + HexUnit(b, hextable)
  }

  /** `1 << d` for the shifts a byte allows. */
  const POW2: seq<nat> := [1, 2, 4, 8, 16, 32, 64, 128, 256]

  /** Bit `d` of `b` (bit 0 is the least significant). */
  predicate Bit(b: Byte, d: nat)
    requires d < 8
  {
    (b / POW2[d]) % 2 == 1
  }

  /** The eight characters binaryEncode writes: most significant bit first. */
  function BinaryUnit(b: Byte): (r: seq<Byte>)
  {
    seq(8, j requires 0 <= j < 8 => if Bit(b, 7 - j) then '1' as int else '0' as int)
  }

  /** Every byte of the input as two digits, in order (the whole-buffer
      form of hexEncode, and of encoding/hex.Encode with lower-case digits). */
  function HexString(src: seq<Byte>, hextable: seq<Byte>): (r: seq<Byte>)
    requires |hextable| == 16
    ensures |r| == 2 * |src|
    ensures forall i | 0 <= i < |src| :: r[2 * i..2 * i + 2] == HexUnit(src[i], hextable)
  {
    if src == [] then []
    else
      var rest := HexString(src[1..], hextable);
      assert forall i | 1 <= i < |src| :: ([hextable[src[0] / 16], hextable[src[0] % 16]] + rest)[2 * i..2 * i + 2]
                                           == rest[2 * (i - 1)..2 * (i - 1) + 2];
      HexUnit(src[0], hextable) + rest
  }

  /** hexEncode: writes `dst[1]`, then `dst[0]`; nothing else changes. */
  method HexEncode(dst: array<Byte>, src: seq<Byte>, hextable: seq<Byte>)
    requires |src| >= 1 && |hextable| == 16 && dst.Length >= 2
    modifies dst
    ensures dst[..2] == HexUnit(src[0], hextable)
    ensures dst[2..] == old(dst[2..])
  {
    var b := src[0];
    dst[1] := hextable[b % 16];
    dst[0] := hextable[b / 16];
  }

  /** cfmtEncode: writes `dst[3]`, `dst[2]`, `dst[1]`, `dst[0]`. */
  method CfmtEncode(dst: array<Byte>, src: seq<Byte>, hextable: seq<Byte>)
    requires |src| >= 1 && |hextable| == 16 && dst.Length >= 4
    modifies dst
    ensures dst[..4] == CUnit(src[0], hextable)
    ensures dst[4..] == old(dst[4..])
  {
    var b := src[0];
    dst[3] := hextable[b % 16];
    dst[2] := hextable[b / 16];
    dst[1] := 'x' as int;
    dst[0] := '0' as int;
  }

  /** binaryEncode: fills `dst[7]` down to `dst[0]` with bit 0 up to bit 7. */
  method BinaryEncode(dst: array<Byte>, src: seq<Byte>)
    requires |src| >= 1 && dst.Length >= 8
    modifies dst
    ensures dst[..8] == BinaryUnit(src[0])
    ensures dst[8..] == old(dst[8..])
  {
    var d := 0;
    var i := 7;
    while i >= 0
      invariant -1 <= i <= 7 && d == 7 - i
      invariant forall j | i < j < 8 :: dst[j] == BinaryUnit(src[0])[j]
      invariant dst[8..] == old(dst[8..])
    {
      if !Bit(src[0], d) {
        dst[i] := '0' as int;
      } else {
        dst[i] := '1' as int;
      }
      d := d + 1;
      i := i - 1;
    }
  }

  // ---------------------------------------------------------------------
  // Decoders

  predicate IsBinaryDigit(c: Byte)
  {
    c == '0' as int || c == '1' as int
  }

  /** binaryDecode's return code, scanning from index `i`: -1 when every
      remaining character is a binary digit; at the first one that is not,
      its index, except that a separator at index 0 gives 1. */
  function BinaryStatusFrom(src: seq<Byte>, i: nat): int
    decreases |src| - i
  {
    if i >= |src| then -1
    else if IsSpace(src[i]) then (if i == 0 then 1 else i)
    else if !IsBinaryDigit(src[i]) then i
    else BinaryStatusFrom(src, i + 1)
  }

  function BinaryStatus(src: seq<Byte>): int
  {
    BinaryStatusFrom(src, 0)
  }

  /** The byte binaryDecode accumulates: each digit shifts the byte left by
      one (keeping the low eight bits) and a `1` sets the new low bit. */
  function BinaryValue(src: seq<Byte>): Byte
  {
    if src == [] then 0
    else (BinaryValue(src[..|src| - 1]) * 2 + (if src[|src| - 1] == '1' as int then 1 else 0)) % 256
  }

  /** binaryDecode: writes `dst[0]` only when the whole input is binary
      digits, and returns -1 then; otherwise returns the status code. */
  method BinaryDecode(dst: array<Byte>, src: seq<Byte>) returns (k: int)
    requires BinaryStatus(src) == -1 ==> dst.Length >= 1
    modifies dst
    ensures k == BinaryStatus(src)
    ensures k == -1 ==> dst.Length >= 1 && dst[..] == old(dst[..])[0 := BinaryValue(src)]
    ensures k != -1 ==> dst[..] == old(dst[..])
  {
    var v: Byte, d: Byte := 0, 0;
    var i := 0;
    while i < |src|
      invariant 0 <= i <= |src|
      invariant d == BinaryValue(src[..i])
      invariant BinaryStatus(src) == BinaryStatusFrom(src, i)
      invariant dst[..] == old(dst[..])
    {
      ShiftStep(src, i);
      v, d := src[i], (d * 2) % 256;
      if IsSpace(v) {
        if i == 0 {
          return 1;
        }
        return i;
      }
      if v == '1' as int {
        d := d + 1; // `d ^= 1`: the low bit is clear after the shift
      } else if v != '0' as int {
        return i;
      }
      i := i + 1;
    }
    assert src[..i] == src;
    dst[0] := d;
    return -1;
  }

  /** One digit of binaryDecode's loop: shifting clears the low bit, so
      `d ^= 1` adds one, and the accumulated value extends by that digit. */
  lemma ShiftStep(src: seq<Byte>, i: nat)
    requires i < |src|
    ensures var d := (BinaryValue(src[..i]) * 2) % 256;
      && d % 2 == 0 && d + 1 < 256
      && BinaryValue(src[..i + 1]) == if src[i] == '1' as int then d + 1 else d
  {
    assert src[..i + 1][..i] == src[..i];
    var d: int := BinaryValue(src[..i]);
    assert (d * 2) % 256 == if d < 128 then d * 2 else d * 2 - 256;
  }

  /** What hexDecode computes: the bytes of the complete, valid pairs before
      the first problem, and the error that stopped it. */
  datatype Decoded = Decoded(bytes: seq<Byte>, err: HexError)

  function DecodePairs(src: seq<Byte>): (r: Decoded)
    ensures 2 * |r.bytes| <= |src|
    decreases |src|
  {
    if |src| == 0 then Decoded([], Nil)
    else if |src| == 1 then
      Decoded([], if ReverseHex(src[0]) > 0x0f then InvalidByteError(src[0]) else ErrLength)
    else if ReverseHex(src[0]) > 0x0f then Decoded([], InvalidByteError(src[0]))
    else if ReverseHex(src[1]) > 0x0f then Decoded([], InvalidByteError(src[1]))
    else
      var rest := DecodePairs(src[2..]);
      Decoded([ReverseHex(src[0]) * 16 + ReverseHex(src[1])] + rest.bytes, rest.err)
  }

  /** hexDecode: returns the count of bytes written to `dst` and the error.
      Go panics when a valid pair would be written past the end of `dst`,
      which is what the precondition excludes. */
  method HexDecode(dst: array<Byte>, src: seq<Byte>) returns (count: int, err: HexError)
    requires |DecodePairs(src).bytes| <= dst.Length
    modifies dst
    ensures count == |DecodePairs(src).bytes| && err == DecodePairs(src).err
    ensures forall k | 0 <= k < count :: dst[k] == DecodePairs(src).bytes[k]
    ensures forall k | count <= k < dst.Length :: dst[k] == old(dst[k])
  {
    var i, j := 0, 1;
    while j < |src|
      invariant j == 2 * i + 1 && 2 * i <= |src|
      invariant DecodedFrom(src, i)
      invariant forall k | 0 <= k < i :: dst[k] == DecodePairs(src).bytes[k]
      invariant forall k | i <= k < dst.Length :: dst[k] == old(dst[k])
    {
      DecodeStep(src, i);
      var p := src[j - 1];
      var q := src[j];
      var a := ReverseHex(p);
      var b := ReverseHex(q);
      if a > 0x0f {
        return i, InvalidByteError(p);
      }
      if b > 0x0f {
        return i, InvalidByteError(q);
      }
      dst[i] := a * 16 + b; // (a << 4) | b
      i := i + 1;
      j := j + 2;
    }
    DecodeEnd(src, i);
    if |src| % 2 == 1 {
      if ReverseHex(src[j - 1]) > 0x0f {
        return i, InvalidByteError(src[j - 1]);
      }
      return i, ErrLength;
    }
    return i, Nil;
  }

  /** hexDecode's loop invariant: the first `i` pairs decoded, and the rest
      of the result is what the remaining input decodes to. */
  ghost predicate DecodedFrom(src: seq<Byte>, i: nat)
    requires 2 * i <= |src|
  {
    var whole, rest := DecodePairs(src), DecodePairs(src[2 * i..]);
    i + |rest.bytes| == |whole.bytes| && whole.bytes[i..] == rest.bytes && whole.err == rest.err
  }

  lemma DecodeStep(src: seq<Byte>, i: nat)
    requires 2 * i + 2 <= |src| && DecodedFrom(src, i)
    ensures var whole, a, b := DecodePairs(src), ReverseHex(src[2 * i]), ReverseHex(src[2 * i + 1]);
      && (a > 0x0f ==> |whole.bytes| == i && whole.err == InvalidByteError(src[2 * i]))
      && (a <= 0x0f && b > 0x0f ==> |whole.bytes| == i && whole.err == InvalidByteError(src[2 * i + 1]))
      && (a <= 0x0f && b <= 0x0f ==>
            i < |whole.bytes| && whole.bytes[i] == a * 16 + b && DecodedFrom(src, i + 1))
  {
    var whole := DecodePairs(src);
    var t := src[2 * i..];
    var p, q := src[2 * i], src[2 * i + 1];
    assert t[0] == p && t[1] == q;
    var r := DecodePairs(t);
    if ReverseHex(p) <= 0x0f && ReverseHex(q) <= 0x0f {
      var rest := DecodePairs(src[2 * i + 2..]);
      assert t[2..] == src[2 * i + 2..];
      assert r.bytes == [ReverseHex(p) * 16 + ReverseHex(q)] + rest.bytes;
      assert whole.bytes[i + 1..] == whole.bytes[i..][1..];
    }
  }

  lemma DecodeEnd(src: seq<Byte>, i: nat)
    requires 2 * i <= |src| <= 2 * i + 1 && DecodedFrom(src, i)
    ensures var whole := DecodePairs(src);
      && |whole.bytes| == i
      && whole.err == if |src| % 2 == 0 then Nil
                      else if ReverseHex(src[2 * i]) > 0x0f then InvalidByteError(src[2 * i])
                      else ErrLength
  {
    if |src| == 2 * i {
      assert src[2 * i..] == [];
    } else {
      assert src[2 * i..] == [src[2 * i]];
    }
  }

  // ---------------------------------------------------------------------
  // Character classes

  /** isEmpty: true exactly when every byte of the buffer is 0. */
  method IsEmpty(b: array<Byte>) returns (r: bool)
    ensures r <==> AllZero(b[..])
  {
    var i := 0;
    while i < b.Length
      invariant 0 <= i <= b.Length
      invariant forall j | 0 <= j < i :: b[j] == 0
    {
      if b[i] != 0 {
        return false;
      }
      i := i + 1;
    }
    return true;
  }

  /** The characters isSpecial rejects in a C identifier. */
  const SPECIAL_CHARS: set<Byte> := {
    '/' as int, '!' as int, '#' as int, '$' as int, '%' as int, '^' as int,
    '&' as int, '*' as int, '(' as int, ')' as int, ';' as int, ':' as int,
    '|' as int, '{' as int, '}' as int, '\\' as int, '~' as int, '`' as int}

  /** isSpecial: one of the eighteen characters of SPECIAL_CHARS; `.`,
      `_`, letters and digits are not special. */
  function IsSpecial(b: Byte): (r: bool)
    ensures r <==> b in SPECIAL_CHARS
  {
    b == '/' as int || b == '!' as int || b == '#' as int || b == '$' as int ||
    b == '%' as int || b == '^' as int || b == '&' as int || b == '*' as int ||
    b == '(' as int || b == ')' as int || b == ';' as int || b == ':' as int ||
    b == '|' as int || b == '{' as int || b == '}' as int || b == '\\' as int ||
    b == '~' as int || b == '`' as int
  }

  /** isSpace: space (32), form feed (12) and tab (9); not newline. */
  function IsSpace(b: Byte): (r: bool)
    ensures r <==> b in {9, 12, 32}
    ensures r ==> b < 33 && b != '\n' as int && !IsBinaryDigit(b)
  {
    match b
    case 32 => true
    case 12 => true
    case 9 => true
    case _ => false
  }

  /** isPrefix: the first two bytes are `0x` or `0X` (Go indexes both, so
      a shorter slice panics). */
  function IsPrefix(b: seq<Byte>): (r: bool)
    requires |b| >= 2
    ensures r <==> b[..2] == Ascii("0x") || b[..2] == Ascii("0X")
  {
    b[0] == '0' as int && (b[1] == 'x' as int || b[1] == 'X' as int)
  }

  // ---------------------------------------------------------------------
  // Properties

  /** Every byte hexDecode returns comes from a complete pair of valid
      digits at the matching position of the input. */
  lemma {:induction false} DecodePairsByte(src: seq<Byte>, k: nat)
    requires k < |DecodePairs(src).bytes|
    ensures 2 * k + 2 <= |src|
    ensures ReverseHex(src[2 * k]) <= 0x0f && ReverseHex(src[2 * k + 1]) <= 0x0f
    ensures DecodePairs(src).bytes[k] == ReverseHex(src[2 * k]) * 16 + ReverseHex(src[2 * k + 1])
    decreases k
  {
    if k > 0 {
      var tail := src[2..];
      assert DecodePairs(src).bytes[k] == DecodePairs(tail).bytes[k - 1];
      DecodePairsByte(tail, k - 1);
      assert tail[2 * (k - 1)] == src[2 * k] && tail[2 * (k - 1) + 1] == src[2 * k + 1];
    }
  }

  /** hexDecode stops at the first problem: the whole input decoded gives
      nil; an odd last character gives ErrLength only when it is itself a
      digit; otherwise the error names the first bad character of the first
      pair that did not decode, the first character being checked first. */
  lemma {:induction false} DecodePairsError(src: seq<Byte>)
    ensures var r := DecodePairs(src); var m := 2 * |r.bytes|;
      && (m == |src| ==> r.err == Nil)
      && (m + 1 == |src| ==>
            r.err == if ReverseHex(src[m]) > 0x0f then InvalidByteError(src[m]) else ErrLength)
      && (m + 2 <= |src| ==>
            r.err == if ReverseHex(src[m]) > 0x0f then InvalidByteError(src[m])
                     else InvalidByteError(src[m + 1]))
      && (m + 2 <= |src| ==> ReverseHex(src[m]) > 0x0f || ReverseHex(src[m + 1]) > 0x0f)
    decreases |src|
  {
    if |src| >= 2 && ReverseHex(src[0]) <= 0x0f && ReverseHex(src[1]) <= 0x0f {
      var tail := src[2..];
      DecodePairsError(tail);
      var m' := 2 * |DecodePairs(tail).bytes|;
      assert m' <= |tail|;
      if m' + 2 <= |tail| {
        assert src[m' + 2] == tail[m'] && src[m' + 3] == tail[m' + 1];
      } else if m' + 1 == |tail| {
        assert src[m' + 2] == tail[m'];
      }
    }
  }

  /** For a valid digit table, decoding the two digits of a byte gives the
      byte back with no error. */
  lemma HexUnitRoundTrip(b: Byte, hextable: seq<Byte>)
    requires IsHexTable(hextable)
    ensures DecodePairs(HexUnit(b, hextable)) == Decoded([b], Nil)
  {
    var u := HexUnit(b, hextable);
    assert ReverseHex(u[0]) == b / 16 && ReverseHex(u[1]) == b % 16;
    assert u[2..] == [];
  }

  /** Decoding a whole hex string gives every byte back with no error. */
  lemma {:induction false} HexStringRoundTrip(src: seq<Byte>, hextable: seq<Byte>)
    requires IsHexTable(hextable)
    ensures DecodePairs(HexString(src, hextable)) == Decoded(src, Nil)
  {
    if src != [] {
      var s := HexString(src, hextable);
      HexUnitRoundTrip(src[0], hextable);
      assert s[2..] == HexString(src[1..], hextable);
      HexStringRoundTrip(src[1..], hextable);
    }
  }

  /** binaryDecode's return codes: -1 exactly when every character is a
      binary digit; otherwise, at the first character that is not, a
      separator at index 0 gives 1 and anything else gives its index. */
  lemma {:induction false} BinaryStatusSpec(src: seq<Byte>, i: nat)
    requires i < |src| && !IsBinaryDigit(src[i])
    requires forall j | 0 <= j < i :: IsBinaryDigit(src[j])
    ensures BinaryStatus(src) == if IsSpace(src[i]) && i == 0 then 1 else i
  {
    BinaryStatusSkip(src, 0, i);
  }

  lemma BinaryStatusAllDigits(src: seq<Byte>)
    ensures BinaryStatus(src) == -1 <==> forall j | 0 <= j < |src| :: IsBinaryDigit(src[j])
  {
    BinaryStatusFromAll(src, 0);
  }

  lemma {:induction false} BinaryStatusFromAll(src: seq<Byte>, i: nat)
    ensures BinaryStatusFrom(src, i) == -1 <==> forall j | i <= j < |src| :: IsBinaryDigit(src[j])
    decreases |src| - i
  {
    if i < |src| && !IsSpace(src[i]) && IsBinaryDigit(src[i]) {
      BinaryStatusFromAll(src, i + 1);
    }
  }

  lemma {:induction false} BinaryStatusSkip(src: seq<Byte>, from: nat, to: nat)
    requires from <= to <= |src|
    requires forall j | from <= j < to :: IsBinaryDigit(src[j])
    ensures BinaryStatusFrom(src, from) == BinaryStatusFrom(src, to)
  {
    if from < to {
      BinaryStatusSkip(src, from, to - 1);
    }
  }

  /** The first `k` digits of a byte's binary unit read back as its top `k` bits. */
  lemma {:induction false} BinaryUnitPrefix(b: Byte, k: nat)
    requires k <= 8
    ensures BinaryValue(BinaryUnit(b)[..k]) == b / POW2[8 - k]
  {
    var u := BinaryUnit(b);
    if k == 0 {
      assert u[..0] == [];
    } else {
      var hi := b / POW2[8 - k];
      BinaryUnitPrefix(b, k - 1);
      PowDiv(b, 8 - k);
      DivLe(b, POW2[8 - k]);
      assert u[..k][..k - 1] == u[..k - 1];
      assert u[k - 1] == (if hi % 2 == 1 then '1' as int else '0' as int);
      BinaryValueSnoc(u[..k], hi / 2, hi % 2, hi);
    }
  }

  /** One more digit doubles the value read so far and adds the digit. */
  lemma BinaryValueSnoc(s: seq<Byte>, lo: nat, bit: nat, hi: nat)
    requires |s| >= 1 && BinaryValue(s[..|s| - 1]) == lo
    requires bit == (if s[|s| - 1] == '1' as int then 1 else 0)
    requires lo * 2 + bit == hi < 256
    ensures BinaryValue(s) == hi
  {
    assert BinaryValue(s) == (lo * 2 + bit) % 256;
    assert hi % 256 == hi;
  }

  lemma PowDiv(b: Byte, d: nat)
    requires d < 8
    ensures b / POW2[d + 1] == (b / POW2[d]) / 2
  {
    if d == 0 {
      assert b / 2 == (b / 1) / 2;
    } else if d == 1 {
      assert b / 4 == (b / 2) / 2;
    } else if d == 2 {
      assert b / 8 == (b / 4) / 2;
    } else if d == 3 {
      assert b / 16 == (b / 8) / 2;
    } else if d == 4 {
      assert b / 32 == (b / 16) / 2;
    } else if d == 5 {
      assert b / 64 == (b / 32) / 2;
    } else if d == 6 {
      assert b / 128 == (b / 64) / 2;
    } else {
      assert b / 256 == (b / 128) / 2;
    }
  }

  lemma DivLe(b: nat, p: nat)
    requires p >= 1
    ensures b / p <= b
  {
  }

  /** binaryDecode of what binaryEncode wrote returns -1 and restores the byte. */
  lemma BinaryUnitRoundTrip(b: Byte)
    ensures BinaryStatus(BinaryUnit(b)) == -1
    ensures BinaryValue(BinaryUnit(b)) == b
  {
    BinaryStatusAllDigits(BinaryUnit(b));
    BinaryUnitPrefix(b, 8);
    assert BinaryUnit(b)[..8] == BinaryUnit(b);
  }

  /** Bit `d` of the byte is the character at position `7 - d` of its unit. */
  lemma BinaryUnitBits(b: Byte, d: nat)
    requires d < 8
    ensures |BinaryUnit(b)| == 8
    ensures BinaryUnit(b)[7 - d] == '1' as int <==> Bit(b, d)
    ensures IsBinaryDigit(BinaryUnit(b)[7 - d])
  {
  }
}
