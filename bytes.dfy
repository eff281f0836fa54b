/** Bytes, byte strings and the integer-to-text conversion shared by the
    forward and reverse directions. Go byte slices and strings are
    sequences of `Byte`. */
module Bytes {

  type Byte = b: int | 0 <= b < 256

  datatype Option<T> = None | Some(value: T)

  function Min(a: int, b: int): int
  {
    if a <= b then a else b
  }

  /** A Go string literal made of single-byte characters, as its bytes. */
  function Ascii(s: string): (r: seq<Byte>)
    requires forall i | 0 <= i < |s| :: s[i] as int < 256
    ensures |r| == |s|
    ensures forall i | 0 <= i < |s| :: r[i] == s[i] as int
  {
    seq(|s|, i requires 0 <= i < |s| => s[i] as int)
  }

  /** `k` copies of the byte `b`. */
  function Repeat(b: Byte, k: nat): (r: seq<Byte>)
    ensures |r| == k
    ensures forall i | 0 <= i < k :: r[i] == b
  {
    seq(k, _ => b)
  }

  /** A freshly allocated Go buffer of length `k`. */
  function Zeros(k: nat): (r: seq<Byte>)
    ensures |r| == k
    ensures forall i | 0 <= i < k :: r[i] == 0
  {
    Repeat(0, k)
  }

  predicate AllZero(s: seq<Byte>)
  {
    forall i | 0 <= i < |s| :: s[i] == 0
  }

  function Pow(radix: nat, k: nat): (p: nat)
    ensures radix >= 1 ==> p >= 1
  {
    if k == 0 then 1 else radix * Pow(radix, k - 1)
  }

  /** The character for digit `d`, lower case, as strconv writes it. */
  function DigitChar(d: nat): (c: Byte)
    requires d < 16
  {
    if d < 10 then '0' as int + d else 'a' as int + d - 10
  }

  /** The value of a lower-case digit character, or `radix` when the
      character is not a digit of that radix. */
  function DigitValue(c: Byte, radix: nat): (d: nat)
    requires 2 <= radix <= 16
    ensures d <= radix
  {
    var v := if '0' as int <= c <= '9' as int then c - '0' as int
             else if 'a' as int <= c <= 'f' as int then c - 'a' as int + 10
             else radix;
    if v < radix then v else radix
  }

  lemma DigitCharValue(d: nat, radix: nat)
    requires 2 <= radix <= 16 && d < radix
    ensures DigitValue(DigitChar(d), radix) == d
  {
  }

  /** strconv.FormatInt / strconv.AppendInt of a non-negative value:
      the shortest digit string, most significant digit first, "0" for 0. */
  function Digits(v: nat, radix: nat): (r: seq<Byte>)
    requires 2 <= radix <= 16
    ensures 1 <= |r|
    ensures forall i | 0 <= i < |r| :: DigitValue(r[i], radix) < radix
    decreases v
  {
    if v < radix then
      DigitCharValue(v, radix);
      [DigitChar(v)]
    else
      var q, r := v / radix, v % radix;
      DivMod(v, radix);
      DigitCharValue(r, radix);
      Digits(q, radix) + [DigitChar(r)]
  }

  /** Reads a digit string back as a number (the parse direction). */
  function DigitsValue(s: seq<Byte>, radix: nat): nat
    requires 2 <= radix <= 16
  {
    if s == [] then 0 else DigitsValue(s[..|s| - 1], radix) * radix + DigitValue(s[|s| - 1], radix)
  }

  /** Reading back what `Digits` writes gives the number again. */
  lemma {:induction false} DigitsRoundTrip(v: nat, radix: nat)
    requires 2 <= radix <= 16
    ensures DigitsValue(Digits(v, radix), radix) == v
    decreases v
  {
    DigitCharValue(v % radix, radix);
    var s := Digits(v, radix);
    if v >= radix {
      var q, r := v / radix, v % radix;
      DivMod(v, radix);
      assert s == Digits(q, radix) + [DigitChar(r)];
      assert s[..|s| - 1] == Digits(q, radix);
      DigitsRoundTrip(q, radix);
      assert DigitsValue(s, radix) == q * radix + r;
    } else {
      assert s == [DigitChar(v)];
      assert s[..|s| - 1] == [];
      assert DigitsValue(s, radix) == 0 * radix + v;
    }
  }

  /** Leading zero digits do not change the value read back. */
  lemma {:induction false} LeadingZerosValue(k: nat, s: seq<Byte>, radix: nat)
    requires 2 <= radix <= 16
    ensures DigitsValue(Repeat('0' as int, k) + s, radix) == DigitsValue(s, radix)
    decreases |s|
  {
    if s == [] {
      assert Repeat('0' as int, k) + s == Repeat('0' as int, k);
      ZerosValue(k, radix);
    } else {
      var t := Repeat('0' as int, k) + s;
      assert t[..|t| - 1] == Repeat('0' as int, k) + s[..|s| - 1];
      LeadingZerosValue(k, s[..|s| - 1], radix);
    }
  }

  lemma {:induction false} ZerosValue(k: nat, radix: nat)
    requires 2 <= radix <= 16
    ensures DigitsValue(Repeat('0' as int, k), radix) == 0
  {
    if k > 0 {
      assert Repeat('0' as int, k)[..k - 1] == Repeat('0' as int, k - 1);
      ZerosValue(k - 1, radix);
    }
  }

  /** `Digits(v)` has at most `k` characters exactly when `v < radix^k`. */
  lemma {:induction false} DigitsFit(v: nat, radix: nat, k: nat)
    requires 2 <= radix <= 16 && k >= 1
    ensures |Digits(v, radix)| <= k <==> v < Pow(radix, k)
    decreases v
  {
    if v >= radix {
      if k == 1 {
        assert Pow(radix, 1) == radix;
      } else {
        DigitsFit(v / radix, radix, k - 1);
        DivBelow(v, radix, Pow(radix, k - 1));
      }
    } else {
      assert Pow(radix, k) >= radix by { PowAtLeast(radix, k); }
    }
  }

  lemma DivMod(v: nat, radix: nat)
    requires 2 <= radix <= v
    ensures v / radix * radix + v % radix == v
    ensures v / radix < v && v % radix < radix
  {
  }

  lemma DivBelow(v: nat, radix: nat, p: nat)
    requires radix >= 1
    ensures v / radix < p <==> v < radix * p
  {
    var q := v / radix;
    assert v == radix * q + v % radix;
    if q < p {
      assert radix * q <= radix * (p - 1) by { MulMono(radix, q, p - 1); }
    } else {
      assert radix * p <= radix * q by { MulMono(radix, p, q); }
    }
  }

  lemma MulMono(a: nat, x: nat, y: nat)
    requires x <= y
    ensures a * x <= a * y
  {
  }

  lemma {:induction false} PowAtLeast(radix: nat, k: nat)
    requires 2 <= radix && k >= 1
    ensures Pow(radix, k) >= radix
  {
    if k > 1 {
      PowAtLeast(radix, k - 1);
    }
  }

  lemma DivUnique(b: nat, m: nat, y: nat, r: nat)
    requires m >= 1 && r < m && b == m * y + r
    ensures b / m == y
  {
    var q := b / m;
    assert b == m * q + b % m;
    assert m * (y + 1) == m * y + m;
    assert m * (q + 1) == m * q + m;
    if q > y {
      MulMono(m, y + 1, q);
    } else if q < y {
      MulMono(m, q + 1, y);
    }
  }

  lemma ModUnique(b: nat, m: nat, y: nat, r: nat)
    requires m >= 1 && r < m && b == m * y + r
    ensures b / m == y && b % m == r
  {
    DivUnique(b, m, y, r);
  }

  /** Counting up by one: `n / g` grows exactly when `n` reaches a multiple of `g`. */
  lemma DivStep(n: nat, g: nat)
    requires n >= 1 && g >= 1
    ensures n / g == (n - 1) / g + (if n % g == 0 then 1 else 0)
    ensures n % g == (if (n - 1) % g + 1 == g then 0 else (n - 1) % g + 1)
  {
    var q, r := (n - 1) / g, (n - 1) % g;
    assert n - 1 == g * q + r;
    if r + 1 == g {
      ModUnique(n, g, q + 1, 0);
    } else {
      ModUnique(n, g, q, r + 1);
    }
  }

  /** `a + b`, continued by `c`. */
  lemma PrefixAppend(a: seq<Byte>, b: seq<Byte>, c: seq<Byte>, ab: seq<Byte>)
    requires ab == a + b
    ensures a + (b + c) == ab + c
  {
  }

  /** Four pieces written one after another, regrouped. */
  lemma Regroup(a: seq<Byte>, b: seq<Byte>, c: seq<Byte>, d: seq<Byte>)
    ensures a + b + c + d == a + ((b + c) + d)
  {
  }

  /** Four pieces, the middle two grouped. */
  lemma AppendAssoc4(a: seq<Byte>, b: seq<Byte>, c: seq<Byte>, d: seq<Byte>)
    ensures a + b + c + d == a + (b + c) + d
  {
  }

  /** Five pieces with an empty one between, the middle two grouped. */
  lemma AppendAssoc5(a: seq<Byte>, b: seq<Byte>, c: seq<Byte>, d: seq<Byte>, e: seq<Byte>)
    ensures a + b + c + [] + d + e == a + b + (c + d) + e
  {
  }
}
