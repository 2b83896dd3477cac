/** `%d` in `printf` and in `sscanf`, for 32-bit signed integers. */
module Decimal {
  import opened OptionType
  import opened Bytes
  import opened Tokens

  type Int32 = x: int | -0x8000_0000 <= x <= 0x7fff_ffff

  const ZERO: Byte := 48
  const PLUS: Byte := 43
  const MINUS: Byte := 45

  predicate IsDigit(b: Byte)
  {
    ZERO <= b <= ZERO + 9
  }

  function PrintNat(n: nat): (s: Text)
    ensures |s| > 0
    ensures forall i :: 0 <= i < |s| ==> IsDigit(s[i])
  {
    if n < 10 then [ZERO + n] else PrintNat(n / 10) + [ZERO + n % 10]
  }

  function Abs(n: int): nat
  {
    if n < 0 then -n else n
  }

  function PrintInt(n: Int32): Text
  {
    if n < 0 then [MINUS] + PrintNat(Abs(n)) else PrintNat(Abs(n))
  }

  /** Number of leading digits. */
  function DigitLen(s: Text): (n: nat)
    ensures n <= |s|
    ensures forall i :: 0 <= i < n ==> IsDigit(s[i])
    ensures n < |s| ==> !IsDigit(s[n])
  {
    if s == [] || !IsDigit(s[0]) then 0 else 1 + DigitLen(s[1..])
  }

  function DigitsValue(s: Text): nat
    requires forall i :: 0 <= i < |s| ==> IsDigit(s[i])
  {
    if s == [] then 0 else
      var last := s[|s| - 1];
      assert IsDigit(last);
      10 * DigitsValue(s[..|s| - 1]) + (last - ZERO)
  }

  /** `%d` converts as `strtol` does, saturating at 64 bits, and stores the low 32 bits. */
  function StoreInt(v: int): Int32
  {
    var long := if v > 0x7fff_ffff_ffff_ffff then 0x7fff_ffff_ffff_ffff
                else if v < -0x8000_0000_0000_0000 then -0x8000_0000_0000_0000 else v;
    var low := long % 0x1_0000_0000;
    if low > 0x7fff_ffff then low - 0x1_0000_0000 else low
  }

  /** At least one digit. */
  function ScanDigits(s: Text): (r: Option<(nat, Text)>)
  {
    var n := DigitLen(s);
    if n == 0 then None else Some((DigitsValue(s[..n]), s[n..]))
  }

  /** `%d`: skip white space, an optional sign, at least one digit. */
  function ScanInt(s: Text): (r: Option<(Int32, Text)>)
  {
    var t := SkipSeps(s, WHITESPACE);
    var signed := t != [] && (t[0] == PLUS || t[0] == MINUS);
    match ScanDigits(if signed then t[1..] else t)
    case None => None
    case Some((v, rest)) => Some((StoreInt(if signed && t[0] == MINUS then Negate(v) else v), rest))
  }

  function Negate(v: int): int
  {
    -v
  }

  lemma {:induction false} DigitsRoundTrip(n: nat)
    ensures DigitsValue(PrintNat(n)) == n
  {
    if n >= 10 {
      DigitsRoundTrip(n / 10);
      var s := PrintNat(n);
      assert s[..|s| - 1] == PrintNat(n / 10);
    }
  }

  lemma {:induction false} DigitLenOfDigits(d: Text, tail: Text)
    requires forall i :: 0 <= i < |d| ==> IsDigit(d[i])
    requires tail == [] || !IsDigit(tail[0])
    ensures DigitLen(d + tail) == |d|
  {
    var s := d + tail;
    assert forall i :: 0 <= i < |d| ==> s[i] == d[i] && IsDigit(s[i]);
    assert tail != [] ==> s[|d|] == tail[0];
  }

  lemma {:induction false} ScanDigitsOfPrint(n: nat, tail: Text)
    requires tail == [] || !IsDigit(tail[0])
    ensures ScanDigits(PrintNat(n) + tail) == Some((n, tail))
  {
    var d := PrintNat(n);
    DigitsRoundTrip(n);
    DigitLenOfDigits(d, tail);
    assert (d + tail)[..|d|] == d && (d + tail)[|d|..] == tail;
  }

  lemma StoreIntKeeps(n: Int32)
    ensures StoreInt(n) == n
  {
  }

  /** Scanning what was printed gives the number back and stops right behind it. */
  lemma {:induction false} IntRoundTrip(n: Int32, tail: Text)
    requires tail == [] || !IsDigit(tail[0])
    ensures ScanInt(PrintInt(n) + tail) == Some((n, tail))
  {
    ScanDigitsOfPrint(Abs(n), tail);
    StoreIntKeeps(n);
    PrintedShape(n, tail);
  }

  /** A sign and digits, or digits alone. */
  lemma {:induction false} PrintedShape(n: Int32, tail: Text)
    ensures var s, d := PrintInt(n) + tail, PrintNat(Abs(n));
            && s != [] && d != [] && IsDigit(d[0]) && SkipSeps(s, WHITESPACE) == s
            && (n < 0 ==> s[0] == MINUS && s[1..] == d + tail)
            && (n >= 0 ==> s[0] == d[0] && s == d + tail)
  {
    var s, d := PrintInt(n) + tail, PrintNat(Abs(n));
    if n < 0 {
      assert s[1..] == d + tail;
    } else {
      assert s[0] == d[0];
    }
  }

  lemma {:induction false} ScanIntSkipsSpace(s: Text)
    ensures ScanInt([SPACE] + s) == ScanInt(s)
  {
    SkipSepsPrefix([SPACE], s, WHITESPACE);
  }

  lemma PrintIntIsPlain(n: Int32)
    ensures PrintInt(n) != []
    ensures forall i :: 0 <= i < |PrintInt(n)| ==> IsDigit(PrintInt(n)[i]) || PrintInt(n)[i] == MINUS
  {
  }
}
