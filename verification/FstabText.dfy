/** The text form of one /etc/fstab entry: the octal escaper and unescaper, the printed line,
    and the `sscanf`-based matcher. */
module FstabText {
  import opened OptionType
  import opened Sequences
  import opened Bytes
  import opened Tokens
  import opened Decimal

  datatype FstabEntry = FstabEntry(fsname: Text, dir: Text, fstype: Text, opts: Text,
                                   freq: Int32, passno: Int32)

  /** The bytes escape_fstab writes as a backslash and three octal digits. */
  const ESCAPED: set<Byte> := {SPACE, TAB, NEWLINE, BACKSLASH}

  function EscapeByte(b: Byte): (r: Text)
    ensures b in ESCAPED ==> |r| == 4 && r[0] == BACKSLASH
    ensures b !in ESCAPED ==> r == [b]
  {
    if b in ESCAPED then [BACKSLASH, ZERO + b / 64, ZERO + b / 8 % 8, ZERO + b % 8] else [b]
  }

  function Escape(s: Text): Text
  {
    if s == [] then [] else EscapeByte(s[0]) + Escape(s[1..])
  }

  method EscapeFstab(source: Text) returns (s: Text)
    ensures s == Escape(source)
  {
    s := [];
    var n := 0;
    while n < |source|
      invariant 0 <= n <= |source|
      invariant s + Escape(source[n..]) == Escape(source)
    {
      Assoc(s, EscapeByte(source[n]), Escape(source[n + 1..]));
      assert source[n..][1..] == source[n + 1..];
      s := s + EscapeByte(source[n]);
      n := n + 1;
    }
  }

  predicate IsOctal(b: Byte)
  {
    ZERO <= b <= ZERO + 7
  }

  /** Number of leading octal digits, at most `k`. */
  function OctalLen(s: Text, k: nat): (n: nat)
    ensures n <= k && n <= |s|
    ensures k > 0 && s != [] && IsOctal(s[0]) ==> n > 0
  {
    if k == 0 || s == [] || !IsOctal(s[0]) then 0 else 1 + OctalLen(s[1..], k - 1)
  }

  /** The digits read into a byte starting at `acc`; the byte wraps around. */
  function OctalValue(acc: Byte, digits: Text): Byte
    requires forall i :: 0 <= i < |digits| ==> IsOctal(digits[i])
    decreases |digits|
  {
    if digits == [] then acc
    else
      assert IsOctal(digits[0]);
      OctalValue((acc * 8 + (digits[0] - ZERO)) % 256, digits[1..])
  }

  lemma {:induction false} OctalLenIsOctal(s: Text, k: nat)
    ensures forall i :: 0 <= i < OctalLen(s, k) ==> IsOctal(s[i])
  {
    if k > 0 && s != [] && IsOctal(s[0]) {
      OctalLenIsOctal(s[1..], k - 1);
      assert forall i :: 0 < i < |s| ==> s[i] == s[1..][i - 1];
    }
  }

  /** What unescape_fstab writes before the terminating NUL. */
  function Unescape(s: Text): (r: Text)
    ensures |r| <= |s|
    decreases |s|
  {
    if s == [] then []
    else if s[0] != BACKSLASH then [s[0]] + Unescape(s[1..])
    else if |s| == 1 then []
    else if IsOctal(s[1]) then
      var k := OctalLen(s[1..], 3);
      OctalLenIsOctal(s[1..], 3);
      [OctalValue(0, s[1..][..k])] + Unescape(s[1..][k..])
    else [s[1]] + Unescape(s[2..])
  }

  /** unescape_fstab in place of its C buffer: `dest` has room for strlen + 1 bytes, every write
      is inside it, and what is left is the unescaped text and a NUL. */
  method UnescapeFstab(source: Text) returns (dest: array<Byte>, q: nat)
    requires NUL !in source
    ensures fresh(dest) && dest.Length == |source| + 1
    ensures q <= |source| && dest[q] == NUL && dest[..q] == Unescape(source)
  {
    dest := new Byte[|source| + 1];
    var p := 0;
    q := 0;
    ghost var written := [];
    while p < |source| && !(source[p] == BACKSLASH && p + 1 == |source|)
      invariant 0 <= q <= p <= |source|
      invariant dest[..q] == written
      invariant written + Unescape(source[p..]) == Unescape(source)
    {
      p := UnescapeOne(source, p, dest, q);
      Assoc(written, [dest[q]], Unescape(source[p..]));
      q := q + 1;
      written := written + [dest[q - 1]];
    }
    dest[q] := NUL;
  }

  /** One round of the outer loop, when it does not stop at a trailing backslash. */
  method UnescapeOne(source: Text, start: nat, dest: array<Byte>, q: nat) returns (p: nat)
    requires start < |source| && q < dest.Length
    requires source[start] == BACKSLASH ==> start + 1 < |source|
    modifies dest
    ensures start < p <= |source|
    ensures Unescape(source[start..]) == [dest[q]] + Unescape(source[p..])
    ensures forall i :: 0 <= i < dest.Length && i != q ==> dest[i] == old(dest[i])
  {
    ghost var s := source[start..];
    if source[start] == BACKSLASH {
      p := start + 1;
      assert s[1..] == source[p..];
      if IsOctal(source[p]) {
        p := ReadOctal(source, p, dest, q);
        assert s[1..][OctalLen(s[1..], 3)..] == source[p..];
      } else {
        dest[q] := source[p];
        p := p + 1;
        assert s[2..] == source[p..];
      }
    } else {
      dest[q] := source[start];
      p := start + 1;
      assert s[1..] == source[p..];
    }
  }

  /** The inner loop: up to three octal digits accumulated in the destination byte. */
  method ReadOctal(source: Text, start: nat, dest: array<Byte>, q: nat) returns (p: nat)
    requires start <= |source| && q < dest.Length
    modifies dest
    ensures p == start + OctalLen(source[start..], 3)
    ensures forall i :: 0 <= i < OctalLen(source[start..], 3) ==> IsOctal(source[start..][i])
    ensures dest[q] == OctalValue(0, source[start..][..OctalLen(source[start..], 3)])
    ensures forall i :: 0 <= i < dest.Length && i != q ==> dest[i] == old(dest[i])
  {
    ghost var digits := source[start..];
    ghost var n := OctalLen(digits, 3);
    OctalLenIsOctal(digits, 3);
    dest[q] := 0;
    p := start;
    while p < start + 3 && p < |source| && IsOctal(source[p])
      invariant start <= p <= |source| && p <= start + 3
      invariant p - start + OctalLen(source[p..], 3 - (p - start)) == n
      invariant OctalValue(dest[q], digits[p - start..n]) == OctalValue(0, digits[..n])
      invariant forall i :: 0 <= i < dest.Length && i != q ==> dest[i] == old(dest[i])
    {
      assert source[p..][1..] == source[p + 1..];
      assert digits[p - start..n][1..] == digits[p + 1 - start..n];
      assert digits[p - start..n][0] == source[p];
      dest[q] := (dest[q] * 8 + (source[p] - ZERO)) % 256;
      p := p + 1;
    }
    assert digits[p - start..n] == [];
  }

  // ----- escape then unescape -----

  lemma OctalValueOfThree(d: Text)
    requires |d| == 3 && IsOctal(d[0]) && IsOctal(d[1]) && IsOctal(d[2])
    ensures OctalValue(0, d) == ((d[0] - ZERO) * 64 + (d[1] - ZERO) * 8 + (d[2] - ZERO)) % 256
  {
    var a := d[0] - ZERO;
    var b := (a * 8 + (d[1] - ZERO)) % 256;
    assert OctalValue(0, d) == OctalValue(a, d[1..]);
    assert d[1..][0] == d[1] && d[1..][1..] == [d[2]];
    assert OctalValue(a, d[1..]) == OctalValue(b, [d[2]]);
    assert OctalValue(b, [d[2]]) == OctalValue((b * 8 + (d[2] - ZERO)) % 256, []);
  }

  lemma OctalLenOfThree(t: Text)
    requires |t| >= 3 && IsOctal(t[0]) && IsOctal(t[1]) && IsOctal(t[2])
    ensures OctalLen(t, 3) == 3
  {
    assert t[1..][0] == t[1] && t[1..][1..][0] == t[2];
    assert OctalLen(t[1..][1..], 1) == 1 && OctalLen(t[1..], 2) == 2;
  }

  lemma UnescapeOfEscapedByte(b: Byte, rest: Text)
    requires b in ESCAPED
    ensures Unescape(EscapeByte(b) + rest) == [b] + Unescape(rest)
  {
    var s := EscapeByte(b) + rest;
    var t := s[1..];
    assert t[0] == EscapeByte(b)[1] && t[1] == EscapeByte(b)[2] && t[2] == EscapeByte(b)[3];
    OctalLenOfThree(t);
    OctalValueOfThree(t[..3]);
    assert OctalValue(0, t[..3]) == b;
    assert t[3..] == rest;
  }

  lemma {:induction false} UnescapeAfterEscape(s: Text, rest: Text)
    ensures Unescape(Escape(s) + rest) == s + Unescape(rest)
  {
    if s == [] {
      assert Escape(s) + rest == rest;
      assert s + Unescape(rest) == Unescape(rest);
    } else {
      UnescapeAfterEscape(s[1..], rest);
      Assoc(EscapeByte(s[0]), Escape(s[1..]), rest);
      Assoc([s[0]], s[1..], Unescape(rest));
      assert [s[0]] + s[1..] == s;
      var tail := Escape(s[1..]) + rest;
      if s[0] in ESCAPED {
        UnescapeOfEscapedByte(s[0], tail);
      } else {
        assert ([s[0]] + tail)[1..] == tail;
      }
    }
  }

  /** Unescaping inverts escaping on every byte string. */
  lemma UnescapeInvertsEscape(s: Text)
    ensures Unescape(Escape(s)) == s
  {
    UnescapeAfterEscape(s, []);
    assert Escape(s) + [] == Escape(s);
  }

  /** The escaped form is never cut by the splitters on newline or blanks; only the three
      white-space bytes escape_fstab leaves alone still can. */
  lemma {:induction false} EscapeHasNoBlanks(s: Text)
    ensures forall i :: 0 <= i < |Escape(s)| ==> Escape(s)[i] !in {SPACE, TAB, NEWLINE}
    ensures VT !in s && FF !in s && CR !in s ==> NoSeps(Escape(s), WHITESPACE)
    ensures NUL !in s ==> NUL !in Escape(s)
    ensures s != [] ==> Escape(s) != []
  {
    if s != [] {
      EscapeHasNoBlanks(s[1..]);
    }
  }

  // ----- the matcher and the printer -----

  /** What a scanned word stands for when compared as a C string. */
  function Field(w: Text): Text
  {
    CStr(Unescape(w))
  }

  function Fields(ws: seq<Text>): (fs: seq<Text>)
    ensures |fs| == |ws|
  {
    if ws == [] then [] else [Field(ws[0])] + Fields(ws[1..])
  }

  /** `sscanf (line, "%511s %511s %511s %511s %d %d") == 6`, then the four fields unescaped. */
  function ParseFstabLine(line: Text): Option<FstabEntry>
  {
    var scan := ScanWords(line, 4);
    if |scan.0| < 4 then None else
      match ScanInt(scan.1)
      case None => None
      case Some((freq, rest)) =>
        match ScanInt(rest)
        case None => None
        case Some((passno, _)) =>
          Some(EntryOf(Fields(scan.0), freq, passno))
  }

  function EntryOf(fs: seq<Text>, freq: Int32, passno: Int32): (e: FstabEntry)
    requires |fs| == 4
    ensures FieldList(e) == fs
  {
    FstabEntry(fs[0], fs[1], fs[2], fs[3], freq, passno)
  }

  function Spaced(w: Text, rest: Text): Text
  {
    w + ([SPACE] + rest)
  }

  function PrintFields(fs: seq<Text>, tail: Text): Text
  {
    if fs == [] then tail else Spaced(Escape(fs[0]), PrintFields(fs[1..], tail))
  }

  function FieldList(e: FstabEntry): seq<Text>
  {
    [e.fsname, e.dir, e.fstype, e.opts]
  }

  /** `"%s %s %s %s %d %d"` on the escaped fields. */
  function PrintFstabEntry(e: FstabEntry): Text
  {
    PrintFields(FieldList(e), Spaced(PrintInt(e.freq), PrintInt(e.passno)))
  }

  /** The fields that survive one print and one scan. */
  predicate Printable(f: Text)
  {
    f != [] && VT !in f && FF !in f && CR !in f && |Escape(f)| <= SCAN_WIDTH
  }

  predicate AllPrintable(fs: seq<Text>)
  {
    forall i :: 0 <= i < |fs| ==> Printable(fs[i])
  }

  /** D-Bus hands the fields over as C strings. */
  predicate CStrings(fs: seq<Text>)
  {
    forall i :: 0 <= i < |fs| ==> NUL !in fs[i]
  }

  lemma {:induction false} ScanPlainWord(w: Text, rest: Text)
    requires w != [] && NoSeps(w, WHITESPACE) && |w| <= SCAN_WIDTH
    ensures ScanWord(Spaced(w, rest)) == Some((w, [SPACE] + rest))
  {
    var s := Spaced(w, rest);
    WordLenOfWord(w, [SPACE] + rest, WHITESPACE);
    assert s[0] == w[0];
    assert s[..|w|] == w && s[|w|..] == [SPACE] + rest;
  }

  lemma {:induction false} ScanSkipsSpace(s: Text)
    ensures ScanWord([SPACE] + s) == ScanWord(s)
  {
    SkipSepsPrefix([SPACE], s, WHITESPACE);
  }

  lemma PrintableFieldIsKept(f: Text)
    requires NUL !in f && Printable(f)
    ensures Escape(f) != [] && NoSeps(Escape(f), WHITESPACE) && Field(Escape(f)) == f
  {
    EscapeHasNoBlanks(f);
    UnescapeInvertsEscape(f);
    CStrIsPrefixBeforeNul(f);
  }

  // ----- which fields are lost -----

  /** Text in which every backslash starts a complete escape. */
  predicate WellEscaped(t: Text)
  {
    t == [] ||
    (t[0] != NUL && t[0] != BACKSLASH && WellEscaped(t[1..])) ||
    (t[0] == BACKSLASH && |t| >= 4 && (exists b :: b in ESCAPED && t[..4] == EscapeByte(b)) && WellEscaped(t[4..]))
  }

  lemma {:induction false} EscapeIsWellEscaped(s: Text, rest: Text)
    requires NUL !in s && WellEscaped(rest)
    ensures WellEscaped(Escape(s) + rest)
  {
    if s == [] {
      assert Escape(s) + rest == rest;
    } else {
      EscapeIsWellEscaped(s[1..], rest);
      var tail := Escape(s[1..]) + rest;
      Assoc(EscapeByte(s[0]), Escape(s[1..]), rest);
      var t := EscapeByte(s[0]) + tail;
      if s[0] in ESCAPED {
        assert t[..4] == EscapeByte(s[0]) && t[4..] == tail;
      } else {
        assert t[1..] == tail;
      }
    }
  }

  lemma {:induction false} PlainIsWellEscaped(s: Text, rest: Text)
    requires NUL !in s && BACKSLASH !in s && WellEscaped(rest)
    ensures WellEscaped(s + rest)
  {
    if s == [] {
      assert s + rest == rest;
    } else {
      PlainIsWellEscaped(s[1..], rest);
      assert (s + rest)[1..] == s[1..] + rest;
    }
  }

  lemma {:induction false} SkipKeepsWellEscaped(t: Text)
    requires WellEscaped(t)
    ensures WellEscaped(SkipSeps(t, WHITESPACE))
  {
    if t != [] && t[0] in WHITESPACE {
      SkipKeepsWellEscaped(t[1..]);
    }
  }

  lemma {:induction false} FieldOfEscape(u: Text, w: Text, b: Byte)
    requires b in ESCAPED && |u| >= 4 && u[..4] == EscapeByte(b)
    requires 4 <= |w| <= |u| && w == u[..|w|]
    ensures Field(w) != [] && Field(w)[0] == b
  {
    assert w[..4] == u[..4];
    assert w == EscapeByte(b) + w[4..];
    UnescapeOfEscapedByte(b, w[4..]);
  }

  /** The first byte of a word scanned from well-escaped text is a real one: not the end of
      the string, and not one of the white-space bytes the escaper leaves alone. */
  lemma {:induction false} ScannedFieldStart(t: Text)
    requires WellEscaped(t) && ScanWord(t).Some?
    ensures var f := Field(ScanWord(t).value.0);
            f != [] && f[0] !in {NUL, VT, FF, CR}
  {
    SkipKeepsWellEscaped(t);
    var u := SkipSeps(t, WHITESPACE);
    var w := ScanWord(t).value.0;
    assert w[0] == u[0] && w == u[..|w|];
    if u[0] == BACKSLASH {
      var b :| b in ESCAPED && u[..4] == EscapeByte(b);
      EscapeIsNotCut(u, b);
      FieldOfEscape(u, w, b);
    } else {
      assert Unescape(w)[0] == w[0];
    }
  }

  lemma EscapeIsNotCut(u: Text, b: Byte)
    requires b in ESCAPED && |u| >= 4 && u[..4] == EscapeByte(b)
    ensures WordLen(u, WHITESPACE) >= 4
  {
    assert forall i :: 0 <= i < 4 ==> u[i] == EscapeByte(b)[i];
    assert forall i :: 0 <= i < 4 ==> u[i] !in WHITESPACE;
  }

  /** A word cut short never reads back as the whole field. */
  lemma {:induction false} CutFieldDiffers(f: Text, k: nat)
    requires NUL !in f && k < |Escape(f)|
    ensures Field(Escape(f)[..k]) != f
  {
    var b := f[0];
    var e := EscapeByte(b);
    var tail := Escape(f[1..]);
    var w := Escape(f)[..k];
    if k >= |e| {
      CutFieldDiffers(f[1..], k - |e|);
      assert w == e + tail[..k - |e|];
      if b in ESCAPED {
        UnescapeOfEscapedByte(b, tail[..k - |e|]);
      } else {
        assert w[1..] == tail[..k - |e|];
      }
      assert Unescape(w) == [b] + Unescape(tail[..k - |e|]);
      assert Field(w)[1..] == Field(tail[..k - |e|]);
    } else if k > 0 {
      assert w == e[..k];
      CutEscape(b, k);
    }
  }

  lemma {:induction false} OneDigit(d: Byte)
    requires IsOctal(d)
    ensures Unescape([BACKSLASH, d]) == [d - ZERO]
  {
    var t := [BACKSLASH, d][1..];
    assert t == [d] && t[1..] == [];
    assert OctalLen(t, 3) == 1;
    assert t[..1] == t && OctalValue(0, t) == OctalValue(d - ZERO, t[1..]);
  }

  lemma {:induction false} TwoDigits(d: Byte, e: Byte)
    requires IsOctal(d) && IsOctal(e)
    ensures Unescape([BACKSLASH, d, e]) == [(d - ZERO) * 8 + (e - ZERO)]
  {
    var t := [BACKSLASH, d, e][1..];
    assert t == [d, e] && t[1..] == [e] && t[1..][1..] == [];
    assert OctalLen(t[1..], 2) == 1;
    assert OctalLen(t, 3) == 2;
    assert t[..2] == t && OctalValue(0, t) == OctalValue(d - ZERO, t[1..]);
    assert OctalValue(d - ZERO, t[1..]) == OctalValue((d - ZERO) * 8 + (e - ZERO), t[1..][1..]);
  }

  lemma {:induction false} CutEscape(b: Byte, k: nat)
    requires b in ESCAPED && 0 < k < 4
    ensures var f := Field(EscapeByte(b)[..k]); f == [] || f[0] != b
  {
    var e := EscapeByte(b);
    if k == 1 {
      assert e[..k] == [BACKSLASH];
    } else if k == 2 {
      assert e[..k] == [BACKSLASH, e[1]];
      OneDigit(e[1]);
    } else {
      assert e[..k] == [BACKSLASH, e[1], e[2]];
      TwoDigits(e[1], e[2]);
    }
  }

  lemma {:induction false} UnescapeOfCutIsShort(f: Text, k: nat)
    requires k <= |Escape(f)|
    ensures |Unescape(Escape(f)[..k])| <= |f|
  {
    if f != [] && k > 0 {
      var b := f[0];
      var e := EscapeByte(b);
      var tail := Escape(f[1..]);
      var w := Escape(f)[..k];
      if k >= |e| {
        UnescapeOfCutIsShort(f[1..], k - |e|);
        assert w == e + tail[..k - |e|];
        if b in ESCAPED {
          UnescapeOfEscapedByte(b, tail[..k - |e|]);
        } else {
          assert w[1..] == tail[..k - |e|];
        }
      } else {
        assert w == e[..k];
        UnescapeOfCutEscape(b, k);
      }
    }
  }

  lemma UnescapeOfCutEscape(b: Byte, k: nat)
    requires b in ESCAPED && 0 < k < 4
    ensures |Unescape(EscapeByte(b)[..k])| <= 1
  {
    var t := EscapeByte(b)[..k][1..];
    if k == 2 {
      assert OctalLen(t, 3) == 1;
    } else if k == 3 {
      assert t[1..][0] == t[1];
      assert OctalLen(t[1..], 2) == 1;
      assert OctalLen(t, 3) == 2;
    }
  }

  lemma {:induction false} EscapeConcat(a: Text, b: Text)
    ensures Escape(a + b) == Escape(a) + Escape(b)
  {
    if a == [] {
      assert a + b == b;
    } else {
      EscapeConcat(a[1..], b);
      assert (a + b)[1..] == a[1..] + b;
      Assoc(EscapeByte(a[0]), Escape(a[1..]), Escape(b));
    }
  }

  /** A field cut at a white-space byte the escaper leaves alone. */
  lemma {:induction false} FieldCutAtWhitespace(f: Text, i: nat, rest: Text)
    requires 0 < i < |f| && f[i] in {VT, FF, CR}
    requires forall j :: 0 <= j < i ==> f[j] !in {VT, FF, CR}
    ensures var r := ScanWord(Spaced(Escape(f), rest));
            r.Some? && Field(r.value.0) != f
  {
    var a, b := f[..i], f[i..];
    assert f == a + b;
    EscapeConcat(a, b);
    EscapeHasNoBlanks(a);
    var tail := Escape(b) + ([SPACE] + rest);
    Assoc(Escape(a), Escape(b), [SPACE] + rest);
    ScanCutWord(Escape(a), tail);
    var k := if |Escape(a)| <= SCAN_WIDTH then |Escape(a)| else SCAN_WIDTH;
    UnescapeOfCutIsShort(a, k);
    CStrIsPrefixBeforeNul(Unescape(Escape(a)[..k]));
  }

  lemma {:induction false} ScanCutWord(w: Text, tail: Text)
    requires w != [] && NoSeps(w, WHITESPACE) && tail != [] && tail[0] in WHITESPACE
    ensures ScanWord(w + tail).Some?
    ensures ScanWord(w + tail).value.0 == w[..if |w| <= SCAN_WIDTH then |w| else SCAN_WIDTH]
  {
    WordLenOfWord(w, tail, WHITESPACE);
    assert (w + tail)[0] == w[0];
  }

  /** A field comes back from one print and one scan if and only if it is printable. */
  lemma FieldRoundTrip(f: Text, rest: Text)
    requires NUL !in f && WellEscaped(rest)
    ensures Printable(f) ==> ScanWord(Spaced(Escape(f), rest)) == Some((Escape(f), [SPACE] + rest))
                             && Field(Escape(f)) == f
    ensures !Printable(f) ==> var r := ScanWord(Spaced(Escape(f), rest)); r.None? || Field(r.value.0) != f
  {
    var s := Spaced(Escape(f), rest);
    if Printable(f) {
      PrintableFieldIsKept(f);
      ScanPlainWord(Escape(f), rest);
    } else if f == [] {
      assert s == [SPACE] + rest;
      ScanSkipsSpace(rest);
      if ScanWord(rest).Some? {
        ScannedFieldStart(rest);
      }
    } else if f[0] in {VT, FF, CR} {
      EscapeIsWellEscaped(f, [SPACE] + rest);
      if ScanWord(s).Some? {
        ScannedFieldStart(s);
      }
    } else if VT in f || FF in f || CR in f {
      var i := FirstBad(f);
      FieldCutAtWhitespace(f, i, rest);
    } else {
      EscapeHasNoBlanks(f);
      WordLenOfWord(Escape(f), [SPACE] + rest, WHITESPACE);
      assert s[0] == Escape(f)[0];
      assert s[..SCAN_WIDTH] == Escape(f)[..SCAN_WIDTH];
      CutFieldDiffers(f, SCAN_WIDTH);
    }
  }

  function FirstBad(f: Text): (i: nat)
    requires VT in f || FF in f || CR in f
    ensures i < |f| && f[i] in {VT, FF, CR}
    ensures forall j :: 0 <= j < i ==> f[j] !in {VT, FF, CR}
  {
    if f[0] in {VT, FF, CR} then 0 else 1 + FirstBad(f[1..])
  }

  lemma {:induction false} PrintFieldsIsWellEscaped(fs: seq<Text>, tail: Text)
    requires CStrings(fs) && WellEscaped(tail)
    ensures WellEscaped(PrintFields(fs, tail))
  {
    if fs != [] {
      PrintFieldsIsWellEscaped(fs[1..], tail);
      EscapeIsWellEscaped(fs[0], [SPACE] + PrintFields(fs[1..], tail));
    }
  }

  lemma {:induction false} ScanWordsSkipsSpace(s: Text, k: nat)
    requires k > 0
    ensures ScanWords([SPACE] + s, k).0 == ScanWords(s, k).0
    ensures ScanWords(s, k).0 != [] ==> ScanWords([SPACE] + s, k) == ScanWords(s, k)
  {
    ScanSkipsSpace(s);
  }

  lemma {:induction false} ScanWordsCons(s: Text, k: nat)
    requires k > 0 && ScanWord(s).Some?
    ensures var (w, rest) := ScanWord(s).value;
            && ScanWords(s, k) == ([w] + ScanWords(rest, k - 1).0, ScanWords(rest, k - 1).1)
            && Fields(ScanWords(s, k).0) == [Field(w)] + Fields(ScanWords(rest, k - 1).0)
  {
    var (w, rest) := ScanWord(s).value;
    assert ([w] + ScanWords(rest, k - 1).0)[1..] == ScanWords(rest, k - 1).0;
  }

  lemma {:induction false} FieldsRoundTripStep(fs: seq<Text>, w: Text, ws: seq<Text>)
    requires fs != [] && Field(w) == fs[0] && Printable(fs[0])
    requires Fields(ws) == fs[1..] <==> AllPrintable(fs[1..])
    ensures [Field(w)] + Fields(ws) == fs <==> AllPrintable(fs)
  {
    assert fs == [fs[0]] + fs[1..];
    assert ([Field(w)] + Fields(ws))[1..] == Fields(ws);
    assert forall i :: 0 <= i < |fs[1..]| ==> fs[1..][i] == fs[i + 1];
    assert forall i :: 0 < i < |fs| ==> fs[i] == fs[1..][i - 1];
  }

  /** Scanning the fields behind the first one. */
  lemma {:induction false} FieldsRoundTripRest(fs: seq<Text>, tail: Text)
    requires CStrings(fs) && WellEscaped(tail)
    ensures var r := ScanWords([SPACE] + PrintFields(fs, tail), |fs|);
            && (Fields(r.0) == fs <==> AllPrintable(fs))
            && (AllPrintable(fs) ==> r.1 == [SPACE] + tail)
    decreases |fs|, 1
  {
    if fs != [] {
      FieldsRoundTrip(fs, tail);
      FieldsBehindSpace(fs, PrintFields(fs, tail), tail);
    }
  }

  lemma {:induction false} FieldsBehindSpace(fs: seq<Text>, s: Text, tail: Text)
    requires fs != []
    requires Fields(ScanWords(s, |fs|).0) == fs <==> AllPrintable(fs)
    requires AllPrintable(fs) ==> ScanWords(s, |fs|).1 == [SPACE] + tail
    ensures var r := ScanWords([SPACE] + s, |fs|);
            && (Fields(r.0) == fs <==> AllPrintable(fs))
            && (AllPrintable(fs) ==> r.1 == [SPACE] + tail)
  {
    ScanWordsSkipsSpace(s, |fs|);
    if ScanWords(s, |fs|).0 == [] {
      assert Fields([]) == [];
    }
  }

  /** Scanning the printed fields. */
  lemma {:induction false} FieldsRoundTrip(fs: seq<Text>, tail: Text)
    requires fs != [] && CStrings(fs) && WellEscaped(tail)
    ensures Fields(ScanWords(PrintFields(fs, tail), |fs|).0) == fs <==> AllPrintable(fs)
    ensures AllPrintable(fs) ==> ScanWords(PrintFields(fs, tail), |fs|).1 == [SPACE] + tail
    decreases |fs|, 0
  {
    var rest := PrintFields(fs[1..], tail);
    var s := PrintFields(fs, tail);
    PrintFieldsIsWellEscaped(fs[1..], tail);
    FieldRoundTrip(fs[0], rest);
    if ScanWord(s).Some? {
      ScanWordsCons(s, |fs|);
      var (w, after) := ScanWord(s).value;
      if Printable(fs[0]) {
        FieldsRoundTripRest(fs[1..], tail);
        FieldsRoundTripStep(fs, w, ScanWords(after, |fs| - 1).0);
      }
    }
  }

  lemma {:induction false} NumbersScan(freq: Int32, passno: Int32)
    ensures ScanInt([SPACE] + Spaced(PrintInt(freq), PrintInt(passno))) == Some((freq, [SPACE] + PrintInt(passno)))
    ensures ScanInt([SPACE] + PrintInt(passno)) == Some((passno, []))
  {
    ScanIntSkipsSpace(Spaced(PrintInt(freq), PrintInt(passno)));
    ScanIntSkipsSpace(PrintInt(passno));
    IntRoundTrip(freq, [SPACE] + PrintInt(passno));
    IntRoundTrip(passno, []);
    assert PrintInt(passno) + [] == PrintInt(passno);
  }

  lemma {:induction false} NumbersAreWellEscaped(freq: Int32, passno: Int32)
    ensures WellEscaped(Spaced(PrintInt(freq), PrintInt(passno)))
  {
    PrintIntIsPlain(freq);
    PrintIntIsPlain(passno);
    assert PrintInt(passno) + [] == PrintInt(passno);
    PlainIsWellEscaped(PrintInt(passno), []);
    var t := [SPACE] + PrintInt(passno);
    assert t[1..] == PrintInt(passno);
    PlainIsWellEscaped(PrintInt(freq), t);
  }

  /** The printed line parses back to the entry if and only if all four fields are printable. */
  lemma {:induction false} FstabLineRoundTrip(e: FstabEntry)
    requires CStrings(FieldList(e))
    ensures ParseFstabLine(PrintFstabEntry(e)) == Some(e) <==> AllPrintable(FieldList(e))
  {
    var tail := Spaced(PrintInt(e.freq), PrintInt(e.passno));
    NumbersScan(e.freq, e.passno);
    NumbersAreWellEscaped(e.freq, e.passno);
    FieldsRoundTrip(FieldList(e), tail);
    var scan := ScanWords(PrintFstabEntry(e), 4);
    if AllPrintable(FieldList(e)) {
      assert |Fields(scan.0)| == 4;
    } else {
      ParsedFields(PrintFstabEntry(e));
    }
  }

  lemma {:induction false} EscapeIsNotShorter(f: Text)
    ensures |Escape(f)| >= |f|
  {
    if f != [] {
      EscapeIsNotShorter(f[1..]);
    }
  }

  /** Entries that do not read back: with an empty field, with a carriage return in a field, and
      with a field longer than the scanner reads. */
  lemma {:induction false} LostFields(long: Text)
    requires |long| > SCAN_WIDTH && NUL !in long
    ensures forall f :: f in {[], B("a\rb"), long} ==>
              var e := FstabEntry(B("a"), f, B("b"), B("c"), 0, 0); ParseFstabLine(PrintFstabEntry(e)) != Some(e)
  {
    EscapeIsNotShorter(long);
    forall f | f in {[], B("a\rb"), long}
      ensures var e := FstabEntry(B("a"), f, B("b"), B("c"), 0, 0); ParseFstabLine(PrintFstabEntry(e)) != Some(e)
    {
      var e := FstabEntry(B("a"), f, B("b"), B("c"), 0, 0);
      assert B("a\rb")[1] == CR;
      assert FieldList(e)[1] == f && !Printable(f);
      FstabLineRoundTrip(e);
    }
  }

  lemma {:induction false} ParsedFields(line: Text)
    ensures ParseFstabLine(line).Some? ==> FieldList(ParseFstabLine(line).value) == Fields(ScanWords(line, 4).0)
  {
  }

  /** The printed line is one line, so appending it does not disturb the others. */
  lemma {:induction false} PrintedEntryIsOneLine(e: FstabEntry)
    ensures NEWLINE !in PrintFstabEntry(e)
    ensures CStrings(FieldList(e)) ==> NUL !in PrintFstabEntry(e)
  {
    PrintIntIsPlain(e.freq);
    PrintIntIsPlain(e.passno);
    PrintFieldsOneLine(FieldList(e), Spaced(PrintInt(e.freq), PrintInt(e.passno)));
  }

  lemma {:induction false} PrintFieldsOneLine(fs: seq<Text>, tail: Text)
    requires NEWLINE !in tail && NUL !in tail
    ensures NEWLINE !in PrintFields(fs, tail)
    ensures CStrings(fs) ==> NUL !in PrintFields(fs, tail)
  {
    if fs != [] {
      PrintFieldsOneLine(fs[1..], tail);
      EscapeHasNoBlanks(fs[0]);
    }
  }
}
