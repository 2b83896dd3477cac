/** The key that drives are sorted by: groups by prefix, and `sd` names padded so that comparing
    bytes orders disks by number. */
module SortKeys {
  import opened OptionType
  import opened Bytes
  import opened Decimal

  const UNDERSCORE: Byte := 95
  const SD: Text := B("sd")

  predicate IsAlpha(c: Byte)
  {
    65 <= c <= 90 || 97 <= c <= 122
  }

  predicate IsLower(c: Byte)
  {
    97 <= c <= 122
  }

  predicate AllLower(s: Text)
  {
    forall i :: 0 <= i < |s| ==> IsLower(s[i])
  }

  /** `strcmp` says that `a` comes before `b`. */
  predicate Before(a: Text, b: Text)
  {
    StrCmp(a, b) < 0
  }

  function LeadingAlphas(s: Text): (n: nat)
    ensures n <= |s|
  {
    if s != [] && IsAlpha(s[0]) then 1 + LeadingAlphas(s[1..]) else 0
  }

  function Underscores(n: nat): (r: Text)
    ensures |r| == n && forall i :: 0 <= i < n ==> r[i] == UNDERSCORE
  {
    seq(n, _ => UNDERSCORE)
  }

  /** A suffix behind as many underscores as its letters fall short of the width. */
  function Padded(width: nat, suffix: Text): Text
  {
    Underscores(if LeadingAlphas(suffix) < width then width - LeadingAlphas(suffix) else 0) + suffix
  }

  const WIDTH: nat := 5

  /** append_fixedup_sd. */
  method AppendFixedupSd(prefix: Text, name: Text) returns (key: Option<Text>)
    ensures key == if SD <= name then Some(prefix + SD + Padded(WIDTH, name[2..])) else None
  {
    if !(SD <= name) {
      return None;
    }
    var numAlphas := 0;
    while numAlphas + 2 < |name| && IsAlpha(name[numAlphas + 2])
      invariant 0 <= numAlphas <= |name| - 2
      invariant LeadingAlphas(name[2..]) == numAlphas + LeadingAlphas(name[numAlphas + 2..])
    {
      assert name[numAlphas + 2..][1..] == name[numAlphas + 3..];
      numAlphas := numAlphas + 1;
    }
    var str := AppendUnderscores(prefix + SD, numAlphas);
    assert str + name[2..] == prefix + SD + Padded(WIDTH, name[2..]);
    return Some(str + name[2..]);
  }

  /** The padding loop. */
  method AppendUnderscores(start: Text, numAlphas: nat) returns (str: Text)
    ensures str == start + Underscores(if numAlphas < WIDTH then WIDTH - numAlphas else 0)
  {
    str := start;
    var n := numAlphas;
    while n < WIDTH
      invariant numAlphas <= n && (n <= WIDTH || n == numAlphas)
      invariant str == start + Underscores(n - numAlphas)
    {
      assert Underscores(n - numAlphas) + [UNDERSCORE] == Underscores(n + 1 - numAlphas);
      str := str + [UNDERSCORE];
      n := n + 1;
    }
  }

  // ----- the order of the padded names -----

  /** The number of a disk: its suffix read in base 26 without a zero, `a` being 1. */
  function Number(suffix: Text): nat
    requires AllLower(suffix)
  {
    if suffix == [] then 0
    else 26 * Number(suffix[..|suffix| - 1]) + (suffix[|suffix| - 1] - 96)
  }

  lemma {:induction false} ShorterIsLower(s: Text, t: Text)
    requires AllLower(s) && AllLower(t) && |s| < |t|
    ensures Number(s) < Number(t)
  {
    if s != [] {
      ShorterIsLower(s[..|s| - 1], t[..|t| - 1]);
    }
  }

  lemma {:induction false} BeforeSamePrefix(p: Text, a: Text, b: Text)
    ensures Before(p + a, p + b) == Before(a, b)
  {
    if p == [] {
      assert p + a == a && p + b == b;
    } else {
      assert (p + a)[1..] == p[1..] + a && (p + b)[1..] == p[1..] + b;
      BeforeSamePrefix(p[1..], a, b);
    }
  }

  lemma {:induction false} BeforeSnoc(a: Text, x: Byte, b: Text, y: Byte)
    requires |a| == |b|
    ensures Before(a + [x], b + [y]) <==> Before(a, b) || (a == b && x < y)
    ensures !(Before(a, b) && a == b)
  {
    if a == [] {
    } else {
      assert (a + [x])[1..] == a[1..] + [x] && (b + [y])[1..] == b[1..] + [y];
      BeforeSnoc(a[1..], x, b[1..], y);
      assert a == [a[0]] + a[1..] && b == [b[0]] + b[1..];
    }
  }

  lemma {:induction false} SameLengthInOrder(s: Text, t: Text)
    requires AllLower(s) && AllLower(t) && |s| == |t|
    ensures Before(s, t) <==> Number(s) < Number(t)
    ensures s == t <==> Number(s) == Number(t)
  {
    if s != [] {
      var a, x := s[..|s| - 1], s[|s| - 1];
      var b, y := t[..|t| - 1], t[|t| - 1];
      assert s == a + [x] && t == b + [y];
      SameLengthInOrder(a, b);
      BeforeSnoc(a, x, b, y);
    }
  }

  lemma {:induction false} LowerAreAlphas(s: Text)
    requires AllLower(s)
    ensures LeadingAlphas(s) == |s|
  {
    if s != [] {
      LowerAreAlphas(s[1..]);
    }
  }

  /** The padding puts a shorter suffix first. */
  lemma {:induction false} ShorterComesFirst(width: nat, s: Text, t: Text)
    requires AllLower(s) && AllLower(t) && |s| < |t| && |s| < width
    ensures Before(Padded(width, s), Padded(width, t)) && !Before(Padded(width, t), Padded(width, s))
  {
    LowerAreAlphas(s);
    LowerAreAlphas(t);
    var shared := if |t| < width then width - |t| else 0;
    var p := Underscores(shared);
    var a, b := Padded(width, s)[shared..], t;
    assert Padded(width, s) == p + a;
    assert Padded(width, t) == p + b;
    BeforeSamePrefix(p, a, b);
    BeforeSamePrefix(p, b, a);
    assert a[0] == UNDERSCORE;
  }

  /** Whether comparing padded suffixes of these lengths always agrees with comparing numbers. */
  ghost predicate InOrder(width: nat, m: nat, n: nat)
  {
    forall s: Text, t: Text :: |s| == m && |t| == n && AllLower(s) && AllLower(t) ==>
      (Before(Padded(width, s), Padded(width, t)) <==> Number(s) < Number(t))
  }

  /** Comparing keys is comparing numbers, for any width above zero, exactly for suffixes of one length and for
      pairs of which the shorter is padded. */
  lemma {:induction false} KeysAreInOrder(width: nat, m: nat, n: nat)
    requires width > 0
    ensures InOrder(width, m, n) <==> m == n || m < width || n < width
  {
    if m == n {
      forall s: Text, t: Text | |s| == m && |t| == n && AllLower(s) && AllLower(t)
        ensures Before(Padded(width, s), Padded(width, t)) <==> Number(s) < Number(t)
      {
        LowerAreAlphas(s);
        LowerAreAlphas(t);
        SameLengthInOrder(s, t);
        BeforeSamePrefix(Underscores(if m < width then width - m else 0), s, t);
      }
    } else if m < width || n < width {
      forall s: Text, t: Text | |s| == m && |t| == n && AllLower(s) && AllLower(t)
        ensures Before(Padded(width, s), Padded(width, t)) <==> Number(s) < Number(t)
      {
        if m < n {
          ShorterComesFirst(width, s, t);
          ShorterIsLower(s, t);
        } else {
          ShorterComesFirst(width, t, s);
          ShorterIsLower(t, s);
        }
      }
    } else if m < n {
      LongerComesFirst(width, m, n);
    } else {
      LongerComesFirst(width, n, m);
    }
  }

  /** "bb..." against a longer "aa...": a lower number, but behind it by bytes. */
  lemma {:induction false} LongerComesFirst(width: nat, m: nat, n: nat)
    requires 0 < width <= m < n
    ensures !InOrder(width, m, n) && !InOrder(width, n, m)
  {
    var s, t := seq<Byte>(m, _ => 98), seq<Byte>(n, _ => 97);
    LowerAreAlphas(s);
    LowerAreAlphas(t);
    assert Padded(width, s) == s && Padded(width, t) == t;
    ShorterIsLower(s, t);
    assert Before(t, s) && !Before(s, t);
  }

  // ----- the whole key -----

  /** What the key depends on; `detected` is the time of detection in microseconds. */
  datatype Drive = Drive(name: Text, removable: bool, coldplug: bool, detected: nat)

  /** The groups, in the order they are meant to be sorted. */
  datatype Group = Fixed | Floppy | Optical | OtherRemovable | Hotplug

  const FD: Text := B("fd")
  const SR: Text := B("sr")

  function GroupOf(d: Drive): Group
  {
    if !d.coldplug then Hotplug
    else if !d.removable then Fixed
    else if FD <= d.name then Floppy
    else if SR <= d.name then Optical
    else OtherRemovable
  }

  function Rank(g: Group): nat
  {
    match g case Fixed => 0 case Floppy => 1 case Optical => 2 case OtherRemovable => 3 case Hotplug => 4
  }

  /** The directory-like part of the key. */
  function Prefix(g: Group): Text
  {
    match g
    case Fixed => B("00coldplug/") + B("00fixed/")
    case Floppy => B("00coldplug/") + B("10removable/")
    case Optical => B("00coldplug/") + B("11removable/")
    case OtherRemovable => B("00coldplug/") + B("12removable/")
    case Hotplug => B("01hotplug/")
  }

  /** What follows the prefix. */
  function LastPart(d: Drive): Text
  {
    var g := GroupOf(d);
    if g.Hotplug? then PrintNat(d.detected)
    else if SD <= d.name && !g.Floppy? && !g.Optical? then SD + Padded(WIDTH, d.name[2..])
    else d.name
  }

  function Key(d: Drive): Text
  {
    Prefix(GroupOf(d)) + LastPart(d)
  }

  class LinuxDrive {
    var sortKey: Option<Text>

    constructor ()
      ensures sortKey == None
    {
      sortKey := None;
    }

    /** The sort key part of udisks_linux_drive_update: the key is calculated once. */
    method UpdateSortKey(d: Drive)
      modifies this
      ensures sortKey == if old(sortKey).Some? then old(sortKey) else Some(Key(d))
    {
      if sortKey.Some? {
        return;
      }
      if d.coldplug {
        if d.removable {
          if FD <= d.name {
            sortKey := Some(B("00coldplug/") + B("10removable/") + d.name);
          } else if SR <= d.name {
            sortKey := Some(B("00coldplug/") + B("11removable/") + d.name);
          } else if SD <= d.name {
            sortKey := AppendFixedupSd(B("00coldplug/") + B("12removable/"), d.name);
            KeyParts(Prefix(OtherRemovable), d.name);
          } else {
            sortKey := Some(B("00coldplug/") + B("12removable/") + d.name);
          }
        } else if SD <= d.name {
          sortKey := AppendFixedupSd(B("00coldplug/") + B("00fixed/"), d.name);
          KeyParts(Prefix(Fixed), d.name);
        } else {
          sortKey := Some(B("00coldplug/") + B("00fixed/") + d.name);
        }
      } else {
        sortKey := Some(B("01hotplug/") + PrintNat(d.detected));
      }
    }
  }

  lemma {:induction false} KeyParts(p: Text, name: Text)
    requires SD <= name
    ensures p + SD + Padded(WIDTH, name[2..]) == p + (SD + Padded(WIDTH, name[2..]))
  {
  }

  lemma {:induction false} PrefixDecides(p: Text, x: Text, q: Text, y: Text, k: nat)
    requires k < |p| && k < |q| && p[..k] == q[..k] && p[k] < q[k]
    ensures Before(p + x, q + y) && !Before(q + y, p + x)
  {
    assert p + x == p[..k] + (p[k..] + x) && q + y == p[..k] + (q[k..] + y);
    BeforeSamePrefix(p[..k], p[k..] + x, q[k..] + y);
    BeforeSamePrefix(p[..k], q[k..] + y, p[k..] + x);
  }

  lemma {:induction false} PrefixesDiffer(g: Group, h: Group) returns (k: nat)
    requires Rank(g) < Rank(h)
    ensures k < |Prefix(g)| && k < |Prefix(h)| && Prefix(g)[..k] == Prefix(h)[..k] && Prefix(g)[k] < Prefix(h)[k]
  {
    k := if h.Hotplug? then 1 else if g.Fixed? then 11 else 12;
  }

  /** Whatever the names, the groups sort as intended. */
  lemma {:induction false} GroupsAreInOrder(a: Drive, b: Drive)
    requires Rank(GroupOf(a)) < Rank(GroupOf(b))
    ensures Before(Key(a), Key(b)) && !Before(Key(b), Key(a))
  {
    var k := PrefixesDiffer(GroupOf(a), GroupOf(b));
    PrefixDecides(Prefix(GroupOf(a)), LastPart(a), Prefix(GroupOf(b)), LastPart(b), k);
  }

  predicate RemovableAtStart(d: Drive)
  {
    d.coldplug && d.removable
  }

  lemma {:induction false} NotBoth(name: Text)
    ensures !(B("fd") <= name && B("sr") <= name)
  {
    assert B("fd")[0] == 102 && B("sr")[0] == 115;
  }

  /** So drives found at start come before those plugged in later, and among them fixed ones before
      removable ones, and among these floppies before optical drives before all others. */
  lemma {:induction false} DrivesAreInOrder(a: Drive, b: Drive)
    ensures a.coldplug && !b.coldplug ==> Before(Key(a), Key(b))
    ensures a.coldplug && !a.removable && RemovableAtStart(b) ==> Before(Key(a), Key(b))
    ensures RemovableAtStart(a) && RemovableAtStart(b) ==>
              (B("fd") <= a.name && !(B("fd") <= b.name) ==> Before(Key(a), Key(b)))
    ensures RemovableAtStart(a) && RemovableAtStart(b) ==>
              (B("sr") <= a.name && !(B("fd") <= b.name) && !(B("sr") <= b.name) ==> Before(Key(a), Key(b)))
  {
    NotBoth(a.name);
    if Rank(GroupOf(a)) < Rank(GroupOf(b)) {
      GroupsAreInOrder(a, b);
    }
  }

  /** Two `sd` disks of one group are sorted by number when both have the same number of letters or
      one has fewer than five. */
  lemma {:induction false} DisksAreInOrder(a: Drive, b: Drive)
    requires GroupOf(a) == GroupOf(b) && (GroupOf(a).Fixed? || GroupOf(a).OtherRemovable?)
    requires SD <= a.name && AllLower(a.name[2..]) && SD <= b.name && AllLower(b.name[2..])
    requires |a.name| == |b.name| || |a.name| < WIDTH + 2 || |b.name| < WIDTH + 2
    ensures Before(Key(a), Key(b)) <==> Number(a.name[2..]) < Number(b.name[2..])
  {
    var p := Prefix(GroupOf(a));
    var s, t := a.name[2..], b.name[2..];
    BeforeSamePrefix(p, SD + Padded(WIDTH, s), SD + Padded(WIDTH, t));
    BeforeSamePrefix(SD, Padded(WIDTH, s), Padded(WIDTH, t));
    KeysAreInOrder(WIDTH, |s|, |t|);
  }

  // ----- hotplugged drives -----

  /** A number of fewer digits is lower. */
  lemma {:induction false} FewerDigitsAreLower(a: nat, b: nat)
    requires |PrintNat(a)| < |PrintNat(b)|
    ensures a < b
  {
    if a >= 10 {
      FewerDigitsAreLower(a / 10, b / 10);
    }
  }

  lemma {:induction false} BeforeOne(x: Byte, y: Byte)
    ensures Before([x], [y]) <==> x < y
  {
    BeforeSnoc([], x, [], y);
    assert [] + [x] == [x] && [] + [y] == [y];
  }

  lemma {:induction false} SameDigitsInOrder(a: nat, b: nat)
    requires |PrintNat(a)| == |PrintNat(b)|
    ensures Before(PrintNat(a), PrintNat(b)) <==> a < b
    ensures PrintNat(a) == PrintNat(b) <==> a == b
  {
    if a < 10 {
      BeforeOne(ZERO + a, ZERO + b);
    } else {
      SameDigitsInOrder(a / 10, b / 10);
      LastDigits(PrintNat(a / 10), ZERO + a % 10, PrintNat(b / 10), ZERO + b % 10);
    }
  }

  lemma {:induction false} LastDigits(s: Text, x: Byte, t: Text, y: Byte)
    requires |s| == |t|
    ensures Before(s + [x], t + [y]) <==> Before(s, t) || (s == t && x < y)
    ensures s + [x] == t + [y] <==> s == t && x == y
  {
    BeforeSnoc(s, x, t, y);
    if s + [x] == t + [y] {
      assert (s + [x])[..|s|] == s && (t + [y])[..|t|] == t;
      assert (s + [x])[|s|] == x && (t + [y])[|t|] == y;
    }
  }

  /** Whether comparing printed times of these numbers of digits always agrees with comparing the times. */
  ghost predicate TimesInOrder(m: nat, n: nat)
  {
    forall a: nat, b: nat :: |PrintNat(a)| == m && |PrintNat(b)| == n ==> (Before(PrintNat(a), PrintNat(b)) <==> a < b)
  }

  /** 99...9 */
  function Nines(m: nat): nat
  {
    if m == 0 then 0 else 10 * Nines(m - 1) + 9
  }

  /** 10...0, of `m` digits. */
  function RoundNumber(m: nat): nat
    requires m > 0
  {
    if m == 1 then 1 else 10 * RoundNumber(m - 1)
  }

  lemma {:induction false} NinesPrinted(m: nat)
    requires m > 0
    ensures |PrintNat(Nines(m))| == m && PrintNat(Nines(m))[0] == ZERO + 9
  {
    if m > 1 {
      NinesPrinted(m - 1);
    }
  }

  lemma {:induction false} RoundPrinted(m: nat)
    requires m > 0
    ensures RoundNumber(m) > 0 && |PrintNat(RoundNumber(m))| == m && PrintNat(RoundNumber(m))[0] == ZERO + 1
  {
    if m > 1 {
      RoundPrinted(m - 1);
    }
  }

  /** 99...9 against a longer 10...0: the earlier time, but behind it by bytes. */
  lemma {:induction false} NinesComeLast(m: nat, n: nat)
    requires 0 < m < n
    ensures !TimesInOrder(m, n) && !TimesInOrder(n, m)
  {
    var a, b := Nines(m), RoundNumber(n);
    NinesPrinted(m);
    RoundPrinted(n);
    FewerDigitsAreLower(a, b);
    assert Before(PrintNat(b), PrintNat(a)) && !Before(PrintNat(a), PrintNat(b));
  }

  /** Comparing the printed times of detection is comparing the times exactly when they have the same
      number of digits. */
  lemma {:induction false} TimesAreInOrder(m: nat, n: nat)
    requires m > 0 && n > 0
    ensures TimesInOrder(m, n) <==> m == n
  {
    if m == n {
      forall a: nat, b: nat | |PrintNat(a)| == m && |PrintNat(b)| == n
        ensures Before(PrintNat(a), PrintNat(b)) <==> a < b
      {
        SameDigitsInOrder(a, b);
      }
    } else if m < n {
      NinesComeLast(m, n);
    } else {
      NinesComeLast(n, m);
    }
  }

  /** So two hotplugged drives are sorted by time when their times have the same number of digits, as
      microseconds since 1970 have from 2001 to 2286. */
  lemma {:induction false} HotpluggedAreInOrder(a: Drive, b: Drive)
    requires GroupOf(a).Hotplug? && GroupOf(b).Hotplug? && |PrintNat(a.detected)| == |PrintNat(b.detected)|
    ensures Before(Key(a), Key(b)) <==> a.detected < b.detected
  {
    BeforeSamePrefix(Prefix(Hotplug), PrintNat(a.detected), PrintNat(b.detected));
    SameDigitsInOrder(a.detected, b.detected);
  }
}
