/** The `x-parent=` options: removing the old ones in place, walking up the ancestry, and
    appending one per ancestor that has a UUID. */
module ParentTracking {
  import opened OptionType
  import opened Sequences
  import opened Bytes

  const X_PARENT: Text := B("x-parent=")

  /** `strstr`: offset of the first occurrence. */
  function Find(s: Text, needle: Text): (r: Option<nat>)
    requires needle != []
    ensures r.Some? ==> r.value + |needle| <= |s| && s[r.value..r.value + |needle|] == needle
  {
    if |s| < |needle| then None
    else if s[..|needle|] == needle then Some(0)
    else
      match Find(s[1..], needle)
      case None => None
      case Some(k) => Some(k + 1)
  }

  predicate OccursAt(s: Text, needle: Text, k: nat)
  {
    k + |needle| <= |s| && s[k..k + |needle|] == needle
  }

  ghost predicate FirstOccursAt(s: Text, needle: Text, k: nat)
  {
    OccursAt(s, needle, k) && forall j: nat :: j < k ==> !OccursAt(s, needle, j)
  }

  lemma {:induction false} OccursLater(s: Text, needle: Text, k: nat)
    requires |s| > 0 && needle != []
    ensures OccursAt(s, needle, k + 1) <==> OccursAt(s[1..], needle, k)
  {
    if k + 1 + |needle| <= |s| {
      assert s[1..][k..k + |needle|] == s[k + 1..k + 1 + |needle|];
    }
  }

  lemma {:induction false} FirstOccursLater(s: Text, needle: Text, k: nat)
    requires |s| > 0 && needle != [] && !OccursAt(s, needle, 0)
    ensures FirstOccursAt(s, needle, k + 1) <==> FirstOccursAt(s[1..], needle, k)
  {
    forall j: nat | j <= k ensures OccursAt(s, needle, j + 1) <==> OccursAt(s[1..], needle, j) {
      OccursLater(s, needle, j);
    }
    if FirstOccursAt(s[1..], needle, k) {
      forall j: nat | j < k + 1 ensures !OccursAt(s, needle, j) {
        assert j > 0 ==> OccursAt(s, needle, (j - 1) + 1) == OccursAt(s[1..], needle, j - 1);
      }
    }
  }

  /** It is the first occurrence, and there is one as soon as the needle occurs at all. */
  lemma {:induction false} FindIsFirst(s: Text, needle: Text, k: nat)
    requires needle != []
    ensures Find(s, needle) == Some(k) <==> FirstOccursAt(s, needle, k)
    decreases |s|
  {
    if |s| >= |needle| {
      assert OccursAt(s, needle, 0) <==> s[..|needle|] == needle;
      if s[..|needle|] != needle && k > 0 {
        FindIsFirst(s[1..], needle, k - 1);
        FirstOccursLater(s, needle, k - 1);
      }
    }
  }

  /** Number of bytes before the first comma. */
  function CommaAt(s: Text): (k: nat)
    ensures k <= |s|
    ensures COMMA !in s[..k]
    ensures k < |s| ==> s[k] == COMMA
  {
    if s == [] || s[0] == COMMA then 0 else 1 + CommaAt(s[1..])
  }

  /** The text behind the first comma at or after `k`, if there is one. */
  function BehindComma(s: Text, k: nat): (r: Text)
    requires k <= |s|
    ensures k < |s| ==> |r| < |s|
  {
    var e := k + CommaAt(s[k..]);
    if e < |s| then s[e + 1..] else []
  }

  /** What follows the first occurrence. */
  function Behind(s: Text, x: Text): (r: Text)
    requires x != [] && Find(s, x).Some?
    ensures |r| < |s|
  {
    BehindComma(s, Find(s, x).value)
  }

  /** What the removal loop leaves: each occurrence goes, up to and including the next comma. */
  function Strip(s: Text, x: Text): Text
    requires x != []
    decreases |s|
  {
    match Find(s, x)
    case None => s
    case Some(k) => s[..k] + Strip(Behind(s, x), x)
  }

  /** The loop in place: `memmove` closes each gap, `start` never moves back, and the text from
      `start` on shrinks every round. */
  method StripInPlace(options: Text, x: Text) returns (buf: array<Byte>, len: nat)
    requires x != []
    ensures fresh(buf) && len <= buf.Length == |options|
    ensures buf[..len] == Strip(options, x)
  {
    buf := new Byte[|options|](i requires 0 <= i < |options| => options[i]);
    len := |options|;
    var start := 0;
    var found := Find(options, x);
    ghost var done, rest := [], options;
    while found.Some?
      invariant start <= len <= buf.Length
      invariant buf[..start] == done && buf[start..len] == rest
      invariant done + Strip(rest, x) == Strip(options, x)
      invariant found == Find(rest, x)
      decreases len - start
    {
      ghost var passed := rest[..found.value];
      Assoc(done, passed, Strip(Behind(rest, x), x));
      start, len := RemoveOne(buf, start, len, x, start + found.value);
      done, rest := done + passed, Behind(rest, x);
      found := Find(buf[start..len], x);
    }
    assert buf[..len] == done + rest;
  }

  /** One round: the occurrence at `at` goes, with everything up to and including the comma. */
  method RemoveOne(buf: array<Byte>, start: nat, len: nat, x: Text, at: nat) returns (start': nat, len': nat)
    requires x != [] && start <= at && len <= buf.Length
    requires start <= len && Find(buf[start..len], x) == Some(at - start)
    modifies buf
    ensures start' <= len' < len
    ensures buf[..start'] == old(buf[..start] + buf[start..len][..at - start])
    ensures buf[start'..len'] == Behind(old(buf[start..len]), x)
  {
    start' := at;
    var end := at + CommaAt(buf[at..len]);
    var from := if end < len then end + 1 else len;
    FrontOf(buf[..], start, at, len);
    TailOf(buf[..], start, at, len);
    TailOf(buf[..], start, from, len);
    BehindTheGap(buf[start..len], x, at - start, buf[at..len], from - start);
    len' := CloseGap(buf, at, from, len);
  }

  lemma {:induction false} BehindTheGap(s: Text, x: Text, k: nat, tail: Text, from: nat)
    requires x != [] && Find(s, x) == Some(k) && s[k..] == tail
    requires from == if k + CommaAt(tail) < |s| then k + CommaAt(tail) + 1 else |s|
    ensures Behind(s, x) == s[from..]
  {
    BehindCommaIs(s, k, tail);
  }

  lemma {:induction false} FrontOf(s: Text, start: nat, at: nat, len: nat)
    requires start <= at <= len <= |s|
    ensures s[..at] == s[..start] + s[start..len][..at - start]
  {
  }

  lemma {:induction false} TailOf(s: Text, start: nat, at: nat, len: nat)
    requires start <= at <= len <= |s|
    ensures s[start..len][at - start..] == s[at..len]
  {
  }

  lemma {:induction false} BehindCommaIs(s: Text, k: nat, tail: Text)
    requires k <= |s| && s[k..] == tail
    ensures BehindComma(s, k) == if k + CommaAt(tail) < |s| then s[k + CommaAt(tail) + 1..] else []
  {
  }

  /** `memmove (start, end + 1, ...)`. */
  method CloseGap(buf: array<Byte>, to: nat, from: nat, len: nat) returns (len': nat)
    requires to <= from <= len <= buf.Length
    modifies buf
    ensures len' == len - (from - to) && buf[..to] == old(buf[..to])
    ensures buf[to..len'] == old(buf[from..len])
  {
    var i := 0;
    while i < len - from
      invariant 0 <= i <= len - from
      invariant forall j :: 0 <= j < to ==> buf[j] == old(buf[j])
      invariant buf[to..to + i] == old(buf[from..from + i])
      invariant forall j :: to + i <= j < buf.Length ==> buf[j] == old(buf[j])
    {
      buf[to + i] := buf[from + i];
      i := i + 1;
      assert buf[to..to + i] == buf[to..to + i - 1] + [buf[to + i - 1]];
      assert old(buf[from..from + i]) == old(buf[from..from + i - 1]) + [old(buf[from + i - 1])];
    }
    len' := to + i;
  }

  // ----- what is removed, seen as comma-separated options -----

  predicate Begins(t: Text, x: Text)
  {
    |t| >= |x| && t[..|x|] == x
  }

  /** `x-parent=` occurs only in tokens that begin with it. */
  predicate Disciplined(tokens: seq<Text>, x: Text)
    requires x != []
  {
    forall i :: 0 <= i < |tokens| ==> Find(tokens[i], x).Some? ==> Begins(tokens[i], x)
  }

  function NonEmpty(tokens: seq<Text>): seq<Text>
  {
    if tokens == [] then []
    else (if tokens[0] == [] then [] else [tokens[0]]) + NonEmpty(tokens[1..])
  }

  /** The non-empty options that are not `x-parent=` ones, in order. */
  function Kept(tokens: seq<Text>, x: Text): seq<Text>
  {
    if tokens == [] then []
    else (if tokens[0] == [] || Begins(tokens[0], x) then [] else [tokens[0]]) + Kept(tokens[1..], x)
  }

  function Options(s: Text): seq<Text>
  {
    NonEmpty(Split(s, COMMA))
  }

  function Shift(n: nat, r: Option<nat>): Option<nat>
  {
    match r case None => None case Some(k) => Some(n + k)
  }

  /** A needle without a comma is found within one option or behind it. */
  lemma {:induction false} FindAcrossComma(t: Text, r: Text, needle: Text)
    requires needle != [] && COMMA !in needle && COMMA !in t
    ensures Find(t + [COMMA] + r, needle) ==
            if Find(t, needle).Some? then Find(t, needle) else Shift(|t| + 1, Find(r, needle))
  {
    var s := t + [COMMA] + r;
    BeginsAcrossComma(t, r, needle);
    FindStep(s, needle);
    if t == [] {
      assert s[1..] == r;
    } else {
      var next := t[1..] + [COMMA] + r;
      assert s[1..] == next;
      FindStep(t, needle);
      FindAcrossComma(t[1..], r, needle);
      ShiftTwice(|t|, Find(r, needle));
    }
  }

  lemma {:induction false} ShiftTwice(n: nat, f: Option<nat>)
    ensures Shift(1, Shift(n, f)) == Shift(n + 1, f)
  {
  }

  lemma {:induction false} FindStep(s: Text, needle: Text)
    requires s != [] && needle != []
    ensures Find(s, needle) == if Begins(s, needle) then Some(0) else Shift(1, Find(s[1..], needle))
  {
  }

  lemma {:induction false} BeginsAcrossComma(t: Text, r: Text, needle: Text)
    requires needle != [] && COMMA !in needle && COMMA !in t
    ensures Begins(t + [COMMA] + r, needle) <==> Begins(t, needle)
  {
    var s, n := t + [COMMA] + r, |needle|;
    if |s| >= n {
      if |t| >= n {
        assert s[..n] == t[..n];
      } else {
        assert s[..n][|t|] == COMMA;
      }
    }
  }

  lemma {:induction false} CommaAtEnd(t: Text, rest: Text)
    requires COMMA !in t
    ensures CommaAt(t) == |t|
    ensures CommaAt(t + [COMMA] + rest) == |t|
  {
    var s := t + [COMMA] + rest;
    var k := CommaAt(s);
    assert forall i :: 0 <= i < |t| ==> s[i] == t[i] && s[i] != COMMA;
    assert s[|t|] == COMMA;
    assert forall i :: 0 <= i < k ==> s[..k][i] == s[i];
  }

  /** The part of an option in front of the first occurrence. */
  function Head(t: Text, x: Text): (h: Text)
    requires x != []
    ensures COMMA !in t ==> COMMA !in h
  {
    match Find(t, x) case None => t case Some(k) => t[..k]
  }

  lemma {:induction false} BehindOption(t: Text, r: Text, x: Text)
    requires x != [] && COMMA !in x && COMMA !in t && Find(t, x).Some?
    ensures Find(t + [COMMA] + r, x) == Find(t, x)
    ensures Behind(t, x) == [] && Behind(t + [COMMA] + r, x) == r
    ensures (t + [COMMA] + r)[..Find(t, x).value] == Head(t, x)
  {
    var k := Find(t, x).value;
    FindAcrossComma(t, r, x);
    CommaAtEnd(t[k..], []);
    BehindPiece(t, r, k);
    CommaAtEnd(t[k..], r);
  }

  lemma {:induction false} BehindPiece(t: Text, r: Text, k: nat)
    requires k <= |t|
    ensures var s := t + [COMMA] + r;
            s[k..] == t[k..] + [COMMA] + r && s[|t| + 1..] == r && s[..k] == t[..k]
  {
  }

  /** The removal, one option at a time. */
  lemma {:induction false} StripOneOption(t: Text, x: Text)
    requires x != [] && COMMA !in x && COMMA !in t
    ensures Strip(t, x) == Head(t, x)
  {
    if Find(t, x).Some? {
      BehindOption(t, [], x);
      assert Strip([], x) == [];
      assert Head(t, x) + [] == Head(t, x);
    }
  }

  lemma {:induction false} StripOptionAndRest(t: Text, r: Text, x: Text)
    requires x != [] && COMMA !in x && COMMA !in t
    ensures Find(t, x).Some? ==> Strip(t + [COMMA] + r, x) == Head(t, x) + Strip(r, x)
    ensures Find(t, x).None? ==> Strip(t + [COMMA] + r, x) == t + [COMMA] + Strip(r, x)
  {
    if Find(t, x).Some? {
      BehindOption(t, r, x);
    } else {
      FindAcrossComma(t, r, x);
      StripBehind(t + [COMMA], r, x);
    }
  }

  lemma {:induction false} Suffix(pre: Text, r: Text, k: nat)
    requires k <= |r|
    ensures (pre + r)[|pre| + k..] == r[k..]
    ensures (pre + r)[..|pre| + k] == pre + r[..k]
  {
  }

  lemma {:induction false} BehindCommaShift(pre: Text, r: Text, k: nat)
    requires k <= |r|
    ensures BehindComma(pre + r, |pre| + k) == BehindComma(r, k)
  {
    var tail := r[k..];
    Suffix(pre, r, k);
    BehindCommaIs(pre + r, |pre| + k, tail);
    BehindCommaIs(r, k, tail);
    if k + CommaAt(tail) < |r| {
      Suffix(pre, r, k + CommaAt(tail) + 1);
    }
  }

  lemma {:induction false} StripAt(s: Text, x: Text, k: nat, head: Text, tail: Text)
    requires x != [] && Find(s, x) == Some(k)
    requires s[..k] == head && BehindComma(s, k) == tail
    ensures Strip(s, x) == head + Strip(tail, x)
  {
  }

  lemma {:induction false} StripBehind(pre: Text, r: Text, x: Text)
    requires x != []
    requires Find(pre + r, x) == Shift(|pre|, Find(r, x))
    ensures Strip(pre + r, x) == pre + Strip(r, x)
  {
    if Find(r, x).Some? {
      StripFoundBehind(pre, r, x, Find(r, x).value);
    }
  }

  lemma {:induction false} StripFoundBehind(pre: Text, r: Text, x: Text, k: nat)
    requires x != [] && Find(r, x) == Some(k) && Find(pre + r, x) == Some(|pre| + k)
    ensures Strip(pre + r, x) == pre + Strip(r, x)
  {
    var tail := BehindComma(r, k);
    StripAt(r, x, k, r[..k], tail);
    StripAtShifted(pre, r, x, k, tail);
    Assoc(pre, r[..k], Strip(tail, x));
  }

  lemma {:induction false} StripAtShifted(pre: Text, r: Text, x: Text, k: nat, tail: Text)
    requires x != [] && k <= |r| && Find(pre + r, x) == Some(|pre| + k) && BehindComma(r, k) == tail
    ensures Strip(pre + r, x) == pre + r[..k] + Strip(tail, x)
  {
    BehindCommaShift(pre, r, k);
    Suffix(pre, r, k);
    StripAt(pre + r, x, |pre| + k, pre + r[..k], tail);
  }

  lemma BeginsIsFoundFirst(t: Text, x: Text)
    requires x != []
    ensures Begins(t, x) <==> Find(t, x) == Some(0)
  {
  }

  lemma {:induction false} NonEmptyCons(t: Text, rest: seq<Text>)
    ensures NonEmpty([t] + rest) == (if t == [] then [] else [t]) + NonEmpty(rest)
  {
    assert ([t] + rest)[1..] == rest;
  }

  lemma {:induction false} OptionsCons(t: Text, r: Text)
    requires COMMA !in t
    ensures Options(t) == if t == [] then [] else [t]
    ensures Options(t + [COMMA] + r) == (if t == [] then [] else [t]) + Options(r)
  {
    SplitPiece(t, COMMA, r);
    NonEmptyCons(t, []);
    NonEmptyCons(t, Split(r, COMMA));
    assert [t] + [] == [t];
  }

  lemma {:induction false} StripKeepsOthers(tokens: seq<Text>, x: Text)
    requires x != [] && COMMA !in x
    requires tokens != [] && forall i :: 0 <= i < |tokens| ==> COMMA !in tokens[i]
    requires Disciplined(tokens, x)
    ensures Options(Strip(Join(tokens, COMMA), x)) == Kept(tokens, x)
  {
    var t, rest := tokens[0], tokens[1..];
    BeginsIsFoundFirst(t, x);
    if rest == [] {
      StripOneOption(t, x);
      OptionsCons(Head(t, x), []);
    } else {
      StripKeepsOthers(rest, x);
      var r := Join(rest, COMMA);
      StripOptionAndRest(t, r, x);
      OptionsCons(t, Strip(r, x));
      if Begins(t, x) {
        assert [] + Strip(r, x) == Strip(r, x);
      }
    }
  }

  function Weight(tokens: seq<Text>): nat
  {
    if tokens == [] then 0 else |tokens[0]| + Weight(tokens[1..])
  }

  function NonCommas(s: Text): nat
  {
    if s == [] then 0 else (if s[0] == COMMA then 0 else 1) + NonCommas(s[1..])
  }

  lemma {:induction false} NonCommasConcat(a: Text, b: Text)
    ensures NonCommas(a + b) == NonCommas(a) + NonCommas(b)
  {
    if a == [] {
      assert a + b == b;
    } else {
      assert (a + b)[1..] == a[1..] + b;
      NonCommasConcat(a[1..], b);
    }
  }

  lemma {:induction false} NonCommasOfWord(t: Text)
    requires COMMA !in t
    ensures NonCommas(t) == |t|
  {
    if t != [] {
      NonCommasOfWord(t[1..]);
    }
  }

  lemma {:induction false} OptionsWeight(s: Text)
    ensures Weight(Options(s)) == NonCommas(s)
  {
    SplitPieces(s, COMMA);
    PiecesWeight(Split(s, COMMA));
  }

  lemma {:induction false} PiecesWeight(tokens: seq<Text>)
    requires tokens != [] && forall i :: 0 <= i < |tokens| ==> COMMA !in tokens[i]
    ensures Weight(NonEmpty(tokens)) == NonCommas(Join(tokens, COMMA))
  {
    NonCommasOfWord(tokens[0]);
    var rest := NonEmpty(tokens[1..]);
    if tokens[0] != [] {
      assert ([tokens[0]] + rest)[1..] == rest;
    } else {
      assert [] + rest == rest;
    }
    if |tokens| > 1 {
      PiecesWeight(tokens[1..]);
      NonCommasConcat(tokens[0] + [COMMA], Join(tokens[1..], COMMA));
      NonCommasConcat(tokens[0], [COMMA]);
    }
  }

  lemma {:induction false} KeptCons(t: Text, rest: seq<Text>, x: Text)
    ensures Weight(Kept([t] + rest, x)) == (if Begins(t, x) then 0 else |t|) + Weight(Kept(rest, x))
  {
    assert ([t] + rest)[1..] == rest;
    var k := Kept(rest, x);
    assert ([t] + k)[1..] == k && [] + k == k;
  }

  lemma {:induction false} StripLosesBytes(tokens: seq<Text>, x: Text)
    requires x != [] && COMMA !in x
    requires tokens != [] && forall i :: 0 <= i < |tokens| ==> COMMA !in tokens[i]
    ensures NonCommas(Strip(Join(tokens, COMMA), x)) <= Weight(Kept(tokens, x))
    ensures !Disciplined(tokens, x) ==> NonCommas(Strip(Join(tokens, COMMA), x)) < Weight(Kept(tokens, x))
  {
    var t, rest := tokens[0], tokens[1..];
    assert tokens == [t] + rest;
    BeginsIsFoundFirst(t, x);
    NonCommasOfWord(Head(t, x));
    KeptCons(t, rest, x);
    if rest == [] {
      StripOneOption(t, x);
    } else {
      var r := Strip(Join(rest, COMMA), x);
      StripLosesBytes(rest, x);
      StripOptionAndRest(t, Join(rest, COMMA), x);
      NonCommasConcat(Head(t, x), r);
      NonCommasConcat(t + [COMMA], r);
      NonCommasConcat(t, [COMMA]);
      if !Disciplined(tokens, x) && Disciplined(rest, x) {
        assert Find(t, x).Some? && !Begins(t, x);
      }
    }
  }

  /** The removal keeps exactly the other options if and only if `x-parent=` occurs only in
      options that begin with it; otherwise part of another option goes with it. */
  lemma {:induction false} StripExact(s: Text, x: Text)
    requires x != [] && COMMA !in x
    ensures Options(Strip(s, x)) == Kept(Split(s, COMMA), x) <==> Disciplined(Split(s, COMMA), x)
  {
    SplitPieces(s, COMMA);
    if Disciplined(Split(s, COMMA), x) {
      StripKeepsOthers(Split(s, COMMA), x);
    } else {
      StripLosesBytes(Split(s, COMMA), x);
      OptionsWeight(Strip(s, x));
    }
  }

  // ----- appending one option per ancestor -----

  function Append(options: Text, uuid: Text): Text
  {
    if options != [] then options + [COMMA] + (X_PARENT + uuid) else X_PARENT + uuid
  }

  function AppendAll(options: Text, uuids: seq<Text>): Text
    decreases uuids
  {
    if uuids == [] then options else AppendAll(Append(options, uuids[0]), uuids[1..])
  }

  /** The result of track_parents for the given tracked ancestors, nearest first. */
  function Tracked(options: Text, uuids: seq<Text>): Text
  {
    AppendAll(Strip(options, X_PARENT), uuids)
  }

  function ParentOptions(uuids: seq<Text>): (r: seq<Text>)
    ensures |r| == |uuids|
  {
    if uuids == [] then [] else [X_PARENT + uuids[0]] + ParentOptions(uuids[1..])
  }

  predicate CommaFree(uuids: seq<Text>)
  {
    forall i :: 0 <= i < |uuids| ==> COMMA !in uuids[i]
  }

  lemma {:induction false} SplitSnoc(s: Text, t: Text)
    requires COMMA !in t
    ensures Split(s + [COMMA] + t, COMMA) == Split(s, COMMA) + [t]
  {
    SplitPieces(s, COMMA);
    var pieces := Split(s, COMMA);
    JoinSnoc(pieces, t, COMMA);
    SplitInvertsJoin(pieces + [t], COMMA);
  }

  lemma {:induction false} NonEmptyConcat(a: seq<Text>, b: seq<Text>)
    ensures NonEmpty(a + b) == NonEmpty(a) + NonEmpty(b)
  {
    if a == [] {
      assert a + b == b;
    } else {
      assert (a + b)[1..] == a[1..] + b;
      NonEmptyConcat(a[1..], b);
      Assoc(if a[0] == [] then [] else [a[0]], NonEmpty(a[1..]), NonEmpty(b));
    }
  }

  lemma {:induction false} AppendOptions(options: Text, uuid: Text)
    requires COMMA !in uuid
    ensures Options(Append(options, uuid)) == Options(options) + [X_PARENT + uuid]
  {
    var t := X_PARENT + uuid;
    assert COMMA !in t;
    NonEmptyCons(t, []);
    assert [t] + [] == [t];
    if options != [] {
      SplitSnoc(options, t);
      NonEmptyConcat(Split(options, COMMA), [t]);
    } else {
      SplitPiece(t, COMMA, []);
      OptionsCons([], []);
    }
  }

  lemma {:induction false} AppendAllOptions(options: Text, uuids: seq<Text>)
    requires CommaFree(uuids)
    ensures Options(AppendAll(options, uuids)) == Options(options) + ParentOptions(uuids)
    decreases uuids
  {
    if uuids == [] {
      assert Options(options) + [] == Options(options);
    } else {
      AppendOptions(options, uuids[0]);
      AppendAllOptions(Append(options, uuids[0]), uuids[1..]);
      Assoc(Options(options), [X_PARENT + uuids[0]], ParentOptions(uuids[1..]));
    }
  }

  /** The options of the result are the old ones that are not `x-parent=` options, in order,
      and then one per tracked ancestor, nearest first; this holds exactly for the option
      strings in which `x-parent=` occurs only at the start of an option. */
  lemma {:induction false} TrackedOptionsExact(options: Text, uuids: seq<Text>)
    requires CommaFree(uuids)
    ensures Options(Tracked(options, uuids)) == Kept(Split(options, COMMA), X_PARENT) + ParentOptions(uuids)
            <==> Disciplined(Split(options, COMMA), X_PARENT)
  {
    AppendAllOptions(Strip(options, X_PARENT), uuids);
    assert COMMA !in X_PARENT;
    StripExact(options, X_PARENT);
    CancelSuffix(Options(Strip(options, X_PARENT)), Kept(Split(options, COMMA), X_PARENT), ParentOptions(uuids));
  }

  lemma {:induction false} CancelSuffix<T>(a: seq<T>, b: seq<T>, c: seq<T>)
    ensures a + c == b + c <==> a == b
  {
    if a + c == b + c {
      assert |a| == |b|;
      assert (a + c)[..|a|] == a && (b + c)[..|b|] == b;
    }
  }

  lemma {:induction false} DisciplinedNonEmpty(tokens: seq<Text>, x: Text)
    requires x != [] && Disciplined(NonEmpty(tokens), x)
    ensures Disciplined(tokens, x)
    ensures Kept(tokens, x) == Kept(NonEmpty(tokens), x)
  {
    if tokens != [] {
      var t, rest := tokens[0], tokens[1..];
      assert tokens == [t] + rest;
      NonEmptyCons(t, rest);
      if t != [] {
        assert ([t] + NonEmpty(rest))[1..] == NonEmpty(rest);
        assert ([t] + NonEmpty(rest))[0] == t;
        assert forall i :: 0 <= i < |NonEmpty(rest)| ==> NonEmpty(rest)[i] == NonEmpty(tokens)[i + 1];
      } else {
        assert [] + NonEmpty(rest) == NonEmpty(rest);
        assert [] + Kept(rest, x) == Kept(rest, x);
      }
      DisciplinedNonEmpty(rest, x);
      forall i | 0 <= i < |tokens| ensures Find(tokens[i], x).Some? ==> Begins(tokens[i], x) {
        if i > 0 {
          assert tokens[i] == rest[i - 1];
        }
      }
    }
  }

  lemma {:induction false} KeptAgain(tokens: seq<Text>, uuids: seq<Text>)
    requires Disciplined(tokens, X_PARENT)
    ensures Disciplined(Kept(tokens, X_PARENT) + ParentOptions(uuids), X_PARENT)
    ensures Kept(Kept(tokens, X_PARENT) + ParentOptions(uuids), X_PARENT) == Kept(tokens, X_PARENT)
  {
    if tokens == [] {
      ParentOptionsBegin(uuids);
      assert [] + ParentOptions(uuids) == ParentOptions(uuids);
    } else {
      var t, rest := tokens[0], tokens[1..];
      assert forall i :: 0 <= i < |rest| ==> rest[i] == tokens[i + 1];
      KeptAgain(rest, uuids);
      var more := Kept(rest, X_PARENT) + ParentOptions(uuids);
      if t == [] || Begins(t, X_PARENT) {
        assert [] + Kept(rest, X_PARENT) == Kept(rest, X_PARENT);
      } else {
        Assoc([t], Kept(rest, X_PARENT), ParentOptions(uuids));
        assert ([t] + more)[1..] == more;
        assert Find(([t] + more)[0], X_PARENT).None?;
        forall i | 0 <= i < |[t] + more|
          ensures Find(([t] + more)[i], X_PARENT).Some? ==> Begins(([t] + more)[i], X_PARENT)
        {
          if i > 0 {
            assert ([t] + more)[i] == more[i - 1];
          }
        }
      }
    }
  }

  lemma {:induction false} ParentOptionsBegin(uuids: seq<Text>)
    ensures forall i :: 0 <= i < |uuids| ==> Begins(ParentOptions(uuids)[i], X_PARENT)
    ensures Kept(ParentOptions(uuids), X_PARENT) == []
  {
    if uuids != [] {
      ParentOptionsBegin(uuids[1..]);
      var p := X_PARENT + uuids[0];
      assert p[..|X_PARENT|] == X_PARENT;
      assert ([p] + ParentOptions(uuids[1..]))[1..] == ParentOptions(uuids[1..]);
    }
  }

  lemma {:induction false} BeginsElsewhere(s: Text, needle: Text)
    requires needle != [] && (s == [] || s[0] != needle[0])
    ensures !Begins(s, needle)
  {
    if |s| >= |needle| {
      assert s[..|needle|][0] == s[0];
    }
  }

  /** A needle is not found before its first byte is. */
  lemma {:induction false} FindLater(a: Text, v: Text, needle: Text)
    requires needle != [] && needle[0] !in a
    ensures Find(a + v, needle) == Shift(|a|, Find(v, needle))
  {
    if a == [] {
      assert a + v == v;
    } else {
      assert (a + v)[1..] == a[1..] + v;
      BeginsElsewhere(a + v, needle);
      FindStep(a + v, needle);
      FindLater(a[1..], v, needle);
      ShiftTwice(|a| - 1, Find(v, needle));
    }
  }

  /** "a-x-parent=b" */
  const MIDDLE: Text := B("a-") + (X_PARENT + B("b"))

  /** An option with `x-parent=` in its middle is cut there, instead of being kept. */
  lemma {:induction false} MiddleIsCut()
    ensures Options(Tracked(MIDDLE, [])) == [B("a-")] && Kept(Split(MIDDLE, COMMA), X_PARENT) == [MIDDLE]
  {
    CutInTheMiddle(MIDDLE, B("a-"), X_PARENT, B("b"));
  }

  lemma {:induction false} CutInTheMiddle(t: Text, head: Text, x: Text, rest: Text)
    requires t == head + (x + rest) && x != [] && head != [] && x[0] !in head
    requires COMMA !in head && COMMA !in x && COMMA !in rest
    ensures Options(Strip(t, x)) == [head] && Kept(Split(t, COMMA), x) == [t]
  {
    assert (x + rest)[..|x|] == x;
    BeginsIsFoundFirst(x + rest, x);
    FindLater(head, x + rest, x);
    BeginsIsFoundFirst(t, x);
    StripOneOption(t, x);
    assert t[..|head|] == head;
    OptionsCons(head, []);
    OneOption(t, x);
  }

  lemma {:induction false} OneOption(t: Text, x: Text)
    requires COMMA !in t && t != [] && !Begins(t, x)
    ensures Kept(Split(t, COMMA), x) == [t]
  {
    SplitPiece(t, COMMA, []);
    assert [t][1..] == [];
  }

  /** Tracking the same ancestors twice gives the options tracking them once gives. */
  lemma {:induction false} TrackingTwice(options: Text, uuids: seq<Text>)
    requires CommaFree(uuids) && Disciplined(Split(options, COMMA), X_PARENT)
    ensures Options(Tracked(Tracked(options, uuids), uuids)) == Options(Tracked(options, uuids))
  {
    var once := Tracked(options, uuids);
    TrackedOptionsExact(options, uuids);
    KeptAgain(Split(options, COMMA), uuids);
    DisciplinedNonEmpty(Split(once, COMMA), X_PARENT);
    TrackedOptionsExact(once, uuids);
  }

  // ----- the search for children -----

  lemma {:induction false} FindInExtension(s: Text, t: Text, needle: Text)
    requires needle != [] && Find(s, needle).Some?
    ensures Find(s + t, needle).Some?
  {
    var n := |needle|;
    assert (s + t)[..n] == s[..n];
    if s[..n] != needle {
      assert (s + t)[1..] == s[1..] + t;
      FindInExtension(s[1..], t, needle);
    }
  }

  lemma {:induction false} FindBehind(a: Text, needle: Text)
    requires needle != []
    ensures Find(a + needle, needle).Some?
  {
    if a == [] {
      assert a + needle == needle;
      assert needle[..|needle|] == needle;
    } else {
      assert (a + needle)[1..] == a[1..] + needle;
      FindBehind(a[1..], needle);
    }
  }

  lemma {:induction false} AppendAllExtends(options: Text, uuids: seq<Text>)
    ensures options <= AppendAll(options, uuids)
    decreases uuids
  {
    if uuids != [] {
      AppendAllExtends(Append(options, uuids[0]), uuids[1..]);
      assert options <= Append(options, uuids[0]);
    }
  }

  /** Searching the stored options for `x-parent=uuid`, as find_crypttab_entries_for_needle
      does, finds every entry tracked under that UUID, whatever the other options are. */
  lemma {:induction false} TrackedEntryIsFound(options: Text, uuids: seq<Text>, i: nat)
    requires i < |uuids|
    ensures Find(AppendAll(options, uuids), X_PARENT + uuids[i]).Some?
    decreases uuids
  {
    if i == 0 {
      NearestIsFound(options, uuids);
    } else {
      TrackedEntryIsFound(Append(options, uuids[0]), uuids[1..], i - 1);
    }
  }

  lemma {:induction false} NearestIsFound(options: Text, uuids: seq<Text>)
    requires uuids != []
    ensures Find(AppendAll(options, uuids), X_PARENT + uuids[0]).Some?
  {
    var next := Append(options, uuids[0]);
    var all := AppendAll(next, uuids[1..]);
    AppendAllExtends(next, uuids[1..]);
    AppendedIsFound(options, uuids[0]);
    FindInExtension(next, all[|next|..], X_PARENT + uuids[0]);
    assert all == next + all[|next|..];
  }

  lemma {:induction false} AppendedIsFound(options: Text, uuid: Text)
    ensures Find(Append(options, uuid), X_PARENT + uuid).Some?
  {
    var needle := X_PARENT + uuid;
    FindBehind(options + [COMMA], needle);
    FindBehind([], needle);
    assert [] + needle == needle;
  }

  lemma {:induction false} PrefixIsFound(s: Text, p: Text, rest: Text)
    requires p != []
    ensures Find(s, p + rest).Some? ==> Find(s, p).Some?
    decreases |s|
  {
    if |s| >= |p + rest| {
      if s[..|p + rest|] == p + rest {
        assert s[..|p|] == (p + rest)[..|p|];
      } else {
        PrefixIsFound(s[1..], p, rest);
      }
    }
  }

  /** A needle without a comma is found in the whole exactly when it is found in one of the options. */
  lemma {:induction false} FoundInAnOption(tokens: seq<Text>, needle: Text)
    requires needle != [] && COMMA !in needle && tokens != []
    requires forall i :: 0 <= i < |tokens| ==> COMMA !in tokens[i]
    ensures Find(Join(tokens, COMMA), needle).Some? <==> Finds(NonEmpty(tokens), needle)
  {
    var t, rest := tokens[0], tokens[1..];
    assert tokens == [t] + rest;
    NonEmptyCons(t, rest);
    FindsConcat(if t == [] then [] else [t], NonEmpty(rest), needle);
    FindsOne(t, needle);
    if rest != [] {
      FindAcrossComma(t, Join(rest, COMMA), needle);
      FoundInAnOption(rest, needle);
    }
  }

  ghost predicate Finds(options: seq<Text>, needle: Text)
    requires needle != []
  {
    exists i :: 0 <= i < |options| && Find(options[i], needle).Some?
  }

  lemma {:induction false} FindsConcat(a: seq<Text>, b: seq<Text>, needle: Text)
    requires needle != []
    ensures Finds(a + b, needle) <==> Finds(a, needle) || Finds(b, needle)
  {
    var c := a + b;
    if Finds(a, needle) {
      var i :| 0 <= i < |a| && Find(a[i], needle).Some?;
      assert c[i] == a[i];
    }
    if Finds(b, needle) {
      var i :| 0 <= i < |b| && Find(b[i], needle).Some?;
      assert c[|a| + i] == b[i];
    }
  }

  lemma {:induction false} FindsOne(t: Text, needle: Text)
    requires needle != []
    ensures Finds(if t == [] then [] else [t], needle) <==> Find(t, needle).Some?
  {
    if t != [] && Find(t, needle).Some? {
      assert Find([t][0], needle).Some?;
    }
  }

  lemma {:induction false} KeptHasNone(tokens: seq<Text>, x: Text, rest: Text)
    requires x != [] && Disciplined(tokens, x)
    ensures !Finds(Kept(tokens, x), x + rest)
  {
    if tokens != [] {
      var t := tokens[0];
      assert forall i :: 0 <= i < |tokens| - 1 ==> tokens[1..][i] == tokens[i + 1];
      KeptHasNone(tokens[1..], x, rest);
      PrefixIsFound(t, x, rest);
      FindsConcat(if t == [] || Begins(t, x) then [] else [t], Kept(tokens[1..], x), x + rest);
    }
  }

  lemma {:induction false} ParentOptionAt(uuids: seq<Text>, i: nat)
    requires i < |uuids|
    ensures ParentOptions(uuids)[i] == X_PARENT + uuids[i]
  {
    if i > 0 {
      ParentOptionAt(uuids[1..], i - 1);
    }
  }

  lemma {:induction false} SamePrefix(p: Text, u: Text, v: Text)
    ensures Begins(p + v, p + u) <==> u <= v
  {
    var s, needle := p + v, p + u;
    if Begins(s, needle) {
      assert forall i :: 0 <= i < |u| ==> v[i] == s[|p| + i] == needle[|p| + i];
    }
    if u <= v {
      assert s[..|needle|] == needle;
    }
  }

  /** One `x-parent=` option within another: at its start, or within its UUID. */
  lemma {:induction false} OptionHolds(v: Text, u: Text)
    ensures Find(X_PARENT + v, X_PARENT + u).Some? <==> u <= v || Find(v, X_PARENT + u).Some?
  {
    var s, needle := X_PARENT + v, X_PARENT + u;
    SamePrefix(X_PARENT, u, v);
    FindStep(s, needle);
    assert s[1..] == X_PARENT[1..] + v;
    assert needle[0] == X_PARENT[0];
    FindLater(X_PARENT[1..], v, needle);
  }

  /** A tracked UUID begins with the one searched for, or holds an `x-parent=` option for it. */
  ghost predicate FoundUnder(uuids: seq<Text>, u: Text)
  {
    exists i :: 0 <= i < |uuids| && (u <= uuids[i] || Find(uuids[i], X_PARENT + u).Some?)
  }

  lemma {:induction false} FoundAmongParents(uuids: seq<Text>, u: Text)
    ensures Finds(ParentOptions(uuids), X_PARENT + u) <==> FoundUnder(uuids, u)
  {
    var parents, needle := ParentOptions(uuids), X_PARENT + u;
    forall i | 0 <= i < |uuids|
      ensures Find(parents[i], needle).Some? <==> u <= uuids[i] || Find(uuids[i], needle).Some?
    {
      ParentOptionAt(uuids, i);
      OptionHolds(uuids[i], u);
    }
  }

  lemma {:induction false} FoundInOptions(s: Text, needle: Text)
    requires needle != [] && COMMA !in needle
    ensures Find(s, needle).Some? <==> Finds(Options(s), needle)
  {
    SplitPieces(s, COMMA);
    FoundInAnOption(Split(s, COMMA), needle);
  }

  /** Which UUIDs an entry is found under, whatever its options were: those the old options were found
      under once stripped, and those a tracked UUID begins with or holds an option for. */
  lemma {:induction false} EntryIsFoundExactly(options: Text, uuids: seq<Text>, u: Text)
    requires CommaFree(uuids) && COMMA !in u
    ensures Find(Tracked(options, uuids), X_PARENT + u).Some? <==>
            Find(Strip(options, X_PARENT), X_PARENT + u).Some? || FoundUnder(uuids, u)
  {
    var needle := X_PARENT + u;
    var stripped := Strip(options, X_PARENT);
    assert COMMA !in X_PARENT;
    FoundInOptions(Tracked(options, uuids), needle);
    FoundInOptions(stripped, needle);
    AppendAllOptions(stripped, uuids);
    FindsConcat(Options(stripped), ParentOptions(uuids), needle);
    FoundAmongParents(uuids, u);
  }

  /** Nothing is left to be found when `x-parent=` occurs only at the start of an option. So an entry
      is then found under exactly the UUIDs that a tracked one begins with or holds an option for. */
  lemma {:induction false} NothingIsLeft(options: Text, uuids: seq<Text>, u: Text)
    requires Disciplined(Split(options, COMMA), X_PARENT) && CommaFree(uuids) && COMMA !in u
    ensures Find(Strip(options, X_PARENT), X_PARENT + u).None?
    ensures Find(Tracked(options, uuids), X_PARENT + u).Some? <==> FoundUnder(uuids, u)
  {
    assert COMMA !in X_PARENT;
    FoundInOptions(Strip(options, X_PARENT), X_PARENT + u);
    StripExact(options, X_PARENT);
    KeptHasNone(Split(options, COMMA), X_PARENT, u);
    EntryIsFoundExactly(options, uuids, u);
  }

  /** So among UUIDs of one length exactly the tracked ones are found. */
  lemma {:induction false} FoundExactlyWhenTracked(options: Text, uuids: seq<Text>, u: Text)
    requires Disciplined(Split(options, COMMA), X_PARENT) && CommaFree(uuids) && COMMA !in u
    requires forall i :: 0 <= i < |uuids| ==> |uuids[i]| == |u|
    ensures Find(Tracked(options, uuids), X_PARENT + u).Some? <==> u in uuids
  {
    NothingIsLeft(options, uuids, u);
    forall i | 0 <= i < |uuids| ensures (u <= uuids[i] || Find(uuids[i], X_PARENT + u).Some?) <==> u == uuids[i] {
      assert Find(uuids[i], X_PARENT + u).None?;
    }
  }

  /** The start of a tracked UUID finds the entry too. */
  lemma {:induction false} StartFindsToo(options: Text, uuids: seq<Text>, u: Text, i: nat)
    requires CommaFree(uuids) && i < |uuids| && u <= uuids[i]
    ensures Find(Tracked(options, uuids), X_PARENT + u).Some?
  {
    assert COMMA !in u;
    EntryIsFoundExactly(options, uuids, u);
  }

  /** An entry tracked under "12" is found under "1", and any tracked entry under the empty UUID. */
  lemma {:induction false} ShorterUuidsFindToo(options: Text, uuids: seq<Text>)
    requires CommaFree(uuids) && uuids != []
    ensures Find(Tracked([], [B("12")]), X_PARENT + B("1")).Some?
    ensures Find(Tracked(options, uuids), X_PARENT + []).Some?
  {
    assert B("1") <= B("12");
    StartFindsToo([], [B("12")], B("1"), 0);
    StartFindsToo(options, uuids, [], 0);
  }

  lemma {:induction false} IsFoundInItself(s: Text)
    requires s != []
    ensures Find(s, s).Some?
  {
    FindBehind([], s);
    assert [] + s == s;
  }

  lemma {:induction false} FoundAtTheEnd(c: Byte, a: Text, x: Text)
    requires x != [] && x[0] !in a && !Begins([c] + (a + x), x)
    ensures Find([c] + (a + x), x) == Some(|a| + 1)
  {
    assert ([c] + (a + x))[1..] == a + x;
    FindStep([c] + (a + x), x);
    FindLater(a, x, x);
    assert x[..|x|] == x;
    BeginsIsFoundFirst(x, x);
  }

  /** What stays of two options, the first with an `x-parent=` at its end. */
  lemma {:induction false} JoinedAcross(head: Text, rest: Text, x: Text)
    requires x != [] && COMMA !in x && COMMA !in head && Find(head + x, x) == Some(|head|)
    requires x[0] !in rest
    ensures Strip(head + x + [COMMA] + rest, x) == head + rest
  {
    StripOptionAndRest(head + x, rest, x);
    FindLater(rest, [], x);
    assert rest + [] == rest;
    assert (head + x)[..|head|] == head;
  }

  lemma {:induction false} HalfThenWhole()
    ensures Find(B("x-par") + X_PARENT, X_PARENT) == Some(5)
  {
    var c, a := X_PARENT[0], B("-par");
    var s := [c] + (a + X_PARENT);
    assert B("x-par") + X_PARENT == s;
    assert s[5] == X_PARENT[0] && X_PARENT[5] == B("e")[0];
    assert |s| >= |X_PARENT| ==> s[..|X_PARENT|][5] == s[5];
    FoundAtTheEnd(c, a, X_PARENT);
  }

  /** With `x-parent=` in the middle of an option, the removal may put two halves of another together,
      and the entry is found although nothing is tracked. */
  lemma {:induction false} HalvesAreJoined(head: Text, rest: Text, u: Text)
    requires COMMA !in head && Find(head + X_PARENT, X_PARENT) == Some(|head|) && X_PARENT[0] !in rest
    requires head + rest == X_PARENT + u
    ensures Find(Tracked(head + X_PARENT + [COMMA] + rest, []), X_PARENT + u).Some?
  {
    assert COMMA !in X_PARENT;
    JoinedAcross(head, rest, X_PARENT);
    IsFoundInItself(X_PARENT + u);
  }

  /** The halves in "x-parx-parent=,ent=a", which names no UUID, but becomes "x-parent=a". */
  lemma {:induction false} SuchHalves()
    ensures var head, rest := B("x-par"), B("ent=a");
            && COMMA !in head && Find(head + X_PARENT, X_PARENT) == Some(|head|) && X_PARENT[0] !in rest
            && head + rest == X_PARENT + B("a")
  {
    HalfThenWhole();
  }

  // ----- the walk up the ancestry -----

  datatype BlockIds = BlockIds(path: Text, device: Text, uuid: Option<Text>)

  /** "UUID=" and the UUID, or the device file. */
  function BlockFsname(block: BlockIds): Text
  {
    if block.uuid.Some? && block.uuid.value != [] then B("UUID=") + block.uuid.value else block.device
  }

  datatype Parent = Parent(path: Text, uuid: Option<Text>)

  /** The exported objects as udisks_daemon_get_parent_for_tracking reads them. */
  datatype TrackedObject =
    | BlockObject(uuid: Option<Text>, backing: Text, mdraid: Text, partitionTable: Option<Text>)
    | MDRaidObject(mdUuid: Option<Text>)
    | OtherObject

  datatype Ancestry = Ancestry(objects: map<Text, TrackedObject>, modules: map<Text, Parent>)
  {
    predicate HasBlock(path: Text)
    {
      path in objects && objects[path].BlockObject?
    }

    /** Crypto backing device first, then MD-RAID, then partition table (never tracked itself),
        then whatever the modules say. */
    function ParentOf(path: Text): Option<Parent>
    {
      if HasBlock(path) && HasBlock(objects[path].backing) then
        Some(Parent(objects[path].backing, objects[objects[path].backing].uuid))
      else if HasBlock(path) && objects[path].mdraid in objects && objects[objects[path].mdraid].MDRaidObject? then
        Some(Parent(objects[path].mdraid, objects[objects[path].mdraid].mdUuid))
      else if HasBlock(path) && objects[path].partitionTable.Some? && HasBlock(objects[path].partitionTable.value) then
        Some(Parent(objects[path].partitionTable.value, None))
      else if path in modules then Some(modules[path])
      else None
    }

    ghost predicate Acyclic(rank: Text -> nat)
    {
      forall p :: ParentOf(p).Some? ==> rank(ParentOf(p).value.path) < rank(p)
    }

    /** The UUIDs met on the way up, nearest first; empty ones are skipped. */
    ghost function AncestorUuids(path: Text, rank: Text -> nat): seq<Text>
      requires Acyclic(rank)
      decreases rank(path)
    {
      match ParentOf(path)
      case None => []
      case Some(p) =>
        (if p.uuid.Some? && p.uuid.value != [] then [p.uuid.value] else []) + AncestorUuids(p.path, rank)
    }
  }

  /** track_parents: terminates because the ancestry is acyclic, and its result is `Tracked`. */
  method TrackParents(options: Text, start: Text, ancestry: Ancestry, ghost rank: Text -> nat) returns (r: Text)
    requires ancestry.Acyclic(rank)
    ensures r == Tracked(options, ancestry.AncestorUuids(start, rank))
  {
    var buf, len := StripInPlace(options, X_PARENT);
    r := buf[..len];
    var path := Some(start);
    ghost var rest := ancestry.AncestorUuids(start, rank);
    while path.Some?
      invariant rest == if path.Some? then ancestry.AncestorUuids(path.value, rank) else []
      invariant AppendAll(r, rest) == Tracked(options, ancestry.AncestorUuids(start, rank))
      decreases path.Some?, if path.Some? then rank(path.value) else 0
    {
      match ancestry.ParentOf(path.value)
      case None =>
        path := None;
      case Some(p) =>
        rest := ancestry.AncestorUuids(p.path, rank);
        if p.uuid.Some? && p.uuid.value != [] {
          assert ([p.uuid.value] + rest)[1..] == rest;
          r := Append(r, p.uuid.value);
        } else {
          assert [] + rest == rest;
        }
        path := Some(p.path);
    }
  }
}
