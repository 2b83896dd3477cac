/** Cutting a line into words: `strtok_r` on a delimiter set, the nested two-pass split of the
    crypttab monitor, and the `%511s` conversions of `sscanf`. */
module Tokens {
  import opened OptionType
  import opened Sequences
  import opened Bytes

  /** What `isspace` accepts in the C locale; `%s` stops at these. */
  const WHITESPACE: set<Byte> := {TAB, NEWLINE, VT, FF, CR, SPACE}

  const BLANK: set<Byte> := {SPACE, TAB}

  function SkipSeps(s: Text, seps: set<Byte>): (r: Text)
    ensures |r| <= |s|
    ensures r != [] ==> r[0] !in seps
    ensures s != [] && s[0] !in seps ==> r == s
  {
    if s == [] || s[0] !in seps then s else SkipSeps(s[1..], seps)
  }

  /** Length of the maximal delimiter-free prefix. */
  function WordLen(s: Text, seps: set<Byte>): (n: nat)
    ensures n <= |s|
    ensures forall i :: 0 <= i < n ==> s[i] !in seps
    ensures n < |s| ==> s[n] in seps
    ensures n == 0 <==> s == [] || s[0] in seps
  {
    if s == [] || s[0] in seps then 0 else 1 + WordLen(s[1..], seps)
  }

  /** The maximal runs of non-delimiters, in order. */
  function Words(s: Text, seps: set<Byte>): (ws: seq<Text>)
    decreases |s|
  {
    var t := SkipSeps(s, seps);
    if t == [] then [] else
      var n := WordLen(t, seps);
      [t[..n]] + Words(t[n..], seps)
  }

  predicate AllSeps(s: Text, seps: set<Byte>)
  {
    forall i :: 0 <= i < |s| ==> s[i] in seps
  }

  predicate NoSeps(s: Text, seps: set<Byte>)
  {
    forall i :: 0 <= i < |s| ==> s[i] !in seps
  }

  lemma {:induction false} SkipSepsDecomposes(s: Text, seps: set<Byte>)
    ensures var r := SkipSeps(s, seps);
            s[|s| - |r|..] == r && AllSeps(s[..|s| - |r|], seps)
  {
    if s != [] && s[0] in seps {
      SkipSepsDecomposes(s[1..], seps);
      var r := SkipSeps(s, seps);
      assert s[|s| - |r|..] == s[1..][|s[1..]| - |r|..];
      assert s[..|s| - |r|] == [s[0]] + s[1..][..|s[1..]| - |r|];
    }
  }

  lemma {:induction false} SkipSepsPrefix(a: Text, b: Text, seps: set<Byte>)
    requires AllSeps(a, seps)
    ensures SkipSeps(a + b, seps) == SkipSeps(b, seps)
  {
    if a == [] {
      assert a + b == b;
    } else {
      assert (a + b)[1..] == a[1..] + b;
      SkipSepsPrefix(a[1..], b, seps);
    }
  }

  lemma WordLenOfWord(w: Text, rest: Text, seps: set<Byte>)
    requires NoSeps(w, seps)
    requires rest == [] || rest[0] in seps
    ensures WordLen(w + rest, seps) == |w|
  {
    var s := w + rest;
    assert forall i :: 0 <= i < |w| ==> s[i] == w[i] && s[i] !in seps;
    assert rest != [] ==> s[|w|] == rest[0];
  }

  lemma WordsOfSeps(a: Text, b: Text, seps: set<Byte>)
    requires AllSeps(a, seps)
    ensures Words(a + b, seps) == Words(b, seps)
  {
    SkipSepsPrefix(a, b, seps);
  }

  lemma WordsOfWord(w: Text, rest: Text, seps: set<Byte>)
    requires w != [] && NoSeps(w, seps)
    requires rest == [] || rest[0] in seps
    ensures Words(w + rest, seps) == [w] + Words(rest, seps)
  {
    WordLenOfWord(w, rest, seps);
    var s := w + rest;
    assert s[0] == w[0] && SkipSeps(s, seps) == s;
    assert s[..|w|] == w && s[|w|..] == rest;
  }

  /** Every token is a non-empty delimiter-free word, and there is none exactly when the line
      is all delimiters. */
  lemma {:induction false} WordsAreWords(s: Text, seps: set<Byte>)
    ensures forall i :: 0 <= i < |Words(s, seps)| ==> Words(s, seps)[i] != [] && NoSeps(Words(s, seps)[i], seps)
    ensures Words(s, seps) == [] <==> AllSeps(s, seps)
    decreases |s|
  {
    var t := SkipSeps(s, seps);
    SkipSepsDecomposes(s, seps);
    if t != [] {
      var n := WordLen(t, seps);
      WordsAreWords(t[n..], seps);
      assert s[|s| - |t|] == t[0];
    } else {
      assert s[..|s| - |t|] == s;
    }
  }

  lemma {:induction false} WordsSplitStep(w: Text, rest: Text, b: Text, seps: set<Byte>)
    requires w != [] && NoSeps(w, seps)
    requires rest == [] || rest[0] in seps
    requires b == [] || b[0] in seps
    requires Words(rest + b, seps) == Words(rest, seps) + Words(b, seps)
    ensures Words((w + rest) + b, seps) == Words(w + rest, seps) + Words(b, seps)
  {
    Assoc(w, rest, b);
    WordsOfWord(w, rest + b, seps);
    WordsOfWord(w, rest, seps);
    Assoc([w], Words(rest, seps), Words(b, seps));
  }

  lemma {:induction false} WordsBehindSeps(pre: Text, t: Text, b: Text, seps: set<Byte>)
    requires AllSeps(pre, seps) && Words(t + b, seps) == Words(t, seps) + Words(b, seps)
    ensures Words((pre + t) + b, seps) == Words(pre + t, seps) + Words(b, seps)
  {
    Assoc(pre, t, b);
    WordsOfSeps(pre, t + b, seps);
    WordsOfSeps(pre, t, seps);
  }

  /** Cutting at a delimiter does not disturb the words on either side. */
  lemma {:induction false} WordsSplit(a: Text, b: Text, seps: set<Byte>)
    requires b == [] || b[0] in seps
    ensures Words(a + b, seps) == Words(a, seps) + Words(b, seps)
    decreases |a|
  {
    var t := SkipSeps(a, seps);
    SkipSepsDecomposes(a, seps);
    assert a == a[..|a| - |t|] + t;
    if t == [] {
      assert t + b == b;
      assert Words(t, seps) + Words(b, seps) == Words(b, seps);
    } else {
      var n := WordLen(t, seps);
      assert t == t[..n] + t[n..];
      WordsSplit(t[n..], b, seps);
      WordsSplitStep(t[..n], t[n..], b, seps);
    }
    WordsBehindSeps(a[..|a| - |t|], t, b, seps);
  }

  lemma {:induction false} SkipOtherSeps(s: Text, seps: set<Byte>, seps': set<Byte>)
    requires forall i :: 0 <= i < |s| ==> (s[i] in seps <==> s[i] in seps')
    ensures SkipSeps(s, seps) == SkipSeps(s, seps')
  {
    if s != [] {
      SkipOtherSeps(s[1..], seps, seps');
    }
  }

  lemma {:induction false} WordLenOtherSeps(s: Text, seps: set<Byte>, seps': set<Byte>)
    requires forall i :: 0 <= i < |s| ==> (s[i] in seps <==> s[i] in seps')
    ensures WordLen(s, seps) == WordLen(s, seps')
  {
    if s != [] {
      WordLenOtherSeps(s[1..], seps, seps');
    }
  }

  /** Delimiters that do not occur do not matter. */
  lemma {:induction false} WordsOtherSeps(s: Text, seps: set<Byte>, seps': set<Byte>)
    requires forall i :: 0 <= i < |s| ==> (s[i] in seps <==> s[i] in seps')
    ensures Words(s, seps) == Words(s, seps')
    decreases |s|
  {
    SkipOtherSeps(s, seps, seps');
    SkipSepsDecomposes(s, seps);
    var t := SkipSeps(s, seps);
    assert forall i :: 0 <= i < |t| ==> t[i] == s[|s| - |t| + i];
    if t != [] {
      WordLenOtherSeps(t, seps, seps');
      WordsOtherSeps(t[WordLen(t, seps)..], seps, seps');
    }
  }

  // ----- strtok_r and the nested split -----

  /** One `strtok_r` call: the next token and what the save pointer is left at. */
  function StrtokR(s: Text, seps: set<Byte>): (r: Option<(Text, Text)>)
    ensures r.None? <==> Words(s, seps) == []
    ensures r.Some? ==> Words(s, seps) == [r.value.0] + Words(r.value.1, seps) && |r.value.1| < |s|
  {
    var t := SkipSeps(s, seps);
    if t == [] then None else
      var n := WordLen(t, seps);
      // strtok_r overwrites the delimiter that ended the token and continues behind it
      assert n < |t| ==> Words(t[n..], seps) == Words(t[n + 1..], seps) by {
        if n < |t| {
          assert t[n..] == [t[n]] + t[n + 1..];
          WordsOfSeps([t[n]], t[n + 1..], seps);
        }
      }
      Some((t[..n], if n < |t| then t[n + 1..] else []))
  }

  /** The monitor's splitter: an outer `strtok_r` loop on spaces, and for each piece an inner
      one on tabs. For every line it returns what one pass over {space, tab} returns. */
  method SplitCrypttabLine(line: Text) returns (tokens: seq<Text>)
    ensures tokens == Words(line, BLANK)
  {
    tokens := [];
    var save1 := line;
    NestedIsOnePass(line);
    while true
      invariant tokens + Nested(Words(save1, {SPACE})) == Words(line, BLANK)
      decreases |save1|
    {
      var token := StrtokR(save1, {SPACE});
      if token.None? {
        break;
      }
      ghost var outer := Words(save1, {SPACE});
      save1 := token.value.1;
      var subtokens := SplitOnTabs(token.value.0);
      NestedStep(tokens, token.value.0, outer[1..]);
      tokens := tokens + subtokens;
    }
  }

  /** The inner loop. */
  method SplitOnTabs(token: Text) returns (subtokens: seq<Text>)
    ensures subtokens == Words(token, {TAB})
  {
    subtokens := [];
    var save2 := token;
    while true
      invariant subtokens + Words(save2, {TAB}) == Words(token, {TAB})
      decreases |save2|
    {
      var subtoken := StrtokR(save2, {TAB});
      if subtoken.None? {
        break;
      }
      Snoc(subtokens, subtoken.value.0, Words(subtoken.value.1, {TAB}));
      subtokens := subtokens + [subtoken.value.0];
      save2 := subtoken.value.1;
    }
  }

  lemma Snoc<T>(a: seq<T>, x: T, b: seq<T>)
    ensures a + ([x] + b) == (a + [x]) + b
  {
  }

  lemma NestedStep(done: seq<Text>, piece: Text, pieces: seq<Text>)
    ensures done + Nested([piece] + pieces) == (done + Words(piece, {TAB})) + Nested(pieces)
  {
    assert ([piece] + pieces)[1..] == pieces;
    var a, b := Words(piece, {TAB}), Nested(pieces);
    assert done + (a + b) == (done + a) + b;
  }

  /** Splitting each piece on tabs, results in order. */
  function Nested(pieces: seq<Text>): seq<Text>
  {
    if pieces == [] then [] else Words(pieces[0], {TAB}) + Nested(pieces[1..])
  }

  lemma {:induction false} NestedIsOnePass(line: Text)
    ensures Nested(Words(line, {SPACE})) == Words(line, BLANK)
    decreases |line|
  {
    var t := SkipSeps(line, {SPACE});
    SkipSepsDecomposes(line, {SPACE});
    var pre := line[..|line| - |t|];
    assert line == pre + t;
    WordsOfSeps(pre, t, {SPACE});
    WordsOfSeps(pre, t, BLANK);
    if t != [] {
      var n := WordLen(t, {SPACE});
      var w, rest := t[..n], t[n..];
      assert t == w + rest;
      NestedIsOnePass(rest);
      WordsSplit(w, rest, BLANK);
      WordsOtherSeps(w, {TAB}, BLANK);
    }
  }

  // ----- sscanf %511s -----

  /** Most bytes a `%511s` conversion takes. */
  const SCAN_WIDTH: nat := 511

  /** `%511s`: skip white space, then take up to 511 bytes. `None` is end of input. */
  function ScanWord(s: Text): (r: Option<(Text, Text)>)
    ensures r.Some? ==> 0 < |r.value.0| <= SCAN_WIDTH && |r.value.1| < |s|
    ensures r.None? <==> Words(s, WHITESPACE) == []
  {
    var t := SkipSeps(s, WHITESPACE);
    if t == [] then None else
      var n := WordLen(t, WHITESPACE);
      var k := if n <= SCAN_WIDTH then n else SCAN_WIDTH;
      Some((t[..k], t[k..]))
  }

  /** Up to `k` `%511s` conversions, and the rest of the input. */
  function ScanWords(s: Text, k: nat): (r: (seq<Text>, Text))
    ensures |r.0| <= k
    ensures k > 0 ==> (r.0 == [] <==> Words(s, WHITESPACE) == [])
    decreases k
  {
    if k == 0 then ([], s) else
      match ScanWord(s)
      case None => ([], s)
      case Some((w, rest)) =>
        var more := ScanWords(rest, k - 1);
        ([w] + more.0, more.1)
  }

  predicate ShortWords(ws: seq<Text>)
  {
    forall i :: 0 <= i < |ws| ==> |ws[i]| <= SCAN_WIDTH
  }

  function Take<T>(s: seq<T>, k: nat): seq<T>
  {
    if k <= |s| then s[..k] else s
  }

  /** With no over-long word, the conversions return the first words of the line. */
  lemma {:induction false} ScanWordsIsWords(s: Text, k: nat)
    requires ShortWords(Words(s, WHITESPACE))
    ensures ScanWords(s, k).0 == Take(Words(s, WHITESPACE), k)
    decreases k
  {
    if k > 0 && ScanWord(s).Some? {
      var t := SkipSeps(s, WHITESPACE);
      var n := WordLen(t, WHITESPACE);
      var ws := Words(s, WHITESPACE);
      assert ws[0] == t[..n];
      assert ws[1..] == Words(t[n..], WHITESPACE);
      ScanWordsIsWords(t[n..], k - 1);
    }
  }

  /** The two tokenisers agree on lines without the other white-space bytes. */
  lemma WordsBlankIsWhitespace(line: Text)
    requires NEWLINE !in line && VT !in line && FF !in line && CR !in line
    ensures Words(line, BLANK) == Words(line, WHITESPACE)
  {
    WordsOtherSeps(line, BLANK, WHITESPACE);
  }
}
