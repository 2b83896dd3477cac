/** Byte strings as the C code sees them: NUL-terminated strings, splitting a file into
    lines, and writing the lines back. */
module Bytes {
  type Byte = b: int | 0 <= b < 256

  type Text = seq<Byte>

  const NUL: Byte := 0
  const TAB: Byte := 9
  const NEWLINE: Byte := 10
  const VT: Byte := 11
  const FF: Byte := 12
  const CR: Byte := 13
  const SPACE: Byte := 32
  const HASH: Byte := 35
  const COMMA: Byte := 44
  const BACKSLASH: Byte := 92

  /** A string literal as bytes. */
  function B(s: string): (r: Text)
    ensures |r| == |s|
  {
    seq(|s|, i requires 0 <= i < |s| => if s[i] as int < 256 then s[i] as int else 63)
  }

  /** What a C function sees of a buffer: everything before the first NUL. */
  function CStr(s: Text): (r: Text)
  {
    if s == [] || s[0] == NUL then [] else [s[0]] + CStr(s[1..])
  }

  lemma {:induction false} CStrIsPrefixBeforeNul(s: Text)
    ensures CStr(s) <= s
    ensures NUL !in CStr(s)
    ensures NUL !in s ==> CStr(s) == s
  {
    if s != [] && s[0] != NUL {
      CStrIsPrefixBeforeNul(s[1..]);
      assert s == [s[0]] + s[1..];
    }
  }

  /** `strcmp` on byte strings. */
  function StrCmp(a: Text, b: Text): (r: int)
  {
    if a == [] && b == [] then 0
    else if a == [] then -1
    else if b == [] then 1
    else if a[0] != b[0] then a[0] - b[0]
    else StrCmp(a[1..], b[1..])
  }

  /** `s` cut at every `d`: always one piece more than there are delimiters. */
  function Split(s: Text, d: Byte): (r: seq<Text>)
    ensures |r| >= 1
  {
    if s == [] then [[]]
    else
      var rest := Split(s[1..], d);
      if s[0] == d then [[]] + rest else [[s[0]] + rest[0]] + rest[1..]
  }

  function Join(pieces: seq<Text>, d: Byte): Text
  {
    if pieces == [] then []
    else if |pieces| == 1 then pieces[0]
    else pieces[0] + [d] + Join(pieces[1..], d)
  }

  lemma {:induction false} SplitPieces(s: Text, d: Byte)
    ensures forall i :: 0 <= i < |Split(s, d)| ==> d !in Split(s, d)[i]
    ensures Join(Split(s, d), d) == s
  {
    if s != [] {
      SplitPieces(s[1..], d);
      var rest := Split(s[1..], d);
      var r := Split(s, d);
      assert s == [s[0]] + s[1..];
      if s[0] == d {
        assert r[1..] == rest;
      } else {
        assert r[0] == [s[0]] + rest[0] && r[1..] == rest[1..];
        forall i | 0 <= i < |r| ensures d !in r[i] {
          if i > 0 {
            assert r[i] == rest[i];
          }
        }
        if |r| > 1 {
          assert Join(r, d) == [s[0]] + (rest[0] + [d] + Join(rest[1..], d));
        }
      }
    }
  }

  /** Cutting after a delimiter-free piece takes exactly that piece. */
  lemma {:induction false} SplitPiece(p: Text, d: Byte, rest: Text)
    requires d !in p
    ensures Split(p, d) == [p]
    ensures Split(p + [d] + rest, d) == [p] + Split(rest, d)
  {
    if p == [] {
      assert ([d] + rest)[1..] == rest;
      assert p + [d] + rest == [d] + rest;
    } else {
      SplitPiece(p[1..], d, rest);
      assert (p + [d] + rest)[1..] == p[1..] + [d] + rest;
      assert [p[0]] + p[1..] == p;
    }
  }

  lemma {:induction false} SplitInvertsJoin(pieces: seq<Text>, d: Byte)
    requires |pieces| >= 1
    requires forall i :: 0 <= i < |pieces| ==> d !in pieces[i]
    ensures Split(Join(pieces, d), d) == pieces
  {
    if |pieces| == 1 {
      SplitPiece(pieces[0], d, []);
    } else {
      SplitInvertsJoin(pieces[1..], d);
      SplitPiece(pieces[0], d, Join(pieces[1..], d));
    }
  }

  /** The lines both editors loop over: the newline-separated pieces, except that an
      empty last piece ends the loop. */
  function Lines(text: Text): (ls: seq<Text>)
  {
    var pieces := Split(text, NEWLINE);
    if pieces[|pieces| - 1] == [] then pieces[..|pieces| - 1] else pieces
  }

  /** The lines written back, each followed by a newline. */
  function Unlines(ls: seq<Text>): Text
  {
    if ls == [] then [] else ls[0] + [NEWLINE] + Unlines(ls[1..])
  }

  predicate NoNewlines(ls: seq<Text>)
  {
    forall i :: 0 <= i < |ls| ==> NEWLINE !in ls[i]
  }

  lemma LinesHaveNoNewline(text: Text)
    ensures NoNewlines(Lines(text))
  {
    SplitPieces(text, NEWLINE);
  }

  lemma {:induction false} UnlinesConcat(a: seq<Text>, b: seq<Text>)
    ensures Unlines(a + b) == Unlines(a) + Unlines(b)
  {
    if a == [] {
      assert a + b == b;
    } else {
      UnlinesConcat(a[1..], b);
      assert (a + b)[1..] == a[1..] + b;
    }
  }

  lemma {:induction false} SplitUnlines(ls: seq<Text>)
    requires NoNewlines(ls)
    ensures Split(Unlines(ls), NEWLINE) == ls + [[]]
  {
    if ls != [] {
      SplitUnlines(ls[1..]);
      SplitPiece(ls[0], NEWLINE, Unlines(ls[1..]));
    }
  }

  /** Writing lines and reading them back is the identity, so what an editor keeps, the next
      edit and the monitor see unchanged. */
  lemma LinesInvertsUnlines(ls: seq<Text>)
    requires NoNewlines(ls)
    ensures Lines(Unlines(ls)) == ls
  {
    SplitUnlines(ls);
    assert (ls + [[]])[..|ls|] == ls;
  }

  lemma {:induction false} UnlinesIsJoin(ls: seq<Text>)
    ensures Unlines(ls) == Join(ls + [[]], NEWLINE)
  {
    if ls != [] {
      UnlinesIsJoin(ls[1..]);
      assert (ls + [[]])[1..] == ls[1..] + [[]];
    }
  }

  lemma {:induction false} JoinSnoc(pieces: seq<Text>, p: Text, d: Byte)
    requires |pieces| >= 1
    ensures Join(pieces + [p], d) == Join(pieces, d) + [d] + p
  {
    if |pieces| > 1 {
      JoinSnoc(pieces[1..], p, d);
      assert (pieces + [p])[1..] == pieces[1..] + [p];
    }
  }

  lemma {:induction false} SplitLast(text: Text)
    ensures var p := Split(text, NEWLINE);
            p[|p| - 1] == [] <==> text == [] || text[|text| - 1] == NEWLINE
  {
    if |text| > 1 {
      SplitLast(text[1..]);
      OnePieceUnended(text[1..]);
      LastPiece(text);
      assert text[|text| - 1] == text[1..][|text| - 2];
    }
  }

  lemma {:induction false} LastPiece(text: Text)
    requires text != []
    ensures var p, rest := Split(text, NEWLINE), Split(text[1..], NEWLINE);
            p[|p| - 1] == if text[0] != NEWLINE && |rest| == 1 then [text[0]] + rest[0] else rest[|rest| - 1]
  {
  }

  lemma {:induction false} OnePieceUnended(text: Text)
    ensures |Split(text, NEWLINE)| == 1 ==> NEWLINE !in text
  {
    SplitPieces(text, NEWLINE);
  }

  function WithFinalNewline(text: Text): Text
  {
    if text == [] || text[|text| - 1] == NEWLINE then text else text + [NEWLINE]
  }

  /** Reading all lines and writing them back changes nothing but a missing final newline. */
  lemma UnlinesInvertsLines(text: Text)
    ensures Unlines(Lines(text)) == WithFinalNewline(text)
  {
    SplitLast(text);
    UnlinesOfPieces(text);
  }

  lemma {:induction false} UnlinesOfPieces(text: Text)
    ensures var p := Split(text, NEWLINE);
            Unlines(Lines(text)) == if p[|p| - 1] == [] then text else text + [NEWLINE]
  {
    var p := Split(text, NEWLINE);
    SplitPieces(text, NEWLINE);
    if p[|p| - 1] == [] {
      UnlinesEnded(p, text);
    } else {
      UnlinesUnended(p, text);
    }
  }

  lemma {:induction false} UnlinesEnded(pieces: seq<Text>, text: Text)
    requires pieces != [] && pieces[|pieces| - 1] == [] && Join(pieces, NEWLINE) == text
    ensures Unlines(pieces[..|pieces| - 1]) == text
  {
    UnlinesIsJoin(pieces[..|pieces| - 1]);
    assert pieces[..|pieces| - 1] + [[]] == pieces;
  }

  lemma {:induction false} UnlinesUnended(ls: seq<Text>, text: Text)
    requires ls != [] && Join(ls, NEWLINE) == text
    ensures Unlines(ls) == text + [NEWLINE]
  {
    UnlinesIsJoin(ls);
    JoinSnoc(ls, [], NEWLINE);
    assert text + [NEWLINE] + [] == text + [NEWLINE];
  }

  lemma {:induction false} UnlinesNulFree(ls: seq<Text>)
    requires forall i :: 0 <= i < |ls| ==> NUL !in ls[i]
    ensures NUL !in Unlines(ls)
  {
    if ls != [] {
      UnlinesNulFree(ls[1..]);
    }
  }

  lemma {:induction false} SplitNulFree(text: Text, d: Byte)
    requires NUL !in text
    ensures forall i :: 0 <= i < |Split(text, d)| ==> NUL !in Split(text, d)[i]
  {
    if text != [] {
      SplitNulFree(text[1..], d);
    }
  }
}
