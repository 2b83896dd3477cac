/** Editing a file line by line, for any line parser: take out the first line that matches, keep
    the others as they are, append one. Shared by the two configuration editors. */
module LineEditing {
  import opened OptionType
  import opened Sequences
  import opened Bytes

  /** What an editor gives back. */
  datatype Outcome<+T, +E> = Ok(value: T) | Failed(error: E)

  /** The lines an editor loops over. */
  function LinesOf(text: Text): seq<Text>
  {
    Lines(CStr(text))
  }

  /** What a reader of the file gets: the entries of the lines that parse, in order. */
  function Collect<T>(ls: seq<Text>, parse: Text -> Option<T>): seq<T>
  {
    if ls == [] then []
    else (match parse(ls[0]) case None => [] case Some(e) => [e]) + Collect(ls[1..], parse)
  }

  function Flags(ls: seq<Text>, matches: Text -> bool): (flags: seq<bool>)
    ensures |flags| == |ls|
    ensures forall i :: 0 <= i < |ls| ==> flags[i] == matches(ls[i])
  {
    seq(|ls|, i requires 0 <= i < |ls| => matches(ls[i]))
  }

  /** Which lines parse to `e`. */
  function ParseFlags<T(==)>(ls: seq<Text>, parse: Text -> Option<T>, e: T): (flags: seq<bool>)
    ensures |flags| == |ls|
  {
    Flags(ls, l => parse(l) == Some(e))
  }

  /** Position of the first line that parses to `e`. */
  function FirstParsed<T(==)>(ls: seq<Text>, parse: Text -> Option<T>, e: T): (k: nat)
    ensures k <= |ls|
  {
    FirstTrue(ParseFlags(ls, parse, e))
  }

  /** Line `k` is the first that parses to `e`. */
  predicate FirstLineFor<T(==)>(ls: seq<Text>, parse: Text -> Option<T>, e: T, k: nat)
  {
    && k < |ls| && parse(ls[k]) == Some(e)
    && forall i :: 0 <= i < k ==> parse(ls[i]) != Some(e)
  }

  /** The text after taking out line `k` and appending lines. */
  function Rewritten(text: Text, k: nat, added: seq<Text>): Text
  {
    Unlines(Without(LinesOf(text), k) + added)
  }

  lemma {:induction false} LinesOfAreClean(text: Text)
    ensures NoNewlines(LinesOf(text))
    ensures forall i :: 0 <= i < |LinesOf(text)| ==> NUL !in LinesOf(text)[i]
  {
    CStrIsPrefixBeforeNul(text);
    LinesHaveNoNewline(CStr(text));
    SplitNulFree(CStr(text), NEWLINE);
  }

  /** A file of given lines reads back as those lines. */
  lemma {:induction false} LinesOfUnlines(ls: seq<Text>)
    requires NoNewlines(ls) && forall i :: 0 <= i < |ls| ==> NUL !in ls[i]
    ensures NUL !in Unlines(ls) && LinesOf(Unlines(ls)) == ls
  {
    LinesInvertsUnlines(ls);
    UnlinesNulFree(ls);
    CStrIsPrefixBeforeNul(Unlines(ls));
  }

  /** What an edit writes reads back as exactly the kept lines and the added ones. */
  lemma {:induction false} RewrittenLines(text: Text, k: nat, added: seq<Text>)
    requires forall i :: 0 <= i < |added| ==> NEWLINE !in added[i] && NUL !in added[i]
    ensures NUL !in Rewritten(text, k, added)
    ensures LinesOf(Rewritten(text, k, added)) == Without(LinesOf(text), k) + added
  {
    LinesOfAreClean(text);
    var all := Without(LinesOf(text), k) + added;
    forall i | 0 <= i < |all| ensures NEWLINE !in all[i] && NUL !in all[i] {
      assert all[i] in Without(LinesOf(text), k) || all[i] in added;
    }
    LinesOfUnlines(all);
  }

  lemma {:induction false} CollectConcat<T>(a: seq<Text>, b: seq<Text>, parse: Text -> Option<T>)
    ensures Collect(a + b, parse) == Collect(a, parse) + Collect(b, parse)
  {
    if a == [] {
      assert a + b == b;
    } else {
      CollectConcat(a[1..], b, parse);
      assert (a + b)[1..] == a[1..] + b;
      Assoc(match parse(a[0]) case None => [] case Some(e) => [e], Collect(a[1..], parse), Collect(b, parse));
    }
  }

  lemma {:induction false} CollectIsShort<T>(ls: seq<Text>, parse: Text -> Option<T>)
    ensures |Collect(ls, parse)| <= |ls|
  {
    if ls != [] {
      CollectIsShort(ls[1..], parse);
    }
  }

  /** Lines read back as the items they stand for exactly when each line does. */
  lemma {:induction false} CollectIsExact<T>(ls: seq<Text>, parse: Text -> Option<T>, items: seq<T>)
    requires |ls| == |items|
    ensures Collect(ls, parse) == items <==> forall i :: 0 <= i < |ls| ==> parse(ls[i]) == Some(items[i])
  {
    if ls != [] {
      CollectIsShort(ls[1..], parse);
      CollectIsExact(ls[1..], parse, items[1..]);
      assert items == [items[0]] + items[1..];
      var rest := Collect(ls[1..], parse);
      assert parse(ls[0]).Some? ==> ([parse(ls[0]).value] + rest)[1..] == rest;
      assert forall i :: 0 < i < |ls| ==> ls[i] == ls[1..][i - 1] && items[i] == items[1..][i - 1];
    }
  }

  lemma {:induction false} CollectOne<T>(line: Text, parse: Text -> Option<T>)
    ensures Collect([line], parse) == match parse(line) case None => [] case Some(e) => [e]
  {
    assert [line][1..] == [];
  }

  lemma {:induction false} CollectWithout<T>(ls: seq<Text>, k: nat, parse: Text -> Option<T>)
    requires k < |ls|
    ensures multiset(Collect(ls, parse)) == multiset(Collect(Without(ls, k), parse)) +
                                            multiset(match parse(ls[k]) case None => [] case Some(e) => [e])
  {
    var a, b := ls[..k], ls[k + 1..];
    assert ls == a + ([ls[k]] + b);
    CollectConcat(a, [ls[k]] + b, parse);
    CollectConcat([ls[k]], b, parse);
    CollectOne(ls[k], parse);
    CollectConcat(a, b, parse);
  }

  lemma {:induction false} CollectContains<T>(ls: seq<Text>, parse: Text -> Option<T>, e: T)
    ensures e in Collect(ls, parse) <==> exists k :: 0 <= k < |ls| && parse(ls[k]) == Some(e)
  {
    if ls != [] {
      CollectContains(ls[1..], parse, e);
      assert ls == [ls[0]] + ls[1..];
    }
  }

  lemma {:induction false} FirstParsedFinds<T>(ls: seq<Text>, parse: Text -> Option<T>, e: T)
    ensures FirstParsed(ls, parse, e) == |ls| <==> e !in Collect(ls, parse)
    ensures var k := FirstParsed(ls, parse, e);
            k < |ls| ==> parse(ls[k]) == Some(e)
    ensures forall i :: 0 <= i < FirstParsed(ls, parse, e) && i < |ls| ==> parse(ls[i]) != Some(e)
  {
    CollectContains(ls, parse, e);
    var flags := ParseFlags(ls, parse, e);
    var k := FirstTrue(flags);
    assert forall i :: 0 <= i < |ls| ==> flags[i] == (parse(ls[i]) == Some(e));
  }

  /** Taking out the first line that parses to `e`: the entry goes once, every other line stays
      as it is. */
  lemma {:induction false} RemoveFirst<T>(text: Text, parse: Text -> Option<T>, e: T)
    requires e in Collect(LinesOf(text), parse)
    ensures var ls := LinesOf(text);
            var k := FirstParsed(ls, parse, e);
            var text' := Rewritten(text, k, []);
            && FirstLineFor(ls, parse, e, k)
            && LinesOf(text') == ls[..k] + ls[k + 1..]
            && multiset(Collect(LinesOf(text'), parse)) == multiset(Collect(ls, parse)) - multiset{e}
  {
    var ls := LinesOf(text);
    var k := FirstParsed(ls, parse, e);
    FirstParsedFinds(ls, parse, e);
    RewrittenLines(text, k, []);
    assert Without(ls, k) + [] == Without(ls, k);
    CollectWithout(ls, k, parse);
  }

  /** Appending a line: the file gains exactly `e` if and only if the line parses to it. */
  lemma {:induction false} AppendLine<T>(text: Text, parse: Text -> Option<T>, line: Text, e: T)
    requires NEWLINE !in line && NUL !in line
    ensures var text' := Rewritten(text, |LinesOf(text)|, [line]);
            && LinesOf(text') == LinesOf(text) + [line]
            && (multiset(Collect(LinesOf(text'), parse)) == multiset(Collect(LinesOf(text), parse)) + multiset{e}
                <==> parse(line) == Some(e))
  {
    var ls := LinesOf(text);
    RewrittenLines(text, |ls|, [line]);
    CollectConcat(ls, [line], parse);
    CollectOne(line, parse);
    var before, gained := multiset(Collect(ls, parse)), multiset(Collect([line], parse));
    assert multiset(Collect(ls + [line], parse)) == before + gained;
    if parse(line) != Some(e) {
      assert gained[e] == 0;
      assert (before + gained)[e] == before[e];
    }
  }

  /** Putting a line at the end for one that is taken out: the file lists exactly the one item
      less and the other one more if and only if the line parses to it. */
  lemma {:induction false} ReplaceLine<T>(text: Text, k: nat, parse: Text -> Option<T>, line: Text, removed: T, e: T)
    requires k < |LinesOf(text)| && parse(LinesOf(text)[k]) == Some(removed)
    requires NEWLINE !in line && NUL !in line
    ensures var text' := Rewritten(text, k, [line]);
            && LinesOf(text') == Without(LinesOf(text), k) + [line]
            && (multiset(Collect(LinesOf(text'), parse)) ==
                 multiset(Collect(LinesOf(text), parse)) - multiset{removed} + multiset{e}
                <==> parse(line) == Some(e))
  {
    var ls := LinesOf(text);
    var between := Rewritten(text, k, []);
    RewrittenLines(text, k, [line]);
    RewrittenLines(text, k, []);
    assert Without(ls, k) + [] == Without(ls, k);
    CollectWithout(ls, k, parse);
    AppendLine(between, parse, line, e);
    RewrittenLines(between, |LinesOf(between)|, [line]);
    MultisetMinus(multiset(Collect(ls, parse)), multiset(Collect(Without(ls, k), parse)), removed);
  }

  lemma {:induction false} MultisetMinus<T>(all: multiset<T>, rest: multiset<T>, x: T)
    requires all == rest + multiset{x}
    ensures all - multiset{x} == rest
  {
  }

  lemma {:induction false} FirstParsedAfterAppend<T>(ls: seq<Text>, parse: Text -> Option<T>, line: Text, e: T)
    ensures var k := FirstParsed(ls + [line], parse, e);
            && (e in Collect(ls, parse) ==> k < |ls|)
            && (e !in Collect(ls, parse) ==> k == if parse(line) == Some(e) then |ls| else |ls| + 1)
  {
    var ls' := ls + [line];
    FirstParsedFinds(ls, parse, e);
    FirstParsedFinds(ls', parse, e);
    CollectContains(ls, parse, e);
    var k := FirstParsed(ls', parse, e);
    assert forall i :: 0 <= i < |ls| ==> ls'[i] == ls[i];
    assert ls'[|ls|] == line;
    if e in Collect(ls, parse) {
      var j := FirstParsed(ls, parse, e);
      assert parse(ls'[j]) == Some(e);
    }
  }

  /** Appending a line that parses to `e` and taking out the first line that does: with no such
      line before, the old lines are back; in any case the same entries are collected. */
  lemma {:induction false} AppendThenRemove<T>(text: Text, text': Text, parse: Text -> Option<T>, line: Text, e: T)
    requires NEWLINE !in line && NUL !in line && parse(line) == Some(e)
    requires text' == Rewritten(text, |LinesOf(text)|, [line])
    ensures var k := FirstParsed(LinesOf(text'), parse, e);
            && k < |LinesOf(text')|
            && (e !in Collect(LinesOf(text), parse) ==> Rewritten(text', k, []) == Unlines(LinesOf(text)))
            && multiset(Collect(LinesOf(Rewritten(text', k, [])), parse)) == multiset(Collect(LinesOf(text), parse))
  {
    var ls := LinesOf(text);
    AppendLine(text, parse, line, e);
    FirstParsedAfterAppend(ls, parse, line, e);
    assert LinesOf(text') == ls + [line];
    MultisetHas(Collect(LinesOf(text'), parse), Collect(ls, parse), e);
    RemoveFirst(text', parse, e);
    if e !in Collect(ls, parse) {
      WithoutLast(ls, line);
    }
  }

  lemma MultisetHas<T>(a: seq<T>, b: seq<T>, e: T)
    requires multiset(a) == multiset(b) + multiset{e}
    ensures e in a
    ensures multiset(a) - multiset{e} == multiset(b)
  {
    assert e in multiset(a);
  }

  lemma WithoutLast(ls: seq<Text>, line: Text)
    ensures Without(ls + [line], |ls|) + [] == ls
  {
  }

  lemma WithoutSnoc<T>(s: seq<T>, x: T, k: nat)
    ensures Without(s + [x], k) == if k == |s| then Without(s, k) else Without(s, k) + [x]
  {
  }

  /** One round of the line loop, seen from the result. */
  lemma {:induction false} KeepOrDrop(ls: seq<Text>, n: nat, k: nat)
    requires n < |ls|
    ensures Unlines(Without(ls[..n + 1], k)) ==
            if n == k then Unlines(Without(ls[..n], k)) else Unlines(Without(ls[..n], k)) + ls[n] + [NEWLINE]
  {
    assert ls[..n + 1] == ls[..n] + [ls[n]];
    WithoutSnoc(ls[..n], ls[n], k);
    UnlinesConcat(Without(ls[..n], k), [ls[n]]);
    UnlinesOne(ls[n]);
    Assoc(Unlines(Without(ls[..n], k)), ls[n], [NEWLINE]);
  }

  /** What an editor has written after `n` lines, dropping line `k`. */
  function Written(ls: seq<Text>, k: nat, n: nat): Text
    requires n <= |ls|
  {
    if n == 0 then []
    else if n - 1 == k then Written(ls, k, n - 1)
    else Written(ls, k, n - 1) + ls[n - 1] + [NEWLINE]
  }

  lemma {:induction false} WrittenIsRewritten(ls: seq<Text>, k: nat, n: nat)
    requires n <= |ls|
    ensures Written(ls, k, n) == Unlines(Without(ls[..n], k))
  {
    if n == 0 {
      assert Without(ls[..0], k) == [];
    } else {
      WrittenIsRewritten(ls, k, n - 1);
      KeepOrDrop(ls, n - 1, k);
    }
  }

  lemma {:induction false} AllWritten(ls: seq<Text>, k: nat)
    ensures Written(ls, k, |ls|) == Unlines(Without(ls, k))
  {
    WrittenIsRewritten(ls, k, |ls|);
    assert ls[..|ls|] == ls;
  }

  lemma {:induction false} UnlinesOne(line: Text)
    ensures Unlines([line]) == line + [NEWLINE]
    ensures Unlines([]) == []
  {
    assert [line][1..] == [];
    assert line + [NEWLINE] + [] == line + [NEWLINE];
  }
}
