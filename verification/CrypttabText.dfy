/** The text form of one /etc/crypttab entry, read by two different parsers: the monitor's
    (split on blanks) and the editor's (`sscanf`). */
module CrypttabText {
  import opened OptionType
  import opened Sequences
  import opened Bytes
  import opened Tokens
  import opened LineEditing

  /** An entry as the monitor stores it; the last two columns may be missing. */
  datatype CrypttabEntry = CrypttabEntry(name: Text, device: Text, passphrasePath: Option<Text>, options: Option<Text>)

  /** The same, as a configuration item reports it and as a removal asks for it. */
  datatype CrypttabItem = CrypttabItem(name: Text, device: Text, passphrasePath: Text, options: Text)

  const NONE_PATH: Text := B("none")
  const DASH_PATH: Text := B("-")

  predicate NoPath(path: Text)
  {
    path == NONE_PATH || path == DASH_PATH
  }

  /** add_crypttab_entry: a missing, `none` or `-` path and missing options become "". */
  function Report(e: CrypttabEntry): CrypttabItem
  {
    CrypttabItem(e.name, e.device,
                 match e.passphrasePath case None => [] case Some(p) => if NoPath(p) then [] else p,
                 match e.options case None => [] case Some(o) => o)
  }

  /** One line as the monitor reads it. */
  function MonitorLine(line: Text): Option<CrypttabEntry>
  {
    if line == [] || line[0] == HASH then None
    else
      var tokens := Words(line, BLANK);
      if |tokens| > 1 then
        Some(CrypttabEntry(tokens[0], tokens[1],
                           if |tokens| >= 3 then Some(tokens[2]) else None,
                           if |tokens| >= 4 then Some(tokens[3]) else None))
      else None
  }

  function ReportedLine(line: Text): Option<CrypttabItem>
  {
    match MonitorLine(line) case None => None case Some(e) => Some(Report(e))
  }

  /** What the editor compares on a line without a token: the buffers, with `none` and `-` blanked. */
  function Compared(garbage: CrypttabItem): CrypttabItem
  {
    garbage.(passphrasePath := if NoPath(garbage.passphrasePath) then [] else garbage.passphrasePath)
  }

  /** One line as the editor reads it. On a line without a token `sscanf` returns EOF, which the
      code keeps in an unsigned variable: it then compares four buffers that were never written.
      `garbage` stands for what they hold. */
  function EditorLine(line: Text, garbage: CrypttabItem): Option<CrypttabItem>
  {
    var words := ScanWords(line, 4).0;
    if words == [] then Some(Compared(garbage))
    else if |words| < 2 then None
    else
      Some(CrypttabItem(words[0], words[1],
                        if |words| < 3 || NoPath(words[2]) then [] else words[2],
                        if |words| < 4 then [] else words[3]))
  }

  /** Lines on which the two tokenisers agree. */
  predicate Clean(line: Text)
  {
    NEWLINE !in line && VT !in line && FF !in line && CR !in line && ShortWords(Words(line, BLANK))
  }

  predicate Commented(name: Text)
  {
    name != [] && name[0] == HASH
  }

  lemma {:induction false} FirstWordOfCommentedLine(line: Text)
    requires line != [] && line[0] == HASH
    ensures Words(line, BLANK) != [] && Commented(Words(line, BLANK)[0])
  {
    assert SkipSeps(line, BLANK) == line;
  }

  /** The two parsers agree: on a clean line with a token, the editor finds a given item whose
      name is not commented out if and only if the monitor reports it. */
  lemma {:induction false} ParsersAgree(line: Text, garbage: CrypttabItem, item: CrypttabItem)
    requires Clean(line) && Words(line, BLANK) != [] && !Commented(item.name)
    ensures EditorLine(line, garbage) == Some(item) <==> ReportedLine(line) == Some(item)
  {
    WordsBlankIsWhitespace(line);
    ScanWordsIsWords(line, 4);
    if line != [] && line[0] == HASH {
      FirstWordOfCommentedLine(line);
    }
  }

  /** An example of why a token is needed: a blank line is taken for any item at all. */
  lemma BlankLineMatchesAnything(item: CrypttabItem)
    requires !NoPath(item.passphrasePath)
    ensures EditorLine([SPACE], item) == Some(item) && ReportedLine([SPACE]) == None
  {
    WordsAreWords([SPACE], WHITESPACE);
    WordsAreWords([SPACE], BLANK);
  }

  // ----- printing -----

  /** What `has_whitespace` looks for (g_ascii_isspace has no vertical tab). */
  const ASCII_SPACE: set<Byte> := {TAB, NEWLINE, FF, CR, SPACE}

  /** `"%s %s %s %s"`, with `none` for an empty path. */
  function PrintCrypttabItem(item: CrypttabItem): Text
  {
    item.name + ([SPACE] + (item.device + ([SPACE] +
      ((if item.passphrasePath == [] then NONE_PATH else item.passphrasePath) + ([SPACE] + item.options)))))
  }

  predicate NoSpaces(item: CrypttabItem)
  {
    NoSeps(item.name, ASCII_SPACE) && NoSeps(item.device, ASCII_SPACE) &&
    NoSeps(item.passphrasePath, ASCII_SPACE) && NoSeps(item.options, ASCII_SPACE)
  }

  lemma {:induction false} WordsOfColumn(w: Text, rest: Text)
    requires NoSeps(w, ASCII_SPACE)
    ensures Words(w + ([SPACE] + rest), BLANK) == (if w == [] then [] else [w]) + Words(rest, BLANK)
  {
    assert NoSeps(w, BLANK);
    SpaceEndsWord(w, [SPACE] + rest, rest);
  }

  lemma {:induction false} SpaceEndsWord(w: Text, tail: Text, rest: Text)
    requires NoSeps(w, BLANK) && tail == [SPACE] + rest
    ensures Words(w + tail, BLANK) == (if w == [] then [] else [w]) + Words(rest, BLANK)
  {
    WordsOfSeps([SPACE], rest, BLANK);
    if w == [] {
      NoColumn(tail, Words(rest, BLANK));
    } else {
      assert tail[0] == SPACE;
      WordsOfWord(w, tail, BLANK);
    }
  }

  lemma {:induction false} NoColumn(tail: Text, words: seq<Text>)
    ensures [] + tail == tail && [] + words == words
  {
  }

  lemma {:induction false} WordsOfPrinted(item: CrypttabItem)
    requires NoSpaces(item)
    ensures var path := if item.passphrasePath == [] then NONE_PATH else item.passphrasePath;
            Words(PrintCrypttabItem(item), BLANK) ==
              (if item.name == [] then [] else [item.name]) + ((if item.device == [] then [] else [item.device]) +
              ([path] + (if item.options == [] then [] else [item.options])))
  {
    var path := if item.passphrasePath == [] then NONE_PATH else item.passphrasePath;
    var o := item.options;
    assert NoSeps(o, BLANK);
    if o == [] {
      assert Words([], BLANK) == [];
    } else {
      WordsOfWord(o, [], BLANK);
      assert o + [] == o;
      assert Words([], BLANK) == [] && [o] + [] == [o];
    }
    WordsOfColumn(path, o);
    WordsOfColumn(item.device, path + ([SPACE] + o));
    WordsOfColumn(item.name, item.device + ([SPACE] + (path + ([SPACE] + o))));
  }

  lemma {:induction false} NamedLine(item: CrypttabItem)
    requires NoSpaces(item) && !NoPath(item.passphrasePath) && item.name != []
    ensures var ws := Words(PrintCrypttabItem(item), BLANK);
            && |ws| > 0 && ws[0] == item.name && PrintCrypttabItem(item)[0] == item.name[0]
            && (|ws| > 1 ==> ws[1] != [])
            && (item.device != [] ==> |ws| == (if item.options == [] then 3 else 4) && ws[1] == item.device)
  {
    WordsOfPrinted(item);
    WordsAreWords(PrintCrypttabItem(item), BLANK);
  }

  lemma {:induction false} CompleteLineIsReported(item: CrypttabItem)
    requires NoSpaces(item) && !NoPath(item.passphrasePath) && item.name != [] && item.device != []
    ensures ReportedLine(PrintCrypttabItem(item)) == Some(item) <==> !Commented(item.name)
  {
    NamedLine(item);
    WordsOfPrinted(item);
    FullLineIsReported(PrintCrypttabItem(item), item);
  }

  lemma {:induction false} FullLineIsReported(line: Text, item: CrypttabItem)
    requires line != [] && item.name != [] && line[0] == item.name[0] && !NoPath(item.passphrasePath)
    requires Words(line, BLANK) == [item.name] + ([item.device] +
               ([if item.passphrasePath == [] then NONE_PATH else item.passphrasePath] +
                (if item.options == [] then [] else [item.options])))
    ensures ReportedLine(line) == Some(item) <==> !Commented(item.name)
  {
    var ws := Words(line, BLANK);
    assert ws[0] == item.name && ws[1] == item.device;
    assert item.options != [] ==> ws[3] == item.options;
  }

  /** A path column of "-" or "none" is no path. */
  lemma {:induction false} DashIsNoPath(item: CrypttabItem)
    requires NoSpaces(item) && item.name != [] && !Commented(item.name) && item.device != []
    requires item.passphrasePath == B("-") || item.passphrasePath == B("none")
    ensures ReportedLine(PrintCrypttabItem(item)) == Some(item.(passphrasePath := []))
  {
    var line := PrintCrypttabItem(item);
    WordsOfPrinted(item);
    var ws := Words(line, BLANK);
    assert ws[0] == item.name && ws[1] == item.device && ws[2] == item.passphrasePath;
    assert item.options != [] ==> ws[3] == item.options;
    assert line[0] == item.name[0];
  }

  /** An added line is reported as the item it was printed from if and only if its name and
      device are not empty and its name is not commented out. */
  lemma {:induction false} AddedLineIsReported(item: CrypttabItem)
    requires NoSpaces(item) && !NoPath(item.passphrasePath)
    ensures ReportedLine(PrintCrypttabItem(item)) == Some(item)
            <==> item.name != [] && !Commented(item.name) && item.device != []
  {
    if item.name != [] && item.device != [] {
      CompleteLineIsReported(item);
    } else if item.name != [] {
      NamedLine(item);
    } else {
      WordsOfPrinted(item);
      WordsAreWords(PrintCrypttabItem(item), BLANK);
    }
  }

  /** An item without a device reads back with `none` as its device, and one whose name is commented
      out does not read back at all. */
  lemma {:induction false} IncompleteItemsAreMisread()
    ensures ReportedLine(PrintCrypttabItem(CrypttabItem(B("a"), [], [], []))) ==
            Some(CrypttabItem(B("a"), NONE_PATH, [], []))
    ensures ReportedLine(PrintCrypttabItem(CrypttabItem(B("#a"), B("b"), [], []))) == None
  {
    NoDevice(CrypttabItem(B("a"), [], [], []));
    NamedLine(CrypttabItem(B("#a"), B("b"), [], []));
  }

  lemma {:induction false} NoDevice(item: CrypttabItem)
    requires item == CrypttabItem(B("a"), [], [], [])
    ensures ReportedLine(PrintCrypttabItem(item)) == Some(CrypttabItem(B("a"), NONE_PATH, [], []))
  {
    WordsOfPrinted(item);
    assert Words(PrintCrypttabItem(item), BLANK) == [B("a"), NONE_PATH];
  }

  lemma {:induction false} PrintedItemIsOneLine(item: CrypttabItem)
    requires NoSpaces(item)
    ensures NEWLINE !in PrintCrypttabItem(item)
    ensures NUL !in item.name && NUL !in item.device && NUL !in item.passphrasePath && NUL !in item.options
            ==> NUL !in PrintCrypttabItem(item)
  {
  }

  // ----- removing by report -----

  /** The items listed for a file. */
  function Reported(text: Text): seq<CrypttabItem>
  {
    Collect(LinesOf(text), ReportedLine)
  }

  function EditorFlags(ls: seq<Text>, item: CrypttabItem, garbage: nat -> CrypttabItem): (flags: seq<bool>)
    ensures |flags| == |ls|
    ensures forall i :: 0 <= i < |ls| ==> flags[i] == (EditorLine(ls[i], garbage(i)) == Some(item))
  {
    seq(|ls|, i requires 0 <= i < |ls| => EditorLine(ls[i], garbage(i)) == Some(item))
  }

  /** The line the editor takes out. */
  function RemovedLine(ls: seq<Text>, item: CrypttabItem, garbage: nat -> CrypttabItem): (k: nat)
    ensures k <= |ls|
  {
    FirstTrue(EditorFlags(ls, item, garbage))
  }

  ghost predicate CleanUpTo(ls: seq<Text>, k: nat)
    requires k < |ls|
  {
    forall i :: 0 <= i <= k ==> Clean(ls[i])
  }

  predicate TokensUpTo(ls: seq<Text>, k: nat)
    requires k <= |ls|
  {
    forall i :: 0 <= i < k ==> Words(ls[i], BLANK) != []
  }

  lemma {:induction false} ReportedHasToken(line: Text)
    requires ReportedLine(line).Some?
    ensures Words(line, BLANK) != []
  {
  }

  /** With buffers that happen to hold the item, a blank line in front is taken out instead. */
  lemma {:induction false} BlankLineRemovedInstead(ls: seq<Text>, item: CrypttabItem, i: nat)
    requires i < |ls| && Clean(ls[i]) && Words(ls[i], BLANK) == [] && !NoPath(item.passphrasePath)
    ensures RemovedLine(ls, item, n => item) <= i
  {
    WordsBlankIsWhitespace(ls[i]);
    var flags := EditorFlags(ls, item, n => item);
    assert ScanWords(ls[i], 4).0 == [];
    assert flags[i];
  }

  lemma ReportedPathIsNormal(line: Text)
    ensures ReportedLine(line).Some? ==> !NoPath(ReportedLine(line).value.passphrasePath)
  {
  }

  lemma {:induction false} RemovesReportedLine(ls: seq<Text>, item: CrypttabItem, k: nat, garbage: nat -> CrypttabItem)
    requires k < |ls| && CleanUpTo(ls, k) && !Commented(item.name) && TokensUpTo(ls, k)
    requires FirstLineFor(ls, ReportedLine, item, k)
    ensures RemovedLine(ls, item, garbage) == k
  {
    ReportedHasToken(ls[k]);
    var flags := EditorFlags(ls, item, garbage);
    forall i | 0 <= i <= k ensures flags[i] == (i == k) {
      ParsersAgree(ls[i], garbage(i), item);
    }
    FirstTrueIs(flags, k);
  }

  /** At no line without a token do the buffers spell the item. */
  ghost predicate Unspelled(ls: seq<Text>, item: CrypttabItem, garbage: nat -> CrypttabItem)
  {
    forall i :: 0 <= i < |ls| && Words(ls[i], BLANK) == [] ==> Compared(garbage(i)) != item
  }

  /** With clean lines, whether the editor takes out the first line reported as the item depends on
      the lines without a token before it alone: on whether the buffers spell the item there. */
  lemma {:induction false} RemovesReportedLineUnlessSpelled(ls: seq<Text>, item: CrypttabItem, k: nat,
                                                            garbage: nat -> CrypttabItem)
    requires k < |ls| && CleanUpTo(ls, k) && !Commented(item.name) && FirstLineFor(ls, ReportedLine, item, k)
    ensures RemovedLine(ls, item, garbage) == k <==>
            Unspelled(ls[..k], item, garbage)
  {
    ReportedHasToken(ls[k]);
    var flags := EditorFlags(ls, item, garbage);
    forall i | 0 <= i <= k
      ensures flags[i] <==> if Words(ls[i], BLANK) == [] then Compared(garbage(i)) == item else i == k
    {
      if Words(ls[i], BLANK) == [] {
        NoTokenNoWord(ls[i]);
      } else {
        ParsersAgree(ls[i], garbage(i), item);
      }
    }
    assert forall i :: 0 <= i < k ==> ls[..k][i] == ls[i];
    if Unspelled(ls[..k], item, garbage) {
      FirstTrueIs(flags, k);
    } else {
      var i :| 0 <= i < k && Words(ls[..k][i], BLANK) == [] && Compared(garbage(i)) == item;
      assert flags[i];
    }
  }

  lemma {:induction false} NoTokenNoWord(line: Text)
    requires Clean(line) && Words(line, BLANK) == []
    ensures ScanWords(line, 4).0 == []
  {
    WordsBlankIsWhitespace(line);
    ScanWordsIsWords(line, 4);
  }

  lemma {:induction false} FirstTrueIs(flags: seq<bool>, k: nat)
    requires k < |flags| && forall i :: 0 <= i <= k ==> flags[i] == (i == k)
    ensures FirstTrue(flags) == k
  {
    assert flags[k];
    assert FirstTrue(flags) <= k;
  }

  /** The editor takes out line `k`, whatever the uninitialised buffers hold. */
  ghost predicate AlwaysRemoves(ls: seq<Text>, item: CrypttabItem, k: nat)
  {
    forall garbage: nat -> CrypttabItem :: RemovedLine(ls, item, garbage) == k
  }

  lemma {:induction false} BlankLineMisleads(ls: seq<Text>, item: CrypttabItem, k: nat, i: nat)
    requires i < k < |ls| && Clean(ls[i]) && Words(ls[i], BLANK) == [] && !NoPath(item.passphrasePath)
    ensures !AlwaysRemoves(ls, item, k)
  {
    BlankLineRemovedInstead(ls, item, i);
    var garbage: nat -> CrypttabItem := n => item;
    assert RemovedLine(ls, item, garbage) != k;
  }

  /** With clean lines, the editor takes out the first line reported as the item, whatever the
      uninitialised buffers hold, if and only if every line before it has a token. */
  lemma {:induction false} RemovesReportedLineExactly(ls: seq<Text>, item: CrypttabItem, k: nat)
    requires k < |ls| && CleanUpTo(ls, k) && !Commented(item.name)
    requires FirstLineFor(ls, ReportedLine, item, k)
    ensures AlwaysRemoves(ls, item, k) <==> TokensUpTo(ls, k)
  {
    if TokensUpTo(ls, k) {
      forall garbage: nat -> CrypttabItem ensures RemovedLine(ls, item, garbage) == k {
        RemovesReportedLine(ls, item, k, garbage);
      }
    } else {
      var i := TokenFree(ls, k);
      ReportedPathIsNormal(ls[k]);
      BlankLineMisleads(ls, item, k, i);
    }
  }

  lemma TokenFree(ls: seq<Text>, k: nat) returns (i: nat)
    requires k <= |ls| && !TokensUpTo(ls, k)
    ensures i < k && Words(ls[i], BLANK) == []
  {
    i :| 0 <= i < k && Words(ls[i], BLANK) == [];
  }

  /** Whatever is listed can be removed: for every line the monitor reports under a name that is
      not commented out, with clean lines that have tokens up to it, feeding the report back takes
      out exactly that item, whatever the uninitialised buffers hold. */
  lemma {:induction false} ListedItemIsRemoved(text: Text, k: nat, garbage: nat -> CrypttabItem)
    requires k < |LinesOf(text)| && ReportedLine(LinesOf(text)[k]).Some?
    requires !Commented(ReportedLine(LinesOf(text)[k]).value.name)
    requires CleanUpTo(LinesOf(text), k) && TokensUpTo(LinesOf(text), k)
    ensures var ls, item := LinesOf(text), ReportedLine(LinesOf(text)[k]).value;
            var j := RemovedLine(ls, item, garbage);
            var text' := Rewritten(text, j, []);
            && j <= k && ReportedLine(ls[j]) == Some(item)
            && LinesOf(text') == ls[..j] + ls[j + 1..]
            && multiset(Reported(text')) == multiset(Reported(text)) - multiset{item}
  {
    var item := ReportedLine(LinesOf(text)[k]).value;
    ListedLineIsRemoved(LinesOf(text), k, item, garbage);
    FirstReportGoes(text, k, item);
  }

  lemma {:induction false} FirstReportGoes(text: Text, k: nat, item: CrypttabItem)
    requires k < |LinesOf(text)| && ReportedLine(LinesOf(text)[k]) == Some(item)
    ensures var ls := LinesOf(text);
            var j := FirstParsed(ls, ReportedLine, item);
            var text' := Rewritten(text, j, []);
            && j < |ls| && ReportedLine(ls[j]) == Some(item)
            && LinesOf(text') == ls[..j] + ls[j + 1..]
            && multiset(Reported(text')) == multiset(Reported(text)) - multiset{item}
  {
    CollectContains(LinesOf(text), ReportedLine, item);
    RemoveFirst(text, ReportedLine, item);
  }

  lemma {:induction false} ListedLineIsRemoved(ls: seq<Text>, k: nat, item: CrypttabItem, garbage: nat -> CrypttabItem)
    requires k < |ls| && ReportedLine(ls[k]) == Some(item) && !Commented(item.name)
    requires CleanUpTo(ls, k) && TokensUpTo(ls, k)
    ensures RemovedLine(ls, item, garbage) == FirstParsed(ls, ReportedLine, item) <= k
  {
    var flags := ParseFlags(ls, ReportedLine, item);
    assert flags[k];
    var j := FirstTrue(flags);
    assert j <= k && flags[j];
    assert forall i :: 0 <= i < j ==> !flags[i];
    RemovesReportedLine(ls, item, j, garbage);
  }

  /** A line on which both parsers agree and find something. */
  predicate TidyLine(line: Text)
  {
    Clean(line) && Words(line, BLANK) != []
  }

  predicate TidyLines(ls: seq<Text>)
  {
    forall i :: 0 <= i < |ls| ==> TidyLine(ls[i])
  }

  /** A line the editor takes out, if both parsers agree on it, is one the monitor reports as the
      item, whatever the other lines are. */
  lemma {:induction false} TakenOutLineIsReported(text: Text, item: CrypttabItem, garbage: nat -> CrypttabItem)
    requires var ls := LinesOf(text);
             var k := RemovedLine(ls, item, garbage);
             k < |ls| ==> TidyLine(ls[k])
    requires !Commented(item.name)
    ensures var ls := LinesOf(text);
            var k := RemovedLine(ls, item, garbage);
            var text' := Rewritten(text, k, []);
            k < |ls| ==>
              && ReportedLine(ls[k]) == Some(item) && LinesOf(text') == Without(ls, k)
              && multiset(Reported(text)) == multiset(Reported(text')) + multiset{item}
  {
    var ls := LinesOf(text);
    var k := RemovedLine(ls, item, garbage);
    if k < |ls| {
      assert EditorFlags(ls, item, garbage)[k];
      ParsersAgree(ls[k], garbage(k), item);
      RewrittenLines(text, k, []);
      WithoutNothingAdded(Without(ls, k));
      CollectWithout(ls, k, ReportedLine);
    }
  }

  lemma WithoutNothingAdded(ls: seq<Text>)
    ensures ls + [] == ls
  {
  }

  predicate CleanLines(ls: seq<Text>)
  {
    forall i :: 0 <= i < |ls| ==> Clean(ls[i])
  }

  lemma {:induction false} WithoutIsTidy(ls: seq<Text>, k: nat)
    ensures TidyLines(ls) ==> TidyLines(Without(ls, k))
    ensures CleanLines(ls) ==> CleanLines(Without(ls, k))
  {
    if k < |ls| {
      assert forall i :: 0 <= i < |Without(ls, k)| ==> Without(ls, k)[i] == ls[if i < k then i else i + 1];
    }
  }
}
