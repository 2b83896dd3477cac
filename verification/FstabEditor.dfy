/** Adding and removing /etc/fstab entries by rewriting the file line by line. */
module FstabEditor {
  import opened OptionType
  import opened Sequences
  import opened Bytes
  import opened Tokens
  import opened Decimal
  import opened FstabText
  import opened LineEditing
  import opened ParentTracking

  /** The dictionary of a configuration item; any key may be missing. */
  datatype FstabDict = FstabDict(fsname: Option<Text>, dir: Option<Text>, fstype: Option<Text>, opts: Option<Text>,
                                 freq: Option<Int32>, passno: Option<Int32>, trackParents: Option<bool>)

  datatype FstabError = MissingKeys | BlankOpts | ReadFailed | NotFound | WriteFailed

  // ----- the edit as a function of the text -----

  /** The line to take out: past the end when there is none. */
  function RemovalIndex(ls: seq<Text>, remove: Option<FstabEntry>): (k: nat)
    ensures k <= |ls|
  {
    match remove case None => |ls| case Some(e) => FirstParsed(ls, ParseFstabLine, e)
  }

  /** The new text: the first matching line gone, a printed line at the end; `None` when there
      is no line to remove. */
  function EditFstab(text: Text, remove: Option<FstabEntry>, add: Option<FstabEntry>): Option<Text>
  {
    var ls := LinesOf(text);
    var k := RemovalIndex(ls, remove);
    if remove.Some? && k == |ls| then None
    else Some(Rewritten(text, k, match add case None => [] case Some(e) => [PrintFstabEntry(e)]))
  }

  function RemovalEntry(d: FstabDict): Option<FstabEntry>
  {
    if d.fsname.Some? && d.dir.Some? && d.fstype.Some? && d.opts.Some? && d.freq.Some? && d.passno.Some? then
      Some(FstabEntry(CStr(d.fsname.value), CStr(d.dir.value), CStr(d.fstype.value), CStr(d.opts.value),
                      d.freq.value, d.passno.value))
    else None
  }

  function AdditionEntry(d: FstabDict, block: BlockIds, uuids: seq<Text>): Outcome<FstabEntry, FstabError>
  {
    if !(d.dir.Some? && d.fstype.Some? && d.opts.Some? && d.freq.Some? && d.passno.Some?) then Failed(MissingKeys)
    else if CStr(d.opts.value) == [] then Failed(BlankOpts)
    else
      var fsname := if d.fsname.Some? then d.fsname.value else BlockFsname(block);
      var opts := CStr(d.opts.value);
      Ok(FstabEntry(CStr(fsname), CStr(d.dir.value), CStr(d.fstype.value),
                    if d.trackParents == Some(true) then CStr(Tracked(opts, uuids)) else opts,
                    d.freq.value, d.passno.value))
  }

  /** The whole call: the checks in the order the code makes them, then the edit. */
  function EditOutcome(contents: Option<Text>, remove: Option<FstabDict>, add: Option<FstabDict>, block: BlockIds,
                       uuids: seq<Text>, readable: bool, writable: bool): Outcome<Text, FstabError>
  {
    var removal := if remove.Some? then RemovalEntry(remove.value) else None;
    var addition := if add.Some? then AdditionEntry(add.value, block, uuids) else Failed(NotFound);
    if remove.Some? && removal.None? then Failed(MissingKeys)
    else if add.Some? && addition.Failed? then Failed(addition.error)
    else if contents.Some? && !readable then Failed(ReadFailed)
    else
      var text := if contents.Some? then contents.value else [];
      match EditFstab(text, removal, if addition.Ok? then Some(addition.value) else None)
      case None => Failed(NotFound)
      case Some(text') => if writable then Ok(text') else Failed(WriteFailed)
  }

  // ----- the edit as the code does it -----

  class EtcFstab {
    /** `None` when the file does not exist. */
    var contents: Option<Text>

    constructor (contents: Option<Text>)
      ensures this.contents == contents
    {
      this.contents := contents;
    }

    /** add_remove_fstab_entry. The file is replaced as a whole or left alone. */
    method AddRemove(remove: Option<FstabDict>, add: Option<FstabDict>, block: BlockIds,
                     ancestry: Ancestry, ghost rank: Text -> nat, readable: bool, writable: bool)
      returns (r: Outcome<(), FstabError>)
      requires ancestry.Acyclic(rank)
      modifies this
      ensures var edit := EditOutcome(old(contents), remove, add, block, ancestry.AncestorUuids(block.path, rank),
                                      readable, writable);
              match edit
              case Ok(text) => r == Ok(()) && contents == Some(text)
              case Failed(error) => r == Failed(error) && contents == old(contents)
    {
      var removal := None;
      if remove.Some? {
        removal := RemovalEntry(remove.value);
        if removal.None? {
          return Failed(MissingKeys);
        }
      }
      var entry := None;
      if add.Some? {
        var addition := ReadAddition(add.value, block, ancestry, rank);
        if addition.Failed? {
          return Failed(addition.error);
        }
        entry := Some(addition.value);
      }
      if contents.Some? && !readable {
        return Failed(ReadFailed);
      }
      var kept := RewriteLines(if contents.Some? then contents.value else [], removal);
      if kept.None? {
        return Failed(NotFound);
      }
      var text := kept.value;
      if entry.Some? {
        text := text + (PrintFstabEntry(entry.value) + [NEWLINE]);
      }
      AppendToRewritten(if contents.Some? then contents.value else [], removal, entry);
      if !writable {
        return Failed(WriteFailed);
      }
      contents := Some(text);
      return Ok(());
    }

    method ReadAddition(d: FstabDict, block: BlockIds, ancestry: Ancestry, ghost rank: Text -> nat)
      returns (r: Outcome<FstabEntry, FstabError>)
      requires ancestry.Acyclic(rank)
      ensures r == AdditionEntry(d, block, ancestry.AncestorUuids(block.path, rank))
    {
      var fsname := if d.fsname.Some? then d.fsname.value else BlockFsname(block);
      if d.dir.None? || d.fstype.None? || d.opts.None? || d.freq.None? || d.passno.None? {
        return Failed(MissingKeys);
      }
      var opts := CStr(d.opts.value);
      if opts == [] {
        return Failed(BlankOpts);
      }
      if d.trackParents == Some(true) {
        opts := TrackParents(opts, block.path, ancestry, rank);
        opts := CStr(opts);
      }
      return Ok(FstabEntry(CStr(fsname), CStr(d.dir.value), CStr(d.fstype.value), opts, d.freq.value, d.passno.value));
    }

    /** The line loop with its `removed` flag. */
    method RewriteLines(text: Text, remove: Option<FstabEntry>) returns (r: Option<Text>)
      ensures r == EditFstab(text, remove, None)
    {
      var lines := Split(CStr(text), NEWLINE);
      ghost var ls := LinesOf(text);
      ghost var k := RemovalIndex(ls, remove);
      LinesOfAreClean(text);
      var str: Text := [];
      var removed := false;
      var n := 0;
      while n < |lines| && !(lines[n] == [] && n + 1 == |lines|)
        invariant 0 <= n <= |ls|
        invariant removed <==> remove.Some? && k < n
        invariant str == Written(ls, k, n)
      {
        str, removed := RewriteLine(ls, k, n, lines[n], remove, str, removed);
        n := n + 1;
      }
      assert n == |ls|;
      AllWritten(ls, k);
      EditWithoutAdding(text, remove);
      return if remove.Some? && !removed then None else Some(str);
    }

    /** One round of the line loop: the line is kept, unless it is the first that matches. */
    method RewriteLine(ghost ls: seq<Text>, ghost k: nat, n: nat, line: Text, remove: Option<FstabEntry>, str: Text,
                       removed: bool)
      returns (str': Text, removed': bool)
      requires n < |ls| && ls[n] == line && NUL !in line && k == RemovalIndex(ls, remove)
      requires str == Written(ls, k, n) && (removed <==> remove.Some? && k < n)
      ensures str' == Written(ls, k, n + 1) && (removed' <==> remove.Some? && k < n + 1)
    {
      str', removed' := str, removed;
      var matches := false;
      if remove.Some? && !removed {
        matches := LineMatchesAt(ls, n, line, remove.value);
      }
      if matches {
        removed' := true;
      } else {
        str' := str + line + [NEWLINE];
      }
    }

    method LineMatchesAt(ghost ls: seq<Text>, n: nat, line: Text, e: FstabEntry) returns (matches: bool)
      requires n < |ls| && ls[n] == line && NUL !in line
      ensures matches == ParseFlags(ls, ParseFstabLine, e)[n]
    {
      matches := LineMatches(line, e);
    }

    method LineMatches(line: Text, e: FstabEntry) returns (matches: bool)
      requires NUL !in line
      ensures matches == (ParseFstabLine(line) == Some(e))
    {
      var scan := ScanWords(line, 4);
      if |scan.0| < 4 || ScanInt(scan.1).None? || ScanInt(ScanInt(scan.1).value.1).None? {
        return false;
      }
      ScanWordsNulFree(line, 4);
      var fsname := UnescapedField(scan.0[0]);
      var dir := UnescapedField(scan.0[1]);
      var fstype := UnescapedField(scan.0[2]);
      var opts := UnescapedField(scan.0[3]);
      FieldsAt(scan.0);
      return fsname == e.fsname && dir == e.dir && fstype == e.fstype && opts == e.opts &&
        ScanInt(scan.1).value.0 == e.freq && ScanInt(ScanInt(scan.1).value.1).value.0 == e.passno;
    }

    method UnescapedField(word: Text) returns (f: Text)
      requires NUL !in word
      ensures f == Field(word)
    {
      var dest, q := UnescapeFstab(word);
      f := CStr(dest[..q]);
    }
  }

  lemma {:induction false} EditWithoutAdding(text: Text, remove: Option<FstabEntry>)
    ensures var k := RemovalIndex(LinesOf(text), remove);
            EditFstab(text, remove, None) == if remove.Some? && k == |LinesOf(text)| then None
                                             else Some(Unlines(Without(LinesOf(text), k)))
  {
    var kept := Without(LinesOf(text), RemovalIndex(LinesOf(text), remove));
    assert kept + [] == kept;
  }

  lemma {:induction false} AppendToRewritten(text: Text, remove: Option<FstabEntry>, add: Option<FstabEntry>)
    requires EditFstab(text, remove, None).Some?
    ensures EditFstab(text, remove, add) ==
            Some(EditFstab(text, remove, None).value +
                 match add case None => [] case Some(e) => PrintFstabEntry(e) + [NEWLINE])
  {
    var ls := LinesOf(text);
    var k := RemovalIndex(ls, remove);
    var kept := Without(ls, k);
    assert kept + [] == kept;
    match add {
      case None =>
        assert Unlines(kept) + [] == Unlines(kept);
      case Some(e) =>
        UnlinesConcat(kept, [PrintFstabEntry(e)]);
        UnlinesOne(PrintFstabEntry(e));
    }
  }

  lemma {:induction false} FieldsAt(ws: seq<Text>)
    ensures forall i :: 0 <= i < |ws| ==> Fields(ws)[i] == Field(ws[i])
  {
    if ws != [] {
      FieldsAt(ws[1..]);
    }
  }

  lemma {:induction false} SkipSepsNulFree(s: Text)
    requires NUL !in s
    ensures NUL !in SkipSeps(s, WHITESPACE)
  {
    SkipSepsDecomposes(s, WHITESPACE);
    var r := SkipSeps(s, WHITESPACE);
    assert forall i :: 0 <= i < |r| ==> r[i] == s[|s| - |r| + i];
  }

  lemma {:induction false} ScanWordsNulFree(s: Text, k: nat)
    requires NUL !in s
    ensures forall i :: 0 <= i < |ScanWords(s, k).0| ==> NUL !in ScanWords(s, k).0[i]
    decreases k
  {
    if k > 0 && ScanWord(s).Some? {
      SkipSepsNulFree(s);
      ScanWordsNulFree(ScanWord(s).value.1, k - 1);
    }
  }

  // ----- what the edits do to the file -----

  /** The entries of a file, in order. */
  function Entries(text: Text): seq<FstabEntry>
  {
    Collect(LinesOf(text), ParseFstabLine)
  }

  /** A file written entry by entry lists exactly those entries, in order, if and only if all of
      their fields are printable. */
  lemma {:induction false} PrintedFileRoundTrip(es: seq<FstabEntry>)
    requires forall i :: 0 <= i < |es| ==> CStrings(FieldList(es[i]))
    ensures Entries(Unlines(PrintedEntries(es))) == es <==> forall i :: 0 <= i < |es| ==> AllPrintable(FieldList(es[i]))
  {
    var ls := PrintedEntries(es);
    forall i | 0 <= i < |es|
      ensures NEWLINE !in ls[i] && NUL !in ls[i]
      ensures ParseFstabLine(ls[i]) == Some(es[i]) <==> AllPrintable(FieldList(es[i]))
    {
      PrintedEntryIsOneLine(es[i]);
      FstabLineRoundTrip(es[i]);
    }
    LinesOfUnlines(ls);
    CollectIsExact(ls, ParseFstabLine, es);
  }

  function PrintedEntries(es: seq<FstabEntry>): (ls: seq<Text>)
    ensures |ls| == |es| && forall i :: 0 <= i < |es| ==> ls[i] == PrintFstabEntry(es[i])
  {
    seq(|es|, i requires 0 <= i < |es| => PrintFstabEntry(es[i]))
  }

  /** Removing fails exactly when no line parses to the entry. Otherwise the first such line
      goes and every other line, comments included, stays byte for byte and in order. */
  lemma {:induction false} RemoveKeepsOtherLines(text: Text, e: FstabEntry)
    ensures EditFstab(text, Some(e), None).None? <==> e !in Entries(text)
    ensures e in Entries(text) ==>
              var ls, text' := LinesOf(text), EditFstab(text, Some(e), None).value;
              var k := FirstParsed(ls, ParseFstabLine, e);
              && FirstLineFor(ls, ParseFstabLine, e, k)
              && LinesOf(text') == ls[..k] + ls[k + 1..]
              && multiset(Entries(text')) == multiset(Entries(text)) - multiset{e}
  {
    EditRemoves(text, e);
    if e in Entries(text) {
      RemoveFirst(text, ParseFstabLine, e);
    }
  }

  /** Adding keeps every line and appends one; the file gains exactly the entry if and only if
      its fields are printable. */
  lemma {:induction false} AddAppendsEntry(text: Text, e: FstabEntry)
    requires CStrings(FieldList(e))
    ensures EditFstab(text, None, Some(e)).Some?
    ensures var text' := EditFstab(text, None, Some(e)).value;
            && LinesOf(text') == LinesOf(text) + [PrintFstabEntry(e)]
            && (multiset(Entries(text')) == multiset(Entries(text)) + multiset{e} <==> AllPrintable(FieldList(e)))
  {
    PrintedEntryIsOneLine(e);
    FstabLineRoundTrip(e);
    AppendLine(text, ParseFstabLine, PrintFstabEntry(e), e);
  }

  lemma {:induction false} EditRemoves(text: Text, e: FstabEntry)
    ensures var k := FirstParsed(LinesOf(text), ParseFstabLine, e);
            EditFstab(text, Some(e), None) == if e in Entries(text) then Some(Rewritten(text, k, [])) else None
  {
    FirstParsedFinds(LinesOf(text), ParseFstabLine, e);
  }

  /** Adding an entry and removing it again. When no line of the file parsed to it, the removal
      succeeds exactly for printable fields and gives back the text, with a final newline. When
      one did, the removal succeeds and the same entries are listed as before, again exactly for
      printable fields. */
  lemma {:induction false} AddThenRemove(text: Text, e: FstabEntry)
    requires CStrings(FieldList(e))
    ensures var back := EditFstab(EditFstab(text, None, Some(e)).value, Some(e), None);
            && (e !in Entries(text) ==> (back.Some? <==> AllPrintable(FieldList(e))))
            && (e !in Entries(text) && back.Some? ==> back.value == WithFinalNewline(CStr(text)))
            && (e in Entries(text) ==>
                  back.Some? && (multiset(Entries(back.value)) == multiset(Entries(text)) <==>
                                 AllPrintable(FieldList(e))))
  {
    var line := PrintFstabEntry(e);
    var text' := Rewritten(text, |LinesOf(text)|, [line]);
    assert EditFstab(text, None, Some(e)) == Some(text');
    PrintedEntryIsOneLine(e);
    FstabLineRoundTrip(e);
    EditRemoves(text', e);
    if AllPrintable(FieldList(e)) {
      AppendThenRemove(text, text', ParseFstabLine, line, e);
      UnlinesInvertsLines(CStr(text));
    } else {
      AppendLine(text, ParseFstabLine, line, e);
      FirstParsedAfterAppend(LinesOf(text), ParseFstabLine, line, e);
      if e in Entries(text) {
        RemoveAfterAdding(text, text', e);
      }
    }
  }

  /** The removal takes one listed entry out again, and so gives the old ones exactly when the
      addition had put one in. */
  lemma {:induction false} RemoveAfterAdding(text: Text, text': Text, e: FstabEntry)
    requires CStrings(FieldList(e)) && e in Entries(text) &&
             text' == Rewritten(text, |LinesOf(text)|, [PrintFstabEntry(e)])
    ensures e in Entries(text')
    ensures var back := EditFstab(text', Some(e), None);
            back.Some? && (multiset(Entries(back.value)) == multiset(Entries(text)) <==> AllPrintable(FieldList(e)))
  {
    AddAppendsEntry(text, e);
    assert Entries(text') == Entries(text) + Collect([PrintFstabEntry(e)], ParseFstabLine) by {
      CollectConcat(LinesOf(text), [PrintFstabEntry(e)], ParseFstabLine);
    }
    RemoveKeepsOtherLines(text', e);
    MultisetBack(multiset(Entries(text)), multiset(Entries(text')), e);
  }

  lemma {:induction false} MultisetBack<T>(before: multiset<T>, added: multiset<T>, x: T)
    requires x in added
    ensures added - multiset{x} == before <==> added == before + multiset{x}
  {
    if added - multiset{x} == before {
      assert added == added - multiset{x} + multiset{x};
    }
  }

  // ----- updates -----

  /** An update succeeds exactly when the old entry is listed. Then its line goes, every other line
      is kept, the new one comes last, and the file lists exactly the new entry instead of the old
      one if and only if the fields of the new one are printable. */
  lemma {:induction false} UpdateReplacesEntry(text: Text, e: FstabEntry, added: FstabEntry)
    requires CStrings(FieldList(added))
    ensures var text' := EditFstab(text, Some(e), Some(added));
            var ls := LinesOf(text);
            var k := FirstParsed(ls, ParseFstabLine, e);
            && (text'.Some? <==> e in Entries(text))
            && (text'.Some? ==>
                  && k < |ls| && LinesOf(text'.value) == Without(ls, k) + [PrintFstabEntry(added)]
                  && (multiset(Entries(text'.value)) == multiset(Entries(text)) - multiset{e} + multiset{added}
                      <==> AllPrintable(FieldList(added))))
  {
    FirstParsedFinds(LinesOf(text), ParseFstabLine, e);
    EditReplaces(text, e, added);
    if e in Entries(text) {
      PrintedEntryIsOneLine(added);
      FstabLineRoundTrip(added);
      var k := FirstParsed(LinesOf(text), ParseFstabLine, e);
      ReplaceLine(text, k, ParseFstabLine, PrintFstabEntry(added), e, added);
    }
  }

  lemma {:induction false} EditReplaces(text: Text, e: FstabEntry, added: FstabEntry)
    ensures var k := FirstParsed(LinesOf(text), ParseFstabLine, e);
            EditFstab(text, Some(e), Some(added)) ==
            if k == |LinesOf(text)| then None else Some(Rewritten(text, k, [PrintFstabEntry(added)]))
  {
  }
}
