/** Whole calls of the fstab editor, from the dictionaries a caller sends to the lines of the file. */
module FstabCalls {
  import opened OptionType
  import opened Bytes
  import opened Tokens
  import opened Decimal
  import opened FstabText
  import opened LineEditing
  import opened FstabEditor
  import opened ParentTracking

  // ----- the columns of a line -----

  predicate NeedsNoEscape(f: Text)
  {
    SPACE !in f && TAB !in f && NEWLINE !in f && BACKSLASH !in f
  }

  lemma {:induction false} EscapeOfPlain(f: Text)
    requires NeedsNoEscape(f)
    ensures Escape(f) == f
  {
    if f != [] {
      EscapeOfPlain(f[1..]);
      assert f == [f[0]] + f[1..];
    }
  }

  /** The four bytes are written with the codes that fstab has for them. */
  lemma {:induction false} EscapeCodes()
    ensures Escape(B(" ")) == B("\\040") && Escape(B("\t")) == B("\\011")
    ensures Escape(B("\n")) == B("\\012") && Escape(B("\\")) == B("\\134")
  {
    EscapeOfOne(B(" "));
    EscapeOfOne(B("\t"));
    EscapeOfOne(B("\n"));
    EscapeOfOne(B("\\"));
  }

  lemma {:induction false} EscapeOfOne(s: Text)
    requires |s| == 1
    ensures Escape(s) == EscapeByte(s[0])
  {
    assert EscapeByte(s[0]) + [] == EscapeByte(s[0]);
  }

  /** The order of the columns: what is mounted, where, the type, the options and the two numbers. */
  lemma {:induction false} Columns(e: FstabEntry)
    requires NeedsNoEscape(e.fsname) && NeedsNoEscape(e.dir) && NeedsNoEscape(e.fstype) && NeedsNoEscape(e.opts)
    ensures PrintFstabEntry(e) ==
            e.fsname + (B(" ") + (e.dir + (B(" ") + (e.fstype + (B(" ") + (e.opts + (B(" ") +
            (PrintInt(e.freq) + (B(" ") + PrintInt(e.passno))))))))))
  {
    EscapeOfPlain(e.fsname);
    EscapeOfPlain(e.dir);
    EscapeOfPlain(e.fstype);
    EscapeOfPlain(e.opts);
    OneSpace();
    PrintFour(e.fsname, e.dir, e.fstype, e.opts, Spaced(PrintInt(e.freq), PrintInt(e.passno)));
  }

  lemma {:induction false} OneSpace()
    ensures B(" ") == [SPACE]
  {
    assert B(" ")[0] == SPACE;
  }

  lemma {:induction false} PrintFour(a: Text, b: Text, c: Text, d: Text, tail: Text)
    ensures PrintFields([a, b, c, d], tail) ==
            Spaced(Escape(a), Spaced(Escape(b), Spaced(Escape(c), Spaced(Escape(d), tail))))
  {
    assert [a, b, c, d][1..] == [b, c, d] && [b, c, d][1..] == [c, d] && [c, d][1..] == [d];
    assert PrintFields([d], tail) == Spaced(Escape(d), tail) by {
      assert [d][1..] == [];
    }
    assert PrintFields([c, d], tail) == Spaced(Escape(c), PrintFields([d], tail));
    assert PrintFields([b, c, d], tail) == Spaced(Escape(b), PrintFields([c, d], tail));
  }

  /** What survives a print and a scan, in numbers. */
  lemma {:induction false} PrintableInNumbers(f: Text)
    ensures Printable(f) <==> f != [] && |Escape(f)| <= 511 && forall i :: 0 <= i < |f| ==> f[i] !in {11, 12, 13}
  {
  }

  // ----- what a dictionary means -----

  /** The dictionary has all six keys, with the fields of the entry. */
  predicate Carries(d: FstabDict, e: FstabEntry)
  {
    && d.fsname == Some(e.fsname) && d.dir == Some(e.dir) && d.fstype == Some(e.fstype)
    && d.opts == Some(e.opts) && d.freq == Some(e.freq) && d.passno == Some(e.passno)
  }

  /** A listed entry consists of C strings. */
  lemma {:induction false} ListedAreCStrings(text: Text, e: FstabEntry)
    requires e in Entries(text)
    ensures CStrings(FieldList(e))
  {
    CollectContains(LinesOf(text), ParseFstabLine, e);
    var k :| 0 <= k < |LinesOf(text)| && ParseFstabLine(LinesOf(text)[k]) == Some(e);
    var words := ScanWords(LinesOf(text)[k], 4).0;
    FieldsAt(words);
    forall i | 0 <= i < 4 ensures NUL !in FieldList(e)[i] {
      assert FieldList(e)[i] == Field(words[i]);
      CStrIsPrefixBeforeNul(Unescape(words[i]));
    }
  }

  lemma {:induction false} CStringsAreWhole(e: FstabEntry)
    requires CStrings(FieldList(e))
    ensures CStr(e.fsname) == e.fsname && CStr(e.dir) == e.dir && CStr(e.fstype) == e.fstype && CStr(e.opts) == e.opts
  {
    assert NUL !in FieldList(e)[0] && NUL !in FieldList(e)[1] && NUL !in FieldList(e)[2] && NUL !in FieldList(e)[3];
    CStrIsPrefixBeforeNul(e.fsname);
    CStrIsPrefixBeforeNul(e.dir);
    CStrIsPrefixBeforeNul(e.fstype);
    CStrIsPrefixBeforeNul(e.opts);
  }

  lemma {:induction false} DictionaryNamesEntry(d: FstabDict, e: FstabEntry)
    requires Carries(d, e) && CStrings(FieldList(e))
    ensures RemovalEntry(d) == Some(e)
  {
    CStringsAreWhole(e);
  }

  /** Removing by the dictionary of any listed entry succeeds, takes out the first line that reads as
      that entry, and lists exactly one such entry less. */
  lemma {:induction false} ListedEntryIsTakenOut(text: Text, d: FstabDict, e: FstabEntry, block: BlockIds,
                                                 uuids: seq<Text>)
    requires e in Entries(text) && Carries(d, e)
    ensures var r := EditOutcome(Some(text), Some(d), None, block, uuids, true, true);
            var ls := LinesOf(text);
            var k := FirstParsed(ls, ParseFstabLine, e);
            && r.Ok? && FirstLineFor(ls, ParseFstabLine, e, k)
            && LinesOf(r.value) == ls[..k] + ls[k + 1..]
            && multiset(Entries(r.value)) == multiset(Entries(text)) - multiset{e}
  {
    ListedAreCStrings(text, e);
    DictionaryNamesEntry(d, e);
    RemovalOutcome(text, d, e, block, uuids);
    RemoveKeepsOtherLines(text, e);
  }

  lemma {:induction false} RemovalOutcome(text: Text, d: FstabDict, e: FstabEntry, block: BlockIds, uuids: seq<Text>)
    requires RemovalEntry(d) == Some(e)
    ensures EditOutcome(Some(text), Some(d), None, block, uuids, true, true) ==
            match EditFstab(text, Some(e), None) case None => Failed(NotFound) case Some(text') => Ok(text')
  {
  }

  /** And by the dictionary of one that is not listed, nothing is found. */
  lemma {:induction false} UnlistedEntryIsNotFound(text: Text, d: FstabDict, e: FstabEntry, block: BlockIds,
                                                   uuids: seq<Text>)
    requires e !in Entries(text) && Carries(d, e) && CStrings(FieldList(e))
    ensures EditOutcome(Some(text), Some(d), None, block, uuids, true, true) == Failed(NotFound)
  {
    DictionaryNamesEntry(d, e);
    RemovalOutcome(text, d, e, block, uuids);
    RemoveKeepsOtherLines(text, e);
  }

  /** The dictionary to add, which may leave out what is to be mounted: it is then the block itself. */
  predicate CarriesFor(d: FstabDict, e: FstabEntry, block: BlockIds)
  {
    && d.dir == Some(e.dir) && d.fstype == Some(e.fstype) && d.opts == Some(e.opts)
    && d.freq == Some(e.freq) && d.passno == Some(e.passno)
    && match d.fsname
       case Some(fsname) => e.fsname == fsname
       case None =>
         e.fsname == if block.uuid.Some? && block.uuid.value != [] then B("UUID=") + block.uuid.value else block.device
  }

  lemma {:induction false} DictionaryMakesEntry(d: FstabDict, e: FstabEntry, block: BlockIds, uuids: seq<Text>)
    requires CarriesFor(d, e, block) && CStrings(FieldList(e)) && e.opts != []
    ensures AdditionEntry(d, block, uuids) ==
            Ok(if d.trackParents == Some(true) then e.(opts := CStr(Tracked(e.opts, uuids))) else e)
  {
    CStringsAreWhole(e);
  }

  /** Adding by such a dictionary keeps every line and appends the printed entry, to an empty file if
      there is none; if it asks for tracking, with one option per tracked ancestor. */
  lemma {:induction false} EntryIsAppended(contents: Option<Text>, d: FstabDict, e: FstabEntry, block: BlockIds,
                                           uuids: seq<Text>)
    requires CarriesFor(d, e, block) && CStrings(FieldList(e)) && e.opts != []
    ensures var r := EditOutcome(contents, None, Some(d), block, uuids, true, true);
            var added := if d.trackParents == Some(true) then e.(opts := CStr(Tracked(e.opts, uuids))) else e;
            && r.Ok?
            && LinesOf(r.value) == LinesOf(if contents.Some? then contents.value else []) + [PrintFstabEntry(added)]
  {
    DictionaryMakesEntry(d, e, block, uuids);
    var added := if d.trackParents == Some(true) then e.(opts := CStr(Tracked(e.opts, uuids))) else e;
    AddedAreCStrings(e, added, Tracked(e.opts, uuids));
    AddOutcome(contents, d, added, block, uuids);
    AddAppendsEntry(if contents.Some? then contents.value else [], added);
  }

  lemma {:induction false} AddOutcome(contents: Option<Text>, d: FstabDict, added: FstabEntry, block: BlockIds,
                                      uuids: seq<Text>)
    requires AdditionEntry(d, block, uuids) == Ok(added)
    ensures EditFstab(if contents.Some? then contents.value else [], None, Some(added)).Some?
    ensures EditOutcome(contents, None, Some(d), block, uuids, true, true) ==
            Ok(EditFstab(if contents.Some? then contents.value else [], None, Some(added)).value)
  {
  }

  lemma {:induction false} AddedAreCStrings(e: FstabEntry, added: FstabEntry, opts: Text)
    requires CStrings(FieldList(e)) && (added == e || added == e.(opts := CStr(opts)))
    ensures CStrings(FieldList(added))
  {
    CStrIsPrefixBeforeNul(opts);
    assert forall i :: 0 <= i < 3 ==> FieldList(added)[i] == FieldList(e)[i];
    assert NUL !in FieldList(e)[3];
  }

  // ----- when a call is refused -----

  predicate LacksAKey(d: FstabDict)
  {
    d.fsname.None? || d.dir.None? || d.fstype.None? || d.opts.None? || d.freq.None? || d.passno.None?
  }

  /** Only what is to be mounted may be left out of an addition. */
  predicate LacksAKeyToAdd(d: FstabDict)
  {
    d.dir.None? || d.fstype.None? || d.opts.None? || d.freq.None? || d.passno.None?
  }

  predicate KeysMissing(remove: Option<FstabDict>, add: Option<FstabDict>)
  {
    (remove.Some? && LacksAKey(remove.value)) || (add.Some? && LacksAKeyToAdd(add.value))
  }

  predicate BlankOptions(add: Option<FstabDict>)
  {
    add.Some? && add.value.opts.Some? && CStr(add.value.opts.value) == []
  }

  /** Every reason for a refusal, in the order in which they are looked at. */
  lemma {:induction false} RefusedExactly(contents: Option<Text>, remove: Option<FstabDict>, add: Option<FstabDict>,
                                          block: BlockIds,
                                          uuids: seq<Text>, readable: bool, writable: bool)
    ensures var r := EditOutcome(contents, remove, add, block, uuids, readable, writable);
            && (r == Failed(MissingKeys) <==> KeysMissing(remove, add))
            && (r == Failed(BlankOpts) <==> !KeysMissing(remove, add) && BlankOptions(add))
            && (r == Failed(ReadFailed) <==>
                !KeysMissing(remove, add) && !BlankOptions(add) && contents.Some? && !readable)
            && (r == Failed(NotFound) ==> remove.Some?)
            && (r == Failed(WriteFailed) ==> !writable)
            && (r.Ok? ==> writable)
  {
  }

  /** An update by the dictionaries of a listed entry and of a new one: the new one is listed instead of
      the old one if and only if its fields are printable. */
  lemma {:induction false} UpdateByDictionaries(text: Text, from: FstabDict, e: FstabEntry, to: FstabDict,
                                                added: FstabEntry,
                                                block: BlockIds, uuids: seq<Text>)
    requires e in Entries(text) && Carries(from, e)
    requires CarriesFor(to, added, block) && CStrings(FieldList(added)) && added.opts != []
    requires to.trackParents != Some(true)
    ensures var r := EditOutcome(Some(text), Some(from), Some(to), block, uuids, true, true);
            && r.Ok?
            && (multiset(Entries(r.value)) == multiset(Entries(text)) - multiset{e} + multiset{added} <==>
                AllPrintable(FieldList(added)))
  {
    ListedAreCStrings(text, e);
    DictionaryNamesEntry(from, e);
    DictionaryMakesEntry(to, added, block, uuids);
    UpdateOutcome(text, from, e, to, added, block, uuids);
    UpdateReplacesEntry(text, e, added);
  }

  lemma {:induction false} UpdateOutcome(text: Text, from: FstabDict, e: FstabEntry, to: FstabDict, added: FstabEntry,
                                         block: BlockIds, uuids: seq<Text>)
    requires RemovalEntry(from) == Some(e) && AdditionEntry(to, block, uuids) == Ok(added)
    ensures EditOutcome(Some(text), Some(from), Some(to), block, uuids, true, true) ==
            match EditFstab(text, Some(e), Some(added)) case None => Failed(NotFound) case Some(text') => Ok(text')
  {
  }
}
