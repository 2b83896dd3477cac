/** When the removal of a configuration item succeeds, and which call of an editor it is. */
module ConfigRemovals {
  import opened OptionType
  import opened Bytes
  import opened LineEditing
  import opened CrypttabText
  import opened ConfigFiles
  import FstabText
  import FstabEditor
  import FstabCalls
  import CrypttabEditor
  import CrypttabUpdates
  import CrypttabCalls
  import ParentTracking

  /** An fstab entry is removed exactly when the file can be read and written and lists it. */
  lemma {:induction false} FstabRemovalSucceedsExactly(c: Config, e: FstabText.FstabEntry, env: Env)
    ensures var io := env.io(c.calls);
            RemoveItem(c, FstabItem(e), env).1 <==>
            (c.fstab.Some? ==> io.readable) && io.writable && e in FstabOf(c)
  {
    FstabEditor.RemoveKeepsOtherLines(if c.fstab.Some? then c.fstab.value else [], e);
  }

  lemma {:induction false} ListedIsFound(text: Text, i: CrypttabItem, garbage: nat -> CrypttabItem)
    requires TidyLines(LinesOf(text)) && !Commented(i.name) && i in Reported(text)
    ensures RemovedLine(LinesOf(text), i, garbage) < |LinesOf(text)|
  {
    var ls := LinesOf(text);
    CollectContains(ls, ReportedLine, i);
    var k :| 0 <= k < |ls| && ReportedLine(ls[k]) == Some(i);
    ListedLineIsRemoved(ls, k, i, garbage);
  }

  lemma {:induction false} FoundIsListed(text: Text, i: CrypttabItem, garbage: nat -> CrypttabItem)
    requires TidyLines(LinesOf(text)) && !Commented(i.name)
    requires RemovedLine(LinesOf(text), i, garbage) < |LinesOf(text)|
    ensures i in Reported(text)
  {
    TakenOutLineIsReported(text, i, garbage);
    CollectContains(LinesOf(text), ReportedLine, i);
  }

  lemma {:induction false} FoundExactlyWhenListed(c: Config, i: CrypttabItem, garbage: nat -> CrypttabItem)
    requires Tidy(c) && !Commented(i.name)
    ensures CrypttabUpdates.Found(CrypttabEditor.TextIn(c.crypttab), Some(i), garbage) <==> i in CrypttabOf(c)
  {
    var text := CrypttabEditor.TextIn(c.crypttab);
    if RemovedLine(LinesOf(text), i, garbage) < |LinesOf(text)| {
      FoundIsListed(text, i, garbage);
    } else if i in Reported(text) {
      ListedIsFound(text, i, garbage);
    }
  }

  /** A crypttab item is removed from a file without blank lines exactly when the file can be read and
      written and lists it, and its passphrase file, if it has one that is not below /dev, can be
      deleted. */
  lemma {:induction false} CrypttabRemovalSucceedsExactly(c: Config, i: CrypttabItem, env: Env)
    requires Tidy(c) && !Commented(i.name)
    ensures var io, path := env.io(c.calls), i.passphrasePath;
            RemoveItem(c, CrypttabEntryItem(i), env).1 <==>
            && (c.crypttab.contents.Some? ==> io.readable) && io.writable && i in CrypttabOf(c)
            && (path != [] && !(B("/dev") <= path) ==> path in c.crypttab.files && io.unlinkable)
  {
    FoundExactlyWhenListed(c, i, env.garbage(c.calls));
    CrypttabUpdates.EditSucceedsExactly(c.crypttab, Some(i), None, env.garbage(c.calls), env.io(c.calls));
  }

  /** Removing an item is the call of the editor with the dictionary of the item. */
  lemma {:induction false} ItemsAreDictionaries(c: Config, e: FstabText.FstabEntry, d: FstabEditor.FstabDict,
                                                i: CrypttabItem, cd: CrypttabEditor.CrypttabDict,
                                                block: ParentTracking.BlockIds, uuids: seq<Text>, env: Env)
    requires FstabCalls.Carries(d, e) && FstabText.CStrings(FstabText.FieldList(e))
    requires CrypttabCalls.Carries(cd, i) && CrypttabCalls.WholeCStrings(i)
    ensures var io := env.io(c.calls);
            var (c', ok) := RemoveItem(c, FstabItem(e), env);
            match FstabEditor.EditOutcome(c.fstab, Some(d), None, block, uuids, io.readable, io.writable)
            case Ok(text) => ok && c'.fstab == Some(text)
            case Failed(_) => !ok && c'.fstab == c.fstab
    ensures var (c', ok) := RemoveItem(c, CrypttabEntryItem(i), env);
            var (store, r) := CrypttabEditor.EditOutcome(c.crypttab, Some(cd), None, block, uuids, env.garbage(c.calls),
                                                         env.io(c.calls));
            c'.crypttab == store && (ok <==> r.Ok?)
  {
    FstabCalls.DictionaryNamesEntry(d, e);
    CrypttabCalls.DictionaryNamesItem(cd, i);
  }
}
