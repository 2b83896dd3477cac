/** Whole calls of the crypttab editor, from the dictionaries a caller sends to the line of the file and
    the passphrase file. */
module CrypttabCalls {
  import opened OptionType
  import opened Bytes
  import opened Tokens
  import opened LineEditing
  import opened CrypttabText
  import opened CrypttabEditor
  import opened CrypttabUpdates
  import opened ParentTracking

  // ----- the columns of a line -----

  /** Name, device, passphrase path and options, in this order. */
  lemma {:induction false} Columns(item: CrypttabItem)
    ensures PrintCrypttabItem(item) ==
            item.name + (B(" ") + (item.device + (B(" ") +
            ((if item.passphrasePath == [] then B("none") else item.passphrasePath) + (B(" ") + item.options)))))
  {
    assert B(" ")[0] == SPACE;
    assert B(" ") == [SPACE];
  }

  predicate HasBlank(s: Text)
  {
    exists i :: 0 <= i < |s| && s[i] in {9, 10, 12, 13, 32}
  }

  lemma {:induction false} NoSpacesInNumbers(item: CrypttabItem)
    ensures NoSpaces(item) <==> !(HasBlank(item.name) || HasBlank(item.device) || HasBlank(item.passphrasePath) ||
                                  HasBlank(item.options))
  {
    BlankOrNot(item.name);
    BlankOrNot(item.device);
    BlankOrNot(item.passphrasePath);
    BlankOrNot(item.options);
  }

  lemma {:induction false} BlankOrNot(s: Text)
    ensures NoSeps(s, ASCII_SPACE) <==> !HasBlank(s)
  {
  }

  predicate WholeCStrings(item: CrypttabItem)
  {
    NUL !in item.name && NUL !in item.device && NUL !in item.passphrasePath && NUL !in item.options
  }

  lemma {:induction false} WordsNulFree(s: Text, seps: set<Byte>)
    requires NUL !in s
    ensures forall i :: 0 <= i < |Words(s, seps)| ==> NUL !in Words(s, seps)[i]
    decreases |s|
  {
    var t := SkipSeps(s, seps);
    SkipSepsDecomposes(s, seps);
    assert forall i :: 0 <= i < |t| ==> t[i] == s[|s| - |t| + i];
    if t != [] {
      WordsNulFree(t[WordLen(t, seps)..], seps);
    }
  }

  lemma {:induction false} ListedAreCStrings(line: Text)
    requires NUL !in line && ReportedLine(line).Some?
    ensures WholeCStrings(ReportedLine(line).value)
  {
    WordsNulFree(line, BLANK);
  }

  // ----- removals -----

  /** The dictionary has all four keys, with the columns of the item. */
  predicate Carries(d: CrypttabDict, item: CrypttabItem)
  {
    && d.name == Some(item.name) && d.device == Some(item.device)
    && d.passphrasePath == Some(item.passphrasePath) && d.options == Some(item.options)
  }

  lemma {:induction false} DictionaryNamesItem(d: CrypttabDict, item: CrypttabItem)
    requires Carries(d, item) && WholeCStrings(item)
    ensures RemovalItem(d) == Some(item)
  {
    WholeWhenCut(item.name);
    WholeWhenCut(item.device);
    WholeWhenCut(item.passphrasePath);
    WholeWhenCut(item.options);
  }

  lemma {:induction false} WholeWhenCut(s: Text)
    requires NUL !in s
    ensures CStr(s) == s
  {
    CStrIsPrefixBeforeNul(s);
  }

  /** The call with the dictionary of any listed item takes that item out: it succeeds exactly when there
      is no passphrase file to delete, as for an empty path and one that begins with /dev, or it can be
      deleted; and that file is the only one gone. */
  lemma {:induction false} ListedItemIsTakenOut(store: Store, k: nat, d: CrypttabDict, garbage: nat -> CrypttabItem,
                                                io: Io, block: BlockIds, uuids: seq<Text>)
    requires store.contents.Some? && io.readable && io.writable
    requires k < |LinesOf(store.contents.value)| && ReportedLine(LinesOf(store.contents.value)[k]).Some?
    requires !Commented(ReportedLine(LinesOf(store.contents.value)[k]).value.name)
    requires CleanUpTo(LinesOf(store.contents.value), k) && TokensUpTo(LinesOf(store.contents.value), k)
    requires Carries(d, ReportedLine(LinesOf(store.contents.value)[k]).value)
    ensures var ls, item := LinesOf(store.contents.value), ReportedLine(LinesOf(store.contents.value)[k]).value;
            var (after, r) := EditOutcome(store, Some(d), None, block, uuids, garbage, io);
            var path := item.passphrasePath;
            var owned := path != [] && !(B("/dev") <= path);
            && (r.Ok? <==> !owned || (path in store.files && io.unlinkable))
            && (r.Failed? ==> after == store)
            && (r.Ok? ==>
                  && multiset(Reported(TextIn(after))) == multiset(Reported(TextIn(store))) - multiset{item}
                  && OneLineLess(ls, LinesOf(TextIn(after)), k)
                  && after.files == if owned then store.files - {path} else store.files)
  {
    var ls, item := LinesOf(store.contents.value), ReportedLine(LinesOf(store.contents.value)[k]).value;
    LinesOfAreClean(store.contents.value);
    ListedAreCStrings(ls[k]);
    DictionaryNamesItem(d, item);
    RemovalCall(store, d, item, block, uuids, garbage, io);
    RemoveListedItem(store, k, garbage, io);
  }

  lemma {:induction false} RemovalCall(store: Store, d: CrypttabDict, item: CrypttabItem, block: BlockIds,
                                       uuids: seq<Text>, garbage: nat -> CrypttabItem, io: Io)
    requires RemovalItem(d) == Some(item)
    ensures EditOutcome(store, Some(d), None, block, uuids, garbage, io) ==
            EditCrypttab(store, Some(item), None, garbage, io)
  {
  }

  // ----- additions -----

  /** The dictionary asks for this item and passphrase. Without a name the item is called after the
      UUID, without a device it is on the block itself, and without a path it is the empty one or the
      file of its name in the key directory, as there is a passphrase or not. */
  predicate AsksFor(d: CrypttabDict, item: CrypttabItem, passphrase: Text, block: BlockIds)
  {
    && (match d.name
        case Some(name) => item.name == name
        case None => HasUuid(block) && item.name == B("luks-") + block.uuid.value)
    && (match d.device
        case Some(device) => item.device == device
        case None => item.device == if HasUuid(block) then B("UUID=") + block.uuid.value else block.device)
    && (match d.passphrasePath
        case Some(path) => item.passphrasePath == path
        case None => item.passphrasePath == if passphrase == [] then [] else B("/etc/luks-keys/") + item.name)
    && d.options == Some(item.options) && d.passphraseContents == Some(passphrase)
  }

  predicate HasUuid(block: BlockIds)
  {
    block.uuid.Some? && block.uuid.value != []
  }

  function WithTracking(item: CrypttabItem, d: CrypttabDict, uuids: seq<Text>): CrypttabItem
  {
    if d.trackParents == Some(true) then item.(options := CStr(Tracked(item.options, uuids))) else item
  }

  /** What is asked for is added as it is, with one option per tracked ancestor if that is asked for;
      or it has a blank in a column and is refused. */
  lemma {:induction false} DictionaryMakesAddition(d: CrypttabDict, item: CrypttabItem, passphrase: Text,
                                                   block: BlockIds, uuids: seq<Text>)
    requires AsksFor(d, item, passphrase, block) && WholeCStrings(item) && NUL !in passphrase
    ensures AdditionItem(d, block, uuids) ==
            if HasBlank(item.name) || HasBlank(item.device) || HasBlank(item.passphrasePath) || HasBlank(item.options)
            then Failed(HasWhitespace) else Ok(Addition(WithTracking(item, d, uuids), passphrase))
  {
    WholeWhenCut(item.name);
    WholeWhenCut(item.device);
    WholeWhenCut(item.passphrasePath);
    WholeWhenCut(item.options);
    WholeWhenCut(passphrase);
    NoSpacesInNumbers(item);
  }

  /** What follows the last slash: the rest ends in one, or is empty. */
  lemma {:induction false} BasenameIsLastPart(path: Text) returns (dir: Text)
    ensures path == dir + Basename(path) && SLASH !in Basename(path)
    ensures dir == [] || dir[|dir| - 1] == SLASH
  {
    dir := [];
    if SLASH in path {
      var rest := BasenameIsLastPart(path[1..]);
      dir := [path[0]] + rest;
      LastPartBehind(path, path[1..], rest, Basename(path));
    }
  }

  lemma {:induction false} LastPartBehind(path: Text, tail: Text, rest: Text, last: Text)
    requires path != [] && tail == path[1..] && tail == rest + last && SLASH in path && SLASH !in last
    requires rest == [] || rest[|rest| - 1] == SLASH
    ensures path == [path[0]] + rest + last && ([path[0]] + rest)[|rest|] == SLASH
  {
    assert path == [path[0]] + tail;
  }

  lemma {:induction false} SlashesAreSlashes()
    ensures SLASH == B("/")[0] && KEY_DIRECTORY[|KEY_DIRECTORY| - 1] == SLASH
  {
  }

  /** A file that is directly in a directory. */
  lemma {:induction false} NameInDirectory(dir: Text, name: Text)
    requires dir != [] && dir[|dir| - 1] == SLASH && SLASH !in name
    ensures Basename(dir + name) == name
  {
    var path := dir + name;
    assert path[|dir| - 1] == SLASH;
    if |dir| == 1 {
      assert path[1..] == name;
    } else {
      assert path[1..] == dir[1..] + name;
      NameInDirectory(dir[1..], name);
    }
  }

  lemma {:induction false} AdditionCall(store: Store, d: CrypttabDict, add: Addition, block: BlockIds,
                                        uuids: seq<Text>, garbage: nat -> CrypttabItem, io: Io)
    requires AdditionItem(d, block, uuids) == Ok(add)
    ensures EditOutcome(store, None, Some(d), block, uuids, garbage, io) ==
            EditCrypttab(store, None, Some(add), garbage, io)
  {
  }

  /** A successful addition keeps every line and appends that of the item. With a path, the passphrase
      goes to the file of its last part in the key directory, and without one no file changes. */
  lemma {:induction false} AddedAsAsked(store: Store, d: CrypttabDict, item: CrypttabItem, passphrase: Text,
                                        block: BlockIds, uuids: seq<Text>, garbage: nat -> CrypttabItem, io: Io)
    requires AsksFor(d, item, passphrase, block) && WholeCStrings(item) && NUL !in passphrase
    ensures var (after, r) := EditOutcome(store, None, Some(d), block, uuids, garbage, io);
            var line, path := PrintCrypttabItem(WithTracking(item, d, uuids)), item.passphrasePath;
            r.Ok? ==>
              && after.contents == Some(Unlines(LinesOf(TextIn(store)) + [line]))
              && (path == [] ==> after.files == store.files)
              && (path != [] ==>
                    && B("/etc/luks-keys/") <= path
                    && B("/etc/luks-keys/") + Basename(path) !in store.files
                    && after.files == store.files[B("/etc/luks-keys/") + Basename(path) := passphrase])
  {
    DictionaryMakesAddition(d, item, passphrase, block, uuids);
    if AdditionItem(d, block, uuids).Ok? {
      var add := Addition(WithTracking(item, d, uuids), passphrase);
      AdditionCall(store, d, add, block, uuids, garbage, io);
      AddOutcome(store, add, garbage, io);
    }
  }

  /** Such an item, added without tracking, is listed if and only if it is complete. */
  lemma {:induction false} AddedItemIsListed(store: Store, d: CrypttabDict, item: CrypttabItem, passphrase: Text,
                                             block: BlockIds, uuids: seq<Text>, garbage: nat -> CrypttabItem, io: Io)
    requires AsksFor(d, item, passphrase, block) && WholeCStrings(item) && NUL !in passphrase
    requires d.trackParents != Some(true)
    ensures var (after, r) := EditOutcome(store, None, Some(d), block, uuids, garbage, io);
            r.Ok? ==>
              (multiset(Reported(TextIn(after))) == multiset(Reported(TextIn(store))) + multiset{item} <==>
               Complete(item))
  {
    DictionaryMakesAddition(d, item, passphrase, block, uuids);
    if AdditionItem(d, block, uuids).Ok? {
      var add := Addition(item, passphrase);
      AdditionCall(store, d, add, block, uuids, garbage, io);
      NoSpacesInNumbers(item);
      AddIsListed(store, add, garbage, io);
    }
  }

  lemma {:induction false} KeyFileOfName(name: Text)
    requires SLASH !in name
    ensures KeyFile(B("/etc/luks-keys/") + name) == B("/etc/luks-keys/") + name
    ensures NamesDirectory(B("/etc/luks-keys/") + name) <==> name == [] || name == B(".") || name == B("..")
  {
    SlashesAreSlashes();
    NameInDirectory(KEY_DIRECTORY, name);
    var file := KEY_DIRECTORY + name;
    assert name == file[|KEY_DIRECTORY|..];
    assert (KEY_DIRECTORY + B("."))[|KEY_DIRECTORY|..] == B(".");
    assert (KEY_DIRECTORY + B(".."))[|KEY_DIRECTORY|..] == B("..");
    assert KEY_DIRECTORY[|KEY_DIRECTORY|..] == [];
  }

  /** A call that gives a passphrase and no path for it. */
  predicate AsksWithoutPath(d: CrypttabDict, item: CrypttabItem, passphrase: Text, block: BlockIds)
  {
    && AsksFor(d, item, passphrase, block) && d.passphrasePath.None?
    && WholeCStrings(item) && NUL !in passphrase && SLASH !in item.name
  }

  /** A passphrase given without a path is stored in the file of the item's name in the key directory,
      and the line names that file; without a passphrase no file is stored, and the line says "none". */
  lemma {:induction false} StoredUnderTheName(store: Store, d: CrypttabDict, item: CrypttabItem, passphrase: Text,
                                              block: BlockIds, uuids: seq<Text>, garbage: nat -> CrypttabItem, io: Io)
    requires AsksWithoutPath(d, item, passphrase, block)
    ensures var (after, r) := EditOutcome(store, None, Some(d), block, uuids, garbage, io);
            var file := B("/etc/luks-keys/") + item.name;
            r.Ok? ==>
              && after.contents == Some(Unlines(LinesOf(TextIn(store)) + [
                   item.name + (B(" ") + (item.device + (B(" ") +
                   ((if passphrase == [] then B("none") else file) +
                    (B(" ") + WithTracking(item, d, uuids).options)))))]))
              && (passphrase == [] ==> after.files == store.files)
              && (passphrase != [] ==> file !in store.files && after.files == store.files[file := passphrase])
  {
    AddedAsAsked(store, d, item, passphrase, block, uuids, garbage, io);
    KeyFileOfName(item.name);
    Columns(WithTracking(item, d, uuids));
  }

  /** The addition of such an item succeeds exactly when its columns have no blank, the file can be read
      and written, and there is nothing of the name in the key directory, which can be made, and the
      passphrase can be written there. */
  lemma {:induction false} AdditionSucceedsExactly(store: Store, d: CrypttabDict, item: CrypttabItem, passphrase: Text,
                                                   block: BlockIds, uuids: seq<Text>, garbage: nat -> CrypttabItem,
                                                   io: Io)
    requires AsksWithoutPath(d, item, passphrase, block)
    ensures var (after, r) := EditOutcome(store, None, Some(d), block, uuids, garbage, io);
            var file := B("/etc/luks-keys/") + item.name;
            r.Ok? <==>
              && !(HasBlank(item.name) || HasBlank(item.device) || HasBlank(item.passphrasePath) ||
                   HasBlank(item.options))
              && (store.contents.Some? ==> io.readable) && io.writable
              && (passphrase != [] ==>
                    && io.mkdirOk && io.keyWritable && file !in store.files && file !in io.directories
                    && item.name != [] && item.name != B(".") && item.name != B(".."))
  {
    DictionaryMakesAddition(d, item, passphrase, block, uuids);
    if AdditionItem(d, block, uuids).Ok? {
      var add := Addition(WithTracking(item, d, uuids), passphrase);
      AdditionCall(store, d, add, block, uuids, garbage, io);
      EditSucceedsExactly(store, None, Some(add), garbage, io);
      WorksWithoutRemoval(store, garbage, io);
      if passphrase != [] {
        NewFileWorks(store, add, item.name, io);
      }
    }
  }

  lemma {:induction false} WorksWithoutRemoval(store: Store, garbage: nat -> CrypttabItem, io: Io)
    ensures RemovalWorks(store, None, garbage, io) <==> (store.contents.Some? ==> io.readable)
  {
  }

  lemma {:induction false} NewFileWorks(store: Store, add: Addition, name: Text, io: Io)
    requires SLASH !in name && add.item.passphrasePath == B("/etc/luks-keys/") + name
    ensures KeyWorks(store, None, add, io) <==>
            && io.mkdirOk && io.keyWritable && B("/etc/luks-keys/") + name !in store.files
            && B("/etc/luks-keys/") + name !in io.directories && name != [] && name != B(".") && name != B("..")
  {
    KeyFileOfName(name);
  }

  // ----- updates, and calls that are refused -----

  /** An update by the dictionaries of a listed item and of a new one is the edit that takes the one
      out and adds the other, so that what is proved of edits is proved of calls. */
  lemma {:induction false} UpdateByDictionaries(store: Store, from: CrypttabDict, item: CrypttabItem, to: CrypttabDict,
                                                added: CrypttabItem, passphrase: Text, block: BlockIds,
                                                uuids: seq<Text>, garbage: nat -> CrypttabItem, io: Io)
    requires Carries(from, item) && WholeCStrings(item)
    requires AsksFor(to, added, passphrase, block) && WholeCStrings(added) && NUL !in passphrase
    ensures EditOutcome(store, Some(from), Some(to), block, uuids, garbage, io) ==
            if HasBlank(added.name) || HasBlank(added.device) || HasBlank(added.passphrasePath) ||
               HasBlank(added.options) then (store, Failed(HasWhitespace))
            else
              EditCrypttab(store, Some(item), Some(Addition(WithTracking(added, to, uuids), passphrase)), garbage, io)
  {
    DictionaryNamesItem(from, item);
    DictionaryMakesAddition(to, added, passphrase, block, uuids);
  }

  predicate LacksAKey(remove: Option<CrypttabDict>)
  {
    remove.Some? && (remove.value.name.None? || remove.value.device.None? || remove.value.passphrasePath.None? ||
                     remove.value.options.None?)
  }

  /** The name is to be made from a UUID, and there is none. */
  predicate LacksAName(add: Option<CrypttabDict>, block: BlockIds)
  {
    add.Some? && add.value.name.None? && !HasUuid(block)
  }

  predicate LacksAKeyToAdd(add: Option<CrypttabDict>)
  {
    add.Some? && (add.value.options.None? || add.value.passphraseContents.None?)
  }

  /** Which calls are refused for what they lack; nothing is changed by them. */
  lemma {:induction false} RefusedExactly(store: Store, remove: Option<CrypttabDict>, add: Option<CrypttabDict>,
                                          block: BlockIds, uuids: seq<Text>, garbage: nat -> CrypttabItem, io: Io)
    ensures var (after, r) := EditOutcome(store, remove, add, block, uuids, garbage, io);
            && (r == Failed(NoUuid) <==> !LacksAKey(remove) && LacksAName(add, block))
            && (r == Failed(MissingKeys) <==>
                LacksAKey(remove) || (!LacksAName(add, block) && LacksAKeyToAdd(add)))
            && (r.Failed? && r.error in {NoUuid, MissingKeys, HasWhitespace} ==> after == store)
  {
    if !LacksAKey(remove) && !LacksAName(add, block) && !LacksAKeyToAdd(add) {
      var removal := if remove.Some? then RemovalItem(remove.value) else None;
      var addition := if add.Some? then AdditionItem(add.value, block, uuids) else Failed(NotFound);
      EditErrors(store, removal, if addition.Ok? then Some(addition.value) else None, garbage, io);
    }
  }

  lemma {:induction false} EditErrors(store: Store, remove: Option<CrypttabItem>, add: Option<Addition>,
                                      garbage: nat -> CrypttabItem, io: Io)
    ensures var r := EditCrypttab(store, remove, add, garbage, io).1;
            r.Failed? ==> r.error !in {NoUuid, MissingKeys, HasWhitespace}
  {
    AfterRemoval(store, remove, add, garbage, io);
    if RemovalWorks(store, remove, garbage, io) && HasKey(add) {
      KeyOutcome(store, remove, add.value, io);
    }
  }
}
