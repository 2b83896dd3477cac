/** Every edit of /etc/crypttab, and above all updates, which remove one entry and add another:
    when they succeed, what they list, and what a failed one leaves behind. */
module CrypttabUpdates {
  import opened OptionType
  import opened Sequences
  import opened Bytes
  import opened Tokens
  import opened LineEditing
  import opened CrypttabText
  import opened CrypttabEditor

  // ----- when an edit succeeds -----

  predicate Found(text: Text, remove: Option<CrypttabItem>, garbage: nat -> CrypttabItem)
  {
    remove.None? || RemovalIndex(LinesOf(text), remove, garbage) < |LinesOf(text)|
  }

  /** The removed entry has a passphrase file that is deleted with it. */
  predicate Owns(remove: Option<CrypttabItem>)
  {
    remove.Some? && OwnsKeyFile(remove.value.passphrasePath)
  }

  /** The file can be read, the entry is found, and its passphrase file can be deleted. */
  predicate RemovalWorks(store: Store, remove: Option<CrypttabItem>, garbage: nat -> CrypttabItem, io: Io)
  {
    && (store.contents.Some? ==> io.readable) && Found(TextIn(store), remove, garbage)
    && (Owns(remove) ==> remove.value.passphrasePath in store.files && io.unlinkable)
  }

  predicate HasKey(add: Option<Addition>)
  {
    add.Some? && add.value.item.passphrasePath != []
  }

  predicate KeepsPath(remove: Option<CrypttabItem>, add: Addition)
  {
    remove.Some? && remove.value.passphrasePath == add.item.passphrasePath
  }

  /** The file the passphrase goes to. */
  function KeyTarget(remove: Option<CrypttabItem>, add: Addition): Text
  {
    if KeepsPath(remove, add) then add.item.passphrasePath else KeyFile(add.item.passphrasePath)
  }

  predicate WasJustDeleted(remove: Option<CrypttabItem>, path: Text)
  {
    Owns(remove) && path == remove.value.passphrasePath
  }

  /** The path is the old one or in the key directory, and there is nothing of that name but the file
      just deleted. */
  predicate KeyWorks(store: Store, remove: Option<CrypttabItem>, add: Addition, io: Io)
  {
    && (KeepsPath(remove, add) || (KEY_DIRECTORY <= add.item.passphrasePath && io.mkdirOk))
    && (KeyTarget(remove, add) in store.files ==> WasJustDeleted(remove, KeyTarget(remove, add)))
    && !IsDirectory(KeyTarget(remove, add), io) && io.keyWritable
  }

  lemma {:induction false} AfterRemoval(store: Store, remove: Option<CrypttabItem>, add: Option<Addition>,
                                        garbage: nat -> CrypttabItem, io: Io)
    ensures var files := if Owns(remove) then store.files - {remove.value.passphrasePath} else store.files;
            var k := RemovalIndex(LinesOf(TextIn(store)), remove, garbage);
            var (after, r) := EditCrypttab(store, remove, add, garbage, io);
            if RemovalWorks(store, remove, garbage, io) then
              (after, r) == FinishEdit(store.contents, files, TextIn(store), k, remove, add, io)
            else after == store && r.Failed? && r.error in {ReadFailed, NotFound, UnlinkFailed}
  {
  }

  /** What becomes of the passphrase of the added entry. */
  lemma {:induction false} KeyOutcome(store: Store, remove: Option<CrypttabItem>, add: Addition, io: Io)
    requires add.item.passphrasePath != []
    requires Owns(remove) ==> remove.value.passphrasePath in store.files
    ensures var files := if Owns(remove) then store.files - {remove.value.passphrasePath} else store.files;
            KeyStored(files, add, remove, io) ==
            if KeyWorks(store, remove, add, io) then Ok(files[KeyTarget(remove, add) := add.passphrase])
            else Failed(if !KeepsPath(remove, add) && !(KEY_DIRECTORY <= add.item.passphrasePath) then NotInKeyDirectory
                        else if !KeepsPath(remove, add) && !io.mkdirOk then MkdirFailed
                        else if KeyTarget(remove, add) in files || IsDirectory(KeyTarget(remove, add), io) then
                          KeyFileExists
                        else KeyWriteFailed)
  {
  }

  /** An edit succeeds exactly when the removal works, the passphrase can be stored and the file can
      be written. */
  lemma {:induction false} EditSucceedsExactly(store: Store, remove: Option<CrypttabItem>, add: Option<Addition>,
                                               garbage: nat -> CrypttabItem, io: Io)
    ensures EditCrypttab(store, remove, add, garbage, io).1.Ok? <==>
            && RemovalWorks(store, remove, garbage, io)
            && (HasKey(add) ==> KeyWorks(store, remove, add.value, io)) && io.writable
  {
    AfterRemoval(store, remove, add, garbage, io);
    if RemovalWorks(store, remove, garbage, io) && HasKey(add) {
      KeyOutcome(store, remove, add.value, io);
    }
  }

  // ----- what a failed edit leaves behind -----

  /** The passphrase that is stored is the one just deleted, in the same file. */
  predicate PutsBack(store: Store, remove: Option<CrypttabItem>, add: Addition)
  {
    && WasJustDeleted(remove, KeyTarget(remove, add))
    && KeyTarget(remove, add) in store.files && store.files[KeyTarget(remove, add)] == add.passphrase
  }

  /** The files are changed before /etc/crypttab is written, and not put back. So a failed edit
      leaves them unchanged exactly when it failed before or in the removal, or else when no
      passphrase file was deleted and none stored, or the one stored is the one deleted. */
  lemma {:induction false} FailedEditKeepsFilesExactly(store: Store, remove: Option<CrypttabItem>,
                                                       add: Option<Addition>, garbage: nat -> CrypttabItem, io: Io)
    requires EditCrypttab(store, remove, add, garbage, io).1.Failed?
    ensures EditCrypttab(store, remove, add, garbage, io).0.files == store.files <==>
            !RemovalWorks(store, remove, garbage, io) ||
            (if HasKey(add) && KeyWorks(store, remove, add.value, io) then PutsBack(store, remove, add.value)
             else !Owns(remove))
  {
    AfterRemoval(store, remove, add, garbage, io);
    if RemovalWorks(store, remove, garbage, io) {
      DeletedIsGone(store, remove);
      if HasKey(add) {
        KeyOutcome(store, remove, add.value, io);
        if KeyWorks(store, remove, add.value, io) {
          StoredFiles(store, remove, add.value);
        }
      }
    }
  }

  lemma {:induction false} DeletedIsGone(store: Store, remove: Option<CrypttabItem>)
    requires Owns(remove) ==> remove.value.passphrasePath in store.files
    ensures (if Owns(remove) then store.files - {remove.value.passphrasePath} else store.files) == store.files <==>
            !Owns(remove)
  {
    if Owns(remove) {
      assert remove.value.passphrasePath !in store.files - {remove.value.passphrasePath};
    }
  }

  lemma {:induction false} StoredFiles(store: Store, remove: Option<CrypttabItem>, add: Addition)
    requires Owns(remove) ==> remove.value.passphrasePath in store.files
    requires KeyTarget(remove, add) in store.files ==> WasJustDeleted(remove, KeyTarget(remove, add))
    ensures var files := if Owns(remove) then store.files - {remove.value.passphrasePath} else store.files;
            files[KeyTarget(remove, add) := add.passphrase] == store.files <==> PutsBack(store, remove, add)
  {
    var target := KeyTarget(remove, add);
    var files := if Owns(remove) then store.files - {remove.value.passphrasePath} else store.files;
    var after := files[target := add.passphrase];
    assert target in after && after[target] == add.passphrase;
    if Owns(remove) && target != remove.value.passphrasePath {
      assert remove.value.passphrasePath !in after;
    }
  }

  // ----- updates -----

  lemma {:induction false} FoundPathIsNormal(text: Text, item: CrypttabItem, garbage: nat -> CrypttabItem)
    requires Found(text, Some(item), garbage)
    ensures !NoPath(item.passphrasePath)
  {
    var ls := LinesOf(text);
    var k := RemovedLine(ls, item, garbage);
    assert EditorFlags(ls, item, garbage)[k];
    EditorPathIsNormal(ls[k], garbage(k));
  }

  lemma {:induction false} EditorPathIsNormal(line: Text, garbage: CrypttabItem)
    ensures EditorLine(line, garbage).Some? ==> !NoPath(EditorLine(line, garbage).value.passphrasePath)
  {
  }

  /** Both parsers agree on the line that is taken out. */
  predicate TakesOutTidyLine(text: Text, item: CrypttabItem, garbage: nat -> CrypttabItem)
  {
    Found(text, Some(item), garbage) && TidyLine(LinesOf(text)[RemovedLine(LinesOf(text), item, garbage)])
  }

  lemma {:induction false} UpdatedText(store: Store, item: CrypttabItem, add: Addition,
                                       garbage: nat -> CrypttabItem, io: Io)
    ensures var (after, r) := EditCrypttab(store, Some(item), Some(add), garbage, io);
            var k := RemovedLine(LinesOf(TextIn(store)), item, garbage);
            r.Ok? ==>
              && k < |LinesOf(TextIn(store))|
              && TextIn(after) == Rewritten(TextIn(store), k, [PrintCrypttabItem(add.item)])
              && (add.item.passphrasePath == [] || add.item.passphrasePath == item.passphrasePath
                  || KEY_DIRECTORY <= add.item.passphrasePath)
  {
    AfterRemoval(store, Some(item), Some(add), garbage, io);
  }

  /** A successful update takes out the line of the old item, keeps the others and appends one; if
      both parsers agree on the line taken out, the file lists exactly the new item instead of the
      old one if and only if the new one is complete. */
  lemma {:induction false} UpdateIsListed(store: Store, item: CrypttabItem, add: Addition,
                                          garbage: nat -> CrypttabItem, io: Io)
    requires TakesOutTidyLine(TextIn(store), item, garbage)
    requires !Commented(item.name) && Plain(add.item)
    ensures var (after, r) := EditCrypttab(store, Some(item), Some(add), garbage, io);
            var ls := LinesOf(TextIn(store));
            r.Ok? ==>
              && LinesOf(TextIn(after)) == Without(ls, RemovedLine(ls, item, garbage)) + [PrintCrypttabItem(add.item)]
              && (multiset(Reported(TextIn(after))) ==
                   multiset(Reported(TextIn(store))) - multiset{item} + multiset{add.item}
                  <==> Complete(add.item))
  {
    var (after, r) := EditCrypttab(store, Some(item), Some(add), garbage, io);
    if r.Ok? {
      UpdatedText(store, item, add, garbage, io);
      UpdatedLines(TextIn(store), item, add.item, garbage);
    }
  }

  lemma {:induction false} UpdatedLines(text: Text, item: CrypttabItem, added: CrypttabItem,
                                        garbage: nat -> CrypttabItem)
    requires TakesOutTidyLine(text, item, garbage) && !Commented(item.name) && Plain(added)
    requires added.passphrasePath == [] || added.passphrasePath == item.passphrasePath ||
             KEY_DIRECTORY <= added.passphrasePath
    ensures var ls := LinesOf(text);
            var after := Rewritten(text, RemovedLine(ls, item, garbage), [PrintCrypttabItem(added)]);
            && LinesOf(after) == Without(ls, RemovedLine(ls, item, garbage)) + [PrintCrypttabItem(added)]
            && (multiset(Reported(after)) == multiset(Reported(text)) - multiset{item} + multiset{added} <==>
                 Complete(added))
  {
    FoundPathIsNormal(text, item, garbage);
    assert !NoPath(added.passphrasePath);
    TakenOutLineIsReported(text, item, garbage);
    PrintedItemIsOneLine(added);
    AddedLineIsReported(added);
    ReplaceLine(text, RemovedLine(LinesOf(text), item, garbage), ReportedLine, PrintCrypttabItem(added), item, added);
  }

  /** An update that keeps the passphrase path is refused because that file exists exactly when
      nothing else is wrong with the removal and the path names a directory, or a file below /dev,
      where no file is deleted; for such a file nothing changes. */
  lemma {:induction false} KeptPathIsRefusedExactly(store: Store, item: CrypttabItem, add: Addition,
                                                    garbage: nat -> CrypttabItem, io: Io)
    requires KeepsPath(Some(item), add) && add.item.passphrasePath != []
    ensures var (after, r) := EditCrypttab(store, Some(item), Some(add), garbage, io);
            && (r == Failed(KeyFileExists) <==>
                RemovalWorks(store, Some(item), garbage, io) &&
                (IsDirectory(item.passphrasePath, io) ||
                 (DEV <= item.passphrasePath && item.passphrasePath in store.files)))
            && (r == Failed(KeyFileExists) && DEV <= item.passphrasePath ==> after == store)
  {
    AfterRemoval(store, Some(item), Some(add), garbage, io);
    if RemovalWorks(store, Some(item), garbage, io) {
      KeyOutcome(store, Some(item), add, io);
    }
  }

  /** An update whose new passphrase path is refused, when the old passphrase file has been deleted
      already: the old item is still listed, its file is gone, and while it is gone no removal of
      the item can succeed. */
  lemma {:induction false} RefusedUpdateStrandsItem(store: Store, item: CrypttabItem, add: Addition,
                                                    garbage: nat -> CrypttabItem, io: Io, later: nat -> CrypttabItem,
                                                    laterIo: Io)
    requires RemovalWorks(store, Some(item), garbage, io) && OwnsKeyFile(item.passphrasePath)
    requires HasKey(Some(add)) && !KeepsPath(Some(item), add) && !(KEY_DIRECTORY <= add.item.passphrasePath)
    requires TakesOutTidyLine(TextIn(store), item, garbage) && !Commented(item.name)
    ensures var (after, r) := EditCrypttab(store, Some(item), Some(add), garbage, io);
            && r == Failed(NotInKeyDirectory)
            && after == Store(store.contents, store.files - {item.passphrasePath}) && item.passphrasePath in store.files
            && item in Reported(TextIn(after))
            && EditCrypttab(after, Some(item), None, later, laterIo).1.Failed?
  {
    AfterRemoval(store, Some(item), Some(add), garbage, io);
    KeyOutcome(store, Some(item), add, io);
    var after := Store(store.contents, store.files - {item.passphrasePath});
    ItemIsListed(TextIn(store), item, garbage);
    AfterRemoval(after, Some(item), None, later, laterIo);
  }

  lemma {:induction false} ItemIsListed(text: Text, item: CrypttabItem, garbage: nat -> CrypttabItem)
    requires TakesOutTidyLine(text, item, garbage) && !Commented(item.name)
    ensures item in Reported(text)
  {
    TakenOutLineIsReported(text, item, garbage);
    CollectContains(LinesOf(text), ReportedLine, item);
  }

  // ----- inputs on which updates fail -----

  const WORKING: Io := Io(true, true, true, true, true, {})

  /** A file of one item, and its passphrase file. */
  function OneItem(item: CrypttabItem): Store
  {
    Store(Some(Unlines(PrintedItems([item]))), map[item.passphrasePath := []])
  }

  /** Item `a` on device `b` without options. */
  function Sample(path: Text): CrypttabItem
  {
    CrypttabItem(B("a"), B("b"), path, [])
  }

  lemma {:induction false} SampleIsFound(path: Text, garbage: nat -> CrypttabItem)
    requires path != [] && NoSeps(path, WHITESPACE) && NUL !in path && |path| <= SCAN_WIDTH && !NoPath(path)
    ensures TakesOutTidyLine(TextIn(OneItem(Sample(path))), Sample(path), garbage)
    ensures RemovalWorks(OneItem(Sample(path)), Some(Sample(path)), garbage, WORKING)
  {
    var item := Sample(path);
    SampleIsClean(path);
    PrintedItemsCanBeRemoved([item], 0);
    var ls := LinesOf(TextIn(OneItem(item)));
    RemovesReportedLine(ls, item, 0, garbage);
    assert TidyLine(ls[0]);
  }

  lemma {:induction false} LineHasNo(item: CrypttabItem, c: Byte)
    requires c != SPACE && c !in NONE_PATH
    requires c !in item.name && c !in item.device && c !in item.passphrasePath && c !in item.options
    ensures c !in PrintCrypttabItem(item)
  {
  }

  lemma {:induction false} SampleIsClean(path: Text)
    requires path != [] && NoSeps(path, WHITESPACE) && |path| <= SCAN_WIDTH
    ensures Clean(PrintCrypttabItem(Sample(path)))
  {
    LineHasNo(Sample(path), NEWLINE);
    LineHasNo(Sample(path), VT);
    LineHasNo(Sample(path), FF);
    LineHasNo(Sample(path), CR);
    WordsOfPrinted(Sample(path));
    ThreeShortWords(B("a"), B("b"), path);
  }

  lemma {:induction false} ThreeShortWords(a: Text, b: Text, c: Text)
    requires |a| <= SCAN_WIDTH && |b| <= SCAN_WIDTH && |c| <= SCAN_WIDTH
    ensures ShortWords([a] + ([b] + ([c] + [])))
  {
  }

  const KEY_PATH: Text := B("/k")
  const OUTSIDE: Text := B("/x")

  /** A path that an item can be removed by, and one outside the key directory. */
  predicate MovesOutside(path: Text, outside: Text)
  {
    && path != [] && NoSeps(path, WHITESPACE) && NUL !in path && |path| <= SCAN_WIDTH && !NoPath(path)
    && OwnsKeyFile(path) && outside != [] && outside != path && !(KEY_DIRECTORY <= outside)
  }

  lemma {:induction false} KeyMovesOutside()
    ensures MovesOutside(KEY_PATH, OUTSIDE)
  {
    assert KEY_PATH[1] == B("k")[0] && DEV[1] == B("d")[0];
    assert NONE_PATH[0] != KEY_PATH[0] && DASH_PATH[0] != KEY_PATH[0];
  }

  /** Moving the passphrase of `a b` from one file to such a path. */
  lemma {:induction false} MovingStrandsItem(path: Text, outside: Text, passphrase: Text, garbage: nat -> CrypttabItem,
                                             later: nat -> CrypttabItem, laterIo: Io)
    requires MovesOutside(path, outside)
    ensures var item := Sample(path);
            var add := Addition(Sample(outside), passphrase);
            var (after, r) := EditCrypttab(OneItem(item), Some(item), Some(add), garbage, WORKING);
            && r == Failed(NotInKeyDirectory) && after.contents == OneItem(item).contents && after.files == map[]
            && item in Reported(TextIn(after)) && EditCrypttab(after, Some(item), None, later, laterIo).1.Failed?
  {
    SampleIsFound(path, garbage);
    assert !Commented(Sample(path).name);
    RefusedUpdateStrandsItem(OneItem(Sample(path)), Sample(path), Addition(Sample(outside), passphrase), garbage,
                             WORKING, later, laterIo);
    assert OneItem(Sample(path)).files - {path} == map[];
  }

  /** From `/k` to `/x`. */
  lemma {:induction false} MovingTheKeyStrandsItem(passphrase: Text, garbage: nat -> CrypttabItem,
                                                   later: nat -> CrypttabItem, laterIo: Io)
    ensures var item := Sample(KEY_PATH);
            var add := Addition(Sample(OUTSIDE), passphrase);
            var (after, r) := EditCrypttab(OneItem(item), Some(item), Some(add), garbage, WORKING);
            && r == Failed(NotInKeyDirectory) && after.contents == OneItem(item).contents && after.files == map[]
            && item in Reported(TextIn(after)) && EditCrypttab(after, Some(item), None, later, laterIo).1.Failed?
  {
    KeyMovesOutside();
    MovingStrandsItem(KEY_PATH, OUTSIDE, passphrase, garbage, later, laterIo);
  }

  const URANDOM: Text := B("/dev/urandom")

  /** Any update of `a b /dev/urandom` that keeps that path. */
  lemma {:induction false} RandomKeyCannotBeUpdated(add: Addition, garbage: nat -> CrypttabItem)
    requires add.item.passphrasePath == URANDOM
    ensures var item := Sample(URANDOM);
            EditCrypttab(OneItem(item), Some(item), Some(add), garbage, WORKING) ==
            (OneItem(item), Failed(KeyFileExists))
  {
    SampleIsFound(URANDOM, garbage);
    KeptPathIsRefusedExactly(OneItem(Sample(URANDOM)), Sample(URANDOM), add, garbage, WORKING);
  }

  // ----- a path that is not the file the passphrase goes to -----

  lemma {:induction false} BasenameBehind(directory: Text, name: Text)
    requires SLASH !in name && (directory == [] || directory[|directory| - 1] == SLASH)
    ensures Basename(directory + name) == name
  {
    var path := directory + name;
    if directory == [] {
      assert path == name;
    } else {
      assert path[|directory| - 1] == SLASH;
      assert path[1..] == directory[1..] + name;
      BasenameBehind(directory[1..], name);
    }
  }

  lemma {:induction false} BasenameHasNoSlash(path: Text)
    ensures SLASH !in Basename(path)
    decreases |path|
  {
    if SLASH in path {
      BasenameHasNoSlash(path[1..]);
    }
  }

  /** A path in the key directory is the file its passphrase is stored in if and only if it is
      directly in that directory. */
  lemma {:induction false} KeyFileIsThePathExactly(path: Text)
    requires KEY_DIRECTORY <= path
    ensures KeyFile(path) == path <==> SLASH !in path[|KEY_DIRECTORY|..]
  {
    var name := path[|KEY_DIRECTORY|..];
    assert path == KEY_DIRECTORY + name;
    BasenameHasNoSlash(path);
    assert KeyFile(path)[|KEY_DIRECTORY|..] == Basename(path);
    if SLASH !in name {
      BasenameBehind(KEY_DIRECTORY, name);
    }
  }

  /** The last part of the path is empty, `.` or `..`. */
  predicate EndsInDirectory(path: Text)
  {
    Basename(path) == [] || Basename(path) == B(".") || Basename(path) == B("..")
  }

  lemma {:induction false} KeyFileIsDirectory(path: Text)
    ensures NamesDirectory(KeyFile(path)) <==> EndsInDirectory(path)
  {
    var name := Basename(path);
    assert KEY_DIRECTORY + [] == KEY_DIRECTORY;
    assert KeyFile(path)[|KEY_DIRECTORY|..] == name;
    assert (KEY_DIRECTORY + B("."))[|KEY_DIRECTORY|..] == B(".");
    assert (KEY_DIRECTORY + B(".."))[|KEY_DIRECTORY|..] == B("..");
    assert KEY_DIRECTORY[|KEY_DIRECTORY|..] == [];
  }

  /** Adding an item with a path further down in the key directory to an empty file works, unless the
      path ends like that of a directory; and then removing it again does not. */
  lemma {:induction false} NestedKeyCannotBeRemoved(path: Text, passphrase: Text, garbage: nat -> CrypttabItem)
    requires KEY_DIRECTORY <= path && SLASH in path[|KEY_DIRECTORY|..]
    requires NoSeps(path, WHITESPACE) && NUL !in path && |path| <= SCAN_WIDTH
    ensures var empty := Store(None, map[]);
            var (added, r) := EditCrypttab(empty, None, Some(Addition(Sample(path), passphrase)), garbage, WORKING);
            && (r.Ok? <==> !EndsInDirectory(path))
            && (r.Ok? ==> EditCrypttab(added, Some(Sample(path)), None, garbage, WORKING).1.Failed?)
  {
    var empty, add := Store(None, map[]), Addition(Sample(path), passphrase);
    KeyFileIsThePathExactly(path);
    KeyFileIsDirectory(path);
    SampleIsClean(path);
    EditSucceedsExactly(empty, None, Some(add), garbage, WORKING);
    EmptyListsNothing(Sample(path));
    if !EndsInDirectory(path) {
      AddThenRemove(empty, add, garbage, WORKING);
    }
  }

  lemma {:induction false} EmptyListsNothing(item: CrypttabItem)
    ensures LinesOf([]) == [] && item !in Reported([])
  {
  }

  /** "/etc/luks-keys/a/b" */
  const NESTED_PATH: Text := KEY_DIRECTORY + (B("a") + ([SLASH] + B("b")))

  lemma {:induction false} BelowKeyDirectory(path: Text, directory: Text, name: Text)
    requires path == KEY_DIRECTORY + (directory + ([SLASH] + name))
    ensures KEY_DIRECTORY <= path && SLASH in path[|KEY_DIRECTORY|..]
    ensures SLASH !in name ==> Basename(path) == name
  {
    var rest := directory + ([SLASH] + name);
    assert path[|KEY_DIRECTORY|..] == rest;
    assert rest[|directory|] == SLASH;
    if SLASH !in name {
      var front := KEY_DIRECTORY + (directory + [SLASH]);
      assert path == front + name;
      assert front[|front| - 1] == SLASH;
      BasenameBehind(front, name);
    }
  }

  lemma {:induction false} NestedPathIsPlain()
    ensures NoSeps(NESTED_PATH, WHITESPACE) && NUL !in NESTED_PATH && |NESTED_PATH| <= SCAN_WIDTH
  {
  }

  /** Such a path, and it does not end like that of a directory. */
  lemma {:induction false} NestedPathIsNested()
    ensures KEY_DIRECTORY <= NESTED_PATH && SLASH in NESTED_PATH[|KEY_DIRECTORY|..] && !EndsInDirectory(NESTED_PATH)
    ensures NoSeps(NESTED_PATH, WHITESPACE) && NUL !in NESTED_PATH && |NESTED_PATH| <= SCAN_WIDTH
  {
    NestedPathIsPlain();
    BelowKeyDirectory(NESTED_PATH, B("a"), B("b"));
    assert B("b")[0] != B(".")[0];
  }
}
