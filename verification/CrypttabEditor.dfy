/** Adding and removing /etc/crypttab entries, with the passphrase files they refer to. */
module CrypttabEditor {
  import opened OptionType
  import opened Sequences
  import opened Bytes
  import opened Tokens
  import opened LineEditing
  import opened CrypttabText
  import opened ParentTracking

  datatype CrypttabDict = CrypttabDict(name: Option<Text>, device: Option<Text>, passphrasePath: Option<Text>,
                                       options: Option<Text>, passphraseContents: Option<Text>,
                                       trackParents: Option<bool>)

  datatype CrypttabError =
    | MissingKeys | NoUuid | HasWhitespace | ReadFailed | UnlinkFailed | NotFound
    | NotInKeyDirectory | MkdirFailed | KeyFileExists | KeyWriteFailed | WriteFailed

  /** How the system calls turn out, and which paths name directories. */
  datatype Io = Io(readable: bool, unlinkable: bool, mkdirOk: bool, keyWritable: bool, writable: bool,
                   directories: set<Text>)

  /** The file, and every other file by path; directories are not among them. */
  datatype Store = Store(contents: Option<Text>, files: map<Text, Text>)

  const DEV: Text := B("/dev")

  const KEY_DIRECTORY: Text := B("/etc/luks-keys/")

  const LUKS: Text := B("luks-")

  const SLASH: Byte := 47

  // ----- the edit as a function -----

  function RemovalItem(d: CrypttabDict): Option<CrypttabItem>
  {
    if d.name.Some? && d.device.Some? && d.passphrasePath.Some? && d.options.Some? then
      Some(CrypttabItem(CStr(d.name.value), CStr(d.device.value), CStr(d.passphrasePath.value), CStr(d.options.value)))
    else None
  }

  /** What is to be added, and the passphrase to store. */
  datatype Addition = Addition(item: CrypttabItem, passphrase: Text)

  function AdditionItem(d: CrypttabDict, block: BlockIds, uuids: seq<Text>): Outcome<Addition, CrypttabError>
  {
    if d.name.None? && (block.uuid.None? || block.uuid.value == []) then Failed(NoUuid)
    else if d.options.None? || d.passphraseContents.None? then Failed(MissingKeys)
    else
      var name := CStr(if d.name.Some? then d.name.value else LUKS + block.uuid.value);
      var device := CStr(if d.device.Some? then d.device.value else BlockFsname(block));
      var passphrase := CStr(d.passphraseContents.value);
      var path := if d.passphrasePath.Some? then CStr(d.passphrasePath.value)
                  else if passphrase == [] then [] else KEY_DIRECTORY + name;
      var options := CStr(d.options.value);
      if !NoSpaces(CrypttabItem(name, device, path, options)) then Failed(HasWhitespace)
      else
        var tracked := if d.trackParents == Some(true) then CStr(Tracked(options, uuids)) else options;
        Ok(Addition(CrypttabItem(name, device, path, tracked), passphrase))
  }

  /** Only a passphrase file that is not a device is deleted. */
  predicate OwnsKeyFile(path: Text)
  {
    path != [] && !(DEV <= path)
  }

  /** What follows the last slash. */
  function Basename(path: Text): Text
  {
    if SLASH in path then Basename(path[1..]) else path
  }

  function KeyFile(path: Text): Text
  {
    KEY_DIRECTORY + Basename(path)
  }

  /** The ways in which the file name may name the key directory, which exists by then, or its parent. */
  predicate NamesDirectory(path: Text)
  {
    path == KEY_DIRECTORY || path == KEY_DIRECTORY + B(".") || path == KEY_DIRECTORY + B("..")
  }

  predicate IsDirectory(path: Text, io: Io)
  {
    path in io.directories || NamesDirectory(path)
  }

  /** Deleting the passphrase file of the removed entry. */
  function Unlinked(files: map<Text, Text>, path: Text, io: Io): Outcome<map<Text, Text>, CrypttabError>
  {
    if !OwnsKeyFile(path) then Ok(files)
    else if path in files && io.unlinkable then Ok(files - {path})
    else Failed(UnlinkFailed)
  }

  /** The files once the first `n` lines have been looked at, line `k` being the one to remove. */
  function FilesAfter(files: map<Text, Text>, remove: Option<CrypttabItem>, k: nat, n: nat, io: Io)
    : Outcome<map<Text, Text>, CrypttabError>
  {
    if remove.Some? && k < n then Unlinked(files, remove.value.passphrasePath, io) else Ok(files)
  }

  /** Storing the passphrase of the added entry: in the file of the entry just removed, or else
      directly inside the key directory, and never over an existing file or directory. */
  function KeyStored(files: map<Text, Text>, add: Addition, remove: Option<CrypttabItem>, io: Io)
    : Outcome<map<Text, Text>, CrypttabError>
  {
    var path := add.item.passphrasePath;
    if path == [] then Ok(files)
    else
      var same := remove.Some? && remove.value.passphrasePath == path;
      if !same && !(KEY_DIRECTORY <= path) then Failed(NotInKeyDirectory)
      else if !same && !io.mkdirOk then Failed(MkdirFailed)
      else
        var filename := if same then path else KeyFile(path);
        if filename in files || IsDirectory(filename, io) then Failed(KeyFileExists)
        else if !io.keyWritable then Failed(KeyWriteFailed)
        else Ok(files[filename := add.passphrase])
  }

  function TextIn(store: Store): Text
  {
    match store.contents case None => [] case Some(t) => t
  }

  function RemovalIndex(ls: seq<Text>, remove: Option<CrypttabItem>, garbage: nat -> CrypttabItem): (k: nat)
    ensures k <= |ls|
  {
    match remove case None => |ls| case Some(item) => RemovedLine(ls, item, garbage)
  }

  /** The end of an edit: store the passphrase of the added entry, then write the lines without
      line `k` and with the added one. */
  function FinishEdit(contents: Option<Text>, files: map<Text, Text>, text: Text, k: nat, remove: Option<CrypttabItem>,
                      add: Option<Addition>, io: Io): (Store, Outcome<(), CrypttabError>)
  {
    var stored := if add.Some? then KeyStored(files, add.value, remove, io) else Ok(files);
    match stored
    case Failed(e) => (Store(contents, files), Failed(e))
    case Ok(files') =>
      if !io.writable then (Store(contents, files'), Failed(WriteFailed))
      else
        var added := if add.Some? then [PrintCrypttabItem(add.value.item)] else [];
        (Store(Some(Rewritten(text, k, added)), files'), Ok(()))
  }

  /** The edit once the file has been read. */
  function EditOfText(store: Store, text: Text, remove: Option<CrypttabItem>, add: Option<Addition>,
                      garbage: nat -> CrypttabItem, io: Io): (Store, Outcome<(), CrypttabError>)
  {
    var k := RemovalIndex(LinesOf(text), remove, garbage);
    if remove.Some? && k == |LinesOf(text)| then (store, Failed(NotFound))
    else
      match FilesAfter(store.files, remove, k, |LinesOf(text)|, io)
      case Failed(e) => (store, Failed(e))
      case Ok(files) => FinishEdit(store.contents, files, text, k, remove, add, io)
  }

  /** Files are changed before /etc/crypttab is, so a late failure leaves it as it was but may
      leave a passphrase file gone or a new one behind. */
  function EditCrypttab(store: Store, remove: Option<CrypttabItem>, add: Option<Addition>,
                        garbage: nat -> CrypttabItem, io: Io): (Store, Outcome<(), CrypttabError>)
  {
    if store.contents.Some? && !io.readable then (store, Failed(ReadFailed))
    else EditOfText(store, TextIn(store), remove, add, garbage, io)
  }

  function EditOutcome(store: Store, remove: Option<CrypttabDict>, add: Option<CrypttabDict>, block: BlockIds,
                       uuids: seq<Text>, garbage: nat -> CrypttabItem, io: Io): (Store, Outcome<(), CrypttabError>)
  {
    var removal := if remove.Some? then RemovalItem(remove.value) else None;
    var addition := if add.Some? then AdditionItem(add.value, block, uuids) else Failed(NotFound);
    if remove.Some? && removal.None? then (store, Failed(MissingKeys))
    else if add.Some? && addition.Failed? then (store, Failed(addition.error))
    else EditCrypttab(store, removal, if addition.Ok? then Some(addition.value) else None, garbage, io)
  }

  /** Whatever fails, /etc/crypttab itself is as it was. */
  lemma {:induction false} FailedEditKeepsText(store: Store, remove: Option<CrypttabItem>, add: Option<Addition>,
                                               garbage: nat -> CrypttabItem, io: Io)
    ensures var (after, r) := EditCrypttab(store, remove, add, garbage, io);
            r.Failed? ==> after.contents == store.contents
  {
  }

  // ----- the edit as the code does it -----

  /** A loop over the pieces that stops at an empty last one loops over the lines. */
  ghost predicate LoopsOver(lines: seq<Text>, ls: seq<Text>)
  {
    && ls <= lines
    && (|lines| == |ls| || (|lines| == |ls| + 1 && lines[|ls|] == []))
    && (|lines| == |ls| ==> ls != [] && ls[|ls| - 1] != [])
  }

  /** Line `k` is the one to remove; past the end, there is none. */
  ghost predicate IsRemovalIndex(ls: seq<Text>, remove: Option<CrypttabItem>, garbage: nat -> CrypttabItem, k: nat)
  {
    if remove.None? then k == |ls|
    else k <= |ls| && forall n: nat {:trigger garbage(n)} :: n <= k && n < |ls| ==>
      (EditorLine(ls[n], garbage(n)) == remove <==> n == k)
  }

  lemma {:induction false} RemovalIndexIsIt(ls: seq<Text>, remove: Option<CrypttabItem>, garbage: nat -> CrypttabItem)
    ensures IsRemovalIndex(ls, remove, garbage, RemovalIndex(ls, remove, garbage))
  {
    if remove.Some? {
      var k, flags := RemovalIndex(ls, remove, garbage), EditorFlags(ls, remove.value, garbage);
      forall n: nat | n <= k && n < |ls| ensures EditorLine(ls[n], garbage(n)) == remove <==> n == k {
        assert flags[n] <==> n == k;
      }
    }
  }

  /** The state of the line loop before line `n`, line `k` being the one to remove. */
  ghost predicate Progress(ls: seq<Text>, remove: Option<CrypttabItem>, k: nat, io: Io, before: map<Text, Text>,
                           n: nat, files: map<Text, Text>, str: Text, removed: bool)
  {
    && n <= |ls| && str == Written(ls, k, n)
    && (removed <==> remove.Some? && k < n)
    && FilesAfter(before, remove, k, n, io) == Ok(files)
  }

  class EtcCrypttab {
    var contents: Option<Text>
    var files: map<Text, Text>

    constructor (contents: Option<Text>, files: map<Text, Text>)
      ensures this.contents == contents && this.files == files
    {
      this.contents := contents;
      this.files := files;
    }

    function State(): Store
      reads this
    {
      Store(contents, files)
    }

    /** add_remove_crypttab_entry. `garbage(n)` is what the uninitialised buffers hold at line n. */
    method AddRemove(remove: Option<CrypttabDict>, add: Option<CrypttabDict>, block: BlockIds, ancestry: Ancestry,
                     ghost rank: Text -> nat, garbage: nat -> CrypttabItem, io: Io)
      returns (r: Outcome<(), CrypttabError>)
      requires ancestry.Acyclic(rank)
      modifies this
      ensures (State(), r) == EditOutcome(old(State()), remove, add, block,
                                          ancestry.AncestorUuids(block.path, rank), garbage, io)
      ensures r.Failed? ==> contents == old(contents)
    {
      var removal := None;
      if remove.Some? {
        removal := RemovalItem(remove.value);
        if removal.None? {
          return Failed(MissingKeys);
        }
      }
      var addition := None;
      if add.Some? {
        var checked := ReadAddition(add.value, block, ancestry, rank);
        if checked.Failed? {
          return Failed(checked.error);
        }
        addition := Some(checked.value);
      }
      ghost var before := State();
      r := Edit(removal, addition, garbage, io);
      FailedEditKeepsText(before, removal, addition, garbage, io);
    }

    /** The rest of add_remove_crypttab_entry, after the details have been read. */
    method Edit(removal: Option<CrypttabItem>, addition: Option<Addition>, garbage: nat -> CrypttabItem, io: Io)
      returns (r: Outcome<(), CrypttabError>)
      modifies this
      ensures (State(), r) == EditCrypttab(old(State()), removal, addition, garbage, io)
    {
      if contents.Some? && !io.readable {
        return Failed(ReadFailed);
      }
      r := EditText(if contents.Some? then contents.value else [], removal, addition, garbage, io);
    }

    /** The rest of it, after the file has been read. */
    method EditText(text: Text, removal: Option<CrypttabItem>, addition: Option<Addition>,
                    garbage: nat -> CrypttabItem, io: Io)
      returns (r: Outcome<(), CrypttabError>)
      modifies this
      ensures (State(), r) == EditOfText(old(State()), text, removal, addition, garbage, io)
    {
      ghost var k := RemovalIndex(LinesOf(text), removal, garbage);
      RemovalIndexIsIt(LinesOf(text), removal, garbage);
      var lines := SplitLines(text);
      var str, removed, failed := RewriteLines(lines, LinesOf(text), k, removal, garbage, io);
      if failed {
        return Failed(UnlinkFailed);
      }
      if removal.Some? && !removed {
        return Failed(NotFound);
      }
      r := Finish(text, k, str, removal, addition, io);
    }

    /** Store the passphrase of the added entry, append its line, and write the file. */
    method Finish(ghost text: Text, ghost k: nat, str: Text, removal: Option<CrypttabItem>, addition: Option<Addition>,
                  io: Io)
      returns (r: Outcome<(), CrypttabError>)
      requires str == Written(LinesOf(text), k, |LinesOf(text)|)
      modifies this
      ensures (State(), r) == FinishEdit(old(contents), old(files), text, k, removal, addition, io)
    {
      AllWritten(LinesOf(text), k);
      RewrittenWithAddition(text, k, addition);
      var whole := str;
      if addition.Some? {
        var stored := KeyStored(files, addition.value, removal, io);
        if stored.Failed? {
          return Failed(stored.error);
        }
        files := stored.value;
        whole := str + (PrintCrypttabItem(addition.value.item) + [NEWLINE]);
      }
      if !io.writable {
        return Failed(WriteFailed);
      }
      contents := Some(whole);
      return Ok(());
    }

    method ReadAddition(d: CrypttabDict, block: BlockIds, ancestry: Ancestry, ghost rank: Text -> nat)
      returns (r: Outcome<Addition, CrypttabError>)
      requires ancestry.Acyclic(rank)
      ensures r == AdditionItem(d, block, ancestry.AncestorUuids(block.path, rank))
    {
      if d.name.None? && (block.uuid.None? || block.uuid.value == []) {
        return Failed(NoUuid);
      }
      var name := CStr(if d.name.Some? then d.name.value else LUKS + block.uuid.value);
      var device := CStr(if d.device.Some? then d.device.value else BlockFsname(block));
      if d.options.None? || d.passphraseContents.None? {
        return Failed(MissingKeys);
      }
      var options, passphrase := CStr(d.options.value), CStr(d.passphraseContents.value);
      var path := [];
      if d.passphrasePath.Some? {
        path := CStr(d.passphrasePath.value);
      } else if passphrase != [] {
        path := KEY_DIRECTORY + name;
      }
      if !NoSpaces(CrypttabItem(name, device, path, options)) {
        return Failed(HasWhitespace);
      }
      if d.trackParents == Some(true) {
        options := TrackParents(options, block.path, ancestry, rank);
        options := CStr(options);
      }
      return Ok(Addition(CrypttabItem(name, device, path, options), passphrase));
    }

    /** One round of the line loop: a matching line is dropped, after its passphrase file is
        deleted. */
    method RewriteLine(ghost ls: seq<Text>, ghost k: nat, n: nat, line: Text, remove: Option<CrypttabItem>, str: Text,
                       removed: bool, garbage: nat -> CrypttabItem, io: Io, ghost before: map<Text, Text>)
      returns (str': Text, removed': bool, failed: bool)
      requires n < |ls| && ls[n] == line && IsRemovalIndex(ls, remove, garbage, k)
      requires Progress(ls, remove, k, io, before, n, files, str, removed)
      modifies this`files
      ensures if failed then
                remove.Some? && k == n && files == before
                && Unlinked(before, remove.value.passphrasePath, io) == Failed(UnlinkFailed)
              else Progress(ls, remove, k, io, before, n + 1, files, str', removed')
    {
      str', removed', failed := str, removed, false;
      if remove.Some? && !removed && EditorLine(line, garbage(n)) == remove {
        var unlinked := Unlinked(files, remove.value.passphrasePath, io);
        if unlinked.Failed? {
          failed := true;
          return;
        }
        files := unlinked.value;
        removed' := true;
      } else {
        str' := str + line + [NEWLINE];
      }
    }

    /** `g_strsplit`, and where the loop over the pieces stops. */
    method SplitLines(text: Text) returns (lines: seq<Text>)
      ensures LoopsOver(lines, LinesOf(text))
    {
      lines := Split(CStr(text), NEWLINE);
    }

    /** The line loop. */
    method RewriteLines(lines: seq<Text>, ghost ls: seq<Text>, ghost k: nat, remove: Option<CrypttabItem>,
                        garbage: nat -> CrypttabItem, io: Io)
      returns (str: Text, removed: bool, failed: bool)
      requires LoopsOver(lines, ls) && IsRemovalIndex(ls, remove, garbage, k)
      modifies this`files
      ensures if failed then
                remove.Some? && k < |ls| && files == old(files)
                && FilesAfter(old(files), remove, k, |ls|, io) == Failed(UnlinkFailed)
              else Progress(ls, remove, k, io, old(files), |ls|, files, str, removed)
    {
      str := [];
      removed, failed := false, false;
      var n := 0;
      while n < |lines| && !(lines[n] == [] && n + 1 == |lines|)
        invariant n <= |ls|
        invariant Progress(ls, remove, k, io, old(files), n, files, str, removed)
      {
        str, removed, failed := RewriteLine(ls, k, n, lines[n], remove, str, removed, garbage, io, old(files));
        if failed {
          return;
        }
        n := n + 1;
      }
      assert n == |ls|;
    }
  }

  lemma {:induction false} RewrittenWithAddition(text: Text, k: nat, add: Option<Addition>)
    ensures Rewritten(text, k, if add.Some? then [PrintCrypttabItem(add.value.item)] else []) ==
            if add.Some? then Unlines(Without(LinesOf(text), k)) + (PrintCrypttabItem(add.value.item) + [NEWLINE])
            else Unlines(Without(LinesOf(text), k))
  {
    var kept := Without(LinesOf(text), k);
    assert kept + [] == kept;
    if add.Some? {
      UnlinesConcat(kept, [PrintCrypttabItem(add.value.item)]);
      UnlinesOne(PrintCrypttabItem(add.value.item));
    }
  }

  // ----- what the edits do -----

  predicate AllGood(io: Io)
  {
    io.readable && io.unlinkable && io.mkdirOk && io.keyWritable && io.writable
  }

  /** One of the first lines up to line `k` is gone, and nothing else has changed. */
  ghost predicate OneLineLess(ls: seq<Text>, ls': seq<Text>, k: nat)
    requires k < |ls|
  {
    exists j :: 0 <= j <= k && ls' == ls[..j] + ls[j + 1..]
  }

  /** Feeding the report of a listed line back as the removal succeeds exactly when its passphrase
      file can be deleted. Then the file lists one such item less, every other line is kept, and
      that passphrase file is the only file gone; otherwise nothing changes at all. */
  lemma {:induction false} RemoveListedItem(store: Store, k: nat, garbage: nat -> CrypttabItem, io: Io)
    requires store.contents.Some? && io.readable && io.writable
    requires k < |LinesOf(store.contents.value)| && ReportedLine(LinesOf(store.contents.value)[k]).Some?
    requires !Commented(ReportedLine(LinesOf(store.contents.value)[k]).value.name)
    requires CleanUpTo(LinesOf(store.contents.value), k) && TokensUpTo(LinesOf(store.contents.value), k)
    ensures var ls, item := LinesOf(store.contents.value), ReportedLine(LinesOf(store.contents.value)[k]).value;
            var (after, r) := EditCrypttab(store, Some(item), None, garbage, io);
            var owned := OwnsKeyFile(item.passphrasePath);
            && (r.Ok? <==> !owned || (item.passphrasePath in store.files && io.unlinkable))
            && (r.Failed? ==> after == store)
            && (r.Ok? ==>
                  && multiset(Reported(TextIn(after))) == multiset(Reported(TextIn(store))) - multiset{item}
                  && OneLineLess(ls, LinesOf(TextIn(after)), k)
                  && after.files == if owned then store.files - {item.passphrasePath} else store.files)
  {
    var item := ReportedLine(LinesOf(store.contents.value)[k]).value;
    TextAfterRemoval(store.contents.value, k, garbage);
    RemoveOutcome(store, item, garbage, io);
    var (after, r) := EditCrypttab(store, Some(item), None, garbage, io);
    if r.Ok? {
      assert TextIn(after) ==
             Rewritten(store.contents.value, RemovedLine(LinesOf(store.contents.value), item, garbage), []);
    }
  }

  lemma {:induction false} TextAfterRemoval(text: Text, k: nat, garbage: nat -> CrypttabItem)
    requires k < |LinesOf(text)| && ReportedLine(LinesOf(text)[k]).Some?
    requires !Commented(ReportedLine(LinesOf(text)[k]).value.name)
    requires CleanUpTo(LinesOf(text), k) && TokensUpTo(LinesOf(text), k)
    ensures var ls, item := LinesOf(text), ReportedLine(LinesOf(text)[k]).value;
            var j := RemovedLine(ls, item, garbage);
            && j <= k
            && OneLineLess(ls, LinesOf(Rewritten(text, j, [])), k)
            && multiset(Reported(Rewritten(text, j, []))) == multiset(Reported(text)) - multiset{item}
  {
    ListedItemIsRemoved(text, k, garbage);
  }

  lemma {:induction false} RemoveOutcome(store: Store, item: CrypttabItem, garbage: nat -> CrypttabItem, io: Io)
    requires store.contents.Some? && io.readable && io.writable
    ensures var text := store.contents.value;
            var k := RemovedLine(LinesOf(text), item, garbage);
            k < |LinesOf(text)| ==>
              EditCrypttab(store, Some(item), None, garbage, io) ==
                match Unlinked(store.files, item.passphrasePath, io)
                case Failed(e) => (store, Failed(e))
                case Ok(files) => (Store(Some(Rewritten(text, k, [])), files), Ok(()))
  {
  }

  /** Whatever fails, a removal that fails leaves the text alone. */
  lemma {:induction false} RemoveOutcomeText(store: Store, item: CrypttabItem, garbage: nat -> CrypttabItem, io: Io)
    ensures var (after, r) := EditCrypttab(store, Some(item), None, garbage, io);
            var k := RemovedLine(LinesOf(TextIn(store)), item, garbage);
            && (r.Failed? ==> TextIn(after) == TextIn(store))
            && (r.Ok? ==> k < |LinesOf(TextIn(store))| && TextIn(after) == Rewritten(TextIn(store), k, []))
  {
  }

  /** A validated addition: C strings without white space. */
  predicate Plain(item: CrypttabItem)
  {
    NoSpaces(item) &&
    NUL !in item.name && NUL !in item.device && NUL !in item.passphrasePath && NUL !in item.options
  }

  function PrintedItems(items: seq<CrypttabItem>): (ls: seq<Text>)
    ensures |ls| == |items| && forall i :: 0 <= i < |items| ==> ls[i] == PrintCrypttabItem(items[i])
  {
    seq(|items|, i requires 0 <= i < |items| => PrintCrypttabItem(items[i]))
  }

  predicate Complete(item: CrypttabItem)
  {
    item.name != [] && !Commented(item.name) && item.device != []
  }

  /** A file written item by item is listed as exactly those items, in order, if and only if every
      name and device is there and no name is commented out. */
  lemma {:induction false} PrintedFileRoundTrip(items: seq<CrypttabItem>)
    requires forall i :: 0 <= i < |items| ==> Plain(items[i]) && !NoPath(items[i].passphrasePath)
    ensures Reported(Unlines(PrintedItems(items))) == items <==> forall i :: 0 <= i < |items| ==> Complete(items[i])
  {
    var ls := PrintedItems(items);
    forall i | 0 <= i < |items|
      ensures NEWLINE !in ls[i] && NUL !in ls[i]
      ensures ReportedLine(ls[i]) == Some(items[i]) <==> Complete(items[i])
    {
      PrintedItemIsOneLine(items[i]);
      AddedLineIsReported(items[i]);
    }
    LinesOfUnlines(ls);
    CollectIsExact(ls, ReportedLine, items);
  }

  /** Such a file of items without CR, VT, FF and with short columns meets every hypothesis of
      RemoveListedItem, so each of its items can be removed by its report. */
  lemma {:induction false} PrintedItemsCanBeRemoved(items: seq<CrypttabItem>, k: nat)
    requires k < |items| && forall i :: 0 <= i < |items| ==>
               Plain(items[i]) && !NoPath(items[i].passphrasePath) && Complete(items[i]) &&
               Clean(PrintCrypttabItem(items[i]))
    ensures var ls := LinesOf(Unlines(PrintedItems(items)));
            k < |ls| && ReportedLine(ls[k]) == Some(items[k]) && CleanUpTo(ls, k) && TokensUpTo(ls, k) && TidyLines(ls)
  {
    var ls := PrintedItems(items);
    forall i | 0 <= i < |items|
      ensures NEWLINE !in ls[i] && NUL !in ls[i] && ReportedLine(ls[i]) == Some(items[i]) && Words(ls[i], BLANK) != []
    {
      PrintedItemIsOneLine(items[i]);
      AddedLineIsReported(items[i]);
      ReportedHasToken(ls[i]);
    }
    LinesOfUnlines(ls);
  }

  /** A successful addition appends one line, which is listed as the added item if and only if
      its name and device are not empty and its name is not commented out. */
  lemma {:induction false} AddIsListed(store: Store, add: Addition, garbage: nat -> CrypttabItem, io: Io)
    requires Plain(add.item)
    ensures var (after, r) := EditCrypttab(store, None, Some(add), garbage, io);
            var item := add.item;
            r.Ok? ==>
              && !NoPath(item.passphrasePath)
              && LinesOf(TextIn(after)) == LinesOf(TextIn(store)) + [PrintCrypttabItem(item)]
              && (multiset(Reported(TextIn(after))) == multiset(Reported(TextIn(store))) + multiset{item}
                  <==> item.name != [] && !Commented(item.name) && item.device != [])
  {
    AddOutcome(store, add, garbage, io);
    var (after, r) := EditCrypttab(store, None, Some(add), garbage, io);
    if r.Ok? {
      PrintedItemIsOneLine(add.item);
      AddedLineIsReported(add.item);
      AppendLine(TextIn(store), ReportedLine, PrintCrypttabItem(add.item), add.item);
    }
  }

  lemma {:induction false} AddOutcome(store: Store, add: Addition, garbage: nat -> CrypttabItem, io: Io)
    ensures var (after, r) := EditCrypttab(store, None, Some(add), garbage, io);
            var text, path := TextIn(store), add.item.passphrasePath;
            r.Ok? ==>
              && after.contents == Some(Rewritten(text, |LinesOf(text)|, [PrintCrypttabItem(add.item)]))
              && (path == [] || KEY_DIRECTORY <= path) && !NoPath(path)
              && (path != [] ==> KeyFile(path) !in store.files)
              && after.files == if path == [] then store.files else store.files[KeyFile(path) := add.passphrase]
  {
  }

  lemma {:induction false} KeyFileIsOwned(path: Text)
    requires KEY_DIRECTORY <= path
    ensures OwnsKeyFile(path)
  {
    assert path[..|KEY_DIRECTORY|][1] == 101;
    assert DEV[1] == 100;
  }

  /** Adding an item to a clean file that does not list it, and where no buffer spells it at a blank
      line, and removing it again. The passphrase is stored directly in the key directory, but the
      line and the removal name the path as it was given, so the removal succeeds exactly when the
      two are the same file or a file of the given name was there before; and when they are the
      same, everything is as it was. */
  lemma {:induction false} AddThenRemove(store: Store, add: Addition, garbage: nat -> CrypttabItem, io: Io)
    requires AllGood(io) && Plain(add.item) && Clean(PrintCrypttabItem(add.item))
    requires add.item.name != [] && !Commented(add.item.name) && add.item.device != []
    requires CleanLines(LinesOf(TextIn(store))) && Unspelled(LinesOf(TextIn(store)), add.item, garbage)
    requires add.item !in Reported(TextIn(store))
    requires EditCrypttab(store, None, Some(add), garbage, io).1.Ok?
    ensures var added := EditCrypttab(store, None, Some(add), garbage, io).0;
            var (after, r) := EditCrypttab(added, Some(add.item), None, garbage, io);
            var path := add.item.passphrasePath;
            && (r.Ok? <==> path == [] || path == KeyFile(path) || path in store.files)
            && (path == [] || path == KeyFile(path) ==>
                  after == Store(Some(WithFinalNewline(CStr(TextIn(store)))), store.files))
  {
    var item, path := add.item, add.item.passphrasePath;
    var added := EditCrypttab(store, None, Some(add), garbage, io).0;
    AddOutcome(store, add, garbage, io);
    AddThenRemoveLines(TextIn(store), TextIn(added), item, garbage);
    RemoveOutcome(added, item, garbage, io);
    if path != [] {
      UnlinkedAfterStoring(store.files, path, add.passphrase, io);
    }
  }

  /** The stored passphrase and the path that a removal names. */
  lemma {:induction false} UnlinkedAfterStoring(files: map<Text, Text>, path: Text, passphrase: Text, io: Io)
    requires path != [] && KEY_DIRECTORY <= path && KeyFile(path) !in files && io.unlinkable
    ensures var unlinked := Unlinked(files[KeyFile(path) := passphrase], path, io);
            && (unlinked.Ok? <==> path == KeyFile(path) || path in files)
            && (path == KeyFile(path) ==> unlinked == Ok(files))
  {
    KeyFileIsOwned(path);
    assert files[KeyFile(path) := passphrase] - {KeyFile(path)} == files;
  }

  lemma {:induction false} AddThenRemoveLines(text: Text, added: Text, item: CrypttabItem, garbage: nat -> CrypttabItem)
    requires Plain(item) && Clean(PrintCrypttabItem(item)) && !NoPath(item.passphrasePath)
    requires item.name != [] && !Commented(item.name) && item.device != []
    requires CleanLines(LinesOf(text)) && Unspelled(LinesOf(text), item, garbage) && item !in Reported(text)
    requires added == Rewritten(text, |LinesOf(text)|, [PrintCrypttabItem(item)])
    ensures RemovedLine(LinesOf(added), item, garbage) == |LinesOf(text)| < |LinesOf(added)|
    ensures Rewritten(added, |LinesOf(text)|, []) == WithFinalNewline(CStr(text))
  {
    var ls, line := LinesOf(text), PrintCrypttabItem(item);
    PrintedItemIsOneLine(item);
    AddedLineIsReported(item);
    AppendLine(text, ReportedLine, line, item);
    AppendThenRemove(text, added, ReportedLine, line, item);
    FirstParsedAfterAppend(ls, ReportedLine, line, item);
    AppendedLineIsRemoved(ls, line, item, garbage);
    UnlinesInvertsLines(CStr(text));
  }

  lemma {:induction false} AppendedLineIsRemoved(ls: seq<Text>, line: Text, item: CrypttabItem,
                                                 garbage: nat -> CrypttabItem)
    requires Clean(line) && ReportedLine(line) == Some(item) && !Commented(item.name)
    requires CleanLines(ls) && Unspelled(ls, item, garbage)
    requires item !in Collect(ls, ReportedLine)
    ensures RemovedLine(ls + [line], item, garbage) == |ls|
  {
    var ls' := ls + [line];
    CollectContains(ls, ReportedLine, item);
    assert ls'[|ls|] == line && ls'[..|ls|] == ls;
    assert forall i :: 0 <= i < |ls| ==> ls'[i] == ls[i];
    RemovesReportedLineUnlessSpelled(ls', item, |ls|, garbage);
  }
}
