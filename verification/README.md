# A verified model of the algorithms and protocols inside udisks

udisks is mostly plumbing between D-Bus and udev. Inside it are a handful of self-contained
algorithms and protocols whose correctness is not obvious, and this project models those and proves
what they are for. It is written in Dafny 4.11; `dafny verify dfyconfig.toml` checks everything.

The parts, each a module of the same name as its file:

- **The /etc/fstab and /etc/crypttab editors and their readers.** `Sequences`, `Bytes`, `Tokens` and
  `Decimal` hold the foundations: C strings, splitting and joining, `strtok_r` and `sscanf` tokenising,
  decimal numbers. `FstabText` has the octal escaper and unescaper, the line printer and the matcher;
  `LineEditing` what both editors do to the lines of a file; `FstabEditor` and `CrypttabEditor` the
  editors themselves, as classes whose fields are the files they change; `FstabCalls` and `CrypttabCalls`
  whole calls, from the dictionaries a caller sends to the lines and the passphrase file;
  `CrypttabUpdates` when an edit that removes one entry and adds another succeeds, and what a failed one
  leaves behind; `CrypttabText` the monitor's parser and the editor's, and when they agree;
  `CrypttabMonitor` the cache, the diff and the signals; `ParentTracking` the rewriting of `x-parent=`
  options in place; `Ancestors` whose UUIDs these options name.
- **The device tree and its teardown.** `Forests` is the post-order walk over any forest, `DeviceTree`
  the devices as exported objects and why they form a forest, `ConfigFiles` the two files together,
  `ConfigRemovals` when an item can be removed from them, and `Teardown` the recursive walk that locks
  devices and edits both files as it goes.
- **The ATA protocols.** `SecureErase` and `SelfTest` are step systems of any number of threads with
  failing commands; `SecureErase` also runs the call from start to end as the code does, and
  `DriveReaders` puts the calls that only read from the drive between the erase calls.
- **Locks, waits and replies.** `LockDiscipline` says which locks the unlock, lock and format handlers
  take, drop and wait under; `LockSystem` runs any mix of them against the uevent thread;
  `Formatting` is the whole of a format; `Waiting` the wait for an object.
- **State driven by uevents.** `BlockInterfaces` has the interfaces a block object exports,
  `DriveDevices` the device list of a drive.
- **Two small cores.** `SortKeys` orders drives, `Estimator` predicts when a job ends.

What a system call, a library call or another thread decides is a parameter that the statements hold
for all values of: the outcomes of reads and writes, of every ATA command, of every job, and the
contents of uninitialised buffers.

## What the proofs found

Several properties one would expect hold only under a condition. Each is stated with that condition,
as an equivalence, and a lemma named after it shows an input on which the property fails.

- The crypttab editor stores the result of `sscanf` in an unsigned number, so that on a line without a
  token the end-of-file value reads as "four fields found" and whatever the buffers hold is compared
  with the entry to remove. A listed entry is certain to be the one removed if and only if every line
  before it has a token (`RemovesReportedLineExactly`; a blank line, `BlankLineMatchesAnything`).
- An added crypttab line is reported back as the item it was printed from if and only if its name and
  device are not empty and its name does not start with `#` (`AddedLineIsReported`; an item without a
  device and one named `#a`, `IncompleteItemsAreMisread`).
- A passphrase is stored directly in the key directory, but the line and a later removal name the path
  as it was given; adding and then removing therefore works if and only if the two are the same file,
  there is no passphrase, or a file of the given name already existed (`CrypttabEditor.AddThenRemove`;
  any path further down that can be added at all, such as `/etc/luks-keys/a/b`,
  `NestedKeyCannotBeRemoved`, `NestedPathIsNested`).
- A crypttab edit changes passphrase files before it writes /etc/crypttab, and puts nothing back. A
  failed edit never changes /etc/crypttab, but it leaves the passphrase files unchanged if and only if
  it failed before or in the removal, or deleted and stored none, or stored just what it had deleted
  (`FailedEditKeepsFilesExactly`). Moving a passphrase to `/x` deletes the old file and is then refused:
  the entry is still listed, and can no longer be removed (`MovingTheKeyStrandsItem`).
- An update of a crypttab entry that keeps its passphrase path is refused because "the file exists" if
  and only if its removal went well and something of that name is left: the path begins with `/dev`,
  where a removal deletes nothing, or names a directory (`KeptPathIsRefusedExactly`; `/dev/urandom`,
  `RandomKeyCannotBeUpdated`).
- A printed fstab line parses back to its entry if and only if no field is empty, contains a carriage
  return, vertical tab or form feed, or is longer than 511 bytes once escaped (`FstabLineRoundTrip`; one
  entry of each kind, `LostFields`).
- Rewriting `x-parent=` keeps the other options if and only if `x-parent=` occurs only at the start of
  an option (`StripExact`, `TrackedOptionsExact`; `a-x-parent=b`, `MiddleIsCut`).
- An entry is found under a UUID if and only if a tracked UUID begins with it or holds an `x-parent=`
  option for it, or the old options did once stripped (`EntryIsFoundExactly`). So any tracked entry is
  found under the empty UUID, and one tracked under `12` under `1` (`ShorterUuidsFindToo`); and
  `x-parx-parent=,ent=a` is found under `a` with nothing tracked, because stripping joins its halves
  (`HalvesAreJoined`, `SuchHalves`).
- The crypttab monitor compares lists as they stand in the files, unsorted. It signals exactly the
  difference when both are sorted (`SortedFilesSignalDifference`), and for a line appended to a file in any
  order if and only if the new entry leads the old ones (`AppendedLineSignalsDifference`); two lines that
  change places get one of them signalled as removed and added (`ReorderedEntryIsSignalled`).
- Processing a uevent again changes nothing if and only if no module type that is wanted and unwanted
  at once is listed an odd number of times: the answer `keep` is ignored for a new interface, so such a
  type flips every time (`ReprocessingChangesNothing`; one such type, `FlippingTypeNeverSettles`).
- Padded `sd` keys compare as the disks are numbered if and only if both suffixes are of one length or
  the shorter one is padded; a comment in the code still lists this padding as work to be done
  (`KeysAreInOrder`; `bb...` against a longer `aa...`, `LongerComesFirst`).
- The times in the keys of hotplugged drives compare as the times do if and only if they are printed with
  the same number of digits (`TimesAreInOrder`; `99...9` against a longer `10...0`, `NinesComeLast`).
- A SMART refresh or power query looks at the busy flag once and sends its commands later. Once the flag of
  a secure erase is up, none of them can be heard before it comes down if and only if none had passed its
  look with something left to send (`SilentExactlyWhenQuiet`); one that had gets between ERASE PREPARE and
  ERASE UNIT, and the drive refuses the erase (`ReaderMayBeLate`).
- The teardown walk visits no block twice if and only if it meets no block both as a partition and as a
  cleartext device (`DevicesAreVisitedOnce`; a partition of a disk that is also the cleartext device of
  another one, `TwoRolesAreVisitedTwice`). With an extended partition in that place the walk does not
  end at all (`TwoRolesMayLoop`).
- Waiting with a time-out of zero for an object that is still there to disappear fails without setting
  an error, although the documentation says that an error is set; with any other time-out one is set
  (`Waiting.Waiter.WaitToDisappear`; `StillThereWithoutTimeout`).

## Model

| member | source | states |
|---|---|---|
| FstabText.EscapeFstab | src/udiskslinuxblock.c:1333-1356 | the escaping loop builds the text in which space, tab, newline and backslash are a backslash and three octal digits |
| FstabText.UnescapeFstab | src/udiskslinuxblock.c:1359-1401 | on any C string the loop stays inside a buffer of strlen + 1 bytes and leaves the unescaped text and a NUL in it |
| FstabText.UnescapeInvertsEscape | src/udiskslinuxblock.c:1333-1401 | unescaping an escaped byte string gives it back, for every byte string |
| FstabText.FieldRoundTrip | src/udiskslinuxblock.c:1571-1600 | one printed field scans back, and nothing but it is consumed, exactly when it is printable |
| FstabText.FstabLineRoundTrip | src/udiskslinuxblock.c:1571-1637 | the printed line parses back to the entry, numbers included, if and only if all four fields are non-empty, free of CR, VT and FF, and at most 511 bytes when escaped |
| FstabText.LostFields | src/udiskslinuxblock.c:1571-1637 | an empty field, one with a carriage return and any overlong one do not read back |
| FstabText.PrintedEntryIsOneLine | src/udiskslinuxblock.c:1612-1637 | the printed entry never contains a newline or a NUL, whatever its fields |
| Decimal.IntRoundTrip | src/udiskslinuxblock.c:1571-1579 | `%d` printed and scanned gives every 32-bit number back and stops right behind it |
| Bytes.LinesInvertsUnlines | src/udiskslinuxblock.c:1557-1610 | splitting a file written line by line gives exactly the lines back |
| Bytes.UnlinesInvertsLines | src/udiskslinuxblock.c:1557-1610 | writing the lines of a file back gives the file, with a final newline if it lacked one |
| FstabEditor.EtcFstab.AddRemove | src/udiskslinuxblock.c:1465-1656 | the whole editor: missing keys, blank options, unreadable and unwritable files, an entry that is not found, and otherwise the whole new text; a failure leaves the file alone; what the dictionaries mean is stated by the lemmas of FstabCalls |
| FstabEditor.EtcFstab.RewriteLines | src/udiskslinuxblock.c:1557-1618 | the loop over the lines with its `removed` flag drops exactly the first line that parses to the entry |
| FstabEditor.EtcFstab.LineMatches | src/udiskslinuxblock.c:1571-1600 | the matcher accepts a line exactly when it scans completely and its unescaped fields and numbers are the entry's |
| FstabEditor.RemoveKeepsOtherLines | src/udiskslinuxblock.c:1557-1618 | removal fails exactly when no line parses to the entry; otherwise one such line goes, every other line is kept byte for byte and in order, and one entry less is listed |
| FstabEditor.AddAppendsEntry | src/udiskslinuxblock.c:1620-1643 | adding keeps every line and appends one; the file lists exactly one such entry more if and only if the fields are printable |
| FstabEditor.AddThenRemove | src/udiskslinuxblock.c:1557-1656 | adding and removing an entry that was not listed gives the text back up to a final newline, exactly for printable fields; for one that was listed the removal succeeds and leaves the same multiset of entries, exactly for printable fields |
| FstabEditor.UpdateReplacesEntry | src/udiskslinuxblock.c:1557-1656 | an update succeeds exactly when the old entry is listed; one line goes, the others are kept, one is appended, and the file lists the new entry instead of the old one if and only if the new fields are printable |
| FstabEditor.PrintedFileRoundTrip | src/udiskslinuxblock.c:1571-1643 | a file written entry by entry lists exactly those entries, in order, if and only if all of their fields are printable |
| FstabCalls.EscapeCodes | src/udiskslinuxblock.c:1333-1356 | space, tab, newline and backslash are written as `\040`, `\011`, `\012` and `\134` |
| FstabCalls.Columns | src/udiskslinuxblock.c:1620-1637 | the columns of a printed line are fsname, dir, type, options and the two numbers, in this order |
| FstabCalls.ListedEntryIsTakenOut | src/udiskslinuxblock.c:1488-1618 | the whole call with the dictionary of any listed entry succeeds, takes out the first line that reads as it, keeps the others and lists exactly one such entry less |
| FstabCalls.UnlistedEntryIsNotFound | src/udiskslinuxblock.c:1488-1618 | with the dictionary of an entry that is not listed, the call answers that nothing was found |
| FstabCalls.EntryIsAppended | src/udiskslinuxblock.c:1505-1643 | the whole call that adds keeps every line and appends the entry of the dictionary, on the block itself when fsname is left out, and with the tracking options if asked for |
| FstabCalls.UpdateByDictionaries | src/udiskslinuxblock.c:1488-1656 | the whole call that updates a listed entry succeeds, and the new one is listed instead of the old one if and only if its fields are printable |
| FstabCalls.RefusedExactly | src/udiskslinuxblock.c:1488-1556 | a call is refused for a missing key exactly when one is absent, fsname being optional to add; for blank options, or an unreadable file, exactly when nothing before that is wrong |
| ParentTracking.StripInPlace | src/udiskslinuxblock.c:1416-1443 | the `memmove` loop terminates, stays inside the string and leaves what removing each occurrence up to the next comma leaves |
| ParentTracking.FindIsFirst | src/udiskslinuxblock.c:1426-1443 | the substring search gives a position exactly when that is the first occurrence |
| ParentTracking.TrackParents | src/udiskslinuxblock.c:1416-1463 | the two loops give the stripped options with one `x-parent=` per ancestor that has a UUID; the walk up ends because the ancestry is acyclic; which objects are the ancestors is stated by the lemmas of Ancestors |
| ParentTracking.StripExact | src/udiskslinuxblock.c:1426-1443 | the removal keeps exactly the other non-empty options, in order, if and only if the pattern occurs only in options that begin with it |
| ParentTracking.TrackedOptionsExact | src/udiskslinuxblock.c:1416-1463 | the options of the result are the old other ones and then one per tracked ancestor, nearest first, under exactly that condition |
| ParentTracking.MiddleIsCut | src/udiskslinuxblock.c:1426-1443 | `a-x-parent=b` is cut to `a-`, where it should be kept |
| ParentTracking.TrackingTwice | src/udiskslinuxblock.c:1416-1463 | tracking the same ancestors again changes no option |
| ParentTracking.TrackedEntryIsFound | src/udiskslinuxblock.c:529-552 | the substring search for a tracked UUID finds the entry, whatever its other options are |
| ParentTracking.EntryIsFoundExactly | src/udiskslinuxblock.c:529-552 | an entry is found under a UUID if and only if its old options were once stripped, or a tracked UUID begins with that UUID or holds an option for it; whatever the options |
| ParentTracking.NothingIsLeft | src/udiskslinuxblock.c:529-552 | for options in which the pattern occurs only at the start of an option, the old options have no part in that |
| ParentTracking.FoundExactlyWhenTracked | src/udiskslinuxblock.c:529-552 | so among UUIDs of one length exactly the tracked ones find the entry |
| ParentTracking.ShorterUuidsFindToo | src/udiskslinuxblock.c:816-822 | an entry tracked under one UUID is found under the start of it, and any tracked entry under the empty UUID |
| ParentTracking.HalvesAreJoined | src/udiskslinuxblock.c:1426-1443 | two halves of an option around an `x-parent=` are joined by its removal, and found with nothing tracked |
| ParentTracking.SuchHalves | src/udiskslinuxblock.c:1426-1443 | there are such halves, in `x-parx-parent=,ent=a` |
| Ancestors.WhatComesFirst | src/udisksdaemon.c:1967-2011 | the UUID of the encrypted device a block is the cleartext of comes first, else that of the array it is in, and a partition has those of its disk, whose table is skipped |
| Ancestors.TrackedOnTheWayUp | src/udiskslinuxblock.c:1416-1463 | the UUIDs tracked for a block are those of the objects strictly above it, nearest first, as far as they have one |
| Ancestors.HasWayUp | src/udiskslinuxblock.c:1416-1463 | every block has such a way up to an object with nothing above |
| Ancestors.AcyclicExactly | src/udisksdaemon.c:1943-2030 | the measure that ends the walk goes down on every pair of objects of which one is directly above the other, and on nothing else |
| Ancestors.FoundUnderEveryAncestor | src/udiskslinuxblock.c:529-552 | an entry stored with tracking is found under the UUID of every encrypted device and every array on the way up |
| Tokens.SplitCrypttabLine | src/udiskscrypttabmonitor.c:318-355 | the nested loops, on space and then on tab, return the tokens of one pass over runs of both |
| Tokens.NestedIsOnePass | src/udiskscrypttabmonitor.c:318-355 | splitting on spaces and each piece on tabs is one pass over maximal runs of the two, for every line |
| Tokens.WordsAreWords | src/udiskscrypttabmonitor.c:318-355 | no token is empty, none contains a separator, and there is none exactly in a line of separators |
| Tokens.ScanWordsIsWords | src/udiskslinuxblock.c:1839-1840 | `%511s` conversions find the first tokens of a line whose tokens are short enough |
| CrypttabText.ParsersAgree | src/udiskslinuxblock.c:1836-1852 | on a clean line with a token the editor's scanner finds an uncommented item if and only if the monitor's tokeniser reports it |
| CrypttabText.BlankLineMatchesAnything | src/udiskslinuxblock.c:1837-1841 | on a line without a token the editor compares what its buffers happen to hold, which can be any reported item |
| CrypttabText.RemovesReportedLineExactly | src/udiskslinuxblock.c:1822-1877 | with clean lines the first line reported as the item is the one removed, whatever the buffers hold, if and only if every line before it has a token |
| CrypttabText.RemovesReportedLineUnlessSpelled | src/udiskslinuxblock.c:1822-1877 | the same for given buffer contents: it is the one removed if and only if at no earlier line without a token the buffers spell the item |
| CrypttabText.ListedItemIsRemoved | src/udiskslinuxblock.c:604-657 | feeding a reported item back takes out one line that reports it, keeps the others, and lists exactly one such item less |
| CrypttabText.AddedLineIsReported | src/udiskslinuxblock.c:1953-1957 | the line printed for an item is reported as that item if and only if name and device are not empty and the name does not start with a hash sign |
| CrypttabText.DashIsNoPath | src/udiskscrypttabmonitor.c:318-355 | a path column of `-` or `none` is reported as no path |
| CrypttabText.IncompleteItemsAreMisread | src/udiskslinuxblock.c:1953-1957 | an item without a device is reported with its path as the device, and one named `#a` not at all |
| CrypttabEditor.EtcCrypttab.AddRemove | src/udiskslinuxblock.c:1695-1979 | the whole editor with its passphrase files: every error, the file it unlinks or creates, the files and directories it refuses to overwrite, and the new text; whatever fails, /etc/crypttab is as it was; what the dictionaries mean is stated by the lemmas of CrypttabCalls |
| CrypttabEditor.EtcCrypttab.Edit | src/udiskslinuxblock.c:1803-1979 | what follows the reading of the details: the new text and files and the error, for every outcome of the system calls |
| CrypttabEditor.EtcCrypttab.RewriteLines | src/udiskslinuxblock.c:1822-1877 | the loop over the lines drops exactly one line and deletes its passphrase file, or stops at a failing unlink with nothing changed |
| CrypttabEditor.RemoveListedItem | src/udiskslinuxblock.c:1822-1887 | whatever crypttab lists can be removed: it succeeds exactly when the passphrase file can be deleted, then one such item less is listed, every other line is kept and only that file is gone; otherwise nothing changes |
| CrypttabEditor.PrintedFileRoundTrip | src/udiskslinuxblock.c:1953-1957 | a file written item by item is listed as exactly those items, in order, if and only if every name and device is there and no name is commented out |
| CrypttabEditor.PrintedItemsCanBeRemoved | src/udiskslinuxblock.c:1822-1877 | such a file with short plain columns meets every hypothesis of the removal, for each of its items |
| CrypttabEditor.AddIsListed | src/udiskslinuxblock.c:1889-1963 | a successful addition appends one line and is listed exactly under the condition above |
| CrypttabEditor.AddThenRemove | src/udiskslinuxblock.c:1889-1963 | when adding and then removing succeeds, and that it then restores text and files |
| CrypttabCalls.Columns | src/udiskslinuxblock.c:1942-1953 | the columns of a printed line are name, device, passphrase path or `none`, and options, in this order |
| CrypttabCalls.ListedItemIsTakenOut | src/udiskslinuxblock.c:1726-1887 | the whole call with the dictionary of any listed item takes it out exactly when its passphrase file, if it has one that is not below /dev, can be deleted, and that is the only file gone |
| CrypttabCalls.AddedAsAsked | src/udiskslinuxblock.c:1743-1965 | a successful call that adds appends the item of the dictionary, by default named after the UUID and on the block itself, and stores the passphrase given in the file of the last part of the path |
| CrypttabCalls.StoredUnderTheName | src/udiskslinuxblock.c:1777-1953 | without a path, the passphrase is stored in the file of the name in the key directory and the line names that file; without a passphrase no file is stored and the line says `none` |
| CrypttabCalls.AdditionSucceedsExactly | src/udiskslinuxblock.c:1743-1965 | such an addition succeeds if and only if no column has white space, the file can be read and written, and the key directory can be made and has nothing of that name |
| CrypttabCalls.AddedItemIsListed | src/udiskslinuxblock.c:1743-1965 | an item added by a call is listed exactly when it has a name that is not commented out and a device |
| CrypttabCalls.BasenameIsLastPart | src/udiskslinuxblock.c:1926-1928 | the last part of a path has no slash, and what is before it ends in one or is empty |
| CrypttabCalls.UpdateByDictionaries | src/udiskslinuxblock.c:1726-1808 | a call with two dictionaries is the edit that takes the one item out and adds the other, unless the new one has white space |
| CrypttabCalls.RefusedExactly | src/udiskslinuxblock.c:1726-1775 | a call is refused for a missing UUID or key exactly when the name is to be made from a UUID that is not there, or a key is absent; refused calls change nothing |
| CrypttabUpdates.EditSucceedsExactly | src/udiskslinuxblock.c:1803-1979 | an edit succeeds exactly when the removed entry is found and its passphrase file can be deleted, the new passphrase goes to the old path or the key directory, to no directory and to no file but the one just deleted, and both files can be written |
| CrypttabUpdates.FailedEditKeepsFilesExactly | src/udiskslinuxblock.c:1822-1979 | exactly when a failed edit leaves the passphrase files as they were |
| CrypttabUpdates.UpdateIsListed | src/udiskslinuxblock.c:2164-2235 | a successful update takes out the old line, keeps the others, appends one, and lists the new item instead of the old one if and only if the new one is complete |
| CrypttabUpdates.KeptPathIsRefusedExactly | src/udiskslinuxblock.c:1904-1939 | an update that keeps the passphrase path is refused because the file exists exactly when the removal went well and the path names a directory, or an existing file below /dev; for such a file nothing changes |
| CrypttabUpdates.RandomKeyCannotBeUpdated | src/udiskslinuxblock.c:1904-1939 | so no update that keeps /dev/urandom succeeds |
| CrypttabUpdates.RefusedUpdateStrandsItem | src/udiskslinuxblock.c:1852-1916 | when the new passphrase path is refused after the old file was deleted, the entry stays listed, its file is gone, and no removal of it succeeds while it is |
| CrypttabUpdates.MovingTheKeyStrandsItem | src/udiskslinuxblock.c:1852-1916 | this happens when the passphrase of `a b /k` is moved to `/x` |
| CrypttabUpdates.KeyFileIsThePathExactly | src/udiskslinuxblock.c:1909-1928 | the file a passphrase is stored in is the path given if and only if that is directly in the key directory |
| CrypttabUpdates.NestedKeyCannotBeRemoved | src/udiskslinuxblock.c:1852-1941 | an item with a path further down in the key directory can be added exactly when its last part is not empty, `.` or `..`, and then it cannot be removed again |
| CrypttabUpdates.NestedPathIsNested | src/udiskslinuxblock.c:1909-1928 | `/etc/luks-keys/a/b` is such a path |
| CrypttabMonitor.DiffSortedLists | src/udiskscrypttabmonitor.c:174-215 | the merging loop prepends exactly the entries of the merge to the two lists |
| CrypttabMonitor.CompareIsTotalOrder | src/udiskscrypttabentry.c:118-143 | the comparison of four fields that may be NULL is a total order in which only equal entries compare equal |
| CrypttabMonitor.NamesComeFirst | src/udiskscrypttabentry.c:118-143 | the order is the falling one of names, then of devices, and missing paths and options come last |
| CrypttabMonitor.DiffConserves | src/udiskscrypttabmonitor.c:174-215 | for any two lists, sorted or not: old minus removed plus added is new, and everything removed was there |
| CrypttabMonitor.DiffOfSortedIsExact | src/udiskscrypttabmonitor.c:174-215 | for sorted lists removed and added are the exact multiset differences, with no entry in common |
| CrypttabMonitor.NewFirstIsExactly | src/udiskscrypttabmonitor.c:174-215 | with one more entry in front of a list in any order, the diff is exact if and only if the first entry other than it sorts behind it |
| CrypttabMonitor.ReorderedEntryIsSignalled | src/udiskscrypttabmonitor.c:174-215 | of two entries that change places, one comes out as both removed and added |
| CrypttabMonitor.Monitor.ParseContents | src/udiskscrypttabmonitor.c:377-424 | the line loop prepends an entry for every line that parses, comments and short lines skipped |
| CrypttabMonitor.Monitor.Ensure | src/udiskscrypttabmonitor.c:357-464 | reads, compares checksums, parses, diffs and signals; an unchanged or missing file changes nothing |
| CrypttabMonitor.EnsureSignalsAsTheDiff | src/udiskscrypttabmonitor.c:357-464 | an ensure that reads new contents signals exactly the difference of the entries if and only if the diff of the unsorted lists is exact |
| CrypttabMonitor.SortedFilesSignalDifference | src/udiskscrypttabmonitor.c:357-464 | as it is for files that are sorted |
| CrypttabMonitor.RemovalsComeFirst | src/udiskscrypttabmonitor.c:357-464 | of the signals of one ensure the removals come first, and earlier signals stay |
| CrypttabMonitor.AppendedLineSignalsDifference | src/udiskscrypttabmonitor.c:357-464 | and for a file in any order with one line appended, if and only if the new entry leads the old ones |
| CrypttabMonitor.Monitor.GetEntries | src/udiskscrypttabmonitor.c:466-488 | what is returned is the cache after its own ensure and those of any number of other threads before the copy |
| CrypttabMonitor.EnsureIsFaithful | src/udiskscrypttabmonitor.c:357-464 | every ensure keeps a replay of all signals equal to the cache, even when checksums collide |
| CrypttabMonitor.CacheAndSignalsAgree | src/udiskscrypttabmonitor.c:357-464 | in every run a replay of the signals never removes an absent entry and gives the cache, and the cache is the parse of the last contents read, if equal checksums mean equal contents |
| CrypttabMonitor.EntriesAreOfTheLastRead | src/udiskscrypttabmonitor.c:466-488 | a call gets the entries of the last contents read by itself or by another thread before the copy, never older ones when its own read succeeded |
| Forests.WalkIsPostOrder | src/udiskslinuxblock.c:2621-2691 | the walk visits every block at or below the start exactly once, children before parents, the start last, and marks exactly the childless ones as leaves |
| Forests.VisitedOnceExactly | src/udiskslinuxblock.c:2621-2691 | given only that the recursion ends, no block is visited twice if and only if none below the start is a child of two blocks there or twice of one |
| DeviceTree.ChildrenExact | src/udiskslinuxblock.c:2584-2680 | the partitions and the cleartext device the walk finds are exactly the blocks directly below |
| DeviceTree.DevicesFormAForest | src/udiskslinuxblock.c:2584-2691 | acyclic tables and backing devices with one container and one cleartext device each form a forest, so the recursion ends |
| DeviceTree.EncryptedDiskIsWellFormed | src/udiskslinuxblock.c:2584-2691 | a disk with an unlocked partition meets the device hypotheses, and its tree is disk, partition, cleartext device |
| DeviceTree.DevicesAreVisitedOnce | src/udiskslinuxblock.c:2584-2691 | the walk visits no block twice if and only if it meets none both as a partition and as a cleartext device |
| DeviceTree.TwoRolesAreVisitedTwice | src/udiskslinuxblock.c:2621-2691 | a partition of a disk that is the cleartext device of another is visited under both |
| DeviceTree.TwoRolesMayLoop | src/udiskslinuxblock.c:2621-2691 | an extended partition that is the cleartext device of one of its logical ones has a walk without any measure |
| ConfigFiles.EditorsAreExact | src/udiskslinuxblock.c:2693-2726 | removing an item with either editor takes exactly that item out, or nothing when it fails: for clean files in which every line has a token, and for clean files with blank lines when no buffer spells the item there |
| ConfigRemovals.FstabRemovalSucceedsExactly | src/udiskslinuxblock.c:2693-2726 | an fstab item is removed exactly when the file can be read and written and lists it |
| ConfigRemovals.CrypttabRemovalSucceedsExactly | src/udiskslinuxblock.c:2693-2726 | a crypttab item is removed from a file without blank lines exactly when the file can be read and written and lists it, and its passphrase file, if it has one that is not below /dev, can be deleted |
| ConfigRemovals.ItemsAreDictionaries | src/udiskslinuxblock.c:2693-2726 | removing an item does what the editor does when called with the dictionary of that item |
| Teardown.Walker.WalkBlock | src/udiskslinuxblock.c:2621-2691 | the recursive walk, with devices vanishing as they are locked, does what visiting the post-order of the original tree does, up to the first failure |
| Teardown.Walker.TeardownBlock | src/udiskslinuxblock.c:2733-2772 | one visit: lock an unlocked device or remove the child configuration of a locked one, then the own configuration; a visit that fails has taken out nothing if the lock failed, and nothing of its own before all of the child configuration |
| Teardown.Walker.RemoveConfiguration | src/udiskslinuxblock.c:2693-2726 | items are removed in order up to the first failure |
| Teardown.Walker.Teardown | src/udiskslinuxblock.c:2774-2787 | after a success no encrypted block of the tree has an exported cleartext device and the files list the old items minus those of every visited block; after a failure minus exactly the items removed before it, which are all those of the blocks before the one where it failed, and none of that one if it could not be locked |
| Teardown.RunRemoves | src/udiskslinuxblock.c:2693-2772 | a run over any list of blocks visits a prefix and removes a prefix of their items, everything when it succeeds |
| Teardown.VisitCutShort | src/udiskslinuxblock.c:2746-2772 | a visit fails because the lock did, with nothing taken out, or because the first item not taken out could not be |
| Teardown.FailedLockKeepsConfiguration | src/udiskslinuxblock.c:2746-2772 | in any run the cleartext devices gone are exactly those of the devices visited whose lock made them vanish, and a failed run stops at the last one; if that could not be locked its own configuration is all there |
| Teardown.TeardownOutcome | src/udiskslinuxblock.c:2733-2787 | the same end result for any way of removing items that is exact |
| Teardown.ChildConfigurationIsGone | src/udiskslinuxencrypted.c:150-158 | after a successful teardown no listed crypttab entry is found any more for the UUID of a locked device in the tree, if its child configuration is what the search for that UUID gave |
| Teardown.TrackedEntriesAreGone | src/udiskslinuxblock.c:814-831 | so no entry is left that tracking has written for that UUID |
| Teardown.TeardownByTheEditors | src/udiskslinuxblock.c:2693-2787 | and for the two editors themselves: visits, items, and every encrypted block of the tree without a cleartext device |
| SecureErase.DriveAta.SecureEraseSync | src/udiskslinuxdriveata.c:2172-2509 | the call from start to end sends exactly one session of commands, clears its flag and closes the device on every way out, and touches nothing when it is refused |
| SecureErase.SessionGrammar | src/udiskslinuxdriveata.c:2263-2465 | SET PASSWORD only after the checks, ERASE UNIT right after a successful ERASE PREPARE and always then, DISABLE PASSWORD exactly when SET PASSWORD succeeded and ERASE UNIT did not |
| SecureErase.PasswordIsSetExactly | src/udiskslinuxdriveata.c:2263-2350 | SET PASSWORD is sent exactly to a drive that identifies itself as supporting security in both words, not frozen, and able to do an enhanced erase if that is asked for; any other only gets the IDENTIFY |
| SecureErase.SessionEffect | src/udiskslinuxdriveata.c:2263-2500 | from any drive state, success leaves the drive erased with security off, and a failure leaves a password behind exactly when one was set and its removal failed |
| SecureErase.StepKeepsInv | src/udiskslinuxdriveata.c:2234-2504 | every step of every thread keeps the exclusion and the commands sent so far in order |
| SecureErase.EntryExactly | src/udiskslinuxdriveata.c:2203-2255 | a call goes on exactly when it sees the flag down and then gets the device exclusively; otherwise it ends without a trace |
| SecureErase.EveryStepMovesOn | src/udiskslinuxdriveata.c:2172-2509 | whatever the others do, every call comes closer to its end with each of its steps |
| SecureErase.ExclusionInEveryRun | src/udiskslinuxdriveata.c:2234-2504 | in every interleaving at most one call is past the open, the flag is up only while that call holds the device, and a call clears only the flag it set |
| SecureErase.DriveInEveryRun | src/udiskslinuxdriveata.c:2263-2504 | in every interleaving of erase calls these send whole sessions one after the other, and with nobody else sending the drive has been erased with security off when a successful call is about to close |
| DriveReaders.ReadersGoUnnoticed | src/udiskslinuxdriveata.c:622-660 | with any number of SMART refreshes and power queries in between, the erase calls run and send as without them |
| DriveReaders.SilentExactlyWhenQuiet | src/udiskslinuxdriveata.c:1550-1580 | from a state with the flag up, no reader is heard until it comes down, under any schedule, if and only if none is between its look at the flag and its last command |
| DriveReaders.EraseUnitIsAccepted | src/udiskslinuxdriveata.c:2252-2482 | in every run in which the flag only goes up at such moments, the drive hears each ERASE UNIT right after a successful ERASE PREPARE |
| DriveReaders.LateReaderSpoilsErase | src/udiskslinuxdriveata.c:622-660 | a reader that is late can send between the two, and then the drive refuses |
| DriveReaders.ReaderMayBeLate | src/udiskslinuxdriveata.c:622-660 | such a run exists, with one call that would go well and one reader |
| SelfTest.StepKeepsInv | src/udiskslinuxdriveata.c:978-1314 | every step of start, abort and job threads keeps `selftest_job` equal to the one live job |
| SelfTest.OneJobInEveryRun | src/udiskslinuxdriveata.c:1254-1306 | in every interleaving at most one job is live and `selftest_job` is set exactly from its launch to its own clear, although start drops the lock between check and launch |
| SelfTest.CallsTakeEffect | src/udiskslinuxdriveata.c:1045-1306 | in every interleaving a start that was not refused leaves a job behind when it releases the lock, an abort leaves none that would go on polling, and a job that wakes up goes to its end exactly when it was cancelled |
| SelfTest.CallsGoOnExactly | src/udiskslinuxdriveata.c:1020-1306 | starts and aborts go on exactly when their commands succeed, a job as long as its test is in progress, and each of them gets the lock when it is free |
| SelfTest.StartsExactly | src/udiskslinuxdriveata.c:1254-1306 | a start sends its command exactly when it sees no job, and launches one exactly when there is none by then |
| SelfTest.LogIsBracketed | src/udiskslinuxdriveata.c:1045-1194 | every clear follows the launch of the same job with nothing but cancels of it in between, and every cancel hits a live job |
| LockDiscipline.HandlersAreDisciplined | src/udiskslinuxencrypted.c:603-646 | whichever step of an unlock, lock or format fails: one encrypted lock at a time, none held during a wait, hints put back under the lock, every lock released |
| LockDiscipline.LocksBalance | src/udiskslinuxblock.c:3188-3263 | a disciplined run releases every lock exactly as often as it takes it |
| LockDiscipline.UnlockDoes | src/udiskslinuxencrypted.c:339-689 | an unlock sets the hint and runs the job exactly when all is ready, waits exactly when the job went well, and puts the hint back exactly when it did not |
| LockDiscipline.HintsSurroundTheJob | src/udiskslinuxencrypted.c:603-646 | the hint is set before the job and put back after it |
| LockDiscipline.LocksAndLuksDo | src/udiskslinuxblock.c:3145-3290 | locking runs its job and waits, and creating a LUKS device goes on to open it, exactly when what comes before went well |
| LockDiscipline.CleanupComesFirst | src/udiskslinuxencrypted.c:885-916 | locking and formatting take the cleanup lock exactly of an exported object, and first |
| LockDiscipline.TeardownDoes | src/udiskslinuxblock.c:2733-2772 | each device that is to be locked in a teardown gets its job and, if that went well, its wait |
| LockDiscipline.FormatDoes | src/udiskslinuxblock.c:3545-3800 | a format waits for its wipe, runs the LUKS job if one is asked for, and waits for the contents on the device they are made on |
| LockDiscipline.Encrypted.HandleUnlock | src/udiskslinuxencrypted.c:339-689 | the locks, hint changes and waits of an unlock in their order, and its one reply, a success exactly when the job and the wait went well: the hint is set before the encrypted lock is taken and put back under it when the job fails |
| LockDiscipline.Encrypted.EncryptedLock | src/udiskslinuxencrypted.c:693-882 | the locks and waits of locking a device, and its result |
| LockDiscipline.Encrypted.HandleLock | src/udiskslinuxencrypted.c:885-916 | the same inside the cleanup lock, with one reply that tells that result |
| LockSystem.CallsAreInitial | src/udiskslinuxencrypted.c:339-916 | any mix of unlock, lock and format calls on any blocks is a system the following statements are about |
| LockSystem.StepKeepsInv | src/udiskslinuxencrypted.c:221-244 | every step of a handler, the uevent thread or the kernel keeps the locks as their owners see them |
| LockSystem.WaitersHoldNoEncryptedLock | src/udiskslinuxencrypted.c:823-866 | in every reachable state a handler that waits, or asks for an encrypted lock, holds none, and one that is done holds nothing |
| LockSystem.SomethingMoves | src/udiskslinuxencrypted.c:221-244 | deadlock freedom: unless everything is finished, a handler or the uevent thread can move |
| LockSystem.RunsAreBounded | src/udiskslinuxencrypted.c:221-244 | the length of a run is bounded by the work left and the uevents the kernel sends |
| LockSystem.EveryRunFinishes | src/udiskslinuxencrypted.c:221-244 | however the threads are scheduled, a run that cannot go on has finished every handler and every update |
| LockSystem.WaiterIsServed | src/udiskslinuxencrypted.c:603-646 | once nobody but a waiting handler can move, its wait is over, and the others get there in a bounded number of steps |
| LockSystem.WaitOutlastsTheUpdate | src/udiskslinuxencrypted.c:603-646 | after a successful job, the wait for the device it makes appear or vanish is over only when that device has been updated |
| LockSystem.WaitingUnderTheLockDeadlocks | src/udiskslinuxencrypted.c:634-646 | why the lock is dropped before the wait: a handler that keeps it runs up to its wait, and then nothing can move |
| Formatting.Formatter.Handle | src/udiskslinuxblock.c:3398-3810 | the whole format: exactly one reply on every way out, a success exactly when all went well, or all up to the early completion; exactly the steps described below, none but checks unless every check has passed, and locks that follow the discipline |
| Formatting.Formatter.FormatCreateLuks | src/udiskslinuxblock.c:3145-3290 | the locks and waits of creating and opening a LUKS device, and when it succeeds |
| Formatting.Formatter.Conclude | src/udiskslinuxblock.c:2885-2894 | a failed step is answered once, or only logged when the call has completed early, and nothing follows it |
| Formatting.StepIsAttempted | src/udiskslinuxblock.c:3442-3810 | a step is attempted exactly when it is asked for and every step asked for before it in the order has succeeded |
| Formatting.StepsAreInOrder | src/udiskslinuxblock.c:3442-3810 | steps are attempted at most once and only in the one order: checks, teardown, wipe, dry run, encryption, erase, contents, labels, wait, ownership, configuration |
| Formatting.NothingBeforeTheChecks | src/udiskslinuxblock.c:3478-3612 | whatever the request, nothing is torn down or written unless the refusal of hybrid partitions, the caller, the pre-checks and the authorization have all passed; nothing is made before the wipe, nor before a dry run or the encryption that was asked for |
| Formatting.ChecksAreAttempted | src/udiskslinuxblock.c:3442-3566 | each check, the teardown and the wipe are attempted exactly when the request asks for them, or always, and everything before succeeded, by the fields of the request |
| Formatting.ContentsAreAttempted | src/udiskslinuxblock.c:3568-3697 | the same for the dry run, the encryption, the early completion, the erase and what makes the contents |
| Formatting.FinishIsAttempted | src/udiskslinuxblock.c:3698-3800 | the same for the UUID, the partition type, the wait that every call makes, the ownership and the configuration |
| Formatting.ReplyExactly | src/udiskslinuxblock.c:3398-3810 | the reply is a success exactly when everything the request asks for, or everything before its early completion, has succeeded |
| Formatting.LockingExactly | src/udiskslinuxblock.c:3398-3810 | which locks and waits there are, by the fields of the request |
| Waiting.Waiter.WaitForObjects | src/udisksdaemon.c:1414-1502 | the result, the error and the references: exactly the reference returned is added, and the user data is freed once |
| Waiting.Waiter.WaitForObject | src/udisksdaemon.c:1523-1540 | what is returned is the object the first check that finds one finds, if any check allowed does; an error is set exactly when none did and the time-out is not zero |
| Waiting.Waiter.WaitToDisappear | src/udisksdaemon.c:1596-1617 | no reference is left, and an error is set exactly when the object is still there and the time-out is not zero |
| Waiting.LastCheckSettles | src/udisksdaemon.c:1434-1487 | the wait ends with the first check that finds what is waited for, if any check allowed does |
| Waiting.StillThereWithoutTimeout | src/udisksdaemon.c:1596-1617 | an object that stays, waited for with a time-out of zero |
| BlockInterfaces.BlockObject.UpdateIface | src/udiskslinuxblockobject.c:425-478 | an interface is created, updated and exported, or removed, as its check says |
| BlockInterfaces.BlockObject.UpdateModules | src/udiskslinuxblockobject.c:926-970 | the loops over modules and their types keep the table and the exported interfaces in step |
| BlockInterfaces.BlockObject.Uevent | src/udiskslinuxblockobject.c:889-971 | a uevent leaves the state in which every check is answered by that same state |
| BlockInterfaces.RewriteKeepsChecks | src/udiskslinuxencrypted.c:233-238 | rewriting the id type to TCRYPT, after most checks have been made, changes none of their answers |
| BlockInterfaces.ExportsWhatTheChecksSay | src/udiskslinuxblockobject.c:889-971 | after any run with a uevent in it, whatever hints were set since, exported are exactly the interfaces whose check holds for the last uevent and those in the module table |
| BlockInterfaces.ExportedByDevice | src/udiskslinuxblockobject.c:541-885 | which of the loop, partition, partition table and NVMe namespace interfaces are exported after a uevent, by the device alone |
| BlockInterfaces.ExportedByContents | src/udiskslinuxblockobject.c:541-885 | the same for file systems, swap spaces and encrypted devices: contents that look encrypted are exported as nothing else unless mounted or in a drive that does not detect media changes |
| BlockInterfaces.HintsDoNotChangeExports | src/udiskslinuxencrypted.c:221-244 | over every run, leaving out all hint changes gives the same exported interfaces, and differs at most in the hint and in whether unknown encrypted contents are called TCRYPT |
| BlockInterfaces.HintShowsAtTheNextUevent | src/udiskslinuxencrypted.c:233-238 | the next uevent renames unknown encrypted contents exactly when the hint says TCRYPT and the block was exported as encrypted |
| BlockInterfaces.FilesystemAndPartitionTable | src/udiskslinuxblockobject.c:541-704 | a whole disk is exported as both exactly when it looks like a partition table and its drive does not detect media changes or it is mounted |
| BlockInterfaces.ReprocessingChangesNothing | src/udiskslinuxblockobject.c:889-971 | processing the same uevent again changes nothing if and only if no flipping module type is listed an odd number of times |
| BlockInterfaces.FlippingTypeNeverSettles | src/udiskslinuxblockobject.c:926-970 | one type that is always wanted and unwanted is exported after every other uevent |
| DriveDevices.DriveObject.FindLink | src/udiskslinuxdriveobject.c:702-720 | the search finds the first device with the path |
| DriveDevices.DriveObject.ProcessUevent | src/udiskslinuxdriveobject.c:730-779 | the list after a uevent, without a device or for an absent path included, and when a warning is logged |
| DriveDevices.ListIsAnOrderedMap | src/udiskslinuxdriveobject.c:744-779 | over every run no path appears twice, the device of a path is the latest, exactly the removed paths are gone, and the order is that of arrival, which a replacement keeps |
| DriveDevices.ListIsDetermined | src/udiskslinuxdriveobject.c:744-779 | no other list is described by that |
| SortKeys.AppendFixedupSd | src/udiskslinuxdrive.c:714-736 | the two loops pad the name with underscores to five letters; other names give no key |
| SortKeys.LinuxDrive.UpdateSortKey | src/udiskslinuxdrive.c:1001-1042 | the key is calculated once, from the group and the name or the time |
| SortKeys.KeysAreInOrder | src/udiskslinuxdrive.c:714-736 | for any width, comparing bytes is comparing numbers in bijective base 26 exactly for suffixes of one length or a padded shorter one |
| SortKeys.LongerComesFirst | src/udiskslinuxdrive.c:714-736 | for any two different lengths not below the width, there are disks whose keys are in the wrong order |
| SortKeys.DisksAreInOrder | src/udiskslinuxdrive.c:1001-1042 | so two `sd` disks of a group are sorted by number |
| SortKeys.GroupsAreInOrder | src/udiskslinuxdrive.c:1001-1042 | fixed disks come before floppies, these before optical drives, these before other removable ones, and drives plugged in later come last |
| SortKeys.DrivesAreInOrder | src/udiskslinuxdrive.c:1001-1042 | so by their names `fd` drives come before `sr` drives before other removable ones, all of them behind fixed drives, and drives plugged in later come last |
| SortKeys.TimesAreInOrder | src/udiskslinuxdrive.c:1037-1040 | comparing printed times of detection is comparing the times exactly for the same number of digits |
| SortKeys.NinesComeLast | src/udiskslinuxdrive.c:1037-1040 | for any two different numbers of digits there are times in the wrong order |
| SortKeys.HotpluggedAreInOrder | src/udiskslinuxdrive.c:1037-1040 | so two hotplugged drives are sorted by time when their times have the same number of digits |
| Estimator.BaseJob.SetAutoEstimate | src/udisksbasejob.c:533-565 | switching the estimate off and on again keeps the samples |
| Estimator.BaseJob.AddSample | src/udisksbasejob.c:478-489 | the buffer always holds the last hundred reports, or all of them |
| Estimator.BaseJob.OnNotifyProgress | src/udisksbasejob.c:461-524 | nothing is estimated before the fifth report; then rate and end time follow from the average speed over the window |
| Estimator.AverageIsBetweenExtremes | src/udisksbasejob.c:498-508 | the average speed lies between the lowest and the highest speed of an interval |
| Estimator.AverageExists | src/udisksbasejob.c:498-508 | there is an average exactly when no two successive reports carry the same time |
| Estimator.RisingLineIsExact | src/udisksbasejob.c:498-521 | reports on a rising line give its slope, and the end time is the moment it reaches one without the fraction |
| Estimator.EvenJobHasItsRate | src/udisksbasejob.c:498-512 | a job of even progress that would take so many seconds for all its bytes is estimated at bytes by seconds, without the fraction |

## Left out

- D-Bus, GObject, properties and signal registration: library plumbing.
- Authorization: only "passed" or "replied with an error".
- libblockdev, libmount, kernel ioctls, udev: each call is an outcome and a stated effect.
- The listing of fstab entries through libmount: its parser is not part of this model, so the fstab statements are about the printer and the matcher in the editor.
- ATA command blocks, and the ATA commands other than the ones a secure erase and a self-test send.
- `sscanf` on numbers: the conversion is modelled as a 64-bit `strtol` that saturates and is then cut to 32 bits.
- Configuration items of a type other than fstab and crypttab: the code ignores them.
- The reading of passphrase files for a listing with secrets: only the names of the files and what they hold after an edit.
- The NUL that ends the option string while it is edited in place: the buffer is an array with a length.
- UUIDs that contain a comma: the statements about tracked options assume there are none.
- What an update that meets a hint of an unlock still under way writes: LockSystem records when hints change, not what the updates make of them.
- Options that become empty once `x-parent=` is removed: no claim beyond what the editor writes.
- Two names of one file: passphrase paths are compared as texts, so links and `..` in the middle of a path are not followed.
- Commands of callers that never look at the busy flag of a drive.
- Times of detection before 1970: they are natural numbers of microseconds.
- Configuration of a block changing while its teardown is going on: each visit reads the configuration known at the start.
- ConfigFiles.EditorsAreExact: assumes lines without CR, VT or FF and tokens of at most 511 bytes, and, because of the blank-line finding above, that every line has a token or that no buffer ever spells an item that is to be removed.
- CrypttabEditor.RemoveListedItem: states the outcome when /etc/crypttab itself can be read and written; the other failures are in the contract of the editor.
- Estimator.BaseJob.OnNotifyProgress: uses exact reals instead of floating point; divisions by zero and conversions that do not fit are an explicit "undefined".
- LockSystem.WaiterIsServed: the time-out of a wait is not used, so a wait ends only because what it waits for is processed.
- Which uevents a job causes: a successful one posts one for its own block and one for the device waited for, and the kernel may post one for any block at any time; each is processed as an update of an encrypted device.
- LockDiscipline.Encrypted.HandleUnlock: leaves out which passphrase or key is used and the check against crypttab; they decide only whether the job is reached.
- Formatting.Formatter.Handle: leaves out the uevents triggered after the contents are made and the state files; they send no reply and take none of the two locks.
- Device identity behind `udisks_linux_block_object_get_device`, secure-erase progress reports and the BSD lock beyond its bounded retries.
- SortKeys.KeysAreInOrder: suffixes of lower-case letters only, as the kernel names `sd` disks.
- DriveDevices.DriveObject.ProcessUevent: the interface updates that follow the list update are not modelled; they have the form proved for block objects.
