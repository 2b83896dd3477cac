/** The crypttab monitor: the entry order, the list diff that drives the added and removed
    signals, and the checksum-keyed cache. */
module CrypttabMonitor {
  import opened OptionType
  import opened Sequences
  import opened Bytes
  import opened Tokens
  import opened LineEditing
  import opened CrypttabText

  // ----- the order -----

  /** `g_strcmp0`: NULL sorts before every string. */
  function StrCmp0(a: Option<Text>, b: Option<Text>): int
  {
    match (a, b)
    case (None, None) => 0
    case (None, Some(_)) => -1
    case (Some(_), None) => 1
    case (Some(x), Some(y)) => StrCmp(x, y)
  }

  /** udisks_crypttab_entry_compare. */
  function Compare(entry: CrypttabEntry, other: CrypttabEntry): int
  {
    var name := StrCmp0(Some(other.name), Some(entry.name));
    if name != 0 then name else
      var device := StrCmp0(Some(other.device), Some(entry.device));
      if device != 0 then device else
        var path := StrCmp0(other.passphrasePath, entry.passphrasePath);
        if path != 0 then path else
          StrCmp0(other.options, entry.options)
  }

  /** Entries are in falling order of names; only for equal names do the devices count, and only then
      the paths and the options. */
  lemma {:induction false} NamesComeFirst(a: CrypttabEntry, b: CrypttabEntry)
    ensures StrCmp(a.name, b.name) > 0 ==> Compare(a, b) < 0
    ensures a.name == b.name && StrCmp(a.device, b.device) > 0 ==> Compare(a, b) < 0
    ensures a.name == b.name && a.device == b.device && a.passphrasePath.Some? && b.passphrasePath.None? ==>
              Compare(a, b) < 0
    ensures a == b.(options := a.options) && a.options.Some? && b.options.None? ==> Compare(a, b) < 0
  {
    StrCmpOrder(a.name, b.name);
    StrCmpOrder(a.device, b.device);
    if a.passphrasePath.Some? && b.passphrasePath.Some? {
      StrCmpOrder(a.passphrasePath.value, b.passphrasePath.value);
    }
  }

  lemma {:induction false} StrCmpOrder(a: Text, b: Text)
    ensures StrCmp(a, b) == 0 <==> a == b
    ensures StrCmp(a, b) == -StrCmp(b, a)
  {
    if a != [] && b != [] {
      StrCmpOrder(a[1..], b[1..]);
      assert a == [a[0]] + a[1..] && b == [b[0]] + b[1..];
    }
  }

  lemma {:induction false} StrCmpTransitive(a: Text, b: Text, c: Text)
    ensures StrCmp(a, b) <= 0 && StrCmp(b, c) <= 0 ==> StrCmp(a, c) <= 0
    ensures StrCmp(a, b) <= 0 && StrCmp(b, c) <= 0 && StrCmp(a, c) == 0 ==> StrCmp(a, b) == 0
  {
    if a != [] && b != [] && c != [] {
      StrCmpTransitive(a[1..], b[1..], c[1..]);
    }
  }

  lemma {:induction false} StrCmp0Order(a: Option<Text>, b: Option<Text>, c: Option<Text>)
    ensures StrCmp0(a, b) == 0 <==> a == b
    ensures StrCmp0(a, b) == -StrCmp0(b, a)
    ensures StrCmp0(a, b) <= 0 && StrCmp0(b, c) <= 0 ==> StrCmp0(a, c) <= 0
    ensures StrCmp0(a, b) <= 0 && StrCmp0(b, c) <= 0 && StrCmp0(a, c) == 0 ==> StrCmp0(a, b) == 0
  {
    if a.Some? && b.Some? {
      StrCmpOrder(a.value, b.value);
      if c.Some? {
        StrCmpTransitive(a.value, b.value, c.value);
      }
    }
  }

  /** The comparator is a total order whose zero is equality of all four fields. */
  lemma {:induction false} CompareIsTotalOrder(a: CrypttabEntry, b: CrypttabEntry, c: CrypttabEntry)
    ensures Compare(a, b) == 0 <==> a == b
    ensures Compare(a, b) == -Compare(b, a)
    ensures Compare(a, b) <= 0 && Compare(b, c) <= 0 ==> Compare(a, c) <= 0
  {
    StrCmp0Order(Some(c.name), Some(b.name), Some(a.name));
    StrCmp0Order(Some(b.name), Some(a.name), None);
    StrCmp0Order(Some(c.name), Some(a.name), None);
    StrCmp0Order(Some(c.device), Some(b.device), Some(a.device));
    StrCmp0Order(Some(b.device), Some(a.device), None);
    StrCmp0Order(Some(c.device), Some(a.device), None);
    StrCmp0Order(c.passphrasePath, b.passphrasePath, a.passphrasePath);
    StrCmp0Order(b.passphrasePath, a.passphrasePath, None);
    StrCmp0Order(c.passphrasePath, a.passphrasePath, None);
    StrCmp0Order(c.options, b.options, a.options);
    StrCmp0Order(b.options, a.options, None);
    StrCmp0Order(c.options, a.options, None);
  }

  // ----- the diff -----

  /** diff_sorted_lists: what is left over on either side, prepended as it is met. */
  function Diff(list1: seq<CrypttabEntry>, list2: seq<CrypttabEntry>): (r: (seq<CrypttabEntry>, seq<CrypttabEntry>))
  {
    if list1 == [] then ([], list2)
    else if list2 == [] then (list1, [])
    else
      var order := Compare(list1[0], list2[0]);
      if order < 0 then
        var r := Diff(list1[1..], list2); ([list1[0]] + r.0, r.1)
      else if order > 0 then
        var r := Diff(list1, list2[1..]); (r.0, [list2[0]] + r.1)
      else Diff(list1[1..], list2[1..])
  }

  function Reverse<T>(s: seq<T>): (r: seq<T>)
    ensures |r| == |s|
  {
    if s == [] then [] else Reverse(s[1..]) + [s[0]]
  }

  lemma {:induction false} ReverseMultiset<T>(s: seq<T>)
    ensures multiset(Reverse(s)) == multiset(s)
  {
    if s != [] {
      ReverseMultiset(s[1..]);
      assert s == [s[0]] + s[1..];
    }
  }

  lemma {:induction false} ReverseCons<T>(x: T, s: seq<T>, tail: seq<T>)
    ensures Reverse([x] + s) + tail == Reverse(s) + ([x] + tail)
  {
    assert ([x] + s)[1..] == s;
    Assoc(Reverse(s), [x], tail);
  }

  /** The loop. `removed` and `added` come out in reverse order of discovery. */
  method DiffSortedLists(list1: seq<CrypttabEntry>, list2: seq<CrypttabEntry>)
    returns (added: seq<CrypttabEntry>, removed: seq<CrypttabEntry>)
    ensures removed == Reverse(Diff(list1, list2).0) && added == Reverse(Diff(list1, list2).1)
  {
    added, removed := [], [];
    var l1, l2 := list1, list2;
    assert forall s: seq<CrypttabEntry> :: s + [] == s;
    while l1 != [] && l2 != []
      invariant Reverse(Diff(l1, l2).0) + removed == Reverse(Diff(list1, list2).0)
      invariant Reverse(Diff(l1, l2).1) + added == Reverse(Diff(list1, list2).1)
      decreases |l1| + |l2|
    {
      var order := Compare(l1[0], l2[0]);
      if order < 0 {
        ReverseCons(l1[0], Diff(l1[1..], l2).0, removed);
        removed := [l1[0]] + removed;
        l1 := l1[1..];
      } else if order > 0 {
        ReverseCons(l2[0], Diff(l1, l2[1..]).1, added);
        added := [l2[0]] + added;
        l2 := l2[1..];
      } else {
        l1, l2 := l1[1..], l2[1..];
      }
    }
    removed := PrependAll(l1, removed);
    added := PrependAll(l2, added);
  }

  method PrependAll(list: seq<CrypttabEntry>, start: seq<CrypttabEntry>) returns (r: seq<CrypttabEntry>)
    ensures r == Reverse(list) + start
  {
    r := start;
    var l := list;
    while l != []
      invariant Reverse(l) + r == Reverse(list) + start
      decreases |l|
    {
      assert [l[0]] + l[1..] == l;
      ReverseCons(l[0], l[1..], r);
      r := [l[0]] + r;
      l := l[1..];
    }
  }

  /** Taking `removed` out of the first list and putting `added` in gives the second. */
  ghost predicate Conserves(list1: seq<CrypttabEntry>, list2: seq<CrypttabEntry>,
                            removed: seq<CrypttabEntry>, added: seq<CrypttabEntry>)
  {
    && multiset(removed) <= multiset(list1)
    && multiset(list1) - multiset(removed) + multiset(added) == multiset(list2)
  }

  lemma {:induction false} ConservesRemoved(x: CrypttabEntry, xs: seq<CrypttabEntry>, list2: seq<CrypttabEntry>,
                                            removed: seq<CrypttabEntry>, added: seq<CrypttabEntry>)
    requires Conserves(xs, list2, removed, added)
    ensures Conserves([x] + xs, list2, [x] + removed, added)
  {
    var a, r, b := multiset(xs), multiset(removed), multiset(added);
    assert multiset([x] + xs) == multiset{x} + a && multiset([x] + removed) == multiset{x} + r;
    assert (multiset{x} + a) - (multiset{x} + r) == a - r;
  }

  lemma {:induction false} ConservesAdded(list1: seq<CrypttabEntry>, y: CrypttabEntry, ys: seq<CrypttabEntry>,
                                          removed: seq<CrypttabEntry>, added: seq<CrypttabEntry>)
    requires Conserves(list1, ys, removed, added)
    ensures Conserves(list1, [y] + ys, removed, [y] + added)
  {
    assert multiset([y] + ys) == multiset{y} + multiset(ys) && multiset([y] + added) == multiset{y} + multiset(added);
  }

  lemma {:induction false} ConservesKept(x: CrypttabEntry, xs: seq<CrypttabEntry>, ys: seq<CrypttabEntry>,
                                         removed: seq<CrypttabEntry>, added: seq<CrypttabEntry>)
    requires Conserves(xs, ys, removed, added)
    ensures Conserves([x] + xs, [x] + ys, removed, added)
  {
    var a, r := multiset(xs), multiset(removed);
    assert multiset([x] + xs) == multiset{x} + a && multiset([x] + ys) == multiset{x} + multiset(ys);
    assert (multiset{x} + a) - r == multiset{x} + (a - r);
  }

  /** For any two lists, sorted or not: the old entries without the removed ones and with the
      added ones are the new entries, and everything removed was there. */
  lemma {:induction false} DiffConserves(list1: seq<CrypttabEntry>, list2: seq<CrypttabEntry>)
    ensures Conserves(list1, list2, Diff(list1, list2).0, Diff(list1, list2).1)
  {
    if list1 != [] && list2 != [] {
      var x, y, xs, ys := list1[0], list2[0], list1[1..], list2[1..];
      assert list1 == [x] + xs && list2 == [y] + ys;
      CompareIsTotalOrder(x, y, y);
      if Compare(x, y) < 0 {
        DiffConserves(xs, list2);
        ConservesRemoved(x, xs, list2, Diff(xs, list2).0, Diff(xs, list2).1);
      } else if Compare(x, y) > 0 {
        DiffConserves(list1, ys);
        ConservesAdded(list1, y, ys, Diff(list1, ys).0, Diff(list1, ys).1);
      } else {
        DiffConserves(xs, ys);
        ConservesKept(x, xs, ys, Diff(xs, ys).0, Diff(xs, ys).1);
      }
    }
  }

  predicate Sorted(list: seq<CrypttabEntry>)
  {
    forall i, j :: 0 <= i < j < |list| ==> Compare(list[i], list[j]) <= 0
  }

  lemma {:induction false} StrictlyBelow(a: CrypttabEntry, b: CrypttabEntry, c: CrypttabEntry)
    requires Compare(a, b) < 0 && Compare(b, c) <= 0
    ensures Compare(a, c) < 0
  {
    CompareIsTotalOrder(a, b, c);
    CompareIsTotalOrder(a, c, b);
  }

  lemma {:induction false} BelowSortedIsAbsent(x: CrypttabEntry, list: seq<CrypttabEntry>)
    requires Sorted(list) && list != [] && Compare(x, list[0]) < 0
    ensures x !in list
  {
    CompareIsTotalOrder(x, x, x);
    CompareIsTotalOrder(list[0], list[0], list[0]);
    forall i | 0 <= i < |list| ensures list[i] != x {
      StrictlyBelow(x, list[0], list[i]);
    }
  }

  lemma SortedTail(list: seq<CrypttabEntry>)
    requires list != [] && Sorted(list)
    ensures Sorted(list[1..])
    ensures multiset(list) == multiset{list[0]} + multiset(list[1..])
  {
    assert list == [list[0]] + list[1..];
  }

  /** `removed` and `added` are what `a` has more than `b` and the other way round. */
  ghost predicate ExactDifference<T>(removed: multiset<T>, added: multiset<T>, a: multiset<T>, b: multiset<T>)
  {
    removed == a - b && added == b - a
  }

  lemma DifferencesAreDisjoint<T>(a: multiset<T>, b: multiset<T>)
    ensures (a - b) !! (b - a)
  {
  }

  lemma ExactWithExtra<T>(x: T, removed: multiset<T>, added: multiset<T>, a: multiset<T>, b: multiset<T>)
    requires ExactDifference(removed, added, a, b) && x !in b
    ensures ExactDifference(multiset{x} + removed, added, multiset{x} + a, b)
    ensures ExactDifference(added, multiset{x} + removed, b, multiset{x} + a)
  {
  }

  lemma ExactWithCommon<T>(x: T, removed: multiset<T>, added: multiset<T>, a: multiset<T>, b: multiset<T>)
    requires ExactDifference(removed, added, a, b)
    ensures ExactDifference(removed, added, multiset{x} + a, multiset{x} + b)
  {
  }

  /** When both lists are sorted by the comparator, the diff is exact: nothing is both removed and
      added, so the two are the multiset differences. */
  lemma {:induction false} DiffOfSortedIsExact(list1: seq<CrypttabEntry>, list2: seq<CrypttabEntry>)
    requires Sorted(list1) && Sorted(list2)
    ensures var (removed, added) := Diff(list1, list2);
            && ExactDifference(multiset(removed), multiset(added), multiset(list1), multiset(list2))
            && multiset(removed) !! multiset(added)
  {
    if list1 != [] && list2 != [] {
      var x, y, xs, ys := list1[0], list2[0], list1[1..], list2[1..];
      SortedTail(list1);
      SortedTail(list2);
      CompareIsTotalOrder(x, y, y);
      if Compare(x, y) < 0 {
        BelowSortedIsAbsent(x, list2);
        DiffOfSortedIsExact(xs, list2);
        var (r, a) := Diff(xs, list2);
        ExactWithExtra(x, multiset(r), multiset(a), multiset(xs), multiset(list2));
      } else if Compare(x, y) > 0 {
        BelowSortedIsAbsent(y, list1);
        DiffOfSortedIsExact(list1, ys);
        var (r, a) := Diff(list1, ys);
        ExactWithExtra(y, multiset(a), multiset(r), multiset(ys), multiset(list1));
      } else {
        DiffOfSortedIsExact(xs, ys);
        var (r, a) := Diff(xs, ys);
        ExactWithCommon(x, multiset(r), multiset(a), multiset(xs), multiset(ys));
      }
    }
    DifferencesAreDisjoint(multiset(list1), multiset(list2));
  }

  // ----- lists that are not sorted -----

  /** The diff of the two lists is exact. */
  ghost predicate ExactDiff(list1: seq<CrypttabEntry>, list2: seq<CrypttabEntry>)
  {
    var (removed, added) := Diff(list1, list2);
    ExactDifference(multiset(removed), multiset(added), multiset(list1), multiset(list2))
  }

  /** Two lines that change places: one of them is signalled as removed and added. */
  lemma {:induction false} ReorderedEntryIsSignalled(a: CrypttabEntry, c: CrypttabEntry)
    requires a != c
    ensures Diff([c, a], [a, c]) == (if Compare(c, a) < 0 then ([c], [c]) else ([a], [a]))
    ensures !ExactDiff([c, a], [a, c])
  {
    CompareIsTotalOrder(c, a, c);
    if Compare(c, a) < 0 {
      FirstIsMoved(c, a);
    } else {
      SecondIsMoved(c, a);
    }
    var both := multiset([c, a]);
    assert both == multiset([a, c]) && both - both == multiset{};
    assert a in multiset([a]) && c in multiset([c]);
  }

  lemma {:induction false} FirstIsMoved(x: CrypttabEntry, y: CrypttabEntry)
    requires Compare(x, y) < 0
    ensures Diff([x, y], [y, x]) == ([x], [x])
  {
    CompareIsTotalOrder(y, y, y);
    assert [x, y][1..] == [y] && [y, x][1..] == [x] && [y][1..] == [];
    DiffStep([x, y], [y, x]);
    DiffStep([y], [y, x]);
    assert Diff([y], [y, x]) == ([], [x]) && [x] + [] == [x];
  }

  lemma {:induction false} SecondIsMoved(x: CrypttabEntry, y: CrypttabEntry)
    requires Compare(x, y) > 0
    ensures Diff([x, y], [y, x]) == ([y], [y])
  {
    CompareIsTotalOrder(x, x, x);
    assert [x, y][1..] == [y] && [y, x][1..] == [x] && [x][1..] == [];
    DiffStep([x, y], [y, x]);
    DiffStep([x, y], [x]);
    assert Diff([x, y], [x]) == ([y], []) && [y] + [] == [y];
  }

  lemma {:induction false} DiffStep(list1: seq<CrypttabEntry>, list2: seq<CrypttabEntry>)
    requires list1 != [] && list2 != []
    ensures Diff(list1, list2) ==
            if Compare(list1[0], list2[0]) < 0 then ([list1[0]] + Diff(list1[1..], list2).0, Diff(list1[1..], list2).1)
            else if Compare(list1[0], list2[0]) > 0 then
              (Diff(list1, list2[1..]).0, [list2[0]] + Diff(list1, list2[1..]).1)
            else Diff(list1[1..], list2[1..])
  {
  }

  lemma {:induction false} DiffOfSameIsEmpty(list: seq<CrypttabEntry>)
    ensures Diff(list, list) == ([], [])
  {
    if list != [] {
      CompareIsTotalOrder(list[0], list[0], list[0]);
      DiffOfSameIsEmpty(list[1..]);
    }
  }

  /** The first entry of the list other than `x` sorts behind it. */
  predicate Leads(x: CrypttabEntry, list: seq<CrypttabEntry>)
  {
    list == [] || (if list[0] == x then Leads(x, list[1..]) else Compare(x, list[0]) < 0)
  }

  lemma {:induction false} ExactWithCommonExactly<T>(x: T, removed: multiset<T>, added: multiset<T>, a: multiset<T>,
                                                     b: multiset<T>)
    ensures ExactDifference(removed, added, multiset{x} + a, multiset{x} + b) <==> ExactDifference(removed, added, a, b)
  {
    assert (multiset{x} + a) - (multiset{x} + b) == a - b && (multiset{x} + b) - (multiset{x} + a) == b - a;
  }

  lemma {:induction false} OneMore(x: CrypttabEntry, list: seq<CrypttabEntry>)
    ensures var a, b := multiset(list), multiset([x] + list);
            b == multiset{x} + a && a - b == multiset{} && b - a == multiset{x}
    ensures ([x] + list)[1..] == list
  {
    assert multiset([x] + list) == multiset{x} + multiset(list);
  }

  lemma {:induction false} BehindFirst(x: CrypttabEntry, list: seq<CrypttabEntry>)
    requires list != [] && Compare(list[0], x) > 0
    ensures ExactDiff(list, [x] + list)
  {
    OneMore(x, list);
    DiffStep(list, [x] + list);
    DiffOfSameIsEmpty(list);
    assert [x] + [] == [x];
  }

  lemma {:induction false} BeforeFirst(x: CrypttabEntry, list: seq<CrypttabEntry>)
    requires list != [] && Compare(list[0], x) < 0
    ensures !ExactDiff(list, [x] + list)
  {
    OneMore(x, list);
    DiffStep(list, [x] + list);
    assert list[0] in multiset(Diff(list, [x] + list).0) by {
      assert Diff(list, [x] + list).0[0] == list[0];
    }
  }

  lemma {:induction false} SameAsFirst(x: CrypttabEntry, list: seq<CrypttabEntry>)
    requires list != [] && list[0] == x
    ensures ExactDiff(list, [x] + list) <==> ExactDiff(list[1..], [x] + list[1..])
  {
    var ys := list[1..];
    assert list == [x] + ys;
    OneMore(x, list);
    OneMore(x, ys);
    CompareIsTotalOrder(x, x, x);
    DiffStep(list, [x] + list);
    ExactWithCommonExactly(x, multiset(Diff(ys, list).0), multiset(Diff(ys, list).1), multiset(ys), multiset(list));
  }

  /** One more entry in front, whatever the order of the others: the diff is exact if and only if
      that entry leads them. */
  lemma {:induction false} NewFirstIsExactly(x: CrypttabEntry, list: seq<CrypttabEntry>)
    ensures ExactDiff(list, [x] + list) <==> Leads(x, list)
  {
    if list == [] {
      OneMore(x, list);
    } else {
      CompareIsTotalOrder(list[0], x, x);
      if list[0] == x {
        SameAsFirst(x, list);
        NewFirstIsExactly(x, list[1..]);
      } else if Compare(list[0], x) < 0 {
        BeforeFirst(x, list);
      } else {
        BehindFirst(x, list);
      }
    }
  }

  // ----- the cache and its signals -----

  datatype Event = EntryRemoved(entry: CrypttabEntry) | EntryAdded(entry: CrypttabEntry)

  /** What a listener that started from nothing holds after a run of signals; `None` when it was
      told to remove an entry it does not have. */
  function Replay(start: multiset<CrypttabEntry>, events: seq<Event>): Option<multiset<CrypttabEntry>>
    decreases |events|
  {
    if events == [] then Some(start) else
      match events[0]
      case EntryRemoved(e) => if e in start then Replay(start - multiset{e}, events[1..]) else None
      case EntryAdded(e) => Replay(start + multiset{e}, events[1..])
  }

  function RemovedEvents(entries: seq<CrypttabEntry>): seq<Event>
  {
    if entries == [] then [] else [EntryRemoved(entries[0])] + RemovedEvents(entries[1..])
  }

  function AddedEvents(entries: seq<CrypttabEntry>): seq<Event>
  {
    if entries == [] then [] else [EntryAdded(entries[0])] + AddedEvents(entries[1..])
  }

  /** The entries of a file, as the monitor lists them: last line first. */
  function Parse(contents: Text): seq<CrypttabEntry>
  {
    Reverse(Collect(LinesOf(contents), MonitorLine))
  }

  datatype MonitorState<C> = MonitorState(entries: seq<CrypttabEntry>, checksum: Option<C>, signals: seq<Event>)

  /** One udisks_crypttab_monitor_ensure; `contents` is `None` when the file cannot be read, be it
      missing or unreadable. */
  function Ensured<C(==)>(s: MonitorState<C>, contents: Option<Text>, sum: Text -> C): MonitorState<C>
  {
    if contents.None? || s.checksum == Some(sum(contents.value)) then s
    else
      var entries := Parse(contents.value);
      var (removed, added) := Diff(s.entries, entries);
      MonitorState(entries, Some(sum(contents.value)),
                   s.signals + (RemovedEvents(Reverse(removed)) + AddedEvents(Reverse(added))))
  }

  /** A run of ensures: what each of them found when it tried to read the file. */
  function EnsuredAll<C(==)>(s: MonitorState<C>, seen: seq<Option<Text>>, sum: Text -> C): MonitorState<C>
  {
    if seen == [] then s
    else Ensured(EnsuredAll(s, seen[..|seen| - 1], sum), seen[|seen| - 1], sum)
  }

  class Monitor<C(==)> {
    var crypttabEntries: seq<CrypttabEntry>
    var crypttabChecksum: Option<C>
    /** The signals queued on the main loop so far, in order. */
    ghost var signals: seq<Event>

    constructor ()
      ensures State() == MonitorState([], None, [])
    {
      crypttabEntries, crypttabChecksum, signals := [], None, [];
    }

    ghost function State(): MonitorState<C>
      reads this
    {
      MonitorState(crypttabEntries, crypttabChecksum, signals)
    }

    /** Runs under the entries mutex, so one call is one step. */
    method Ensure(contents: Option<Text>, sum: Text -> C)
      modifies this
      ensures State() == Ensured(old(State()), contents, sum)
    {
      if contents.None? {
        return;
      }
      var checksum := sum(contents.value);
      if crypttabChecksum == Some(checksum) {
        return;
      }
      var entries := ParseContents(contents.value);
      var added, removed := DiffSortedLists(crypttabEntries, entries);
      signals := signals + (RemovedEvents(removed) + AddedEvents(added));
      crypttabEntries := entries;
      crypttabChecksum := Some(checksum);
    }

    method ParseContents(contents: Text) returns (entries: seq<CrypttabEntry>)
      ensures entries == Parse(contents)
    {
      var lines := Split(CStr(contents), NEWLINE);
      entries := [];
      var n := 0;
      while n < |lines|
        invariant 0 <= n <= |lines|
        invariant entries == Reverse(Collect(lines[..n], MonitorLine))
      {
        var line := lines[n];
        assert lines[..n + 1] == lines[..n] + [line];
        var entry := ParseLine(line);
        CollectSnoc(lines[..n], line);
        if entry.Some? {
          entries := [entry.value] + entries;
        }
        n := n + 1;
      }
      assert lines[..n] == lines;
      LastEmptyLineIsSkipped(contents);
    }

    method ParseLine(line: Text) returns (entry: Option<CrypttabEntry>)
      ensures entry == MonitorLine(line)
    {
      if |line| == 0 || line[0] == HASH {
        return None;
      }
      var tokens := SplitCrypttabLine(line);
      if |tokens| > 1 {
        return Some(CrypttabEntry(tokens[0], tokens[1],
                                  if |tokens| >= 3 then Some(tokens[2]) else None,
                                  if |tokens| >= 4 then Some(tokens[3]) else None));
      }
      return None;
    }

    /** udisks_crypttab_monitor_get_entries: bring the cache up to date, then copy it. In between the
        mutex is free, and `others` is what ensures on other threads read meanwhile. */
    method GetEntries(contents: Option<Text>, others: seq<Option<Text>>, sum: Text -> C) returns (r: seq<CrypttabEntry>)
      modifies this
      ensures State() == EnsuredAll(old(State()), [contents] + others, sum)
      ensures r == crypttabEntries
    {
      Ensure(contents, sum);
      ghost var ensured := State();
      var n := 0;
      while n < |others|
        invariant 0 <= n <= |others|
        invariant State() == EnsuredAll(ensured, others[..n], sum)
      {
        Ensure(others[n], sum);
        EnsuredSnoc(ensured, others, n, sum);
        n := n + 1;
      }
      assert others[..n] == others;
      EnsuredFirst(old(State()), contents, others, sum);
      r := crypttabEntries;
    }
  }

  // ----- what an ensure signals -----

  function Removals(events: seq<Event>): seq<CrypttabEntry>
  {
    if events == [] then []
    else (match events[0] case EntryRemoved(e) => [e] case EntryAdded(_) => []) + Removals(events[1..])
  }

  function Additions(events: seq<Event>): seq<CrypttabEntry>
  {
    if events == [] then []
    else (match events[0] case EntryRemoved(_) => [] case EntryAdded(e) => [e]) + Additions(events[1..])
  }

  lemma {:induction false} OnlyAdditions(added: seq<CrypttabEntry>)
    ensures Removals(AddedEvents(added)) == [] && Additions(AddedEvents(added)) == added
  {
    if added != [] {
      OnlyAdditions(added[1..]);
      assert AddedEvents(added)[1..] == AddedEvents(added[1..]);
    }
  }

  lemma {:induction false} RemovalsThenAdditions(removed: seq<CrypttabEntry>, added: seq<CrypttabEntry>)
    ensures var events := RemovedEvents(removed) + AddedEvents(added);
            Removals(events) == removed && Additions(events) == added
  {
    var events := RemovedEvents(removed) + AddedEvents(added);
    if removed == [] {
      OnlyAdditions(added);
      assert events == AddedEvents(added);
    } else {
      RemovalsThenAdditions(removed[1..], added);
      assert events[1..] == RemovedEvents(removed[1..]) + AddedEvents(added);
    }
  }

  lemma {:induction false} OnlyOneKind(entries: seq<CrypttabEntry>)
    ensures forall i :: 0 <= i < |RemovedEvents(entries)| ==> RemovedEvents(entries)[i].EntryRemoved?
    ensures forall i :: 0 <= i < |AddedEvents(entries)| ==> AddedEvents(entries)[i].EntryAdded?
  {
    if entries != [] {
      OnlyOneKind(entries[1..]);
    }
  }

  /** What is gone is signalled before what is new, and nothing of what was signalled is taken back. */
  lemma {:induction false} RemovalsComeFirst<C>(s: MonitorState<C>, contents: Option<Text>,
                                                sum: Text -> C, i: nat, j: nat)
    ensures s.signals <= Ensured(s, contents, sum).signals
    ensures |s.signals| <= i < j < |Ensured(s, contents, sum).signals| &&
            Ensured(s, contents, sum).signals[j].EntryRemoved? ==>
              Ensured(s, contents, sum).signals[i].EntryRemoved?
  {
    if contents.Some? {
      var (removed, added) := Diff(s.entries, Parse(contents.value));
      OnlyOneKind(Reverse(removed));
      OnlyOneKind(Reverse(added));
    }
  }

  /** The signals sent from one state to the next tell exactly the difference of the entries: none
      that stays is signalled. */
  ghost predicate SignalsDifference<C>(s: MonitorState<C>, s': MonitorState<C>)
  {
    && s.signals <= s'.signals
    && var sent := s'.signals[|s.signals|..];
       ExactDifference(multiset(Removals(sent)), multiset(Additions(sent)), multiset(s.entries), multiset(s'.entries))
  }

  /** An ensure that reads new contents signals the difference if and only if the diff of the lists,
      as they stand in the files, is exact. */
  lemma {:induction false} EnsureSignalsAsTheDiff<C>(s: MonitorState<C>, contents: Text, sum: Text -> C)
    requires s.checksum != Some(sum(contents))
    ensures SignalsDifference(s, Ensured(s, Some(contents), sum)) <==> ExactDiff(s.entries, Parse(contents))
  {
    var (removed, added) := Diff(s.entries, Parse(contents));
    var sent := RemovedEvents(Reverse(removed)) + AddedEvents(Reverse(added));
    RemovalsThenAdditions(Reverse(removed), Reverse(added));
    ReverseMultiset(removed);
    ReverseMultiset(added);
    assert (s.signals + sent)[|s.signals|..] == sent;
  }

  /** So it does when both lists are sorted by the comparator. */
  lemma {:induction false} SortedFilesSignalDifference<C>(s: MonitorState<C>, contents: Text, sum: Text -> C)
    requires s.checksum != Some(sum(contents)) && Sorted(s.entries) && Sorted(Parse(contents))
    ensures SignalsDifference(s, Ensured(s, Some(contents), sum))
  {
    DiffOfSortedIsExact(s.entries, Parse(contents));
    EnsureSignalsAsTheDiff(s, contents, sum);
  }

  /** And for a file in any order to which one line is appended, as the editor does: if and only if the
      new entry leads the old ones, which the monitor lists last line first. */
  lemma {:induction false} AppendedLineSignalsDifference<C>(s: MonitorState<C>, text: Text, line: Text,
                                                            x: CrypttabEntry, sum: Text -> C)
    requires s.entries == Parse(text) && NEWLINE !in line && NUL !in line && MonitorLine(line) == Some(x)
    requires s.checksum != Some(sum(Rewritten(text, |LinesOf(text)|, [line])))
    ensures SignalsDifference(s, Ensured(s, Some(Rewritten(text, |LinesOf(text)|, [line])), sum)) <==>
            Leads(x, Parse(text))
  {
    var contents := Rewritten(text, |LinesOf(text)|, [line]);
    RewrittenLines(text, |LinesOf(text)|, [line]);
    CollectSnoc(LinesOf(text), line);
    assert Parse(contents) == [x] + Parse(text);
    NewFirstIsExactly(x, Parse(text));
    EnsureSignalsAsTheDiff(s, contents, sum);
  }

  lemma {:induction false} CollectSnoc(ls: seq<Text>, line: Text)
    ensures Reverse(Collect(ls + [line], MonitorLine)) ==
            (match MonitorLine(line) case None => [] case Some(e) => [e]) + Reverse(Collect(ls, MonitorLine))
  {
    CollectConcat(ls, [line], MonitorLine);
    CollectOne(line, MonitorLine);
    var before, last := Collect(ls, MonitorLine), Collect([line], MonitorLine);
    ReverseConcat(before, last);
    assert last == [] ==> before + last == before && last + Reverse(before) == Reverse(before);
    assert last != [] ==> Reverse(last[1..]) == [] && Reverse(last) == last;
  }

  lemma {:induction false} ReverseConcat<T>(a: seq<T>, b: seq<T>)
    ensures Reverse(a + b) == Reverse(b) + Reverse(a)
  {
    if a == [] {
      assert a + b == b;
      assert Reverse(b) + [] == Reverse(b);
    } else {
      assert (a + b)[1..] == a[1..] + b;
      ReverseConcat(a[1..], b);
      Assoc(Reverse(b), Reverse(a[1..]), [a[0]]);
    }
  }

  lemma {:induction false} LastEmptyLineIsSkipped(contents: Text)
    ensures Collect(Split(CStr(contents), NEWLINE), MonitorLine) == Collect(LinesOf(contents), MonitorLine)
  {
    var p := Split(CStr(contents), NEWLINE);
    if p[|p| - 1] == [] {
      var ls := LinesOf(contents);
      assert p == ls + [[]];
      CollectConcat(ls, [[]], MonitorLine);
      CollectOne([], MonitorLine);
      assert Collect(ls, MonitorLine) + [] == Collect(ls, MonitorLine);
    }
  }

  // ----- whole runs -----

  lemma {:induction false} ReplayConcat(start: multiset<CrypttabEntry>, a: seq<Event>, b: seq<Event>)
    requires Replay(start, a).Some?
    ensures Replay(start, a + b) == Replay(Replay(start, a).value, b)
    decreases |a|
  {
    if a == [] {
      assert a + b == b;
    } else {
      assert (a + b)[1..] == a[1..] + b;
      match a[0]
      case EntryRemoved(e) => ReplayConcat(start - multiset{e}, a[1..], b);
      case EntryAdded(e) => ReplayConcat(start + multiset{e}, a[1..], b);
    }
  }

  lemma {:induction false} ReplayRemoved(start: multiset<CrypttabEntry>, entries: seq<CrypttabEntry>)
    requires multiset(entries) <= start
    ensures Replay(start, RemovedEvents(entries)) == Some(start - multiset(entries))
    decreases |entries|
  {
    if entries != [] {
      var e, rest := entries[0], entries[1..];
      assert entries == [e] + rest;
      assert multiset(entries) == multiset{e} + multiset(rest);
      assert e in start;
      ReplayRemoved(start - multiset{e}, rest);
      assert ([EntryRemoved(e)] + RemovedEvents(rest))[1..] == RemovedEvents(rest);
      assert start - multiset{e} - multiset(rest) == start - multiset(entries);
    } else {
      assert start - multiset(entries) == start;
    }
  }

  lemma {:induction false} ReplayAdded(start: multiset<CrypttabEntry>, entries: seq<CrypttabEntry>)
    ensures Replay(start, AddedEvents(entries)) == Some(start + multiset(entries))
    decreases |entries|
  {
    if entries != [] {
      var e, rest := entries[0], entries[1..];
      assert entries == [e] + rest;
      ReplayAdded(start + multiset{e}, rest);
      assert ([EntryAdded(e)] + AddedEvents(rest))[1..] == AddedEvents(rest);
      assert start + multiset{e} + multiset(rest) == start + multiset(entries);
    } else {
      assert start + multiset(entries) == start;
    }
  }

  /** The invariant of the monitor: a listener that replays every signal so far never removes an
      entry it does not have, and holds exactly the cached entries. */
  ghost predicate Faithful<C>(s: MonitorState<C>)
  {
    Replay(multiset{}, s.signals) == Some(multiset(s.entries))
  }

  /** Every ensure keeps the invariant, whatever it reads and whatever the checksum does. */
  lemma {:induction false} EnsureIsFaithful<C>(s: MonitorState<C>, contents: Option<Text>, sum: Text -> C)
    requires Faithful(s)
    ensures Faithful(Ensured(s, contents, sum))
  {
    var s' := Ensured(s, contents, sum);
    if contents.Some? && s.checksum != Some(sum(contents.value)) {
      var entries := Parse(contents.value);
      var (removed, added) := Diff(s.entries, entries);
      DiffConserves(s.entries, entries);
      ReverseMultiset(removed);
      ReverseMultiset(added);
      var gone, come := RemovedEvents(Reverse(removed)), AddedEvents(Reverse(added));
      ReplayConcat(multiset{}, s.signals, gone + come);
      ReplayRemoved(multiset(s.entries), Reverse(removed));
      ReplayConcat(multiset(s.entries), gone, come);
      ReplayAdded(multiset(s.entries) - multiset(removed), Reverse(added));
    }
  }

  /** The state of a monitor after a run of ensures. */
  function Run<C(==)>(history: seq<Option<Text>>, sum: Text -> C): MonitorState<C>
  {
    EnsuredAll(MonitorState([], None, []), history, sum)
  }

  /** The contents of the last read that succeeded. */
  function LastRead(history: seq<Option<Text>>): Option<Text>
  {
    if history == [] then None
    else if history[|history| - 1].Some? then history[|history| - 1]
    else LastRead(history[..|history| - 1])
  }

  ghost predicate SameSum<C>(a: Option<Text>, b: Option<Text>, sum: Text -> C)
  {
    a.Some? && b.Some? && sum(a.value) == sum(b.value)
  }

  /** Equal checksums mean equal contents, for the contents read in the run. */
  ghost predicate NoCollisions<C>(history: seq<Option<Text>>, sum: Text -> C)
  {
    forall i, j :: 0 <= i < |history| && 0 <= j < |history| && SameSum(history[i], history[j], sum)
                   ==> history[i] == history[j]
  }

  lemma {:induction false} LastReadIsARead(history: seq<Option<Text>>)
    ensures LastRead(history).Some? ==> LastRead(history) in history
  {
    if history != [] && history[|history| - 1].None? {
      LastReadIsARead(history[..|history| - 1]);
    }
  }

  /** In every reachable state the signals replay to the cache, and the cache is the parse of the
      last contents read successfully; a file that went missing leaves the old entries in place. */
  lemma {:induction false} CacheAndSignalsAgree<C>(history: seq<Option<Text>>, sum: Text -> C)
    requires NoCollisions(history, sum)
    ensures var s := Run(history, sum);
            var last := LastRead(history);
            && Faithful(s)
            && s.checksum == (match last case None => None case Some(t) => Some(sum(t)))
            && s.entries == (match last case None => [] case Some(t) => Parse(t))
  {
    if history != [] {
      var before, read := history[..|history| - 1], history[|history| - 1];
      CacheAndSignalsAgree(before, sum);
      EnsureIsFaithful(Run(before, sum), read, sum);
      LastReadIsARead(before);
      if read.Some? && LastRead(before).Some? && sum(LastRead(before).value) == sum(read.value) {
        var i :| 0 <= i < |before| && before[i] == LastRead(before);
        assert history[i] == LastRead(before);
      }
    }
  }

  lemma {:induction false} EnsuredSnoc<C>(s: MonitorState<C>, seen: seq<Option<Text>>, n: nat, sum: Text -> C)
    requires n < |seen|
    ensures EnsuredAll(s, seen[..n + 1], sum) == Ensured(EnsuredAll(s, seen[..n], sum), seen[n], sum)
  {
    assert seen[..n + 1][..n] == seen[..n];
  }

  lemma {:induction false} EnsuredFirst<C>(s: MonitorState<C>, first: Option<Text>, rest: seq<Option<Text>>,
                                           sum: Text -> C)
    ensures EnsuredAll(s, [first] + rest, sum) == EnsuredAll(Ensured(s, first, sum), rest, sum)
  {
    EnsuredConcat(s, [first], rest, sum);
    EnsuredSnoc(s, [first], 0, sum);
    assert [first][..1] == [first];
  }

  lemma {:induction false} EnsuredConcat<C>(s: MonitorState<C>, a: seq<Option<Text>>, b: seq<Option<Text>>,
                                            sum: Text -> C)
    ensures EnsuredAll(s, a + b, sum) == EnsuredAll(EnsuredAll(s, a, sum), b, sum)
    decreases |b|
  {
    if b == [] {
      assert a + b == a;
    } else {
      assert (a + b)[..|a + b| - 1] == a + b[..|b| - 1];
      EnsuredConcat(s, a, b[..|b| - 1], sum);
    }
  }

  lemma {:induction false} LastReadConcat(a: seq<Option<Text>>, b: seq<Option<Text>>)
    ensures LastRead(a + b) == if LastRead(b).Some? then LastRead(b) else LastRead(a)
    decreases |b|
  {
    if b == [] {
      assert a + b == a;
    } else {
      assert (a + b)[..|a + b| - 1] == a + b[..|b| - 1];
      LastReadConcat(a, b[..|b| - 1]);
    }
  }

  /** A call that asks for the entries at any time gets those of the last contents that were read,
      by itself or by another thread before it made its copy; so when its own read succeeded it never
      gets older ones. Only when it and all those others failed to read does it get what had been
      read before. */
  lemma {:induction false} EntriesAreOfTheLastRead<C>(history: seq<Option<Text>>, contents: Option<Text>,
                                                      others: seq<Option<Text>>, sum: Text -> C)
    requires NoCollisions(history + ([contents] + others), sum)
    ensures var seen := [contents] + others;
            var entries := EnsuredAll(Run(history, sum), seen, sum).entries;
            && (LastRead(seen).Some? ==> LastRead(seen) in seen && entries == Parse(LastRead(seen).value))
            && (LastRead(seen).None? ==>
                 (forall read :: read in seen ==> read.None?) && entries == Run(history, sum).entries)
            && (contents.Some? ==> LastRead(seen).Some?)
  {
    var seen := [contents] + others;
    CacheAndSignalsAgree(history + seen, sum);
    EnsuredConcat(MonitorState([], None, []), history, seen, sum);
    LastReadConcat(history, seen);
    LastReadIsARead(seen);
    NothingRead(seen);
    if LastRead(seen).None? {
      forall i, j | 0 <= i < |history| && 0 <= j < |history| && SameSum(history[i], history[j], sum)
        ensures history[i] == history[j]
      {
        assert (history + seen)[i] == history[i] && (history + seen)[j] == history[j];
      }
      CacheAndSignalsAgree(history, sum);
    }
    assert contents in seen;
  }

  lemma {:induction false} NothingRead(seen: seq<Option<Text>>)
    ensures LastRead(seen).None? ==> forall read :: read in seen ==> read.None?
  {
    if seen != [] {
      NothingRead(seen[..|seen| - 1]);
      assert seen == seen[..|seen| - 1] + [seen[|seen| - 1]];
    }
  }
}
