/** Tearing down a device: walk_block with teardown_block_walker, which locks crypto devices and
    removes configuration while the walk goes on. */
module Teardown {
  import opened OptionType
  import opened Sequences
  import opened Bytes
  import opened CrypttabText
  import opened CrypttabEditor
  import opened ParentTracking
  import opened Forests
  import opened DeviceTree
  import opened ConfigFiles

  /** add_remove_fstab_entry or add_remove_crypttab_entry with nothing to add. */
  type Remover = (Config, ConfigItem) -> (Config, bool)

  datatype LockResult = Locked | LockFailed(disappeared: bool)

  /** udisks_linux_remove_configuration: item by item, stopping at the first failure. */
  function RemoveItems(c: Config, items: seq<ConfigItem>, remove: Remover): (r: (Config, seq<ConfigItem>, bool))
    ensures r.1 <= items && (r.2 ==> r.1 == items)
    decreases |items|
  {
    if items == [] then (c, [], true)
    else
      var (c', ok) := remove(c, items[0]);
      if !ok then (c', [], false)
      else
        var (c'', done, all) := RemoveItems(c', items[1..], remove);
        (c'', [items[0]] + done, all)
  }

  lemma {:induction false} FirstItemRemoved(c: Config, items: seq<ConfigItem>, remove: Remover, terms: Terms)
    requires Exact(remove, terms) && terms.files(c) && items != [] && AllFit(terms, items)
    ensures var (c', ok) := remove(c, items[0]);
            terms.files(c') && Minus(c, c', if ok then [items[0]] else [])
  {
    assert ExactStep(c, items[0], remove(c, items[0]), terms);
  }

  /** Removing items one after the other takes exactly the ones before the first failure out of
      the files. */
  lemma {:induction false} ItemsRemoved(c: Config, items: seq<ConfigItem>, remove: Remover, terms: Terms)
    requires Exact(remove, terms) && terms.files(c) && AllFit(terms, items)
    ensures var (c', removed, all) := RemoveItems(c, items, remove);
            terms.files(c') && Minus(c, c', removed)
    decreases |items|
  {
    if items == [] {
      NothingRemoved(c);
    } else {
      var (c', ok) := remove(c, items[0]);
      FirstItemRemoved(c, items, remove, terms);
      assert forall i :: 0 <= i < |items[1..]| ==> items[1..][i] == items[i + 1];
      if ok {
        ItemsRemoved(c', items[1..], remove, terms);
        var (c'', removed, _) := RemoveItems(c', items[1..], remove);
        MinusTransitive(c, c', c'', [items[0]], removed);
      }
    }
  }

  // ----- one visit, and all of them -----

  datatype BlockProps = BlockProps(encrypted: bool, configuration: seq<ConfigItem>, childConfiguration: seq<ConfigItem>)

  /** `gone` are the cleartext devices that disappeared; `removed` the items taken out so far. */
  datatype Progress = Progress(config: Config, gone: set<Path>, visited: seq<Path>, removed: seq<ConfigItem>, ok: bool)

  datatype Job = Job(world: World, props: Path -> BlockProps, lock: Path -> LockResult, remove: Remover)
  {
    function RemoveMore(s: Progress, items: seq<ConfigItem>): Progress
    {
      if !s.ok then s
      else
        var (c, done, all) := RemoveItems(s.config, items, remove);
        s.(config := c, removed := s.removed + done, ok := all)
    }

    /** Locking, or removing the child configuration of a device that is locked already. */
    function LockOrForget(s: Progress, p: Path): Progress
    {
      if !props(p).encrypted then s
      else
        match Cleartext(world, p)
        case None => RemoveMore(s, props(p).childConfiguration)
        case Some(c) =>
          match lock(p)
          case Locked => s.(gone := s.gone + {c})
          case LockFailed(disappeared) => s.(gone := if disappeared then s.gone + {c} else s.gone, ok := false)
    }

    /** teardown_block_walker. */
    function VisitOne(s: Progress, p: Path): Progress
      requires s.ok
    {
      RemoveMore(LockOrForget(s.(visited := s.visited + [p]), p), props(p).configuration)
    }

    function VisitAll(s: Progress, ps: seq<Path>): Progress
      decreases |ps|
    {
      if ps == [] || !s.ok then s else VisitAll(VisitOne(s, ps[0]), ps[1..])
    }

    /** What a visit is to remove: its own configuration, after the child configuration exactly
        when it is an encrypted device without a cleartext device. */
    function ItemsOf(p: Path): seq<ConfigItem>
    {
      (if props(p).encrypted && Cleartext(world, p).None? then props(p).childConfiguration else []) +
        props(p).configuration
    }

    function AllItems(ps: seq<Path>): seq<ConfigItem>
    {
      if ps == [] then [] else ItemsOf(ps[0]) + AllItems(ps[1..])
    }
  }

  lemma {:induction false} VisitAllConcat(job: Job, s: Progress, a: seq<Path>, b: seq<Path>)
    ensures job.VisitAll(s, a + b) == job.VisitAll(job.VisitAll(s, a), b)
    decreases |a|
  {
    if a == [] {
      assert a + b == b;
    } else if s.ok {
      assert (a + b)[1..] == a[1..] + b;
      VisitAllConcat(job, job.VisitOne(s, a[0]), a[1..], b);
    }
  }

  lemma {:induction false} MoreRemoved(job: Job, terms: Terms, s: Progress, items: seq<ConfigItem>)
    returns (done: seq<ConfigItem>)
    requires s.ok
    ensures var s' := job.RemoveMore(s, items);
            && s' == s.(config := s'.config, removed := s.removed + done, ok := s'.ok)
            && done <= items && (s'.ok ==> done == items)
            && (Exact(job.remove, terms) && terms.files(s.config) && AllFit(terms, items) ==>
                 terms.files(s'.config) && Minus(s.config, s'.config, done))
  {
    done := RemoveItems(s.config, items, job.remove).1;
    if Exact(job.remove, terms) && terms.files(s.config) && AllFit(terms, items) {
      ItemsRemoved(s.config, items, job.remove, terms);
    }
  }

  function ChildItems(job: Job, p: Path): seq<ConfigItem>
  {
    if job.props(p).encrypted && Cleartext(job.world, p).None? then job.props(p).childConfiguration else []
  }

  lemma {:induction false} LockStep(job: Job, terms: Terms, s: Progress, p: Path) returns (done: seq<ConfigItem>)
    requires s.ok
    ensures var s' := job.LockOrForget(s, p);
            && s'.visited == s.visited && s'.removed == s.removed + done
            && done <= ChildItems(job, p) && (s'.ok ==> done == ChildItems(job, p))
            && s.gone <= s'.gone
            && (s'.ok && job.props(p).encrypted && Cleartext(job.world, p).Some? ==>
                  Cleartext(job.world, p).value in s'.gone)
            && (Exact(job.remove, terms) && terms.files(s.config) && AllFit(terms, job.props(p).childConfiguration) ==>
                  terms.files(s'.config) && Minus(s.config, s'.config, done))
  {
    done := [];
    assert s.removed + [] == s.removed;
    NothingRemoved(s.config);
    if job.props(p).encrypted && Cleartext(job.world, p).None? {
      done := MoreRemoved(job, terms, s, job.props(p).childConfiguration);
    }
  }

  /** The configuration of every block is on the terms. */
  ghost predicate AllOnTerms(job: Job, terms: Terms)
  {
    forall p :: AllFit(terms, job.props(p).configuration) && AllFit(terms, job.props(p).childConfiguration)
  }

  lemma PrefixOfConcat<T>(a: seq<T>, b: seq<T>, x: seq<T>, y: seq<T>)
    requires a <= x && b <= y && (a == x || b == [])
    ensures a + b <= x + y
  {
    if a == x {
      assert (x + y)[..|a| + |b|] == a + b;
    } else {
      assert a + b == a;
    }
  }

  /** One visit removes a prefix of its items, all of them when it succeeds, and nothing else. */
  lemma {:induction false} VisitRemoves(job: Job, terms: Terms, s: Progress, p: Path) returns (done: seq<ConfigItem>)
    requires s.ok
    ensures var s' := job.VisitOne(s, p);
            && s'.visited == s.visited + [p] && s'.removed == s.removed + done
            && done <= job.ItemsOf(p) && (s'.ok ==> done == job.ItemsOf(p))
            && s.gone <= s'.gone
            && (s'.ok && job.props(p).encrypted && Cleartext(job.world, p).Some? ==>
                  Cleartext(job.world, p).value in s'.gone)
            && (Exact(job.remove, terms) && terms.files(s.config) && AllOnTerms(job, terms) ==>
                  terms.files(s'.config) && Minus(s.config, s'.config, done))
  {
    var s1 := s.(visited := s.visited + [p]);
    var s2 := job.LockOrForget(s1, p);
    var child := LockStep(job, terms, s1, p);
    done := child;
    if s2.ok {
      var own := MoreRemoved(job, terms, s2, job.props(p).configuration);
      done := child + own;
      Assoc(s.removed, child, own);
      PrefixOfConcat(child, own, ChildItems(job, p), job.props(p).configuration);
      if Exact(job.remove, terms) && terms.files(s.config) && AllOnTerms(job, terms) {
        MinusTransitive(s.config, s2.config, job.VisitOne(s, p).config, child, own);
      }
    } else {
      PrefixOfConcat(child, [], ChildItems(job, p), job.props(p).configuration);
      assert child + [] == child;
    }
  }

  /** A run visits a prefix of the blocks and removes a prefix of their items, everything when it
      succeeds; after a success every encrypted device has lost its cleartext device. */
  lemma {:induction false} RunRemoves(job: Job, terms: Terms, s: Progress, ps: seq<Path>)
    returns (seen: seq<Path>, done: seq<ConfigItem>)
    requires s.ok
    ensures var r := job.VisitAll(s, ps);
            && r.visited == s.visited + seen && r.removed == s.removed + done
            && seen <= ps && done <= job.AllItems(ps) && s.gone <= r.gone
            && (r.ok ==> seen == ps && done == job.AllItems(ps) && AllLocked(job, ps, r.gone))
            && (Exact(job.remove, terms) && terms.files(s.config) && AllOnTerms(job, terms) ==>
                  terms.files(r.config) && Minus(s.config, r.config, done))
    decreases |ps|
  {
    seen, done := [], [];
    assert s.visited + [] == s.visited && s.removed + [] == s.removed;
    NothingRemoved(s.config);
    if ps != [] {
      var s' := job.VisitOne(s, ps[0]);
      var first := VisitRemoves(job, terms, s, ps[0]);
      var r := job.VisitAll(s', ps[1..]);
      seen, done := [ps[0]], first;
      var rest := [];
      if s'.ok {
        var more;
        more, rest := RunRemoves(job, terms, s', ps[1..]);
        Assoc(s.visited, [ps[0]], more);
        Assoc(s.removed, first, rest);
        seen, done := [ps[0]] + more, first + rest;
        if Exact(job.remove, terms) && terms.files(s.config) && AllOnTerms(job, terms) {
          MinusTransitive(s.config, s'.config, r.config, first, rest);
        }
      }
      assert first + [] == first;
      PrefixOfConcat(first, rest, job.ItemsOf(ps[0]), job.AllItems(ps[1..]));
    }
  }

  /** The cleartext device of every encrypted device visited is gone. */
  ghost predicate AllLocked(job: Job, ps: seq<Path>, gone: set<Path>)
  {
    forall i :: 0 <= i < |ps| ==> LockedIn(job, ps[i], gone)
  }

  predicate LockedIn(job: Job, p: Path, gone: set<Path>)
  {
    job.props(p).encrypted && Cleartext(job.world, p).Some? ==> Cleartext(job.world, p).value in gone
  }

  /** Tearing down the tree below `p`. Blocks are visited in post-order up to the first failure.
      After a success no encrypted block of the tree has a cleartext device any more, and the
      configuration files list the old items without those of every block visited; after a failure
      they list them without exactly the items taken out before it. */
  lemma {:induction false} TeardownOutcome(job: Job, terms: Terms, rank: Path -> nat, p: Path, config: Config)
    requires WellFormed(job.world, rank) && FindObject(job.world, p).Some? && ForestOf(job.world, rank).Sound()
    requires Exact(job.remove, terms) && terms.files(config) && AllOnTerms(job, terms)
    ensures var f := ForestOf(job.world, rank);
            var ps := Paths(PostOrder(f, p));
            var r := job.VisitAll(Progress(config, {}, [], [], true), ps);
            && r.visited <= ps && r.removed <= job.AllItems(ps)
            && Minus(config, r.config, r.removed)
            && (r.ok ==> r.visited == ps && r.removed == job.AllItems(ps))
            && (r.ok ==> forall x :: Below(f, p, x) && job.props(x).encrypted ==>
                           Cleartext(WorldMinus(job.world, r.gone), x).None?)
  {
    var f := ForestOf(job.world, rank);
    var ps := Paths(PostOrder(f, p));
    var s := Progress(config, {}, [], [], true);
    var r := job.VisitAll(s, ps);
    var seen, done := RunRemoves(job, terms, s, ps);
    assert [] + seen == seen && [] + done == done;
    if r.ok {
      forall x | Below(f, p, x) && job.props(x).encrypted
        ensures Cleartext(WorldMinus(job.world, r.gone), x).None?
      {
        VisitsExactlyTheTree(f, p, x);
        var i :| 0 <= i < |ps| && ps[i] == x;
        assert LockedIn(job, ps[i], r.gone);
        TreeIsExported(job.world, rank, p, x);
        LockedWhenGone(job.world, rank, r.gone, x);
      }
    }
  }

  // ----- what a failure leaves -----

  predicate Unlocked(job: Job, p: Path)
  {
    job.props(p).encrypted && Cleartext(job.world, p).Some?
  }

  predicate LockFails(job: Job, p: Path)
  {
    Unlocked(job, p) && job.lock(p).LockFailed?
  }

  /** What a visit that failed had taken out: nothing if the lock of the device failed; if it is a
      locked device, nothing of its own before all of the child configuration; and never everything. */
  predicate CutShort(job: Job, p: Path, done: seq<ConfigItem>)
  {
    var child, own := job.props(p).childConfiguration, job.props(p).configuration;
    if LockFails(job, p) then done == []
    else if job.props(p).encrypted && !Unlocked(job, p) then done < child || (child <= done && done[|child|..] < own)
    else done < own
  }

  /** The cleartext devices of the unlocked devices among these, where the lock made them vanish. */
  function CleartextsGone(job: Job, ps: seq<Path>): set<Path>
  {
    set x | x in ps && Unlocked(job, x) && (job.lock(x).Locked? || job.lock(x).disappeared) ::
      Cleartext(job.world, x).value
  }

  lemma {:induction false} ItemsCutShort(c: Config, items: seq<ConfigItem>, remove: Remover)
    ensures var (c', done, all) := RemoveItems(c, items, remove);
            !all ==> done < items && exists last :: remove(last, items[|done|]) == (c', false)
    decreases |items|
  {
    if items != [] {
      var (c', ok) := remove(c, items[0]);
      if ok {
        ItemsCutShort(c', items[1..], remove);
      }
    }
  }

  /** The next item could not be removed. */
  ghost predicate RefusedNext(job: Job, p: Path, done: seq<ConfigItem>, config: Config)
  {
    && |done| < |job.ItemsOf(p)|
    && exists last :: job.remove(last, job.ItemsOf(p)[|done|]) == (config, false)
  }

  /** A failure at `p`, where `done` had been taken out. */
  ghost predicate FailedAt(job: Job, p: Path, done: seq<ConfigItem>, config: Config)
  {
    CutShort(job, p, done) && (LockFails(job, p) || RefusedNext(job, p, done, config))
  }

  /** The run stopped at the last block visited, with everything done at the blocks before it. */
  ghost predicate StoppedAtLast(job: Job, visited: seq<Path>, removed: seq<ConfigItem>, config: Config)
  {
    && visited != []
    && var before, p := visited[..|visited| - 1], visited[|visited| - 1];
       && job.AllItems(before) <= removed && FailedAt(job, p, removed[|job.AllItems(before)|..], config)
       && forall i :: 0 <= i < |before| ==> !LockFails(job, before[i])
  }

  /** A visit fails because the lock did, or the removal of the first item not taken out. */
  lemma {:induction false} VisitCutShort(job: Job, s: Progress, p: Path) returns (done: seq<ConfigItem>)
    requires s.ok && !job.VisitOne(s, p).ok
    ensures var s' := job.VisitOne(s, p);
            s'.removed == s.removed + done && FailedAt(job, p, done, s'.config)
  {
    var s1 := s.(visited := s.visited + [p]);
    var s2 := job.LockOrForget(s1, p);
    var child, own := job.props(p).childConfiguration, job.props(p).configuration;
    assert [] + own == own;
    if LockFails(job, p) {
      done := [];
      assert s.removed + [] == s.removed;
    } else if s2.ok {
      var (c', last, _) := RemoveItems(s2.config, own, job.remove);
      ItemsCutShort(s2.config, own, job.remove);
      if job.props(p).encrypted && !Unlocked(job, p) {
        done := child + last;
        Assoc(s.removed, child, last);
        assert done[|child|..] == last;
        assert (child + own)[|done|] == own[|last|];
      } else {
        done := last;
      }
    } else {
      ItemsCutShort(s1.config, child, job.remove);
      done := RemoveItems(s1.config, child, job.remove).1;
      assert (child + own)[|done|] == child[|done|];
    }
  }

  lemma {:induction false} VisitLocks(job: Job, s: Progress, p: Path)
    requires s.ok
    ensures var s' := job.VisitOne(s, p);
            s'.gone == s.gone + CleartextsGone(job, [p]) && (s'.ok ==> !LockFails(job, p))
  {
    assert p in [p];
    assert forall x :: x in [p] ==> x == p;
    var c := if Unlocked(job, p) then {Cleartext(job.world, p).value} else {};
    assert CleartextsGone(job, [p]) ==
           if Unlocked(job, p) && (job.lock(p).Locked? || job.lock(p).disappeared) then c else {};
  }

  lemma {:induction false} StoppedBehind(job: Job, p: Path, more: seq<Path>, rest: seq<ConfigItem>, config: Config)
    requires StoppedAtLast(job, more, rest, config) && !LockFails(job, p)
    ensures StoppedAtLast(job, [p] + more, job.ItemsOf(p) + rest, config)
  {
    var before, seen, done := more[..|more| - 1], [p] + more, job.ItemsOf(p) + rest;
    assert seen[..|seen| - 1] == [p] + before;
    assert ([p] + before)[1..] == before;
    assert job.AllItems([p] + before) == job.ItemsOf(p) + job.AllItems(before);
    assert done[|job.AllItems([p] + before)|..] == rest[|job.AllItems(before)|..];
  }

  lemma {:induction false} Union<T>(a: set<T>, b: set<T>, c: set<T>)
    ensures a + b + c == a + (b + c)
  {
  }

  lemma {:induction false} CleartextsConcat(job: Job, a: seq<Path>, b: seq<Path>)
    ensures CleartextsGone(job, a + b) == CleartextsGone(job, a) + CleartextsGone(job, b)
  {
  }

  /** A run that fails stops at the last block visited. */
  lemma {:induction false} RunStops(job: Job, terms: Terms, s: Progress, ps: seq<Path>)
    returns (seen: seq<Path>, done: seq<ConfigItem>)
    requires s.ok
    ensures var r := job.VisitAll(s, ps);
            && r.visited == s.visited + seen && r.removed == s.removed + done
            && (r.ok ==> forall i :: 0 <= i < |seen| ==> !LockFails(job, seen[i]))
            && (!r.ok ==> StoppedAtLast(job, seen, done, r.config))
    decreases |ps|
  {
    seen, done := [], [];
    assert s.visited + [] == s.visited && s.removed + [] == s.removed;
    if ps != [] {
      var s' := job.VisitOne(s, ps[0]);
      VisitLocks(job, s, ps[0]);
      if s'.ok {
        var first := VisitRemoves(job, terms, s, ps[0]);
        var more, rest := RunStops(job, terms, s', ps[1..]);
        Assoc(s.visited, [ps[0]], more);
        Assoc(s.removed, first, rest);
        seen, done := [ps[0]] + more, first + rest;
        var r := job.VisitAll(s, ps);
        if !r.ok {
          StoppedBehind(job, ps[0], more, rest, r.config);
        }
      } else {
        seen := [ps[0]];
        done := VisitCutShort(job, s, ps[0]);
        assert seen[..0] == [] && done[0..] == done;
      }
    }
  }

  /** The cleartext devices gone are those of the devices visited. */
  lemma {:induction false} RunLocks(job: Job, s: Progress, ps: seq<Path>) returns (seen: seq<Path>)
    requires s.ok
    ensures var r := job.VisitAll(s, ps);
            r.visited == s.visited + seen && r.gone == s.gone + CleartextsGone(job, seen)
    decreases |ps|
  {
    seen := [];
    assert s.visited + [] == s.visited && s.gone + {} == s.gone;
    if ps != [] {
      var s' := job.VisitOne(s, ps[0]);
      VisitLocks(job, s, ps[0]);
      assert s'.visited == s.visited + [ps[0]];
      seen := [ps[0]];
      if s'.ok {
        var more := RunLocks(job, s', ps[1..]);
        Assoc(s.visited, [ps[0]], more);
        CleartextsConcat(job, [ps[0]], more);
        Union(s.gone, CleartextsGone(job, [ps[0]]), CleartextsGone(job, more));
        seen := [ps[0]] + more;
      }
    }
  }

  /** After a run that failed: every block before the last visited one has had everything done to it,
      and if the lock of the last one failed, only the items of those before it are gone. */
  lemma {:induction false} FailedLockKeepsConfiguration(job: Job, terms: Terms, config: Config, ps: seq<Path>)
    ensures var r := job.VisitAll(Progress(config, {}, [], [], true), ps);
            && r.gone == CleartextsGone(job, r.visited)
            && (r.ok ==> forall i :: 0 <= i < |r.visited| ==> !LockFails(job, r.visited[i]))
            && (!r.ok ==>
                  && StoppedAtLast(job, r.visited, r.removed, r.config)
                  && (LockFails(job, r.visited[|r.visited| - 1]) ==>
                        r.removed == job.AllItems(r.visited[..|r.visited| - 1])))
  {
    var seen, done := RunStops(job, terms, Progress(config, {}, [], [], true), ps);
    var locked := RunLocks(job, Progress(config, {}, [], [], true), ps);
    assert [] + seen == seen && [] + done == done && [] + locked == locked;
    assert {} + CleartextsGone(job, seen) == CleartextsGone(job, seen);
    if !job.VisitAll(Progress(config, {}, [], [], true), ps).ok && LockFails(job, seen[|seen| - 1]) {
      var before := job.AllItems(seen[..|seen| - 1]);
      assert done == before + done[|before|..];
    }
  }

  // ----- the configuration of devices inside a locked one -----

  /** find_crypttab_entries_for_needle: the listed items with the needle in their options. */
  function FoundForNeedle(items: seq<CrypttabItem>, needle: Text): seq<CrypttabItem>
    requires needle != []
  {
    if items == [] then []
    else (if Find(items[0].options, needle).Some? then [items[0]] else []) + FoundForNeedle(items[1..], needle)
  }

  lemma {:induction false} FoundForNeedleCounts(items: seq<CrypttabItem>, needle: Text, item: CrypttabItem)
    requires needle != []
    ensures multiset(FoundForNeedle(items, needle))[item] ==
            if Find(item.options, needle).Some? then multiset(items)[item] else 0
  {
    if items != [] {
      FoundForNeedleCounts(items[1..], needle, item);
      assert items == [items[0]] + items[1..];
    }
  }

  /** The child configuration of `x` is what a search of the files for its UUID gives, in any order. */
  ghost predicate ChildrenAreFound(job: Job, config: Config, x: Path, uuid: Text)
  {
    multiset(CrypttabItems(job.props(x).childConfiguration)) ==
    multiset(FoundForNeedle(Reported(TextIn(config.crypttab)), X_PARENT + uuid))
  }

  lemma {:induction false} ItemsOfFirst(job: Job, p: Path)
    requires job.props(p).encrypted && Cleartext(job.world, p).None?
    ensures multiset(CrypttabItems(job.props(p).childConfiguration)) <= multiset(CrypttabItems(job.ItemsOf(p)))
  {
    var child, own := job.props(p).childConfiguration, job.props(p).configuration;
    ItemsConcat(child, own);
    PartsOfConcat(CrypttabItems(child), CrypttabItems(own));
  }

  lemma {:induction false} ItemsOfMore(some: multiset<CrypttabItem>, first: seq<ConfigItem>, rest: seq<ConfigItem>)
    requires some <= multiset(CrypttabItems(first)) || some <= multiset(CrypttabItems(rest))
    ensures some <= multiset(CrypttabItems(first + rest))
  {
    ItemsConcat(first, rest);
    PartsOfConcat(CrypttabItems(first), CrypttabItems(rest));
  }

  lemma {:induction false} ItemsOfVisited(job: Job, ps: seq<Path>, i: nat)
    requires i < |ps| && job.props(ps[i]).encrypted && Cleartext(job.world, ps[i]).None?
    ensures multiset(CrypttabItems(job.props(ps[i]).childConfiguration)) <= multiset(CrypttabItems(job.AllItems(ps)))
  {
    if i == 0 {
      ItemsOfFirst(job, ps[0]);
    } else {
      ItemsOfVisited(job, ps[1..], i - 1);
    }
    var child := job.props(ps[i]).childConfiguration;
    ItemsOfMore(multiset(CrypttabItems(child)), job.ItemsOf(ps[0]), job.AllItems(ps[1..]));
  }

  lemma {:induction false} PartsOfConcat<T>(a: seq<T>, b: seq<T>)
    ensures multiset(a) <= multiset(a + b) && multiset(b) <= multiset(a + b)
  {
    assert multiset(a + b) == multiset(a) + multiset(b);
  }

  lemma {:induction false} NoneLeft(before: multiset<CrypttabItem>, after: multiset<CrypttabItem>,
                                    removed: multiset<CrypttabItem>, item: CrypttabItem)
    requires before == after + removed && before[item] <= removed[item]
    ensures item !in after
  {
    assert before[item] == after[item] + removed[item];
  }

  /** After a successful teardown of a tree with a locked encrypted device in it, no listed crypttab
      entry is found for the UUID of that device any more, if its child configuration was what the
      search gives. */
  lemma {:induction false} ChildConfigurationIsGone(job: Job, terms: Terms, rank: Path -> nat, p: Path, config: Config,
                                                    x: Path, uuid: Text, item: CrypttabItem)
    requires WellFormed(job.world, rank) && FindObject(job.world, p).Some? && ForestOf(job.world, rank).Sound()
    requires Exact(job.remove, terms) && terms.files(config) && AllOnTerms(job, terms)
    requires Below(ForestOf(job.world, rank), p, x) && job.props(x).encrypted && Cleartext(job.world, x).None?
    requires ChildrenAreFound(job, config, x, uuid)
    ensures var r := job.VisitAll(Progress(config, {}, [], [], true), Paths(PostOrder(ForestOf(job.world, rank), p)));
            r.ok && Find(item.options, X_PARENT + uuid).Some? ==> item !in CrypttabOf(r.config)
  {
    var f := ForestOf(job.world, rank);
    var ps := Paths(PostOrder(f, p));
    var r := job.VisitAll(Progress(config, {}, [], [], true), ps);
    TeardownOutcome(job, terms, rank, p, config);
    if r.ok && Find(item.options, X_PARENT + uuid).Some? {
      VisitsExactlyTheTree(f, p, x);
      var i :| 0 <= i < |ps| && ps[i] == x;
      ItemsOfVisited(job, ps, i);
      FoundForNeedleCounts(Reported(TextIn(config.crypttab)), X_PARENT + uuid, item);
      NoneLeft(CrypttabOf(config), CrypttabOf(r.config), multiset(CrypttabItems(r.removed)), item);
    }
  }

  /** So no entry is left that tracking has written for that UUID, whatever its other options. */
  lemma {:induction false} TrackedEntriesAreGone(job: Job, terms: Terms, rank: Path -> nat, p: Path, config: Config,
                                                 x: Path, options: Text, uuids: seq<Text>, i: nat, item: CrypttabItem)
    requires WellFormed(job.world, rank) && FindObject(job.world, p).Some? && ForestOf(job.world, rank).Sound()
    requires Exact(job.remove, terms) && terms.files(config) && AllOnTerms(job, terms)
    requires Below(ForestOf(job.world, rank), p, x) && job.props(x).encrypted && Cleartext(job.world, x).None?
    requires i < |uuids| && item.options == Tracked(options, uuids) && ChildrenAreFound(job, config, x, uuids[i])
    ensures var r := job.VisitAll(Progress(config, {}, [], [], true), Paths(PostOrder(ForestOf(job.world, rank), p)));
            r.ok ==> item !in CrypttabOf(r.config)
  {
    TrackedEntryIsFound(Strip(options, X_PARENT), uuids, i);
    ChildConfigurationIsGone(job, terms, rank, p, config, x, uuids[i], item);
  }

  // ----- with the two editors -----

  /** The same with the two editors in place: nothing is left to assume about how items are
      removed, but that the files have no blank lines, or that no buffer spells an item there. */
  lemma {:induction false} TeardownByTheEditors(w: World, rank: Path -> nat, props: Path -> BlockProps,
                                                lock: Path -> LockResult, env: Env, terms: Terms, p: Path,
                                                config: Config)
    requires WellFormed(w, rank) && FindObject(w, p).Some?
    requires FitsTerms(terms, env) && terms.files(config) && AllOnTerms(Job(w, props, lock, Editors(env)), terms)
    ensures ForestOf(w, rank).Sound()
    ensures var job, f := Job(w, props, lock, Editors(env)), ForestOf(w, rank);
            var ps := Paths(PostOrder(f, p));
            var r := job.VisitAll(Progress(config, {}, [], [], true), ps);
            && r.visited <= ps && r.removed <= job.AllItems(ps)
            && Minus(config, r.config, r.removed)
            && (r.ok ==> r.visited == ps && r.removed == job.AllItems(ps))
            && (r.ok ==> forall x :: Below(f, p, x) && props(x).encrypted ==> Cleartext(WorldMinus(w, r.gone), x).None?)
  {
    DevicesFormAForest(w, rank);
    EditorsAreExact(env, terms);
    TeardownOutcome(Job(w, props, lock, Editors(env)), terms, rank, p, config);
  }

  lemma {:induction false} TreeIsExported(w: World, rank: Path -> nat, p: Path, x: Path)
    requires WellFormed(w, rank) && FindObject(w, p).Some? && ForestOf(w, rank).Sound()
    requires VisitedFrom(ForestOf(w, rank), p, x)
    ensures FindObject(w, x).Some?
  {
    DevicesFormAForest(w, rank);
    VisitedIsLower(ForestOf(w, rank), p, x);
  }

  // ----- the walk as the code does it -----

  /** `s` is the progress after the first `n` children of `p`. */
  ghost predicate After(job: Job, f: Forest, p: Path, n: nat, before: Progress, s: Progress)
    requires f.Sound() && n <= |f.children(p)|
  {
    s == job.VisitAll(before, Paths(PostOrderAll(f, p, f.children(p)[..n])))
  }

  lemma {:induction false} AfterNone(job: Job, f: Forest, p: Path, s: Progress)
    requires f.Sound()
    ensures After(job, f, p, 0, s, s)
  {
    assert f.children(p)[..0] == [];
  }

  lemma {:induction false} AfterOneMore(job: Job, f: Forest, p: Path, n: nat, before: Progress, s: Progress)
    requires f.Sound() && n < |f.children(p)| && After(job, f, p, n, before, s)
    ensures After(job, f, p, n + 1, before, job.VisitAll(s, Paths(PostOrder(f, f.children(p)[n]))))
  {
    var cs := f.children(p);
    assert f.IsChild(p, cs[n]);
    assert cs[..n + 1] == cs[..n] + [cs[n]];
    PostOrderAllConcat(f, p, cs[..n], [cs[n]]);
    PostOrderAllOne(f, p, cs[n]);
    var a, b := PostOrderAll(f, p, cs[..n]), PostOrder(f, cs[n]);
    PathsConcat(a, b);
    VisitAllConcat(job, before, Paths(a), Paths(b));
  }

  /** A failure below `p` is the end of the whole walk from `p`. */
  lemma {:induction false} AfterFailure(job: Job, f: Forest, p: Path, n: nat, before: Progress, s: Progress)
    requires f.Sound() && n <= |f.children(p)| && After(job, f, p, n, before, s) && !s.ok
    ensures s == job.VisitAll(before, Paths(PostOrder(f, p)))
  {
    var cs := f.children(p);
    assert cs[..n] + cs[n..] == cs;
    PostOrderAllConcat(f, p, cs[..n], cs[n..]);
    var a, b, last := PostOrderAll(f, p, cs[..n]), PostOrderAll(f, p, cs[n..]), [Visit(p, cs == [])];
    Assoc(a, b, last);
    PathsConcat(a, b + last);
    VisitAllConcat(job, before, Paths(a), Paths(b + last));
  }

  lemma {:induction false} AfterAll(job: Job, f: Forest, p: Path, before: Progress, s: Progress)
    requires f.Sound() && After(job, f, p, |f.children(p)|, before, s) && s.ok
    ensures job.VisitOne(s, p) == job.VisitAll(before, Paths(PostOrder(f, p)))
  {
    var cs := f.children(p);
    assert cs[..|cs|] == cs;
    var a, last := PostOrderAll(f, p, cs), [Visit(p, cs == [])];
    PathsConcat(a, last);
    assert Paths(last) == [p];
    VisitAllConcat(job, before, Paths(a), [p]);
    assert [p][1..] == [];
  }

  /** While the walk from `p` succeeds, only blocks below earlier children have been added. */
  lemma {:induction false} AfterVisited(job: Job, f: Forest, p: Path, n: nat, before: Progress, s: Progress, x: Path)
    requires f.Sound() && n <= |f.children(p)| && After(job, f, p, n, before, s) && s.ok && before.ok
    ensures x in s.visited <==> x in before.visited || exists i :: 0 <= i < n && VisitedFrom(f, f.children(p)[i], x)
  {
    var cs := f.children(p)[..n];
    var ps := Paths(PostOrderAll(f, p, cs));
    var seen, done := RunRemoves(job, WithTokens(), before, ps);
    VisitedByOneChild(f, p, cs, x);
    if x in ps {
      var c :| c in cs && VisitedFrom(f, c, x);
      var i :| 0 <= i < n && cs[i] == c;
      assert VisitedFrom(f, f.children(p)[i], x);
    }
    if i :| 0 <= i < n && VisitedFrom(f, f.children(p)[i], x) {
      assert cs[i] in cs;
    }
  }

  /** Gone devices are cleartext devices of visited blocks, and were visited themselves. */
  ghost predicate GoneWasLocked(w: World, gone: set<Path>, visited: seq<Path>)
  {
    forall g :: g in gone ==>
      g in visited && exists q :: q in visited && FindObject(w, q).Some? && Cleartext(w, q) == Some(g)
  }

  /** So a block below an unvisited one is still there. */
  lemma {:induction false} ChildStillThere(w: World, rank: Path -> nat, gone: set<Path>, visited: seq<Path>,
                                           p: Path, c: Path)
    requires WellFormed(w, rank) && GoneWasLocked(w, gone, visited) && p !in visited && IsChild(w, p, c)
    ensures c !in gone
  {
    if c in gone {
      var q :| q in visited && FindObject(w, q).Some? && Cleartext(w, q) == Some(c);
      ChildrenExact(w, rank, q);
      assert c in CleartextChild(w, q);
      ParentUnique(w, rank, p, q, c);
      assert false;
    }
  }

  /** Nothing at or below `p`, nor the table it is looked up in, has been visited. */
  ghost predicate Untouched(w: World, f: Forest, p: Path, visited: seq<Path>)
    requires f.Sound()
  {
    && FindObject(w, p).Some?
    && (forall x :: VisitedFrom(f, p, x) ==> x !in visited)
    && var o := FindObject(w, p).value;
       (IsContainer(o) && IsTable(w, o.partition.value.table) ==> o.partition.value.table !in visited)
  }

  lemma {:induction false} UntouchedSelf(w: World, f: Forest, p: Path, visited: seq<Path>)
    requires f.Sound() && Untouched(w, f, p, visited)
    ensures p !in visited
  {
    VisitedCases(f, p, p);
    assert VisitedFrom(f, p, p);
  }

  /** The next child of `p` is untouched when its turn comes. */
  lemma {:induction false} NextChildUntouched(job: Job, rank: Path -> nat, p: Path, n: nat,
                                              before: Progress, s: Progress)
    requires WellFormed(job.world, rank) && ForestOf(job.world, rank).Sound()
    requires var f := ForestOf(job.world, rank);
             Untouched(job.world, f, p, before.visited) && n < |f.children(p)| && After(job, f, p, n, before, s)
    requires s.ok && before.ok
    ensures var f := ForestOf(job.world, rank);
            Untouched(job.world, f, f.children(p)[n], s.visited) && p !in s.visited
            && Height(job.world, rank, f.children(p)[n]) < Height(job.world, rank, p)
  {
    var w, f := job.world, ForestOf(job.world, rank);
    var c := f.children(p)[n];
    DevicesFormAForest(w, rank);
    assert f.IsChild(p, c) && IsChild(w, p, c);
    ChildIsLower(w, rank, p, c);
    UntouchedSelf(w, f, p, before.visited);
    ParentNotYet(job, f, p, n, before, s);
    forall x | VisitedFrom(f, c, x) ensures x !in s.visited {
      AfterVisited(job, f, p, n, before, s, x);
      VisitedCases(f, p, x);
      forall i | 0 <= i < n ensures !VisitedFrom(f, f.children(p)[i], x) {
        assert f.IsChild(p, f.children(p)[i]);
        assert f.children(p)[i] != c;
        SubtreesDisjoint(f, p, c, f.children(p)[i], x);
      }
    }
    ContainerBelow(w, rank, p, c);
  }

  lemma {:induction false} ParentNotYet(job: Job, f: Forest, p: Path, n: nat, before: Progress, s: Progress)
    requires f.Sound() && n <= |f.children(p)| && After(job, f, p, n, before, s) && s.ok && before.ok
    requires p !in before.visited
    ensures p !in s.visited
  {
    AfterVisited(job, f, p, n, before, s, p);
    forall i | 0 <= i < n ensures !VisitedFrom(f, f.children(p)[i], p) {
      assert f.IsChild(p, f.children(p)[i]);
      if VisitedFrom(f, f.children(p)[i], p) {
        VisitedIsLower(f, f.children(p)[i], p);
        assert false;
      }
    }
  }

  /** An extended partition below `p` is looked up in `p` itself, if anywhere. */
  lemma {:induction false} ContainerBelow(w: World, rank: Path -> nat, p: Path, c: Path)
    requires WellFormed(w, rank) && IsChild(w, p, c)
    ensures var o := FindObject(w, c).value;
            IsContainer(o) && IsTable(w, o.partition.value.table) ==> o.partition.value.table == p
  {
    var op, oc := FindObject(w, p).value, FindObject(w, c).value;
    if oc.backing == p {
      assert FindObject(w, oc.backing) == Some(op);
    }
  }

  class Walker {
    const props: Path -> BlockProps
    const lock: Path -> LockResult
    const remove: Remover
    ghost const world: World
    ghost const rank: Path -> nat

    var objects: World
    var config: Config
    ghost var gone: set<Path>
    ghost var visited: seq<Path>
    ghost var removed: seq<ConfigItem>

    constructor (objects: World, props: Path -> BlockProps, lock: Path -> LockResult, remove: Remover, config: Config,
                 ghost rank: Path -> nat)
      ensures Valid() && this.objects == objects && this.rank == rank
      ensures Task() == Job(objects, props, lock, remove) && Done(true) == Progress(config, {}, [], [], true)
    {
      this.props, this.lock, this.remove, this.world, this.rank := props, lock, remove, objects, rank;
      this.objects, this.config := objects, config;
      gone, visited, removed := {}, [], [];
      WorldMinusNothing(objects);
    }

    ghost predicate Valid()
      reads this
    {
      objects == WorldMinus(world, gone) && GoneWasLocked(world, gone, visited)
    }

    ghost function Task(): Job
    {
      Job(world, props, lock, remove)
    }

    ghost function Tree(): Forest
    {
      ForestOf(world, rank)
    }

    /** The blocks at and below `p`, in post-order. */
    ghost function Plan(p: Path): seq<Path>
      requires WellFormed(world, rank)
    {
      DevicesFormAForest(world, rank);
      Paths(PostOrder(Tree(), p))
    }

    ghost function Done(ok: bool): Progress
      reads this
    {
      Progress(config, gone, visited, removed, ok)
    }

    /** udisks_linux_block_teardown, end to end: after a success no encrypted block at or below `p`
        has a cleartext device among the exported objects, and the files list the old items without
        those of all these blocks; after a failure, without exactly the items removed before it, which
        are all those of the blocks before the one where it failed, and none of that one if it could
        not be locked. */
    method Teardown(p: Path, ghost terms: Terms) returns (ok: bool)
      requires Valid() && visited == [] && removed == [] && gone == {}
      requires WellFormed(world, rank) && FindObject(world, p).Some?
      requires Exact(remove, terms) && terms.files(config) && AllOnTerms(Task(), terms)
      modifies this
      ensures var ps := Plan(p);
              && visited <= ps && removed <= Task().AllItems(ps)
              && Minus(old(config), config, removed)
              && (ok ==> visited == ps && removed == Task().AllItems(ps))
              && (ok ==> forall x :: Below(Tree(), p, x) && props(x).encrypted ==> Cleartext(objects, x).None?)
      ensures gone == CleartextsGone(Task(), visited)
      ensures !ok ==> StoppedAtLast(Task(), visited, removed, config)
      ensures !ok && LockFails(Task(), visited[|visited| - 1]) ==>
                removed == Task().AllItems(visited[..|visited| - 1])
    {
      DevicesFormAForest(world, rank);
      TeardownOutcome(Task(), terms, rank, p, config);
      FailedLockKeepsConfiguration(Task(), terms, config, Plan(p));
      ok := WalkBlock(p);
    }

    /** walk_block with teardown_block_walker. The partitions are listed before the recursion, the
        cleartext device is looked up after it. */
    method WalkBlock(p: Path) returns (ok: bool)
      requires Valid() && WellFormed(world, rank) && Tree().Sound() && Untouched(world, Tree(), p, visited)
      modifies this
      ensures Valid()
      ensures Done(ok) == Task().VisitAll(old(Done(true)), Paths(PostOrder(Tree(), p)))
      decreases Height(world, rank, p), 2
    {
      ghost var before := Done(true);
      var isLeaf;
      ghost var n;
      ok, isLeaf, n := WalkPartitions(p);
      if !ok {
        return;
      }
      var cleartext := LookUpCleartext(p, n, before);
      if cleartext.Some? {
        isLeaf := false;
        ok := WalkChild(p, n, cleartext.value, before);
        if !ok {
          return;
        }
      }
      ok := FinishBlock(p, isLeaf, before);
    }

    /** The recursion into the partitions. */
    method WalkPartitions(p: Path) returns (ok: bool, isLeaf: bool, ghost n: nat)
      requires Valid() && WellFormed(world, rank) && Tree().Sound() && Untouched(world, Tree(), p, visited)
      modifies this
      ensures Valid()
      ensures n <= |Tree().children(p)| && Tree().children(p)[n..] == CleartextChild(world, p)
      ensures isLeaf == (n == 0)
      ensures ok ==> After(Task(), Tree(), p, n, old(Done(true)), Done(true))
      ensures !ok ==> Done(false) == Task().VisitAll(old(Done(true)), Paths(PostOrder(Tree(), p)))
      decreases Height(world, rank, p), 1
    {
      ghost var before := Done(true);
      var ps := ListPartitions(p);
      n := |ps|;
      ok, isLeaf := true, |ps| == 0;
      AfterNone(Task(), Tree(), p, before);
      var i := 0;
      while i < |ps|
        invariant 0 <= i <= |ps|
        invariant Valid() && After(Task(), Tree(), p, i, before, Done(true))
      {
        ok := WalkChild(p, i, ps[i], before);
        if !ok {
          return;
        }
        i := i + 1;
      }
      ok := true;
    }

    /** The partitions to recurse into, as they are exported now. */
    method ListPartitions(p: Path) returns (ps: seq<Path>)
      requires Valid() && WellFormed(world, rank) && Tree().Sound() && Untouched(world, Tree(), p, visited)
      ensures ps <= Tree().children(p)
      ensures Tree().children(p) == ps + CleartextChild(world, p)
    {
      ListedPartitions(p);
      ps := PartitionChildren(objects, p);
    }

    /** The cleartext device, as it is exported now. */
    method LookUpCleartext(p: Path, ghost n: nat, ghost before: Progress) returns (cleartext: Option<Path>)
      requires Valid() && WellFormed(world, rank) && Tree().Sound() && Untouched(world, Tree(), p, before.visited)
      requires n <= |Tree().children(p)| && Tree().children(p)[n..] == CleartextChild(world, p)
      requires before.ok && After(Task(), Tree(), p, n, before, Done(true))
      ensures |Tree().children(p)| == if cleartext.Some? then n + 1 else n
      ensures cleartext.Some? ==> Tree().children(p)[n] == cleartext.value
    {
      FoundCleartext(p, n, before);
      cleartext := Cleartext(objects, p);
      assert Tree().children(p)[n..] == (if cleartext.Some? then [cleartext.value] else []);
      assert cleartext.Some? ==> Tree().children(p)[n..][0] == Tree().children(p)[n];
    }

    /** The call of the walker, once everything below is done; `isLeaf` tells a childless block. */
    method FinishBlock(p: Path, isLeaf: bool, ghost before: Progress) returns (ok: bool)
      requires isLeaf == (Tree().children(p) == [])
      requires Valid() && WellFormed(world, rank) && Tree().Sound() && Untouched(world, Tree(), p, before.visited)
      requires before.ok && After(Task(), Tree(), p, |Tree().children(p)|, before, Done(true))
      modifies this
      ensures Valid()
      ensures Done(ok) == Task().VisitAll(before, Paths(PostOrder(Tree(), p)))
    {
      BeforeLastVisit(p, before);
      AfterAll(Task(), Tree(), p, before, Done(true));
      ok := TeardownBlock(p);
    }

    /** The recursion into the next child. */
    method WalkChild(p: Path, ghost n: nat, c: Path, ghost before: Progress) returns (ok: bool)
      requires Valid() && WellFormed(world, rank) && Tree().Sound() && Untouched(world, Tree(), p, before.visited)
      requires n < |Tree().children(p)| && Tree().children(p)[n] == c
      requires before.ok && After(Task(), Tree(), p, n, before, Done(true))
      modifies this
      ensures Valid()
      ensures ok ==> After(Task(), Tree(), p, n + 1, before, Done(true))
      ensures !ok ==> Done(false) == Task().VisitAll(before, Paths(PostOrder(Tree(), p)))
      decreases Height(world, rank, p), 0
    {
      NextChildUntouched(Task(), rank, p, n, before, Done(true));
      AfterOneMore(Task(), Tree(), p, n, before, Done(true));
      ok := WalkBlock(c);
      if !ok {
        AfterFailure(Task(), Tree(), p, n + 1, before, Done(false));
      }
    }

    lemma {:induction false} ListedPartitions(p: Path)
      requires Valid() && WellFormed(world, rank) && Tree().Sound() && Untouched(world, Tree(), p, visited)
      ensures PartitionChildren(objects, p) == PartitionChildren(world, p)
      ensures Tree().children(p) == PartitionChildren(world, p) + CleartextChild(world, p)
    {
      UntouchedSelf(world, Tree(), p, visited);
      ChildrenExact(world, rank, p);
      forall c | c in PartitionChildren(world, p) ensures c !in gone {
        assert c in Children(world, p);
        ChildStillThere(world, rank, gone, visited, p, c);
      }
      PartitionsInMinus(world, gone, p);
    }

    lemma {:induction false} FoundCleartext(p: Path, n: nat, before: Progress)
      requires Valid() && WellFormed(world, rank) && Tree().Sound() && Untouched(world, Tree(), p, before.visited)
      requires n <= |Tree().children(p)| && After(Task(), Tree(), p, n, before, Done(true)) && before.ok
      ensures Cleartext(objects, p) == Cleartext(world, p)
      ensures p !in visited
    {
      UntouchedSelf(world, Tree(), p, before.visited);
      ParentNotYet(Task(), Tree(), p, n, before, Done(true));
      ChildrenExact(world, rank, p);
      if Cleartext(world, p).Some? {
        assert Cleartext(world, p).value in CleartextChild(world, p);
        ChildStillThere(world, rank, gone, visited, p, Cleartext(world, p).value);
      }
      CleartextInMinus(world, gone, p);
    }

    lemma {:induction false} BeforeLastVisit(p: Path, before: Progress)
      requires Valid() && WellFormed(world, rank) && Tree().Sound() && Untouched(world, Tree(), p, before.visited)
      requires After(Task(), Tree(), p, |Tree().children(p)|, before, Done(true)) && before.ok
      ensures Cleartext(objects, p) == Cleartext(world, p)
      ensures Cleartext(world, p).Some? ==> Cleartext(world, p).value in visited
    {
      var f := Tree();
      var n := |f.children(p)|;
      FoundCleartext(p, n, before);
      if Cleartext(world, p).Some? {
        var c := Cleartext(world, p).value;
        assert f.children(p)[n - 1] == c;
        VisitedCases(f, c, c);
        assert VisitedFrom(f, f.children(p)[n - 1], c);
        AfterVisited(Task(), f, p, n, before, Done(true), c);
      }
    }

    /** A cleartext device vanishes from the exported objects once its device is locked. */
    method Disappears(ghost p: Path, c: Path)
      requires Valid() && FindObject(world, p).Some? && p in visited
      requires Cleartext(world, p) == Some(c) && c in visited
      modifies this`objects, this`gone
      ensures Valid() && gone == old(gone) + {c}
    {
      WorldMinusTwice(world, gone, {c});
      objects := WorldMinus(objects, {c});
      gone := gone + {c};
    }

    /** The first half of teardown_block_walker: lock an unlocked crypto device, or remove the child
        configuration of a locked one. */
    method LockOrForget(p: Path) returns (ok: bool)
      requires Valid() && FindObject(world, p).Some?
      requires Cleartext(objects, p) == Cleartext(world, p)
      requires p in visited && (Cleartext(world, p).Some? ==> Cleartext(world, p).value in visited)
      modifies this`objects, this`gone, this`config, this`removed
      ensures Valid()
      ensures Done(ok) == Task().LockOrForget(old(Done(true)), p)
    {
      ok := true;
      if props(p).encrypted {
        var cleartext := Cleartext(objects, p);
        if cleartext.Some? {
          var result := lock(p);
          if result.Locked? || result.disappeared {
            Disappears(p, cleartext.value);
          }
          ok := result.Locked?;
        } else {
          ok := RemoveConfiguration(props(p).childConfiguration);
        }
      }
    }

    /** teardown_block_walker: and then the block's own configuration. */
    method TeardownBlock(p: Path) returns (ok: bool)
      requires Valid() && FindObject(world, p).Some?
      requires Cleartext(objects, p) == Cleartext(world, p)
      requires Cleartext(world, p).Some? ==> Cleartext(world, p).value in visited
      modifies this
      ensures Valid()
      ensures Done(ok) == Task().VisitOne(old(Done(true)), p)
      ensures !ok ==> old(removed) <= removed && FailedAt(Task(), p, removed[|old(removed)|..], config)
    {
      ghost var before := Done(true);
      if !Task().VisitOne(before, p).ok {
        ghost var done := VisitCutShort(Task(), before, p);
        assert (before.removed + done)[|before.removed|..] == done;
      }
      visited := visited + [p];
      ok := LockOrForget(p);
      if ok {
        ok := RemoveConfiguration(props(p).configuration);
      }
    }

    /** udisks_linux_remove_configuration. */
    method RemoveConfiguration(items: seq<ConfigItem>) returns (ok: bool)
      modifies this`config, this`removed
      ensures Done(ok) == Task().RemoveMore(old(Done(true)), items)
    {
      var n := 0;
      ghost var start := removed;
      assert start + items[..0] == start;
      ResumeStart(config, items, remove);
      while n < |items|
        invariant 0 <= n <= |items|
        invariant removed == start + items[..n]
        invariant Resumes(old(config), items, n, config, remove)
      {
        ResumeStep(old(config), items, n, config, remove);
        Taken(start, items, n);
        var r := remove(config, items[n]);
        config := r.0;
        if !r.1 {
          return false;
        }
        removed := removed + [items[n]];
        n := n + 1;
      }
      assert items[..n] == items && items[..n] + [] == items;
      return true;
    }
  }

  lemma {:induction false} Taken<T>(start: seq<T>, items: seq<T>, n: nat)
    requires n < |items|
    ensures start + items[..n] + [items[n]] == start + items[..n + 1]
  {
    assert items[..n + 1] == items[..n] + [items[n]];
  }

  /** Going on from `c` with item `n` is what is left to do. */
  ghost predicate Resumes(start: Config, items: seq<ConfigItem>, n: nat, c: Config, remove: Remover)
    requires n <= |items|
  {
    var (last, done, all) := RemoveItems(c, items[n..], remove);
    RemoveItems(start, items, remove) == (last, items[..n] + done, all)
  }

  lemma {:induction false} ResumeStart(start: Config, items: seq<ConfigItem>, remove: Remover)
    ensures Resumes(start, items, 0, start, remove)
  {
    assert items[0..] == items && items[..0] == [];
    assert [] + RemoveItems(start, items, remove).1 == RemoveItems(start, items, remove).1;
  }

  lemma {:induction false} ResumeStep(start: Config, items: seq<ConfigItem>, n: nat, c: Config, remove: Remover)
    requires n < |items| && Resumes(start, items, n, c, remove)
    ensures var (c', ok) := remove(c, items[n]);
            if ok then Resumes(start, items, n + 1, c', remove)
            else RemoveItems(start, items, remove) == (c', items[..n], false)
  {
    assert items[n..][0] == items[n] && items[n..][1..] == items[n + 1..];
    assert items[..n] + [] == items[..n];
    assert items[..n + 1] == items[..n] + [items[n]];
    Assoc(items[..n], [items[n]], RemoveItems(remove(c, items[n]).0, items[n + 1..], remove).1);
  }
}
