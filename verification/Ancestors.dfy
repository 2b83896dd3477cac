/** Which objects count as the ancestors of a block, and under whose UUIDs its entries are found. */
module Ancestors {
  import opened OptionType
  import opened Bytes
  import opened ParentTracking

  // ----- one step up -----

  predicate IsBlock(a: Ancestry, path: Text)
  {
    path in a.objects && a.objects[path].BlockObject?
  }

  /** `up` is the exported device that holds the encrypted contents `path` is the cleartext of. */
  predicate IsBackingOf(a: Ancestry, path: Text, up: Text)
  {
    IsBlock(a, path) && up == a.objects[path].backing && IsBlock(a, up)
  }

  /** `up` is the exported array that `path` is a member of. */
  predicate IsRaidOf(a: Ancestry, path: Text, up: Text)
  {
    IsBlock(a, path) && up == a.objects[path].mdraid && up in a.objects && a.objects[up].MDRaidObject?
  }

  /** `up` is the exported block whose partition table `path` is in. */
  predicate IsTableOf(a: Ancestry, path: Text, up: Text)
  {
    IsBlock(a, path) && a.objects[path].partitionTable == Some(up) && IsBlock(a, up)
  }

  ghost predicate HasBacking(a: Ancestry, path: Text)
  {
    exists up :: IsBackingOf(a, path, up)
  }

  ghost predicate HasRaid(a: Ancestry, path: Text)
  {
    exists up :: IsRaidOf(a, path, up)
  }

  ghost predicate HasTable(a: Ancestry, path: Text)
  {
    exists up :: IsTableOf(a, path, up)
  }

  /** Directly above: the backing device, or else the array, or else the table, or else what the
      modules say. */
  ghost predicate Above(a: Ancestry, path: Text, up: Text)
  {
    || IsBackingOf(a, path, up)
    || (!HasBacking(a, path) && IsRaidOf(a, path, up))
    || (!HasBacking(a, path) && !HasRaid(a, path) && IsTableOf(a, path, up))
    || (!HasBacking(a, path) && !HasRaid(a, path) && !HasTable(a, path) && path in a.modules &&
        up == a.modules[path].path)
  }

  /** The UUID tracked in that step: that of the device or the array above, and none for a table. */
  ghost function UuidAbove(a: Ancestry, path: Text, up: Text): Option<Text>
    requires Above(a, path, up)
  {
    if IsBackingOf(a, path, up) then a.objects[up].uuid
    else if IsRaidOf(a, path, up) then a.objects[up].mdUuid
    else if IsTableOf(a, path, up) then None
    else a.modules[path].uuid
  }

  function Listed(uuid: Option<Text>): seq<Text>
  {
    match uuid case Some(u) => if u == [] then [] else [u] case None => []
  }

  lemma {:induction false} OneAbove(a: Ancestry, path: Text, up: Text)
    requires Above(a, path, up)
    ensures a.ParentOf(path) == Some(Parent(up, UuidAbove(a, path, up)))
  {
    if IsBlock(a, path) {
      assert HasBacking(a, path) <==> IsBackingOf(a, path, a.objects[path].backing);
      assert HasRaid(a, path) <==> IsRaidOf(a, path, a.objects[path].mdraid);
      assert HasTable(a, path) <==>
             a.objects[path].partitionTable.Some? && IsTableOf(a, path, a.objects[path].partitionTable.value);
    }
  }

  lemma {:induction false} ParentIsAbove(a: Ancestry, path: Text)
    ensures a.ParentOf(path).Some? ==> Above(a, path, a.ParentOf(path).value.path)
  {
    if IsBlock(a, path) {
      assert HasBacking(a, path) <==> IsBackingOf(a, path, a.objects[path].backing);
      assert HasRaid(a, path) <==> IsRaidOf(a, path, a.objects[path].mdraid);
      assert HasTable(a, path) <==>
             a.objects[path].partitionTable.Some? && IsTableOf(a, path, a.objects[path].partitionTable.value);
    }
  }

  /** There is at most one object directly above, and a measure goes down on every step of the walk
      if and only if it goes down on every such pair. */
  lemma {:induction false} AcyclicExactly(a: Ancestry, rank: Text -> nat)
    ensures a.Acyclic(rank) <==> forall path, up :: Above(a, path, up) ==> rank(up) < rank(path)
  {
    forall path, up | Above(a, path, up) ensures a.ParentOf(path) == Some(Parent(up, UuidAbove(a, path, up))) {
      OneAbove(a, path, up);
    }
    forall path | a.ParentOf(path).Some? ensures Above(a, path, a.ParentOf(path).value.path) {
      ParentIsAbove(a, path);
    }
  }

  /** The UUIDs above a block start with that of the object directly above it, and go on with those
      above that. */
  lemma {:induction false} UuidsAbove(a: Ancestry, rank: Text -> nat, path: Text, up: Text)
    requires a.Acyclic(rank) && Above(a, path, up)
    ensures a.AncestorUuids(path, rank) == Listed(UuidAbove(a, path, up)) + a.AncestorUuids(up, rank)
  {
    OneAbove(a, path, up);
  }

  ghost predicate Topmost(a: Ancestry, path: Text)
  {
    forall up :: !Above(a, path, up)
  }

  lemma {:induction false} NothingAbove(a: Ancestry, rank: Text -> nat, path: Text)
    requires a.Acyclic(rank) && Topmost(a, path)
    ensures a.AncestorUuids(path, rank) == []
  {
    ParentIsAbove(a, path);
  }

  /** Cleartext devices and partitions on encrypted devices: the UUID of the encrypted device comes
      first. For a member of an array it is that of the array, and a partition has those of its disk. */
  lemma {:induction false} WhatComesFirst(a: Ancestry, rank: Text -> nat, path: Text, up: Text)
    requires a.Acyclic(rank)
    ensures IsBackingOf(a, path, up) ==>
              a.AncestorUuids(path, rank) == Listed(a.objects[up].uuid) + a.AncestorUuids(up, rank)
    ensures !HasBacking(a, path) && IsRaidOf(a, path, up) ==>
              a.AncestorUuids(path, rank) == Listed(a.objects[up].mdUuid) + a.AncestorUuids(up, rank)
    ensures !HasBacking(a, path) && !HasRaid(a, path) && IsTableOf(a, path, up) ==>
              a.AncestorUuids(path, rank) == a.AncestorUuids(up, rank)
  {
    if Above(a, path, up) {
      UuidsAbove(a, rank, path, up);
      assert [] + a.AncestorUuids(up, rank) == a.AncestorUuids(up, rank);
    }
  }

  // ----- all the way up -----

  /** From a block to the topmost object above it, each directly above the one before. */
  ghost predicate WayUp(a: Ancestry, ups: seq<Text>)
  {
    && ups != []
    && (forall i :: 0 < i < |ups| ==> Above(a, ups[i - 1], ups[i]))
    && Topmost(a, ups[|ups| - 1])
  }

  /** Every block has its way up. */
  lemma {:induction false} HasWayUp(a: Ancestry, rank: Text -> nat, path: Text) returns (ups: seq<Text>)
    requires a.Acyclic(rank)
    ensures WayUp(a, ups) && ups[0] == path
    decreases rank(path)
  {
    ups := [path];
    if p :| Above(a, path, p) {
      OneAbove(a, path, p);
      var rest := HasWayUp(a, rank, p);
      ups := [path] + rest;
    }
  }

  /** The UUIDs of the steps of such a way, in order. */
  ghost function UuidsAlong(a: Ancestry, ups: seq<Text>): seq<Text>
    requires forall i :: 0 < i < |ups| ==> Above(a, ups[i - 1], ups[i])
  {
    if |ups| < 2 then [] else Listed(UuidAbove(a, ups[0], ups[1])) + UuidsAlong(a, ups[1..])
  }

  /** The UUIDs tracked for a block are those on its way up, nearest first. */
  lemma {:induction false} TrackedOnTheWayUp(a: Ancestry, rank: Text -> nat, ups: seq<Text>)
    requires a.Acyclic(rank) && WayUp(a, ups)
    ensures a.AncestorUuids(ups[0], rank) == UuidsAlong(a, ups)
    decreases |ups|
  {
    if |ups| == 1 {
      NothingAbove(a, rank, ups[0]);
    } else {
      assert Above(a, ups[1 - 1], ups[1]);
      UuidsAbove(a, rank, ups[0], ups[1]);
      assert forall i :: 0 < i < |ups[1..]| ==> ups[1..][i - 1] == ups[i] && ups[1..][i] == ups[i + 1];
      assert ups[1..][|ups| - 2] == ups[|ups| - 1];
      TrackedOnTheWayUp(a, rank, ups[1..]);
    }
  }

  /** A UUID on the way is among those tracked. */
  lemma {:induction false} StepIsTracked(a: Ancestry, ups: seq<Text>, i: nat) returns (j: nat)
    requires forall i :: 0 < i < |ups| ==> Above(a, ups[i - 1], ups[i])
    requires 0 < i < |ups| && Listed(UuidAbove(a, ups[i - 1], ups[i])) != []
    ensures j < |UuidsAlong(a, ups)| && [UuidsAlong(a, ups)[j]] == Listed(UuidAbove(a, ups[i - 1], ups[i]))
  {
    var first := Listed(UuidAbove(a, ups[0], ups[1]));
    if i == 1 {
      j := 0;
    } else {
      var k := StepIsTracked(a, ups[1..], i - 1);
      j := |first| + k;
    }
  }

  /** An entry that is stored with tracking is found by the search for any encrypted device or array on
      the way up that has a UUID. */
  lemma {:induction false} FoundUnderEveryAncestor(a: Ancestry, rank: Text -> nat, ups: seq<Text>, i: nat, u: Text,
                                                   options: Text)
    requires a.Acyclic(rank) && WayUp(a, ups) && 0 < i < |ups| && u != []
    requires (IsBackingOf(a, ups[i - 1], ups[i]) && a.objects[ups[i]].uuid == Some(u)) ||
             (!HasBacking(a, ups[i - 1]) && IsRaidOf(a, ups[i - 1], ups[i]) && a.objects[ups[i]].mdUuid == Some(u))
    ensures Find(Tracked(options, a.AncestorUuids(ups[0], rank)), B("x-parent=") + u).Some?
  {
    TrackedOnTheWayUp(a, rank, ups);
    assert UuidAbove(a, ups[i - 1], ups[i]) == Some(u);
    var j := StepIsTracked(a, ups, i);
    TrackedEntryIsFound(Strip(options, X_PARENT), UuidsAlong(a, ups), j);
  }
}
