/** The tree that walk_block walks: partitions of a table, logical partitions of an extended
    partition, and the cleartext device of an unlocked crypto device. */
module DeviceTree {
  import opened OptionType
  import opened Forests

  datatype PartitionInfo = PartitionInfo(table: Path, isContainer: bool, isContained: bool)

  /** One exported object: the D-Bus properties the walk reads. */
  datatype Object = Object(path: Path, isBlock: bool, hasTable: bool, partition: Option<PartitionInfo>, backing: Path)

  type World = seq<Object>

  /** udisks_daemon_find_object. */
  function FindObject(w: World, path: Path): (r: Option<Object>)
    ensures r.Some? ==> r.value in w && r.value.path == path
    ensures r.None? ==> forall o :: o in w ==> o.path != path
  {
    if w == [] then None else if w[0].path == path then Some(w[0]) else FindObject(w[1..], path)
  }

  predicate IsTable(w: World, path: Path)
  {
    FindObject(w, path).Some? && FindObject(w, path).value.hasTable
  }

  predicate IsContainer(o: Object)
  {
    o.partition.Some? && o.partition.value.isContainer
  }

  /** The table whose partitions are walked, and whether the contained ones are meant. */
  function WalkedTable(w: World, o: Object): Option<(Path, bool)>
  {
    if IsContainer(o) then
      if IsTable(w, o.partition.value.table) then Some((o.partition.value.table, true)) else None
    else if o.hasTable then Some((o.path, false))
    else None
  }

  predicate InTable(o: Object, table: Path, contained: bool)
  {
    o.isBlock && o.partition.Some? && o.partition.value.table == table && o.partition.value.isContained == contained
  }

  function Members(w: World, table: Path, contained: bool): (r: seq<Path>)
    ensures forall x :: x in r <==> exists o :: o in w && o.path == x && InTable(o, table, contained)
  {
    if w == [] then []
    else
      var rest := Members(w[1..], table, contained);
      assert forall o :: o in w <==> o == w[0] || o in w[1..];
      if InTable(w[0], table, contained) then [w[0].path] + rest else rest
  }

  /** get_cleartext_block: the first block whose crypto backing device is `path`. */
  function Cleartext(w: World, path: Path): (r: Option<Path>)
    ensures r.Some? ==> exists o :: o in w && o.path == r.value && o.isBlock && o.backing == path
    ensures r.None? ==> forall o :: o in w && o.isBlock ==> o.backing != path
  {
    if w == [] then None
    else if w[0].isBlock && w[0].backing == path then Some(w[0].path)
    else Cleartext(w[1..], path)
  }

  function PartitionChildren(w: World, path: Path): seq<Path>
  {
    match FindObject(w, path)
    case None => []
    case Some(o) =>
      match WalkedTable(w, o)
      case None => []
      case Some((table, contained)) => Members(w, table, contained)
  }

  function CleartextChild(w: World, path: Path): seq<Path>
  {
    match Cleartext(w, path) case None => [] case Some(c) => [c]
  }

  /** The blocks walk_block recurses into from a block, in order. */
  function Children(w: World, path: Path): seq<Path>
  {
    PartitionChildren(w, path) + CleartextChild(w, path)
  }

  // ----- well-formed worlds -----

  predicate UniquePaths(w: World)
  {
    forall i, j :: 0 <= i < j < |w| ==> w[i].path != w[j].path
  }

  predicate IsMember(w: World, o: Object)
  {
    o.partition.Some? && IsTable(w, o.partition.value.table)
  }

  predicate IsCleartext(w: World, o: Object)
  {
    o.isBlock && FindObject(w, o.backing).Some?
  }

  predicate SameContainer(o: Object, o': Object)
  {
    IsContainer(o) && IsContainer(o') && o.partition.value.table == o'.partition.value.table
  }

  /** A table has at most one extended partition. */
  ghost predicate OneContainer(w: World)
  {
    forall o, o' :: o in w && o' in w && SameContainer(o, o') ==> o == o'
  }

  /** Table and backing relations are acyclic (`rank` grows upwards), no partition is both
      container and contained, and a table has at most one container and a backing device at most
      one cleartext device. */
  ghost predicate Orderly(w: World, rank: Path -> nat)
  {
    && UniquePaths(w)
    && (forall o :: o in w && IsMember(w, o) ==> rank(o.path) < rank(o.partition.value.table))
    && (forall o :: o in w && IsCleartext(w, o) ==> rank(o.path) < rank(o.backing))
    && (forall o :: o in w && IsContainer(o) ==> !o.partition.value.isContained)
    && OneContainer(w)
    && (forall o, o' :: o in w && o' in w && IsCleartext(w, o) && IsCleartext(w, o') && o.backing == o'.backing ==>
         o == o')
  }

  /** And nothing is both a partition and a cleartext device: otherwise the walk may visit a block
      twice, or not end at all, as is shown below. */
  ghost predicate WellFormed(w: World, rank: Path -> nat)
  {
    Orderly(w, rank) && forall o :: o in w && IsMember(w, o) ==> !IsCleartext(w, o)
  }

  lemma {:induction false} FindUnique(w: World, o: Object)
    requires UniquePaths(w) && o in w
    ensures FindObject(w, o.path) == Some(o)
  {
    if w[0].path != o.path {
      assert o in w[1..];
      assert forall i :: 0 <= i < |w[1..]| ==> w[1..][i] == w[i + 1];
      FindUnique(w[1..], o);
    } else {
      var i :| 0 <= i < |w| && w[i] == o;
      assert i == 0;
    }
  }

  /** `c` is a block directly below `p`. */
  ghost predicate IsChild(w: World, p: Path, c: Path)
  {
    FindObject(w, p).Some? && FindObject(w, c).Some? && ChildObject(w, FindObject(w, p).value, FindObject(w, c).value)
  }

  /** A non-contained partition of `p`'s own table, a contained one of the table of the extended
      partition `p`, or the cleartext device of `p`. */
  predicate ChildObject(w: World, p: Object, c: Object)
  {
    c.isBlock &&
    ((!IsContainer(p) && p.hasTable && InTable(c, p.path, false)) ||
     (IsContainer(p) && IsTable(w, p.partition.value.table) && InTable(c, p.partition.value.table, true)) ||
     c.backing == p.path)
  }

  /** The walk recurses into exactly the blocks directly below, each once. */
  lemma {:induction false} ChildrenExact(w: World, rank: Path -> nat, p: Path)
    requires WellFormed(w, rank) && FindObject(w, p).Some?
    ensures forall c :: c in Children(w, p) <==> IsChild(w, p, c)
  {
    forall c ensures c in Children(w, p) <==> IsChild(w, p, c) {
      if c in Children(w, p) {
        RecursedIsChild(w, p, c);
      }
      if IsChild(w, p, c) {
        ChildIsRecursed(w, rank, p, c);
      }
    }
  }

  lemma {:induction false} RecursedIsChild(w: World, p: Path, c: Path)
    requires UniquePaths(w) && FindObject(w, p).Some? && c in Children(w, p)
    ensures IsChild(w, p, c)
  {
    var o := FindObject(w, p).value;
    if c in PartitionChildren(w, p) {
      var oc :| oc in w && oc.path == c && InTable(oc, WalkedTable(w, o).value.0, WalkedTable(w, o).value.1);
      FindUnique(w, oc);
    } else {
      var oc :| oc in w && oc.path == c && oc.isBlock && oc.backing == p;
      FindUnique(w, oc);
    }
  }

  lemma {:induction false} ChildIsRecursed(w: World, rank: Path -> nat, p: Path, c: Path)
    requires WellFormed(w, rank) && FindObject(w, p).Some? && IsChild(w, p, c)
    ensures c in Children(w, p)
  {
    var oc := FindObject(w, c).value;
    if oc.backing == p {
      var first :| first in w && first.path == Cleartext(w, p).value && first.isBlock && first.backing == p;
      assert first == oc;
    }
  }

  lemma {:induction false} MembersDistinct(w: World, table: Path, contained: bool)
    requires UniquePaths(w)
    ensures Distinct(Members(w, table, contained))
  {
    if w != [] {
      assert forall i :: 0 <= i < |w[1..]| ==> w[1..][i] == w[i + 1];
      MembersDistinct(w[1..], table, contained);
      var rest := Members(w[1..], table, contained);
      assert w[0].path !in rest;
    }
  }

  lemma {:induction false} ChildrenDistinct(w: World, rank: Path -> nat, p: Path)
    requires WellFormed(w, rank) && FindObject(w, p).Some?
    ensures Distinct(Children(w, p))
  {
    var o := FindObject(w, p).value;
    if WalkedTable(w, o).Some? {
      var (table, contained) := WalkedTable(w, o).value;
      MembersDistinct(w, table, contained);
      if Cleartext(w, p).Some? {
        CleartextIsNoMember(w, rank, p, table, contained);
      }
    }
  }

  lemma {:induction false} CleartextIsNoMember(w: World, rank: Path -> nat, p: Path, table: Path, contained: bool)
    requires WellFormed(w, rank) && FindObject(w, p).Some? && Cleartext(w, p).Some? && IsTable(w, table)
    ensures Cleartext(w, p).value !in Members(w, table, contained)
  {
    var oc :| oc in w && oc.path == Cleartext(w, p).value && oc.isBlock && oc.backing == p;
    forall m | m in Members(w, table, contained) ensures m != oc.path {
      var om :| om in w && om.path == m && InTable(om, table, contained);
      MemberIsNoCleartext(w, rank, om, oc);
    }
  }

  lemma {:induction false} MemberIsNoCleartext(w: World, rank: Path -> nat, om: Object, oc: Object)
    requires WellFormed(w, rank) && om in w && oc in w && IsMember(w, om) && IsCleartext(w, oc)
    ensures om.path != oc.path
  {
    FindUnique(w, oc);
    FindUnique(w, om);
  }

  /** No block is below two others. */
  lemma {:induction false} ParentUnique(w: World, rank: Path -> nat, p: Path, q: Path, c: Path)
    requires WellFormed(w, rank) && IsChild(w, p, c) && IsChild(w, q, c)
    ensures p == q
  {
    var op, oq, oc := FindObject(w, p).value, FindObject(w, q).value, FindObject(w, c).value;
    FindUnique(w, op);
    FindUnique(w, oq);
    if IsMember(w, oc) {
      assert !IsCleartext(w, oc);
    }
  }

  // ----- the measure -----

  /** Where a block hangs: its table or its backing device. */
  function Up(w: World, o: Object): Option<Path>
  {
    if IsMember(w, o) then Some(o.partition.value.table)
    else if IsCleartext(w, o) then Some(o.backing)
    else None
  }

  ghost function Height(w: World, rank: Path -> nat, p: Path): nat
  {
    match FindObject(w, p)
    case None => 0
    case Some(o) =>
      2 * (match Up(w, o) case None => rank(p) + 1 case Some(u) => rank(u)) + (if IsContainer(o) then 1 else 0)
  }

  /** Every step of the walk goes down: to a device of lower rank, or from an extended partition
      to a logical one of the same table. */
  lemma {:induction false} ChildIsLower(w: World, rank: Path -> nat, p: Path, c: Path)
    requires WellFormed(w, rank) && IsChild(w, p, c)
    ensures Height(w, rank, c) < Height(w, rank, p)
  {
    var op, oc := FindObject(w, p).value, FindObject(w, c).value;
    FindUnique(w, op);
  }

  /** What the walk goes down, with a measure; a path that is not exported has no children. */
  ghost function WalkOf(w: World, height: Path -> nat): Forest
  {
    Forest(p => if FindObject(w, p).Some? then Children(w, p) else [], height)
  }

  /** The tree below the exported objects. */
  ghost function ForestOf(w: World, rank: Path -> nat): Forest
  {
    WalkOf(w, p => Height(w, rank, p))
  }

  /** The device hypotheses make it a forest, so the walk ends. */
  lemma {:induction false} DevicesFormAForest(w: World, rank: Path -> nat)
    requires WellFormed(w, rank)
    ensures ForestOf(w, rank).Sound()
    ensures forall p, c :: ForestOf(w, rank).IsChild(p, c) <==> IsChild(w, p, c)
  {
    var f := ForestOf(w, rank);
    forall p, c ensures f.IsChild(p, c) <==> IsChild(w, p, c) {
      if FindObject(w, p).Some? {
        ChildrenExact(w, rank, p);
      }
    }
    forall p, c | f.IsChild(p, c) ensures f.height(c) < f.height(p) {
      ChildIsLower(w, rank, p, c);
    }
    forall p ensures Distinct(f.children(p)) {
      if FindObject(w, p).Some? {
        ChildrenDistinct(w, rank, p);
      }
    }
    forall p, q, c | f.IsChild(p, c) && f.IsChild(q, c) ensures p == q {
      ParentUnique(w, rank, p, q, c);
    }
  }

  /** A disk with one partition that holds an unlocked crypto device, and where each path ranks. */
  function EncryptedDisk(disk: Path, part: Path, clear: Path, none: Path): World
  {
    [Object(disk, true, true, None, none),
     Object(part, true, false, Some(PartitionInfo(disk, false, false)), none),
     Object(clear, true, false, None, part)]
  }

  lemma {:induction false} LookUpThree(a: Object, b: Object, c: Object, path: Path)
    ensures var w := [a, b, c];
            && FindObject(w, path) == (if a.path == path then Some(a) else if b.path == path then Some(b)
                                       else if c.path == path then Some(c) else None)
            && Cleartext(w, path) == (if a.isBlock && a.backing == path then Some(a.path)
                                      else if b.isBlock && b.backing == path then Some(b.path)
                                      else if c.isBlock && c.backing == path then Some(c.path) else None)
            && Members(w, path, false) == (if InTable(a, path, false) then [a.path] else []) +
                 ((if InTable(b, path, false) then [b.path] else []) +
                  (if InTable(c, path, false) then [c.path] else []))
  {
    var w1, w2 := [b, c], [c];
    assert [a, b, c][1..] == w1 && w1[1..] == w2 && w2[1..] == [];
    assert Members(w2, path, false) == if InTable(c, path, false) then [c.path] else [];
    assert Members(w1, path, false) == (if InTable(b, path, false) then [b.path] else []) + Members(w2, path, false);
    assert Cleartext(w2, path) == if c.isBlock && c.backing == path then Some(c.path) else None;
    assert FindObject(w2, path) == if c.path == path then Some(c) else None;
  }

  lemma {:induction false} InThree(a: Object, b: Object, c: Object)
    ensures forall o :: o in [a, b, c] <==> o == a || o == b || o == c
    ensures a.path != b.path && a.path != c.path && b.path != c.path ==> UniquePaths([a, b, c])
  {
    var w := [a, b, c];
    assert w[0] == a && w[1] == b && w[2] == c;
  }

  predicate FourPaths(disk: Path, part: Path, clear: Path, none: Path)
  {
    disk != part && disk != clear && part != clear && none != disk && none != part && none != clear
  }

  lemma {:induction false} EncryptedDiskLooksUp(disk: Path, part: Path, clear: Path, none: Path)
    requires FourPaths(disk, part, clear, none)
    ensures var w := EncryptedDisk(disk, part, clear, none);
            && FindObject(w, disk) == Some(w[0]) && FindObject(w, part) == Some(w[1]) &&
               FindObject(w, clear) == Some(w[2])
            && FindObject(w, none) == None && UniquePaths(w)
            && (forall o :: o in w <==> o == w[0] || o == w[1] || o == w[2])
  {
    var w := EncryptedDisk(disk, part, clear, none);
    InThree(w[0], w[1], w[2]);
    LookUpThree(w[0], w[1], w[2], disk);
    LookUpThree(w[0], w[1], w[2], part);
    LookUpThree(w[0], w[1], w[2], clear);
    LookUpThree(w[0], w[1], w[2], none);
  }

  lemma {:induction false} EncryptedDiskChildren(disk: Path, part: Path, clear: Path, none: Path)
    requires FourPaths(disk, part, clear, none)
    ensures var w := EncryptedDisk(disk, part, clear, none);
            Children(w, disk) == [part] && Children(w, part) == [clear] && Children(w, clear) == []
  {
    var w := EncryptedDisk(disk, part, clear, none);
    EncryptedDiskLooksUp(disk, part, clear, none);
    LookUpThree(w[0], w[1], w[2], disk);
    LookUpThree(w[0], w[1], w[2], part);
    LookUpThree(w[0], w[1], w[2], clear);
  }

  /** Such a disk meets the device hypotheses, and the walk goes from the disk to the partition and
      from there to the cleartext device. */
  lemma {:induction false} EncryptedDiskIsWellFormed(disk: Path, part: Path, clear: Path, none: Path)
    requires FourPaths(disk, part, clear, none)
    ensures var w := EncryptedDisk(disk, part, clear, none);
            && WellFormed(w, p => if p == disk then 2 else if p == part then 1 else 0)
            && Children(w, disk) == [part] && Children(w, part) == [clear] && Children(w, clear) == []
  {
    EncryptedDiskChildren(disk, part, clear, none);
    EncryptedDiskIsOrderly(disk, part, clear, none, p => if p == disk then 2 else if p == part then 1 else 0);
  }

  lemma {:induction false} EncryptedDiskIsOrderly(disk: Path, part: Path, clear: Path, none: Path, rank: Path -> nat)
    requires FourPaths(disk, part, clear, none) && rank(clear) < rank(part) < rank(disk)
    ensures WellFormed(EncryptedDisk(disk, part, clear, none), rank)
  {
    EncryptedDiskLooksUp(disk, part, clear, none);
    var w := EncryptedDisk(disk, part, clear, none);
    OneOfEach(w, w[1], w[2], rank);
  }

  lemma {:induction false} OneOfEach(w: World, member: Object, cleartext: Object, rank: Path -> nat)
    requires UniquePaths(w) && member != cleartext
    requires forall o :: o in w ==>
             !IsContainer(o) && (IsMember(w, o) ==> o == member) && (IsCleartext(w, o) ==> o == cleartext)
    requires member.partition.Some? && rank(member.path) < rank(member.partition.value.table)
    requires rank(cleartext.path) < rank(cleartext.backing)
    ensures WellFormed(w, rank)
  {
  }

  // ----- blocks with two roles -----

  /** The walk from `p` gets to a block both as a partition and as a cleartext device. */
  ghost predicate TwoRolesBelow(w: World, f: Forest, p: Path)
  {
    exists t, b, c :: Below(f, p, t) && Below(f, p, b) && HasBothRoles(w, t, b, c)
  }

  predicate HasBothRoles(w: World, t: Path, b: Path, c: Path)
  {
    FindObject(w, t).Some? && FindObject(w, b).Some? && c in PartitionChildren(w, t) && c in CleartextChild(w, b)
  }

  lemma {:induction false} PartitionOfOne(w: World, t: Path, t': Path, c: Path)
    requires UniquePaths(w) && OneContainer(w) && c in PartitionChildren(w, t) && c in PartitionChildren(w, t')
    ensures t == t'
  {
    var o, o' := FindObject(w, t).value, FindObject(w, t').value;
    var (table, contained) := WalkedTable(w, o).value;
    var (table', contained') := WalkedTable(w, o').value;
    var oc :| oc in w && oc.path == c && InTable(oc, table, contained);
    var oc' :| oc' in w && oc'.path == c && InTable(oc', table', contained');
    FindUnique(w, oc);
    FindUnique(w, oc');
    if contained {
      assert SameContainer(o, o');
    }
  }

  lemma {:induction false} CleartextOfOne(w: World, b: Path, b': Path, c: Path)
    requires UniquePaths(w) && c in CleartextChild(w, b) && c in CleartextChild(w, b')
    ensures b == b'
  {
    var oc :| oc in w && oc.path == c && oc.isBlock && oc.backing == b;
    var oc' :| oc' in w && oc'.path == c && oc'.isBlock && oc'.backing == b';
    FindUnique(w, oc);
    FindUnique(w, oc');
  }

  lemma {:induction false} ChildrenListedOnce(w: World, q: Path)
    requires UniquePaths(w) && FindObject(w, q).Some?
    ensures Distinct(Children(w, q)) <==> !exists c :: HasBothRoles(w, q, q, c)
  {
    var a, b := PartitionChildren(w, q), CleartextChild(w, q);
    if WalkedTable(w, FindObject(w, q).value).Some? {
      var (table, contained) := WalkedTable(w, FindObject(w, q).value).value;
      MembersDistinct(w, table, contained);
    }
    if Distinct(a + b) {
      DistinctParts(a, b);
      assert forall c :: HasBothRoles(w, q, q, c) ==> c in a && c in b;
    } else {
      if forall x :: x in a ==> x !in b {
        DistinctConcat(a, b);
      }
      var c :| c in a && c in b;
      assert HasBothRoles(w, q, q, c);
    }
  }

  /** As long as the recursion ends, a table has one extended partition and objects have their own
      paths, the walk visits no block twice if and only if it gets to no block both as a partition
      and as a cleartext device. */
  lemma {:induction false} DevicesAreVisitedOnce(w: World, height: Path -> nat, p: Path)
    requires UniquePaths(w) && OneContainer(w) && WalkOf(w, height).Acyclic()
    ensures Distinct(Paths(PostOrder(WalkOf(w, height), p))) <==> !TwoRolesBelow(w, WalkOf(w, height), p)
  {
    var f := WalkOf(w, height);
    VisitedOnceExactly(f, p);
    if TwoRolesBelow(w, f, p) {
      var t, b, c :| Below(f, p, t) && Below(f, p, b) && HasBothRoles(w, t, b, c);
      assert f.IsChild(t, c) && f.IsChild(b, c);
      ChildrenListedOnce(w, t);
      assert !SoundBelow(f, p);
    } else {
      forall q | Below(f, p, q) ensures Distinct(f.children(q)) {
        if FindObject(w, q).Some? {
          ChildrenListedOnce(w, q);
        }
      }
      forall q, r, c | Below(f, p, q) && Below(f, p, r) && f.IsChild(q, c) && f.IsChild(r, c) ensures q == r {
        assert !HasBothRoles(w, q, r, c) && !HasBothRoles(w, r, q, c);
        if c in PartitionChildren(w, q) {
          PartitionOfOne(w, q, r, c);
        } else {
          CleartextOfOne(w, q, r, c);
        }
      }
    }
  }

  /** A disk with an encrypted partition whose cleartext device is a second partition of the disk. */
  function TwiceBelow(disk: Path, part: Path, both: Path, none: Path): World
  {
    [Object(disk, true, true, None, none),
     Object(part, true, false, Some(PartitionInfo(disk, false, false)), none),
     Object(both, true, false, Some(PartitionInfo(disk, false, false)), part)]
  }

  lemma {:induction false} TwiceBelowChildren(disk: Path, part: Path, both: Path, none: Path)
    requires FourPaths(disk, part, both, none)
    ensures var w := TwiceBelow(disk, part, both, none);
            && FindObject(w, disk).Some? && FindObject(w, part).Some? && FindObject(w, both).Some?
            && Children(w, disk) == [part, both] && Children(w, part) == [both] && Children(w, both) == []
            && forall p :: FindObject(w, p).Some? ==> p == disk || p == part || p == both
  {
    var w := TwiceBelow(disk, part, both, none);
    LookUpThree(w[0], w[1], w[2], disk);
    LookUpThree(w[0], w[1], w[2], part);
    LookUpThree(w[0], w[1], w[2], both);
    InThree(w[0], w[1], w[2]);
  }

  lemma {:induction false} TwiceBelowDescends(disk: Path, part: Path, both: Path, none: Path)
    requires FourPaths(disk, part, both, none)
    ensures var height := p => if p == disk then 2 else if p == part then 1 else 0;
            WalkOf(TwiceBelow(disk, part, both, none), height).Acyclic()
  {
    var w := TwiceBelow(disk, part, both, none);
    var f := WalkOf(w, p => if p == disk then 2 else if p == part then 1 else 0);
    TwiceBelowChildren(disk, part, both, none);
    forall p | p != disk && p != part ensures f.children(p) == [] {
      assert FindObject(w, p).Some? ==> p == both;
    }
    TwoWaysDescend(f, disk, part, both);
  }

  /** There the walk ends, but visits that device twice. */
  lemma {:induction false} TwoRolesAreVisitedTwice(disk: Path, part: Path, both: Path, none: Path)
    requires FourPaths(disk, part, both, none)
    ensures var height := p => if p == disk then 2 else if p == part then 1 else 0;
            var f := WalkOf(TwiceBelow(disk, part, both, none), height);
            f.Acyclic() && Paths(PostOrder(f, disk)) == [both, part, both, disk]
  {
    TwiceBelowChildren(disk, part, both, none);
    TwiceBelowDescends(disk, part, both, none);
    var f := WalkOf(TwiceBelow(disk, part, both, none), p => if p == disk then 2 else if p == part then 1 else 0);
    WalkOfTwoWays(f, disk, part, both);
  }

  /** An extended partition that is the cleartext device of one of its logical partitions. */
  function Loop(disk: Path, extended: Path, logical: Path, none: Path): World
  {
    [Object(disk, true, true, None, none),
     Object(extended, true, false, Some(PartitionInfo(disk, true, false)), logical),
     Object(logical, true, false, Some(PartitionInfo(disk, false, true)), none)]
  }

  lemma {:induction false} LoopLooksUp(disk: Path, extended: Path, logical: Path, none: Path)
    requires FourPaths(disk, extended, logical, none)
    ensures var w := Loop(disk, extended, logical, none);
            && FindObject(w, disk) == Some(w[0]) && FindObject(w, extended) == Some(w[1]) &&
               FindObject(w, logical) == Some(w[2])
            && FindObject(w, none) == None && UniquePaths(w)
            && (forall o :: o in w <==> o == w[0] || o == w[1] || o == w[2])
            && Cleartext(w, logical) == Some(extended)
  {
    var w := Loop(disk, extended, logical, none);
    InThree(w[0], w[1], w[2]);
    LookUpThree(w[0], w[1], w[2], disk);
    LookUpThree(w[0], w[1], w[2], extended);
    LookUpThree(w[0], w[1], w[2], logical);
    LookUpThree(w[0], w[1], w[2], none);
  }

  lemma {:induction false} LoopHasNoMeasure(disk: Path, extended: Path, logical: Path, none: Path, height: Path -> nat)
    requires FourPaths(disk, extended, logical, none)
    ensures !WalkOf(Loop(disk, extended, logical, none), height).Acyclic()
  {
    var w := Loop(disk, extended, logical, none);
    LoopLooksUp(disk, extended, logical, none);
    assert w[2] in w && InTable(w[2], disk, true);
    assert logical in PartitionChildren(w, extended);
    assert extended in CleartextChild(w, logical);
    var f := WalkOf(w, height);
    assert f.IsChild(extended, logical) && f.IsChild(logical, extended);
  }

  /** There the walk has no measure, so it does not end, although tables and backing devices are
      orderly. */
  lemma {:induction false} TwoRolesMayLoop(disk: Path, extended: Path, logical: Path, none: Path, height: Path -> nat)
    requires FourPaths(disk, extended, logical, none)
    ensures var w := Loop(disk, extended, logical, none);
            && Orderly(w, p => if p == disk then 2 else if p == logical then 1 else 0)
            && !WalkOf(w, height).Acyclic()
  {
    LoopLooksUp(disk, extended, logical, none);
    LoopHasNoMeasure(disk, extended, logical, none, height);
    var w := Loop(disk, extended, logical, none);
    var rank := p => if p == disk then 2 else if p == logical then 1 else 0;
    forall o | o in w
      ensures IsMember(w, o) ==> rank(o.path) < rank(o.partition.value.table)
      ensures (IsContainer(o) ==> o == w[1]) && (IsCleartext(w, o) ==> o == w[1])
    {
      assert o == w[0] || o == w[1] || o == w[2];
    }
    OrderlyWithOne(w, rank, w[1]);
  }

  lemma {:induction false} OrderlyWithOne(w: World, rank: Path -> nat, one: Object)
    requires UniquePaths(w)
    requires forall o :: o in w && IsMember(w, o) ==> rank(o.path) < rank(o.partition.value.table)
    requires forall o :: o in w ==> (IsContainer(o) ==> o == one) && (IsCleartext(w, o) ==> o == one)
    requires one.partition.Some? && !one.partition.value.isContained && rank(one.path) < rank(one.backing)
    ensures Orderly(w, rank)
  {
  }

  // ----- devices that disappear -----

  /** The objects left when some are gone. */
  function WorldMinus(w: World, gone: set<Path>): World
  {
    if w == [] then []
    else (if w[0].path in gone then [] else [w[0]]) + WorldMinus(w[1..], gone)
  }

  lemma {:induction false} WorldMinusNothing(w: World)
    ensures WorldMinus(w, {}) == w
  {
    if w != [] {
      WorldMinusNothing(w[1..]);
    }
  }

  lemma {:induction false} WorldMinusTwice(w: World, gone: set<Path>, more: set<Path>)
    ensures WorldMinus(WorldMinus(w, gone), more) == WorldMinus(w, gone + more)
  {
    if w != [] {
      WorldMinusTwice(w[1..], gone, more);
      var rest := WorldMinus(w[1..], gone);
      assert ([w[0]] + rest)[1..] == rest;
      assert [] + rest == rest;
    }
  }

  lemma {:induction false} FindInMinus(w: World, gone: set<Path>, p: Path)
    requires p !in gone
    ensures FindObject(WorldMinus(w, gone), p) == FindObject(w, p)
  {
    if w != [] {
      FindInMinus(w[1..], gone, p);
      var rest := WorldMinus(w[1..], gone);
      assert ([w[0]] + rest)[1..] == rest;
      assert [] + rest == rest;
    }
  }

  lemma {:induction false} MembersInMinus(w: World, gone: set<Path>, table: Path, contained: bool)
    requires forall m :: m in Members(w, table, contained) ==> m !in gone
    ensures Members(WorldMinus(w, gone), table, contained) == Members(w, table, contained)
  {
    if w != [] {
      MembersCons(w[0], w[1..], table, contained);
      assert w == [w[0]] + w[1..];
      MembersInMinus(w[1..], gone, table, contained);
      var rest := WorldMinus(w[1..], gone);
      MembersCons(w[0], rest, table, contained);
      assert [] + rest == rest;
    }
  }

  lemma {:induction false} MembersCons(o: Object, rest: World, table: Path, contained: bool)
    ensures Members([o] + rest, table, contained) ==
            (if InTable(o, table, contained) then [o.path] else []) + Members(rest, table, contained)
  {
    assert ([o] + rest)[1..] == rest;
  }

  lemma {:induction false} CleartextInMinus(w: World, gone: set<Path>, p: Path)
    requires Cleartext(w, p).Some? ==> Cleartext(w, p).value !in gone
    ensures Cleartext(WorldMinus(w, gone), p) == Cleartext(w, p)
  {
    if w != [] {
      if !(w[0].isBlock && w[0].backing == p) {
        CleartextInMinus(w[1..], gone, p);
      }
      var rest := WorldMinus(w[1..], gone);
      assert ([w[0]] + rest)[1..] == rest;
      assert [] + rest == rest;
    }
  }

  lemma {:induction false} InMinus(w: World, gone: set<Path>, o: Object)
    ensures o in WorldMinus(w, gone) <==> o in w && o.path !in gone
  {
    if w != [] {
      InMinus(w[1..], gone, o);
    }
  }

  /** With its only cleartext device gone, a device is locked. */
  lemma {:induction false} LockedWhenGone(w: World, rank: Path -> nat, gone: set<Path>, p: Path)
    requires WellFormed(w, rank) && FindObject(w, p).Some?
    requires Cleartext(w, p).Some? ==> Cleartext(w, p).value in gone
    ensures Cleartext(WorldMinus(w, gone), p).None?
  {
    var w' := WorldMinus(w, gone);
    if Cleartext(w', p).Some? {
      var o :| o in w' && o.path == Cleartext(w', p).value && o.isBlock && o.backing == p;
      InMinus(w, gone, o);
      var first :| first in w && first.path == Cleartext(w, p).value && first.isBlock && first.backing == p;
      assert IsCleartext(w, o) && IsCleartext(w, first);
      assert false;
    }
  }

  /** What the walk finds below a device does not change while only devices elsewhere go. */
  lemma {:induction false} PartitionsInMinus(w: World, gone: set<Path>, p: Path)
    requires FindObject(w, p).Some? && p !in gone
    requires var o := FindObject(w, p).value;
             IsContainer(o) && IsTable(w, o.partition.value.table) ==> o.partition.value.table !in gone
    requires forall c :: c in PartitionChildren(w, p) ==> c !in gone
    ensures PartitionChildren(WorldMinus(w, gone), p) == PartitionChildren(w, p)
  {
    var o := FindObject(w, p).value;
    var w' := WorldMinus(w, gone);
    FindInMinus(w, gone, p);
    if IsContainer(o) {
      TableInMinus(w, gone, o.partition.value.table);
    }
    match WalkedTable(w, o) {
      case None =>
      case Some((table, contained)) => MembersInMinus(w, gone, table, contained);
    }
  }

  lemma {:induction false} TableInMinus(w: World, gone: set<Path>, table: Path)
    requires IsTable(w, table) ==> table !in gone
    ensures IsTable(WorldMinus(w, gone), table) == IsTable(w, table)
  {
    if table !in gone {
      FindInMinus(w, gone, table);
    } else {
      var w' := WorldMinus(w, gone);
      if FindObject(w', table).Some? {
        InMinus(w, gone, FindObject(w', table).value);
      }
    }
  }
}
