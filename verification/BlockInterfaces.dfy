/** Which D-Bus interfaces a block object exports, and how uevents keep them up to date. */
module BlockInterfaces {
  import opened OptionType

  type ModuleType = nat

  datatype DevType = Disk | Partition | OtherType

  /** The udev properties of a device that the checks look at. */
  datatype Device = Device(
    devType: DevType, name: string, fsUsage: Option<string>, fsType: Option<string>,
    hasPartTableType: bool, hasPartEntryScheme: bool, isNvme: bool, hasNsid: bool)

  datatype MountType = MountedFilesystem | MountedSwap

  /** Everything else a uevent is processed against: mounts, the drive (whether it reports media
      changes), the kernel's partitions, what looks encrypted, and the modules. `creates` says
      whether a module wants an interface, `drops` whether an existing one no longer wants to stay. */
  datatype World = World(
    inUse: Option<MountType>, mediaChangeDetected: Option<bool>, partitionedByKernel: bool, seemsEncrypted: bool,
    modules: seq<seq<ModuleType>>, creates: ModuleType -> bool, drops: ModuleType -> bool)

  datatype Interface =
    | Block | Filesystem | Swapspace | Encrypted | Loop | PartitionTable | PartitionIface | NVMeNamespace
    | FromModule(moduleType: ModuleType)

  /** The id_usage and id_type properties of the Block interface. */
  datatype Ids = Ids(usage: Option<string>, kind: Option<string>)

  predicate IsCrypto(ids: Ids, kind: string)
  {
    ids.usage == Some("crypto") && ids.kind == Some(kind)
  }

  predicate HasPrefix(s: string, prefix: string)
  {
    prefix <= s
  }

  // ----- the checks -----

  predicate PartitionTableCheck(d: Device, w: World)
  {
    if d.devType != Disk then false
    else if d.hasPartTableType then !(d.fsUsage == Some("filesystem") && !w.partitionedByKernel)
    else w.partitionedByKernel
  }

  predicate DriveDoesNotDetectMediaChange(w: World)
  {
    w.mediaChangeDetected == Some(false)
  }

  predicate ContainsFilesystem(d: Device, w: World, ids: Ids)
  {
    || DriveDoesNotDetectMediaChange(w)
    || (ids.usage == Some("filesystem") && !(d.devType == Disk && w.partitionedByKernel))
    || w.inUse == Some(MountedFilesystem)
  }

  predicate SwapspaceCheck(w: World, ids: Ids)
  {
    (ids.usage == Some("other") && ids.kind == Some("swap")) || w.inUse == Some(MountedSwap)
  }

  predicate EncryptedCheck(ids: Ids)
  {
    IsCrypto(ids, "crypto_LUKS") || IsCrypto(ids, "crypto_TCRYPT") || IsCrypto(ids, "BitLocker") ||
      IsCrypto(ids, "crypto_unknown")
  }

  predicate Check(i: Interface, d: Device, w: World, ids: Ids)
  {
    match i
    case Block => true
    case Filesystem => ContainsFilesystem(d, w, ids)
    case Swapspace => SwapspaceCheck(w, ids)
    case Encrypted => EncryptedCheck(ids)
    case Loop => HasPrefix(d.name, "loop") && d.devType == Disk
    case PartitionTable => PartitionTableCheck(d, w)
    case PartitionIface => d.devType == Partition || d.hasPartEntryScheme
    case NVMeNamespace => d.isNvme && d.hasNsid
    case FromModule(_) => false
  }

  // ----- the updates that write what the checks read -----

  /** udisks_linux_block_update. */
  function BlockUpdate(d: Device, w: World): Ids
  {
    if w.seemsEncrypted then Ids(Some("crypto"), Some("crypto_unknown")) else Ids(d.fsUsage, d.fsType)
  }

  /** udisks_linux_encrypted_update: an unknown type becomes TCRYPT when the hint says so. */
  function EncryptedUpdate(ids: Ids, hint: string): Ids
  {
    if IsCrypto(ids, "crypto_unknown") && hint == "TCRYPT" then ids.(kind := Some("crypto_TCRYPT")) else ids
  }

  /** The rewrite comes after most checks have been made, but changes none of their answers. */
  lemma {:induction false} RewriteKeepsChecks(i: Interface, d: Device, w: World, ids: Ids, hint: string)
    ensures Check(i, d, w, EncryptedUpdate(ids, hint)) == Check(i, d, w, ids)
  {
    var ids' := EncryptedUpdate(ids, hint);
    if ids' != ids {
      assert "crypto"[0] != "filesystem"[0] && "crypto"[0] != "other"[0];
    }
  }

  // ----- the module table -----

  function AfterType(w: World, table: set<ModuleType>, t: ModuleType): set<ModuleType>
  {
    if t in table then (if w.drops(t) then table - {t} else table)
    else if w.creates(t) then table + {t} else table
  }

  function AfterTypes(w: World, table: set<ModuleType>, types: seq<ModuleType>): set<ModuleType>
  {
    if types == [] then table else AfterType(w, AfterTypes(w, table, types[..|types| - 1]), types[|types| - 1])
  }

  function Types(modules: seq<seq<ModuleType>>): seq<ModuleType>
  {
    if modules == [] then [] else Types(modules[..|modules| - 1]) + modules[|modules| - 1]
  }

  // ----- the object -----

  /** `hint` is the hint_encryption_type of the Encrypted interface, if there is one. */
  datatype State = State(device: Device, ids: Ids, hint: string, core: set<Interface>, modules: set<ModuleType>)

  function Exported(s: State): set<Interface>
  {
    s.core + set t <- s.modules :: FromModule(t)
  }

  const CORE: set<Interface> := {Block, Filesystem, Swapspace, Encrypted, Loop, PartitionTable, PartitionIface,
                                 NVMeNamespace}

  predicate ByContents(i: Interface)
  {
    i.Block? || i.Filesystem? || i.Swapspace? || i.Encrypted?
  }

  function CoreOf(d: Device, w: World, ids: Ids): set<Interface>
  {
    set i <- CORE | Check(i, d, w, ids)
  }

  function HintAfter(s: State, d: Device, w: World): string
  {
    if Encrypted in s.core && EncryptedCheck(BlockUpdate(d, w)) then s.hint else ""
  }

  /** The state after a uevent: every check is answered in that same state. */
  function Process(s: State, d: Device, w: World): State
  {
    var hint := HintAfter(s, d, w);
    var ids := EncryptedUpdate(BlockUpdate(d, w), hint);
    State(d, ids, hint, CoreOf(d, w, ids), AfterTypes(w, s.modules, Types(w.modules)))
  }

  class BlockObject {
    var device: Device
    var ids: Ids
    var hint: string
    /** The interface pointers that are not NULL. */
    var core: set<Interface>
    /** The keys of module_ifaces. */
    var moduleIfaces: set<ModuleType>
    /** What the D-Bus object skeleton exports. */
    var exported: set<Interface>

    constructor (device: Device)
      ensures Valid() && Abs() == State(device, Ids(None, None), "", {}, {})
    {
      this.device, ids, hint, core, moduleIfaces, exported := device, Ids(None, None), "", {}, {}, {};
    }

    function Abs(): State
      reads this
    {
      State(device, ids, hint, core, moduleIfaces)
    }

    predicate Valid()
      reads this
    {
      core <= CORE && exported == Exported(Abs()) && (Encrypted !in core ==> hint == "")
    }

    /** The update function of an interface; only two of them write what a check reads. */
    method Update(i: Interface, w: World)
      modifies this`ids
      ensures ids == if i.Block? then BlockUpdate(device, w)
                     else if i.Encrypted? then EncryptedUpdate(old(ids), hint) else old(ids)
    {
      if i.Block? {
        ids := BlockUpdate(device, w);
      } else if i.Encrypted? {
        ids := EncryptedUpdate(ids, hint);
      }
    }

    /** update_iface: creates, updates and exports the interface, or removes it. A new Encrypted
        interface has no hint. */
    method UpdateIface(i: Interface, w: World)
      requires Valid() && i in CORE
      modifies this`ids, this`hint, this`core, this`exported
      ensures Valid()
      ensures forall j :: j in core <==> if j == i then Check(i, device, w, old(ids)) else j in old(core)
      ensures var has := Check(i, device, w, old(ids));
              && hint == (if i == Encrypted && !(has && i in old(core)) then "" else old(hint))
              && ids == (if !has then old(ids) else if i.Block? then BlockUpdate(device, w)
                         else if i.Encrypted? then EncryptedUpdate(old(ids), hint) else old(ids))
    {
      var add := false;
      var has := Check(i, device, w, ids);
      if i !in core {
        if has {
          core := core + {i};
          add := true;
        }
      } else if !has {
        core := core - {i};
        exported := exported - {i};
        if i == Encrypted {
          hint := "";
        }
      }
      if i in core {
        Update(i, w);
        if add {
          exported := exported + {i};
        }
      }
    }

    method UpdateModuleIface(t: ModuleType, w: World)
      requires Valid()
      modifies this`moduleIfaces, this`exported
      ensures Valid() && moduleIfaces == AfterType(w, old(moduleIfaces), t)
    {
      if t in moduleIfaces {
        if w.drops(t) {
          exported := exported - {FromModule(t)};
          moduleIfaces := moduleIfaces - {t};
        }
      } else if w.creates(t) {
        exported := exported + {FromModule(t)};
        moduleIfaces := moduleIfaces + {t};
      }
    }

    /** The interfaces that depend on the contents of the device. */
    method UpdateContents(w: World)
      requires Valid()
      modifies this`ids, this`hint, this`core, this`exported
      ensures Valid()
      ensures hint == HintAfter(old(Abs()), device, w)
      ensures ids == EncryptedUpdate(BlockUpdate(device, w), hint)
      ensures forall i :: ByContents(i) ==> (i in core <==> Check(i, device, w, ids))
    {
      UpdateIface(Block, w);
      UpdateIface(Filesystem, w);
      UpdateIface(Swapspace, w);
      ghost var was := ids;
      UpdateIface(Encrypted, w);
      RewriteKeepsChecks(Filesystem, device, w, was, hint);
      RewriteKeepsChecks(Swapspace, device, w, was, hint);
      RewriteKeepsChecks(Encrypted, device, w, was, hint);
    }

    /** The interfaces that depend on what kind of device it is. */
    method UpdateKinds(w: World)
      requires Valid()
      modifies this`ids, this`hint, this`core, this`exported
      ensures Valid() && ids == old(ids) && hint == old(hint)
      ensures forall i :: ByContents(i) ==> (i in core <==> i in old(core))
      ensures Loop in core <==> Check(Loop, device, w, ids)
      ensures PartitionTable in core <==> Check(PartitionTable, device, w, ids)
      ensures PartitionIface in core <==> Check(PartitionIface, device, w, ids)
      ensures NVMeNamespace in core <==> Check(NVMeNamespace, device, w, ids)
    {
      UpdateIface(Loop, w);
      UpdateIface(PartitionTable, w);
      UpdateIface(PartitionIface, w);
      UpdateIface(NVMeNamespace, w);
    }

    /** The interfaces the daemon implements itself, in the order of the code. */
    method UpdateCore(w: World)
      requires Valid()
      modifies this`ids, this`hint, this`core, this`exported
      ensures Valid()
      ensures hint == HintAfter(old(Abs()), device, w)
      ensures ids == EncryptedUpdate(BlockUpdate(device, w), hint)
      ensures core == CoreOf(device, w, ids)
    {
      UpdateContents(w);
      UpdateKinds(w);
    }

    /** The interfaces of the modules: one loop over the modules, one over the types of each. */
    method UpdateModules(w: World)
      requires Valid()
      modifies this`moduleIfaces, this`exported
      ensures Valid()
      ensures moduleIfaces == AfterTypes(w, old(moduleIfaces), Types(w.modules))
    {
      var l := 0;
      while l < |w.modules|
        invariant 0 <= l <= |w.modules| && Valid()
        invariant moduleIfaces == AfterTypes(w, old(moduleIfaces), Types(w.modules[..l]))
      {
        var types := w.modules[l];
        ghost var before := moduleIfaces;
        var n := 0;
        while n < |types|
          invariant 0 <= n <= |types| && Valid()
          invariant moduleIfaces == AfterTypes(w, before, types[..n])
        {
          UpdateModuleIface(types[n], w);
          assert types[..n + 1][..n] == types[..n];
          n := n + 1;
        }
        assert types[..n] == types;
        assert w.modules[..l + 1][..l] == w.modules[..l];
        AfterTypesConcat(w, old(moduleIfaces), Types(w.modules[..l]), types);
        l := l + 1;
      }
      assert w.modules[..l] == w.modules;
    }

    /** udisks_linux_block_object_uevent; no device means that it has not changed. */
    method Uevent(newDevice: Option<Device>, w: World)
      requires Valid()
      modifies this
      ensures Valid()
      ensures Abs() == Process(old(Abs()), if newDevice.Some? then newDevice.value else old(device), w)
    {
      if newDevice.Some? {
        device := newDevice.value;
      }
      assert Valid();
      UpdateCore(w);
      UpdateModules(w);
    }
  }

  lemma {:induction false} AfterTypesConcat(w: World, table: set<ModuleType>, a: seq<ModuleType>, b: seq<ModuleType>)
    ensures AfterTypes(w, table, a + b) == AfterTypes(w, AfterTypes(w, table, a), b)
    decreases |b|
  {
    if b == [] {
      assert a + b == a;
    } else {
      assert (a + b)[..|a + b| - 1] == a + b[..|b| - 1];
      AfterTypesConcat(w, table, a, b[..|b| - 1]);
    }
  }

  // ----- what is exported -----

  /** What can happen to a block object: a uevent, or a hint set by an unlock call. */
  datatype Event = UeventAt(device: Device, world: World) | HintSet(hint: string)

  function Apply(s: State, e: Event): State
  {
    match e
    case UeventAt(d, w) => Process(s, d, w)
    case HintSet(hint) => if Encrypted in s.core then s.(hint := hint) else s
  }

  function Run(s: State, events: seq<Event>): State
  {
    if events == [] then s else Apply(Run(s, events[..|events| - 1]), events[|events| - 1])
  }

  /** A run up to its last uevent; empty when it has none. */
  function UpToUevent(events: seq<Event>): (r: seq<Event>)
    ensures r <= events
    ensures r != [] ==> r[|r| - 1].UeventAt?
  {
    if events == [] || events[|events| - 1].UeventAt? then events else UpToUevent(events[..|events| - 1])
  }

  lemma {:induction false} LaterHintsChangeTheHint(s: State, events: seq<Event>)
    ensures Run(s, events) == Run(s, UpToUevent(events)).(hint := Run(s, events).hint)
  {
    if events == [] || events[|events| - 1].UeventAt? {
    } else {
      LaterHintsChangeTheHint(s, events[..|events| - 1]);
    }
  }

  /** After any run with a uevent in it, hint changes behind the last one or not, exactly these
      interfaces are exported: those whose check holds for that uevent, and those in the module table.
      It makes no difference whether the check reads the block as it was updated or as it now is. */
  lemma {:induction false} ExportsWhatTheChecksSay(s: State, events: seq<Event>, i: Interface)
    requires UpToUevent(events) != []
    ensures var r, last := Run(s, events), UpToUevent(events)[|UpToUevent(events)| - 1];
            var d, w := last.device, last.world;
            && r.device == d
            && (i in Exported(r) <==>
                 if i.FromModule? then i.moduleType in r.modules else Check(i, d, w, BlockUpdate(d, w)))
            && Check(i, d, w, r.ids) == Check(i, d, w, BlockUpdate(d, w))
  {
    LaterHintsChangeTheHint(s, events);
    var run := UpToUevent(events);
    var last := run[|run| - 1];
    RewriteKeepsChecks(i, last.device, last.world, BlockUpdate(last.device, last.world),
                       HintAfter(Run(s, run[..|run| - 1]), last.device, last.world));
  }

  /** The run without its hint changes. */
  function Uevents(events: seq<Event>): seq<Event>
  {
    if events == [] then []
    else Uevents(events[..|events| - 1]) + if events[|events| - 1].UeventAt? then [events[|events| - 1]] else []
  }

  predicate Unrecognised(ids: Ids)
  {
    IsCrypto(ids, "crypto_unknown") || IsCrypto(ids, "crypto_TCRYPT")
  }

  /** Two states that hints may tell apart: by the hint, and by whether contents that are encrypted in
      an unknown way are called TCRYPT. */
  predicate SameButForHints(a: State, b: State)
  {
    && a.device == b.device && a.core == b.core && a.modules == b.modules
    && (a.ids == b.ids || (Unrecognised(a.ids) && Unrecognised(b.ids)))
  }

  /** Over every run, hints change neither what is exported nor anything else but that. */
  lemma {:induction false} HintsDoNotChangeExports(s: State, events: seq<Event>)
    ensures SameButForHints(Run(s, events), Run(s, Uevents(events)))
    ensures Exported(Run(s, events)) == Exported(Run(s, Uevents(events)))
  {
    if events != [] {
      var before, e := events[..|events| - 1], events[|events| - 1];
      HintsDoNotChangeExports(s, before);
      if e.UeventAt? {
        assert (Uevents(before) + [e])[..|Uevents(before)|] == Uevents(before);
        UeventForgetsHints(Run(s, before), Run(s, Uevents(before)), e.device, e.world);
      } else {
        assert Uevents(before) + [] == Uevents(before);
      }
    }
  }

  lemma {:induction false} UeventForgetsHints(a: State, b: State, d: Device, w: World)
    requires a.core == b.core && a.modules == b.modules
    ensures SameButForHints(Process(a, d, w), Process(b, d, w))
  {
    var ids := BlockUpdate(d, w);
    forall i
      ensures Check(i, d, w, EncryptedUpdate(ids, HintAfter(a, d, w))) ==
              Check(i, d, w, EncryptedUpdate(ids, HintAfter(b, d, w)))
    {
      RewriteKeepsChecks(i, d, w, ids, HintAfter(a, d, w));
      RewriteKeepsChecks(i, d, w, ids, HintAfter(b, d, w));
    }
  }

  /** When a hint does show: the next uevent calls unrecognised encrypted contents TCRYPT exactly
      when the hint says so and the block was exported as encrypted before. */
  lemma {:induction false} HintShowsAtTheNextUevent(s: State, events: seq<Event>, d: Device, w: World)
    ensures var before := Run(s, events);
            Run(s, events + [UeventAt(d, w)]).ids.kind != BlockUpdate(d, w).kind <==>
            IsCrypto(BlockUpdate(d, w), "crypto_unknown") && Encrypted in before.core && before.hint == "TCRYPT"
  {
    assert (events + [UeventAt(d, w)])[..|events|] == events;
    assert "crypto_unknown"[7] != "crypto_TCRYPT"[7];
  }

  /** A whole disk is exported both as a file system and as a partition table exactly when it looks
      like a partition table and its drive cannot tell when the medium changes, or it is mounted. */
  lemma {:induction false} FilesystemAndPartitionTable(s: State, d: Device, w: World)
    requires d.devType == Disk
    ensures var e := Exported(Process(s, d, w));
            Filesystem in e && PartitionTable in e <==>
            PartitionTableCheck(d, w) && (DriveDoesNotDetectMediaChange(w) || w.inUse == Some(MountedFilesystem))
  {
    var ids := BlockUpdate(d, w);
    RewriteKeepsChecks(Filesystem, d, w, ids, HintAfter(s, d, w));
    assert "crypto"[0] != "filesystem"[0];
  }

  // ----- processing a uevent again -----

  function CountOf(types: seq<ModuleType>, t: ModuleType): nat
  {
    if types == [] then 0 else CountOf(types[..|types| - 1], t) + (if types[|types| - 1] == t then 1 else 0)
  }

  predicate Flips(w: World, t: ModuleType)
  {
    w.creates(t) && w.drops(t)
  }

  /** The interfaces of the daemon itself after a uevent, by the device and the world around it. */
  lemma {:induction false} ExportedByDevice(s: State, d: Device, w: World)
    ensures var after := Exported(Process(s, d, w));
            && Block in after
            && (Loop in after <==> "loop" <= d.name && d.devType == Disk)
            && (PartitionIface in after <==> d.devType == Partition || d.hasPartEntryScheme)
            && (NVMeNamespace in after <==> d.isNvme && d.hasNsid)
            && (PartitionTable in after <==>
                d.devType == Disk &&
                if d.hasPartTableType then d.fsUsage != Some("filesystem") || w.partitionedByKernel
                else w.partitionedByKernel)
  {
    assert forall i :: i in CORE ==> (i in Exported(Process(s, d, w)) <==> i in Process(s, d, w).core);
  }

  /** And those that depend on its contents: a device that looks encrypted has none but encrypted ones. */
  lemma {:induction false} ExportedByContents(s: State, d: Device, w: World)
    ensures var after := Exported(Process(s, d, w));
            && (Filesystem in after <==>
                || w.mediaChangeDetected == Some(false)
                || (!w.seemsEncrypted && d.fsUsage == Some("filesystem") &&
                    !(d.devType == Disk && w.partitionedByKernel))
                || w.inUse == Some(MountedFilesystem))
            && (Swapspace in after <==>
                (!w.seemsEncrypted && d.fsUsage == Some("other") && d.fsType == Some("swap")) ||
                  w.inUse == Some(MountedSwap))
            && (Encrypted in after <==>
                w.seemsEncrypted ||
                (d.fsUsage == Some("crypto") && d.fsType.Some? &&
                 d.fsType.value in {"crypto_LUKS", "crypto_TCRYPT", "BitLocker", "crypto_unknown"}))
  {
    var ids, hint := BlockUpdate(d, w), HintAfter(s, d, w);
    RewriteKeepsChecks(Filesystem, d, w, ids, hint);
    RewriteKeepsChecks(Swapspace, d, w, ids, hint);
    RewriteKeepsChecks(Encrypted, d, w, ids, hint);
    assert forall i :: i in CORE ==> (i in Exported(Process(s, d, w)) <==> i in Process(s, d, w).core);
    assert "crypto"[0] != "filesystem"[0] && "crypto"[0] != "other"[0];
  }

  /** Membership of a type after a run over the types: it settles, or it flips every time. */
  lemma {:induction false} Membership(w: World, table: set<ModuleType>, types: seq<ModuleType>, t: ModuleType)
    ensures t in AfterTypes(w, table, types) <==>
            if CountOf(types, t) == 0 then t in table
            else if Flips(w, t) then (t in table) == (CountOf(types, t) % 2 == 0)
            else if t in table then !w.drops(t) else w.creates(t)
    decreases |types|
  {
    if types != [] {
      Membership(w, table, types[..|types| - 1], t);
    }
  }

  lemma {:induction false} CountIsMembership(types: seq<ModuleType>, t: ModuleType)
    ensures t in types <==> CountOf(types, t) > 0
  {
    if types != [] {
      CountIsMembership(types[..|types| - 1], t);
    }
  }

  /** Processing the same uevent again in an unchanged world changes nothing, exactly when no module
      type that is both wanted and unwanted is listed an odd number of times. */
  lemma {:induction false} ReprocessingChangesNothing(s: State, d: Device, w: World)
    ensures Process(Process(s, d, w), d, w) == Process(s, d, w) <==>
            forall t :: t in Types(w.modules) && Flips(w, t) ==> CountOf(Types(w.modules), t) % 2 == 0
  {
    var types := Types(w.modules);
    var once := AfterTypes(w, s.modules, types);
    var twice := AfterTypes(w, once, types);
    forall t
      ensures (t in once) == (t in twice) <==> (t in types && Flips(w, t) ==> CountOf(types, t) % 2 == 0)
    {
      Membership(w, s.modules, types, t);
      Membership(w, once, types, t);
      CountIsMembership(types, t);
    }
    if forall t :: t in types && Flips(w, t) ==> CountOf(types, t) % 2 == 0 {
      assert twice == once;
    }
    CoreReprocessed(s, d, w);
  }

  lemma {:induction false} CoreReprocessed(s: State, d: Device, w: World)
    ensures var r := Process(s, d, w);
            && HintAfter(r, d, w) == r.hint
            && Process(r, d, w).(modules := r.modules) == r
  {
    var hint := HintAfter(s, d, w);
    RewriteKeepsChecks(Encrypted, d, w, BlockUpdate(d, w), hint);
  }

  /** A single module type that is always wanted and always unwanted: every uevent flips it. */
  lemma {:induction false} FlippingTypeNeverSettles(s: State, d: Device, w: World, t: ModuleType)
    requires w.modules == [[t]] && w.creates(t) && w.drops(t)
    ensures Process(Process(s, d, w), d, w) != Process(s, d, w)
    ensures t in Process(s, d, w).modules <==> t !in s.modules
  {
    assert Types([[t]]) == [t] && [t][..0] == [];
    assert CountOf([t], t) == 1;
    ReprocessingChangesNothing(s, d, w);
    Membership(w, s.modules, [t], t);
  }
}
