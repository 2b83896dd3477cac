/** The devices of a drive object (a multipath drive has several): a list that uevents replace in,
    append to and delete from, refining a map from sysfs path to latest device in order of arrival. */
module DriveDevices {
  import opened OptionType
  import opened Sequences

  type SysfsPath = string

  /** `revision` stands for everything the udev device says besides its path. */
  datatype Device = Device(path: SysfsPath, revision: nat)

  datatype Action = Add | Change | Remove | Reconfigure | Other

  /** A uevent; no device means that it has not changed. */
  datatype Uevent = Uevent(action: Action, device: Option<Device>)

  /** Position of the first device with this path. */
  function Find(devices: seq<Device>, path: SysfsPath): (r: Option<nat>)
    ensures r.Some? ==> r.value < |devices| && devices[r.value].path == path
                        && forall i :: 0 <= i < r.value ==> devices[i].path != path
    ensures r.None? ==> forall i :: 0 <= i < |devices| ==> devices[i].path != path
  {
    if devices == [] then None
    else if devices[0].path == path then Some(0)
    else match Find(devices[1..], path) case None => None case Some(i) => Some(i + 1)
  }

  function Apply(devices: seq<Device>, e: Uevent): seq<Device>
  {
    match e.device
    case None => devices
    case Some(device) =>
      match Find(devices, device.path)
      case Some(i) => if e.action.Remove? then Without(devices, i) else devices[i := device]
      case None => if e.action.Remove? then devices else devices + [device]
  }

  class DriveObject {
    var devices: seq<Device>

    constructor ()
      ensures devices == []
    {
      devices := [];
    }

    /** find_link_for_sysfs_path. */
    method FindLink(path: SysfsPath) returns (r: Option<nat>)
      ensures r == Find(devices, path)
    {
      var l := 0;
      while l < |devices|
        invariant 0 <= l <= |devices|
        invariant Find(devices, path) == match Find(devices[l..], path) case None => None case Some(i) => Some(l + i)
      {
        assert devices[l..][1..] == devices[l + 1..];
        if devices[l].path == path {
          return Some(l);
        }
        l := l + 1;
      }
      return None;
    }

    /** The device list part of udisks_linux_drive_object_uevent. */
    method ProcessUevent(action: Action, device: Option<Device>) returns (warned: bool)
      modifies this
      ensures devices == Apply(old(devices), Uevent(action, device))
      ensures warned <==> action.Remove? && (device.None? || Find(old(devices), device.value.path).None?)
    {
      var link: Option<nat> := None;
      warned := false;
      if device.Some? {
        link := FindLink(device.value.path);
      }
      if action.Remove? {
        if link.Some? {
          devices := devices[..link.value] + devices[link.value + 1..];
        } else {
          warned := true;
        }
      } else if link.Some? {
        devices := devices[link.value := device.value];
      } else if device.Some? {
        devices := devices + [device.value];
      }
    }
  }

  // ----- what a run of uevents means -----

  function Run(events: seq<Uevent>): seq<Device>
  {
    if events == [] then [] else Apply(Run(events[..|events| - 1]), events[|events| - 1])
  }

  predicate Concerns(e: Uevent, path: SysfsPath)
  {
    e.device.Some? && e.device.value.path == path
  }

  /** The latest device with a path, unless it has been removed since. */
  function Latest(events: seq<Uevent>, path: SysfsPath): Option<Device>
  {
    if events == [] then None
    else
      var e := events[|events| - 1];
      if Concerns(e, path) then (if e.action.Remove? then None else e.device)
      else Latest(events[..|events| - 1], path)
  }

  /** When a path that is present arrived: the position of the first uevent for it since it was
      last absent. */
  function Arrival(events: seq<Uevent>, path: SysfsPath): (at: nat)
    requires Latest(events, path).Some?
    ensures at < |events|
  {
    var before := events[..|events| - 1];
    if Latest(before, path).None? then |events| - 1 else Arrival(before, path)
  }

  /** Every entry is the latest device with its path. */
  ghost predicate Current(devices: seq<Device>, events: seq<Uevent>)
  {
    forall i :: 0 <= i < |devices| ==> Latest(events, devices[i].path) == Some(devices[i])
  }

  /** Earlier arrivals come first; so no path appears twice. */
  ghost predicate InOrder(devices: seq<Device>, events: seq<Uevent>)
    requires Current(devices, events)
  {
    forall i, j :: 0 <= i < j < |devices| ==> Arrival(events, devices[i].path) < Arrival(events, devices[j].path)
  }

  ghost predicate Lists(devices: seq<Device>, path: SysfsPath)
  {
    exists i :: 0 <= i < |devices| && devices[i].path == path
  }

  /** The list of an insertion-ordered map. */
  ghost predicate Represents(devices: seq<Device>, events: seq<Uevent>)
  {
    && Current(devices, events) && InOrder(devices, events)
    && forall path :: Latest(events, path).Some? ==> Lists(devices, path)
  }

  lemma {:induction false} Snoc(events: seq<Uevent>, e: Uevent, path: SysfsPath)
    ensures Latest(events + [e], path) ==
            if Concerns(e, path) then (if e.action.Remove? then None else e.device) else Latest(events, path)
    ensures Latest(events + [e], path).Some? ==>
            Arrival(events + [e], path) == if Latest(events, path).None? then |events| else Arrival(events, path)
  {
    assert (events + [e])[..|events|] == events;
  }

  lemma {:induction false} NoPathTwice(devices: seq<Device>, events: seq<Uevent>, i: nat, j: nat)
    requires Current(devices, events) && InOrder(devices, events) && i < j < |devices|
    ensures devices[i].path != devices[j].path
  {
    assert Arrival(events, devices[i].path) < Arrival(events, devices[j].path);
  }

  lemma {:induction false} NoChange(devices: seq<Device>, events: seq<Uevent>, e: Uevent)
    requires Represents(devices, events)
    requires e.device.None? || (e.action.Remove? && Find(devices, e.device.value.path).None?)
    ensures Represents(devices, events + [e])
  {
    forall path {
      Snoc(events, e, path);
    }
  }

  lemma {:induction false} OthersRemain(devices: seq<Device>, events: seq<Uevent>, e: Uevent, i: nat, j: nat)
    requires Represents(devices, events)
    requires e.action.Remove? && e.device.Some? && Find(devices, e.device.value.path) == Some(i)
    requires j < |devices| && j != i
    ensures Latest(events + [e], devices[j].path) == Some(devices[j])
    ensures Arrival(events + [e], devices[j].path) == Arrival(events, devices[j].path)
  {
    Snoc(events, e, devices[j].path);
    NoPathTwice(devices, events, if j < i then j else i, if j < i then i else j);
  }

  lemma {:induction false} Removal(devices: seq<Device>, events: seq<Uevent>, e: Uevent, i: nat)
    requires Represents(devices, events)
    requires e.action.Remove? && e.device.Some? && Find(devices, e.device.value.path) == Some(i)
    ensures Represents(Without(devices, i), events + [e])
  {
    var after := Without(devices, i);
    WithoutAt(devices, i);
    forall j | 0 <= j < |devices| && j != i
      ensures Latest(events + [e], devices[j].path) == Some(devices[j])
      ensures Arrival(events + [e], devices[j].path) == Arrival(events, devices[j].path)
    {
      OthersRemain(devices, events, e, i, j);
    }
    assert Current(after, events + [e]);
    assert InOrder(after, events + [e]);
    forall path | Latest(events + [e], path).Some? ensures Lists(after, path) {
      Snoc(events, e, path);
      var j :| 0 <= j < |devices| && devices[j].path == path;
      assert after[if j < i then j else j - 1] == devices[j];
    }
  }

  lemma {:induction false} Replacement(devices: seq<Device>, events: seq<Uevent>, e: Uevent, i: nat)
    requires Represents(devices, events)
    requires !e.action.Remove? && e.device.Some? && Find(devices, e.device.value.path) == Some(i)
    ensures Represents(devices[i := e.device.value], events + [e])
  {
    var after := devices[i := e.device.value];
    forall j | 0 <= j < |after|
      ensures Latest(events + [e], after[j].path) == Some(after[j])
      ensures after[j].path == devices[j].path &&
              Arrival(events + [e], after[j].path) == Arrival(events, devices[j].path)
    {
      Snoc(events, e, devices[j].path);
      if j < i {
        NoPathTwice(devices, events, j, i);
      } else if i < j {
        NoPathTwice(devices, events, i, j);
      }
    }
    forall path | Latest(events + [e], path).Some? ensures Lists(after, path) {
      Snoc(events, e, path);
      if path == after[i].path {
      } else {
        var j :| 0 <= j < |devices| && devices[j].path == path;
        assert after[j].path == path;
      }
    }
  }

  lemma {:induction false} Appending(devices: seq<Device>, events: seq<Uevent>, e: Uevent)
    requires Represents(devices, events)
    requires !e.action.Remove? && e.device.Some? && Find(devices, e.device.value.path).None?
    ensures Represents(devices + [e.device.value], events + [e])
  {
    var after := devices + [e.device.value];
    assert Latest(events, e.device.value.path).None? by {
      assert !Lists(devices, e.device.value.path);
    }
    forall j | 0 <= j < |after|
      ensures Latest(events + [e], after[j].path) == Some(after[j])
      ensures Arrival(events + [e], after[j].path) ==
              if j < |devices| then Arrival(events, devices[j].path) else |events|
    {
      Snoc(events, e, after[j].path);
    }
    forall path | Latest(events + [e], path).Some? ensures Lists(after, path) {
      Snoc(events, e, path);
      if path == e.device.value.path {
        assert after[|devices|].path == path;
      } else {
        var j :| 0 <= j < |devices| && devices[j].path == path;
        assert after[j].path == path;
      }
    }
  }

  /** Over every run: no path appears twice, the device kept for a path is the latest one, a removed
      path is gone and nothing else, and the order is the order of arrival, which a replacement
      keeps. */
  lemma {:induction false} ListIsAnOrderedMap(events: seq<Uevent>)
    ensures Represents(Run(events), events)
  {
    if events != [] {
      var before, e := events[..|events| - 1], events[|events| - 1];
      ListIsAnOrderedMap(before);
      assert before + [e] == events;
      if e.device.None? {
        NoChange(Run(before), before, e);
      } else {
        var link := Find(Run(before), e.device.value.path);
        if link.None? && e.action.Remove? {
          NoChange(Run(before), before, e);
        } else if link.None? {
          Appending(Run(before), before, e);
        } else if e.action.Remove? {
          Removal(Run(before), before, e, link.value);
        } else {
          Replacement(Run(before), before, e, link.value);
        }
      }
    }
  }

  /** The entry after a common prefix is not within the prefix of the other list. */
  lemma {:induction false} EntryBehind(events: seq<Uevent>, a: seq<Device>, b: seq<Device>, n: nat) returns (i: nat)
    requires Represents(a, events) && Represents(b, events) && n < |a| && n <= |b| && a[..n] == b[..n]
    ensures n <= i < |b| && b[i] == a[n]
  {
    assert Lists(b, a[n].path);
    i :| 0 <= i < |b| && b[i].path == a[n].path;
    if i < n {
      assert a[..n][i] == b[..n][i];
      NoPathTwice(a, events, i, n);
    }
  }

  lemma {:induction false} PrefixesAgree(events: seq<Uevent>, a: seq<Device>, b: seq<Device>, k: nat)
    requires Represents(a, events) && Represents(b, events) && k <= |a| && k <= |b|
    ensures a[..k] == b[..k]
    decreases k
  {
    if k > 0 {
      var n := k - 1;
      PrefixesAgree(events, a, b, n);
      var i := EntryBehind(events, a, b, n);
      var j := EntryBehind(events, b, a, n);
      assert a[..k] == a[..n] + [a[n]] && b[..k] == b[..n] + [b[n]];
    }
  }

  /** That determines the list: no other one represents the same run. */
  lemma {:induction false} ListIsDetermined(events: seq<Uevent>, a: seq<Device>, b: seq<Device>)
    requires Represents(a, events) && Represents(b, events)
    ensures a == b
  {
    var n := if |a| < |b| then |a| else |b|;
    PrefixesAgree(events, a, b, n);
    if |a| < |b| {
      var i := EntryBehind(events, b, a, n);
    } else if |b| < |a| {
      var i := EntryBehind(events, a, b, n);
    }
  }
}
