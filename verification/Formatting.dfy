/** Formatting a block device: which steps are attempted, in which order, the one reply, and the
    locks, whichever step fails and whether or not the call completes early. */
module Formatting {
  import opened OptionType
  import opened Sequences
  import opened LockDiscipline

  datatype Kind = PartitionTable | Empty | Filesystem

  /** What the block device library says about the file system type. */
  datatype Features = Features(dryRun: bool, uuidAtMkfs: bool, owners: bool)

  datatype Request = Request(
    kind: Kind, features: Option<Features>, canSetUuid: bool,
    tearDown: bool, dryRunFirst: bool, encrypt: bool, noBlock: bool, erase: bool,
    setUuid: bool, updatePartitionType: bool, takeOwnership: bool, configItems: bool)

  /** `hasTable` says whether the partition's table is exported. */
  datatype Device = Device(block: Block, isPartition: bool, hasTable: bool)

  datatype Step =
    | FindObject | CheckPartition | GetCaller | GetUser | PreChecks | Authorize
    | TearDown | Wipe | DryRun | CreateLuks | CompleteEarly
    | Erase | MakeTable | CleanCleartext | Mkfs | SetUuid | SetPartitionType | AwaitFilesystem
    | TakeOwnership | AddConfigItems

  /** The only order in which the steps may happen. */
  function StepAt(n: nat): Step
    requires n < END
  {
    if n == 0 then FindObject
    else if n == 1 then CheckPartition
    else if n == 2 then GetCaller
    else if n == 3 then GetUser
    else if n == 4 then PreChecks
    else if n == 5 then Authorize
    else if n == 6 then TearDown
    else if n == 7 then Wipe
    else if n == 8 then DryRun
    else if n == 9 then CreateLuks
    else if n == 10 then CompleteEarly
    else if n == 11 then Erase
    else if n == 12 then MakeTable
    else if n == 13 then CleanCleartext
    else if n == 14 then Mkfs
    else if n == 15 then SetUuid
    else if n == 16 then SetPartitionType
    else if n == 17 then AwaitFilesystem
    else if n == 18 then TakeOwnership
    else AddConfigItems
  }

  const END: nat := 20

  function Rank(step: Step): (n: nat)
    ensures n < END && StepAt(n) == step
  {
    match step
    case FindObject => 0
    case CheckPartition => 1
    case GetCaller => 2
    case GetUser => 3
    case PreChecks => 4
    case Authorize => 5
    case TearDown => 6
    case Wipe => 7
    case DryRun => 8
    case CreateLuks => 9
    case CompleteEarly => 10
    case Erase => 11
    case MakeTable => 12
    case CleanCleartext => 13
    case Mkfs => 14
    case SetUuid => 15
    case SetPartitionType => 16
    case AwaitFilesystem => 17
    case TakeOwnership => 18
    case AddConfigItems => 19
  }

  lemma RankOfOrder(n: nat)
    requires n < END
    ensures Rank(StepAt(n)) == n
  {
  }

  /** How every step turns out. `cleaned` is the wipe itself, `ok(Wipe)` the wait after it. */
  datatype Env = Env(ok: Step -> bool, teardown: seq<(Block, JobEnv)>, cleaned: bool, luks: LuksEnv)

  /** One call of Format. */
  datatype Call = Call(dev: Device, req: Request, env: Env)
  {
    predicate Succeeds(step: Step)
    {
      match step
      case Wipe => env.cleaned && env.ok(Wipe)
      case CreateLuks => LuksOk(env.luks)
      case CompleteEarly => true
      case _ => env.ok(step)
    }

    /** The steps this call asks for. */
    predicate Wanted(step: Step)
    {
      var features := req.features;
      match step
      case CheckPartition => dev.isPartition
      case TearDown => req.tearDown
      case DryRun => req.dryRunFirst && features.Some? && features.value.dryRun
      case CreateLuks => req.encrypt
      case CompleteEarly => req.noBlock
      case Erase => req.erase
      case MakeTable => req.kind.PartitionTable?
      case CleanCleartext => req.kind.Empty? && req.encrypt
      case Mkfs => req.kind.Filesystem?
      case SetUuid => req.setUuid && features.Some? && !features.value.uuidAtMkfs && req.canSetUuid
      case SetPartitionType => req.updatePartitionType && dev.isPartition && dev.hasTable
      case TakeOwnership => req.takeOwnership && features.Some? && features.value.owners
      case AddConfigItems => req.configItems
      case _ => true
    }

    /** Every wanted step among the first `n` succeeds. */
    predicate OkBefore(n: nat)
      requires n <= END
    {
      n == 0 || (OkBefore(n - 1) && (Wanted(StepAt(n - 1)) ==> Succeeds(StepAt(n - 1))))
    }

    /** The steps attempted among the first `n`: the wanted ones, up to and including the first
        that fails. */
    function Done(n: nat): seq<Step>
      requires n <= END
    {
      if n == 0 then []
      else Done(n - 1) + (if Wanted(StepAt(n - 1)) && OkBefore(n - 1) then [StepAt(n - 1)] else [])
    }

    /** The one reply: an early one tells only about the steps before it. */
    function TheReply(): Reply
    {
      if OkBefore(if req.noBlock then Rank(CompleteEarly) else END) then Completed else Failed
    }

    /** The lock and wait steps of this call, as the lock discipline describes them. */
    function Locking(): FormatEnv
    {
      FormatEnv(
        if OkBefore(Rank(TearDown)) && req.tearDown then env.teardown else [],
        OkBefore(Rank(Wipe)), env.cleaned, env.ok(Wipe),
        if req.encrypt && OkBefore(Rank(CreateLuks)) then Some(env.luks) else None,
        OkBefore(Rank(AwaitFilesystem)))
    }
  }

  // ----- what is attempted -----

  lemma {:induction false} OkBeforeIsMonotone(c: Call, m: nat, n: nat)
    requires m <= n <= END
    ensures c.OkBefore(n) ==> c.OkBefore(m)
    decreases n
  {
    if m < n {
      OkBeforeIsMonotone(c, m, n - 1);
    }
  }

  lemma {:induction false} DoneSnoc(c: Call, n: nat)
    requires n < END
    ensures c.Done(n + 1) == c.Done(n) + (if c.Wanted(StepAt(n)) && c.OkBefore(n) then [StepAt(n)] else [])
    ensures Rank(StepAt(n)) == n
  {
    RankOfOrder(n);
  }

  lemma {:induction false} DoneStays(c: Call, n: nat)
    requires n < END && !c.OkBefore(n)
    ensures c.Done(n + 1) == c.Done(n)
  {
    DoneSnoc(c, n);
    assert c.Done(n) + [] == c.Done(n);
  }

  lemma {:induction false} NothingAfterAFailure(c: Call, m: nat, n: nat)
    requires m <= n <= END && !c.OkBefore(m)
    ensures c.Done(n) == c.Done(m)
    decreases n
  {
    if m < n {
      NothingAfterAFailure(c, m, n - 1);
      OkBeforeIsMonotone(c, m, n - 1);
      DoneStays(c, n - 1);
    }
  }

  lemma {:induction false} DoneIsBelow(c: Call, n: nat, i: nat)
    requires n <= END && i < |c.Done(n)|
    ensures Rank(c.Done(n)[i]) < n
    ensures c.Wanted(c.Done(n)[i]) && c.OkBefore(Rank(c.Done(n)[i]))
  {
    DoneSnoc(c, n - 1);
    if i < |c.Done(n - 1)| {
      DoneIsBelow(c, n - 1, i);
    }
  }

  /** Steps are attempted at most once and only in the one order. */
  lemma {:induction false} StepsAreInOrder(c: Call, n: nat, i: nat, j: nat)
    requires n <= END && i < j < |c.Done(n)|
    ensures Rank(c.Done(n)[i]) < Rank(c.Done(n)[j])
  {
    DoneSnoc(c, n - 1);
    if j < |c.Done(n - 1)| {
      StepsAreInOrder(c, n - 1, i, j);
    } else {
      DoneIsBelow(c, n - 1, i);
    }
  }

  lemma {:induction false} DoneContains(c: Call, n: nat, step: Step)
    requires Rank(step) < n <= END && c.Wanted(step) && c.OkBefore(Rank(step))
    ensures step in c.Done(n)
    decreases n
  {
    if Rank(step) < n - 1 {
      DoneContains(c, n - 1, step);
    }
  }

  lemma {:induction false} OkBeforeMeans(c: Call, n: nat, step: Step)
    requires Rank(step) < n <= END && c.OkBefore(n) && c.Wanted(step)
    ensures c.Succeeds(step)
    decreases n
  {
    if Rank(step) < n - 1 {
      OkBeforeMeans(c, n - 1, step);
    }
  }

  lemma {:induction false} FirstFailure(c: Call, n: nat) returns (step: Step)
    requires n <= END && !c.OkBefore(n)
    ensures Rank(step) < n && c.Wanted(step) && !c.Succeeds(step)
  {
    if c.OkBefore(n - 1) {
      RankOfOrder(n - 1);
      step := StepAt(n - 1);
    } else {
      step := FirstFailure(c, n - 1);
    }
  }

  /** A step is attempted exactly when it is wanted and every wanted step that comes before it in
      the order has succeeded. */
  lemma {:induction false} StepIsAttempted(c: Call, step: Step)
    ensures step in c.Done(END) <==>
            c.Wanted(step) && forall s: Step :: Rank(s) < Rank(step) && c.Wanted(s) ==> c.Succeeds(s)
  {
    if c.Wanted(step) && c.OkBefore(Rank(step)) {
      DoneContains(c, END, step);
      forall s: Step | Rank(s) < Rank(step) && c.Wanted(s) ensures c.Succeeds(s) {
        OkBeforeMeans(c, Rank(step), s);
      }
    } else {
      if step in c.Done(END) {
        var i :| 0 <= i < |c.Done(END)| && c.Done(END)[i] == step;
        DoneIsBelow(c, END, i);
        assert false;
      }
      if c.Wanted(step) {
        var s := FirstFailure(c, Rank(step));
      }
    }
  }

  // ----- what the request says -----

  /** Every check has passed, the refusal of hybrid partitions and the authorization included. */
  predicate Checked(c: Call)
  {
    && c.env.ok(FindObject) && (c.dev.isPartition ==> c.env.ok(CheckPartition)) && c.env.ok(GetCaller)
    && c.env.ok(GetUser) && c.env.ok(PreChecks) && c.env.ok(Authorize)
  }

  predicate TornDown(c: Call)
  {
    Checked(c) && (c.req.tearDown ==> c.env.ok(TearDown))
  }

  predicate Wiped(c: Call)
  {
    TornDown(c) && c.env.cleaned && c.env.ok(Wipe)
  }

  predicate HasDryRun(c: Call)
  {
    c.req.dryRunFirst && c.req.features.Some? && c.req.features.value.dryRun
  }

  predicate DryRunPassed(c: Call)
  {
    Wiped(c) && (HasDryRun(c) ==> c.env.ok(DryRun))
  }

  /** There is a device to make the contents on. */
  predicate TargetReady(c: Call)
  {
    var luks := c.env.luks;
    && DryRunPassed(c)
    && (c.req.encrypt ==> && luks.create.jobOk && luks.create.waitOk && luks.nameOk
                          && luks.open.jobOk && luks.open.waitOk && luks.isBlock)
  }

  predicate Erased(c: Call)
  {
    TargetReady(c) && (c.req.erase ==> c.env.ok(Erase))
  }

  predicate Made(c: Call)
  {
    && Erased(c)
    && match c.req.kind
       case PartitionTable => c.env.ok(MakeTable)
       case Empty => c.req.encrypt ==> c.env.ok(CleanCleartext)
       case Filesystem => c.env.ok(Mkfs)
  }

  predicate NeedsUuid(c: Call)
  {
    c.req.setUuid && c.req.features.Some? && !c.req.features.value.uuidAtMkfs && c.req.canSetUuid
  }

  predicate NeedsType(c: Call)
  {
    c.req.updatePartitionType && c.dev.isPartition && c.dev.hasTable
  }

  predicate Labelled(c: Call)
  {
    Made(c) && (NeedsUuid(c) ==> c.env.ok(SetUuid)) && (NeedsType(c) ==> c.env.ok(SetPartitionType))
  }

  predicate NeedsOwner(c: Call)
  {
    c.req.takeOwnership && c.req.features.Some? && c.req.features.value.owners
  }

  predicate Owned(c: Call)
  {
    Labelled(c) && c.env.ok(AwaitFilesystem) && (NeedsOwner(c) ==> c.env.ok(TakeOwnership))
  }

  predicate Configured(c: Call)
  {
    Owned(c) && (c.req.configItems ==> c.env.ok(AddConfigItems))
  }

  lemma {:induction false} StagesUpToWipe(c: Call)
    ensures c.OkBefore(0) && (c.OkBefore(1) <==> c.env.ok(FindObject))
    ensures c.OkBefore(2) <==> c.OkBefore(1) && (c.dev.isPartition ==> c.env.ok(CheckPartition))
    ensures c.OkBefore(3) <==> c.OkBefore(2) && c.env.ok(GetCaller)
    ensures c.OkBefore(4) <==> c.OkBefore(3) && c.env.ok(GetUser)
    ensures c.OkBefore(5) <==> c.OkBefore(4) && c.env.ok(PreChecks)
    ensures (c.OkBefore(6) <==> Checked(c)) && (c.OkBefore(7) <==> TornDown(c))
  {
  }

  lemma {:induction false} StagesUpToErase(c: Call)
    requires c.OkBefore(7) <==> TornDown(c)
    ensures (c.OkBefore(8) <==> Wiped(c)) && (c.OkBefore(9) <==> DryRunPassed(c))
    ensures (c.OkBefore(10) <==> TargetReady(c)) && (c.OkBefore(11) <==> TargetReady(c))
  {
  }

  lemma {:induction false} StagesUpToMkfs(c: Call)
    requires c.OkBefore(11) <==> TargetReady(c)
    ensures (c.OkBefore(12) <==> Erased(c)) && (c.OkBefore(15) <==> Made(c))
    ensures c.req.kind.Empty? ==> (c.OkBefore(13) <==> Erased(c))
    ensures c.req.kind.Filesystem? ==> (c.OkBefore(14) <==> Erased(c))
  {
    assert c.OkBefore(13) <==> Erased(c) && (c.req.kind.PartitionTable? ==> c.env.ok(MakeTable));
    assert c.OkBefore(14) <==> c.OkBefore(13) && (c.req.kind.Empty? && c.req.encrypt ==> c.env.ok(CleanCleartext));
  }

  lemma {:induction false} StagesUpToTheEnd(c: Call)
    requires c.OkBefore(15) <==> Made(c)
    ensures c.OkBefore(16) <==> Made(c) && (NeedsUuid(c) ==> c.env.ok(SetUuid))
    ensures (c.OkBefore(17) <==> Labelled(c)) && (c.OkBefore(18) <==> Labelled(c) && c.env.ok(AwaitFilesystem))
    ensures (c.OkBefore(19) <==> Owned(c)) && (c.OkBefore(END) <==> Configured(c))
  {
    StagesUpToTheWait(c, Made(c));
    StagesAfterTheWait(c);
  }

  lemma {:induction false} StagesUpToTheWait(c: Call, made: bool)
    requires c.OkBefore(15) <==> made
    ensures c.OkBefore(16) <==> made && (NeedsUuid(c) ==> c.env.ok(SetUuid))
    ensures c.OkBefore(17) <==> c.OkBefore(16) && (NeedsType(c) ==> c.env.ok(SetPartitionType))
    ensures c.OkBefore(18) <==> c.OkBefore(17) && c.env.ok(AwaitFilesystem)
  {
  }

  lemma {:induction false} StagesAfterTheWait(c: Call)
    ensures c.OkBefore(19) <==> c.OkBefore(18) && (NeedsOwner(c) ==> c.env.ok(TakeOwnership))
    ensures c.OkBefore(END) <==> c.OkBefore(19) && (c.req.configItems ==> c.env.ok(AddConfigItems))
  {
  }

  lemma {:induction false} Stages(c: Call)
    ensures c.OkBefore(0) && (c.OkBefore(1) <==> c.env.ok(FindObject))
    ensures c.OkBefore(2) <==> c.OkBefore(1) && (c.dev.isPartition ==> c.env.ok(CheckPartition))
    ensures c.OkBefore(3) <==> c.OkBefore(2) && c.env.ok(GetCaller)
    ensures c.OkBefore(4) <==> c.OkBefore(3) && c.env.ok(GetUser)
    ensures c.OkBefore(5) <==> c.OkBefore(4) && c.env.ok(PreChecks)
    ensures (c.OkBefore(6) <==> Checked(c)) && (c.OkBefore(7) <==> TornDown(c))
    ensures (c.OkBefore(8) <==> Wiped(c)) && (c.OkBefore(9) <==> DryRunPassed(c))
    ensures (c.OkBefore(10) <==> TargetReady(c)) && (c.OkBefore(11) <==> TargetReady(c))
    ensures (c.OkBefore(12) <==> Erased(c)) && (c.OkBefore(15) <==> Made(c))
    ensures c.req.kind.Empty? ==> (c.OkBefore(13) <==> Erased(c))
    ensures c.req.kind.Filesystem? ==> (c.OkBefore(14) <==> Erased(c))
    ensures c.OkBefore(16) <==> Made(c) && (NeedsUuid(c) ==> c.env.ok(SetUuid))
    ensures (c.OkBefore(17) <==> Labelled(c)) && (c.OkBefore(18) <==> Labelled(c) && c.env.ok(AwaitFilesystem))
    ensures (c.OkBefore(19) <==> Owned(c)) && (c.OkBefore(END) <==> Configured(c))
  {
    StagesUpToWipe(c);
    StagesUpToErase(c);
    StagesUpToMkfs(c);
    StagesUpToTheEnd(c);
  }

  lemma {:induction false} AttemptedWhen(c: Call, step: Step, reached: bool)
    requires c.OkBefore(Rank(step)) <==> reached
    ensures step in c.Done(END) <==> c.Wanted(step) && reached
  {
    if c.Wanted(step) && reached {
      DoneContains(c, END, step);
    } else if step in c.Done(END) {
      var i :| 0 <= i < |c.Done(END)| && c.Done(END)[i] == step;
      DoneIsBelow(c, END, i);
      assert false;
    }
  }

  /** Whether each step is attempted, in terms of the request and of how the others turn out: those of
      the checks and the wipe. */
  lemma {:induction false} ChecksAreAttempted(c: Call)
    ensures FindObject in c.Done(END)
    ensures CheckPartition in c.Done(END) <==> c.env.ok(FindObject) && c.dev.isPartition
    ensures var found := c.env.ok(FindObject) && (c.dev.isPartition ==> c.env.ok(CheckPartition));
            && (GetCaller in c.Done(END) <==> found)
            && (GetUser in c.Done(END) <==> found && c.env.ok(GetCaller))
            && (PreChecks in c.Done(END) <==> found && c.env.ok(GetCaller) && c.env.ok(GetUser))
            && (Authorize in c.Done(END) <==>
                found && c.env.ok(GetCaller) && c.env.ok(GetUser) && c.env.ok(PreChecks))
    ensures TearDown in c.Done(END) <==> Checked(c) && c.req.tearDown
    ensures Wipe in c.Done(END) <==> TornDown(c)
  {
    StagesUpToWipe(c);
    var found := c.env.ok(FindObject) && (c.dev.isPartition ==> c.env.ok(CheckPartition));
    AttemptedWhen(c, FindObject, true);
    AttemptedWhen(c, CheckPartition, c.env.ok(FindObject));
    AttemptedWhen(c, GetCaller, found);
    AttemptedWhen(c, GetUser, found && c.env.ok(GetCaller));
    AttemptedWhen(c, PreChecks, found && c.env.ok(GetCaller) && c.env.ok(GetUser));
    AttemptedWhen(c, Authorize, found && c.env.ok(GetCaller) && c.env.ok(GetUser) && c.env.ok(PreChecks));
    AttemptedWhen(c, TearDown, Checked(c));
    AttemptedWhen(c, Wipe, TornDown(c));
  }

  lemma {:induction false} ReachesLuks(c: Call, wiped: bool, dry: bool)
    requires wiped == Wiped(c) && dry == DryRunPassed(c)
    ensures DryRun in c.Done(END) <==> wiped && HasDryRun(c)
    ensures CreateLuks in c.Done(END) <==> dry && c.req.encrypt
  {
    StagesUpToWipe(c);
    StagesUpToErase(c);
    AttemptedWhen(c, DryRun, wiped);
    AttemptedWhen(c, CreateLuks, dry);
  }

  lemma {:induction false} ReachesContents(c: Call, ready: bool, erased: bool)
    requires ready == TargetReady(c) && erased == Erased(c)
    ensures CompleteEarly in c.Done(END) <==> ready && c.req.noBlock
    ensures Erase in c.Done(END) <==> ready && c.req.erase
    ensures MakeTable in c.Done(END) <==> erased && c.req.kind.PartitionTable?
    ensures CleanCleartext in c.Done(END) <==> erased && c.req.kind.Empty? && c.req.encrypt
    ensures Mkfs in c.Done(END) <==> erased && c.req.kind.Filesystem?
  {
    StagesUpToWipe(c);
    StagesUpToErase(c);
    StagesUpToMkfs(c);
    AttemptedWhen(c, CompleteEarly, ready);
    AttemptedWhen(c, Erase, ready);
    AttemptedWhen(c, MakeTable, erased);
    AttemptedWhen(c, CleanCleartext, c.OkBefore(13));
    AttemptedWhen(c, Mkfs, c.OkBefore(14));
  }

  lemma {:induction false} ReachesWait(c: Call, made: bool, uuid: bool, labelled: bool)
    requires (c.OkBefore(15) <==> made) && (c.OkBefore(16) <==> made && uuid) && (c.OkBefore(17) <==> labelled)
    ensures SetUuid in c.Done(END) <==> made && NeedsUuid(c)
    ensures SetPartitionType in c.Done(END) <==> made && uuid && NeedsType(c)
    ensures AwaitFilesystem in c.Done(END) <==> labelled
  {
    AttemptedWhen(c, SetUuid, made);
    AttemptedWhen(c, SetPartitionType, made && uuid);
    AttemptedWhen(c, AwaitFilesystem, labelled);
  }

  lemma {:induction false} ReachesEnd(c: Call, there: bool, owned: bool)
    requires (c.OkBefore(18) <==> there) && (c.OkBefore(19) <==> owned)
    ensures TakeOwnership in c.Done(END) <==> there && NeedsOwner(c)
    ensures AddConfigItems in c.Done(END) <==> owned && c.req.configItems
  {
    AttemptedWhen(c, TakeOwnership, there);
    AttemptedWhen(c, AddConfigItems, owned);
  }

  /** And those that make the contents. */
  lemma {:induction false} ContentsAreAttempted(c: Call)
    ensures DryRun in c.Done(END) <==> Wiped(c) && HasDryRun(c)
    ensures CreateLuks in c.Done(END) <==> DryRunPassed(c) && c.req.encrypt
    ensures CompleteEarly in c.Done(END) <==> TargetReady(c) && c.req.noBlock
    ensures Erase in c.Done(END) <==> TargetReady(c) && c.req.erase
    ensures MakeTable in c.Done(END) <==> Erased(c) && c.req.kind.PartitionTable?
    ensures CleanCleartext in c.Done(END) <==> Erased(c) && c.req.kind.Empty? && c.req.encrypt
    ensures Mkfs in c.Done(END) <==> Erased(c) && c.req.kind.Filesystem?
  {
    ReachesLuks(c, Wiped(c), DryRunPassed(c));
    ReachesContents(c, TargetReady(c), Erased(c));
  }

  /** And what is done with the contents; the wait for them is made by every call that gets there. */
  lemma {:induction false} FinishIsAttempted(c: Call)
    ensures SetUuid in c.Done(END) <==> Made(c) && NeedsUuid(c)
    ensures SetPartitionType in c.Done(END) <==>
            Made(c) && (NeedsUuid(c) ==> c.env.ok(SetUuid)) && NeedsType(c)
    ensures AwaitFilesystem in c.Done(END) <==> Labelled(c)
    ensures TakeOwnership in c.Done(END) <==> Labelled(c) && c.env.ok(AwaitFilesystem) && NeedsOwner(c)
    ensures AddConfigItems in c.Done(END) <==> Owned(c) && c.req.configItems
  {
    Stages(c);
    ReachesWait(c, Made(c), NeedsUuid(c) ==> c.env.ok(SetUuid), Labelled(c));
    ReachesEnd(c, Labelled(c) && c.env.ok(AwaitFilesystem), Owned(c));
  }

  predicate IsCheck(step: Step)
  {
    step in {FindObject, CheckPartition, GetCaller, GetUser, PreChecks, Authorize}
  }

  predicate AfterWiping(step: Step)
  {
    !IsCheck(step) && step !in {TearDown, Wipe}
  }

  predicate AfterEncrypting(step: Step)
  {
    AfterWiping(step) && step !in {DryRun, CreateLuks}
  }

  /** Nothing else is done by a call that has not passed every check, whatever it asks for. Nothing is
      made on a device that was not wiped, nor before a dry run or the encryption that was asked for;
      and nothing is done with the contents before they are made. */
  lemma {:induction false} NothingBeforeTheChecks(c: Call, step: Step)
    requires step in c.Done(END) && !IsCheck(step)
    ensures Checked(c) && Authorize in c.Done(END) && (c.dev.isPartition ==> CheckPartition in c.Done(END))
    ensures AfterWiping(step) ==> Wiped(c) && Wipe in c.Done(END)
    ensures AfterWiping(step) && step != DryRun && HasDryRun(c) ==> DryRun in c.Done(END) && c.env.ok(DryRun)
    ensures AfterEncrypting(step) ==> TargetReady(c) && (c.req.encrypt ==> CreateLuks in c.Done(END))
    ensures step in {SetUuid, SetPartitionType, AwaitFilesystem, TakeOwnership, AddConfigItems} ==> Made(c)
  {
    ChecksAreAttempted(c);
    ContentsAreAttempted(c);
    FinishIsAttempted(c);
  }

  lemma {:induction false} OnlyAfterTheChecks(c: Call)
    ensures forall step: Step :: step in c.Done(END) && !IsCheck(step) ==> Checked(c)
  {
    forall step: Step | step in c.Done(END) && !IsCheck(step) ensures Checked(c) {
      NothingBeforeTheChecks(c, step);
    }
  }

  /** The reply tells whether everything went well, or everything up to the early completion. */
  lemma {:induction false} ReplyExactly(c: Call)
    ensures c.TheReply() == if (if c.req.noBlock then TargetReady(c) else Configured(c)) then Completed else Failed
  {
    Stages(c);
  }

  /** Which of the locks and waits there are. */
  lemma {:induction false} LockingExactly(c: Call)
    ensures c.Locking() ==
            FormatEnv(if Checked(c) && c.req.tearDown then c.env.teardown else [],
                      TornDown(c), c.env.cleaned, c.env.ok(Wipe),
                      if DryRunPassed(c) && c.req.encrypt then Some(c.env.luks) else None, Labelled(c))
  {
    Stages(c);
  }

  // ----- the handler -----

  lemma {:induction false} ActionsAfterWipe(c: Call)
    requires c.OkBefore(Rank(CreateLuks))
    ensures AfterWipe(c.dev.block, c.Locking()) ==
            (if c.req.encrypt then CreateLuksActions(c.dev.block, c.env.luks) else []) +
            (if c.OkBefore(Rank(AwaitFilesystem)) then
               [Await(if c.req.encrypt then c.env.luks.open.awaited else c.dev.block)]
             else [])
  {
    OkBeforeIsMonotone(c, Rank(CompleteEarly), Rank(AwaitFilesystem));
    var last := if c.OkBefore(Rank(AwaitFilesystem)) then [Await(c.dev.block)] else [];
    assert [] + last == last;
  }

  /** The state of one call; a new object for every call. */
  class Formatter {
    const call: Call
    var attempted: seq<Step>
    var replies: seq<Reply>
    var actions: seq<Action>
    /** Whether the invocation is still there; it is NULL once the call has completed early. */
    var unanswered: bool

    constructor (call: Call)
      ensures this.call == call && attempted == [] && replies == [] && actions == [] && unanswered
    {
      this.call := call;
      attempted, replies, actions, unanswered := [], [], [], true;
    }

    /** The first `n` steps are behind us and none of them failed. */
    predicate At(n: nat)
      requires n <= END
      reads this`attempted, this`replies, this`unanswered
    {
      && attempted == call.Done(n) && call.OkBefore(n)
      && unanswered == !(call.req.noBlock && n > Rank(CompleteEarly))
      && replies == if unanswered then [] else [Completed]
    }

    /** Nothing more will be attempted or answered. */
    predicate Over()
      reads this`attempted, this`replies
    {
      attempted == call.Done(END) && replies == [call.TheReply()]
    }

    /** The outcome of a step or of a step that was not asked for. */
    ghost predicate Passed(step: Step, ok: bool)
      reads this`attempted, this`replies, this`unanswered
    {
      if ok then At(Rank(step) + 1) else Over() && forall n: nat :: Rank(step) < n <= END ==> !call.OkBefore(n)
    }

    method Do(a: Action)
      modifies this`actions
      ensures actions == old(actions) + [a]
    {
      actions := actions + [a];
    }

    /** handle_format_failure: the error is only logged when the call has completed already. */
    method Fail()
      modifies this`replies
      ensures replies == if unanswered then old(replies) + [Failed] else old(replies)
    {
      if unanswered {
        replies := replies + [Failed];
      }
    }

    method DoAll(more: seq<Action>)
      modifies this`actions
      ensures actions == old(actions) + more
    {
      actions := actions + more;
    }

    /** A step has been attempted, with this result; a failure is answered at once, by the
        authorization check itself or by the handler. */
    method Conclude(step: Step, ok: bool)
      requires At(Rank(step)) && call.Wanted(step) && ok == call.Succeeds(step) && !step.CompleteEarly?
      modifies this`attempted, this`replies
      ensures Passed(step, ok)
    {
      attempted := attempted + [step];
      if !ok {
        Fail();
        NothingAfterAFailure(call, Rank(step) + 1, END);
        forall n: nat | Rank(step) < n <= END ensures !call.OkBefore(n) {
          OkBeforeIsMonotone(call, Rank(step) + 1, n);
        }
        if Rank(step) > Rank(CompleteEarly) {
          OkBeforeIsMonotone(call, Rank(CompleteEarly), Rank(step));
        }
      }
    }

    method Try(step: Step) returns (ok: bool)
      requires At(Rank(step)) && call.Wanted(step) && !step.CompleteEarly? && !step.Wipe? && !step.CreateLuks?
      modifies this`attempted, this`replies
      ensures ok == call.env.ok(step)
      ensures Passed(step, ok)
    {
      ok := call.env.ok(step);
      Conclude(step, ok);
    }

    /** A partition at offset 0 holds a partition table of its own and is refused. */
    method RefuseHybrid() returns (ok: bool)
      requires At(Rank(CheckPartition))
      modifies this`attempted, this`replies
      ensures Passed(CheckPartition, ok)
    {
      ok := true;
      if call.dev.isPartition {
        ok := Try(CheckPartition);
      }
    }

    method RunChecks() returns (ok: bool)
      requires At(Rank(CheckPartition))
      modifies this`attempted, this`replies
      ensures Passed(Authorize, ok)
    {
      ok := RefuseHybrid();
      if !ok { return; }
      ok := Try(GetCaller);
      if !ok { return; }
      ok := Try(GetUser);
      if !ok { return; }
      ok := Try(PreChecks);
      if !ok { return; }
      ok := Try(Authorize);
    }

    /** format_wipe: wipe, then wait until the change has taken effect. */
    method FormatWipe() returns (ok: bool)
      modifies this`actions
      ensures ok == call.Succeeds(Wipe)
      ensures actions == old(actions) + if call.env.cleaned then [Await(call.dev.block)] else []
    {
      if !call.env.cleaned {
        assert actions + [] == actions;
        return false;
      }
      Do(Await(call.dev.block));
      ok := call.env.ok(Wipe);
    }

    /** Take the encrypted lock, run a job, release the lock, wait. */
    method RunAndWait(env: JobEnv) returns (ok: bool)
      modifies this`actions
      ensures ok == (env.jobOk && env.waitOk)
      ensures actions == old(actions) + JobThenWait(call.dev.block, env)
    {
      Do(TakeEncrypted(call.dev.block));
      Do(RunJob(call.dev.block, env.awaited, env.jobOk));
      Do(DropEncrypted(call.dev.block));
      if !env.jobOk {
        return false;
      }
      Do(Await(env.awaited));
      ok := env.waitOk;
    }

    /** format_create_luks. */
    method FormatCreateLuks() returns (ok: bool)
      modifies this`actions
      ensures ok == call.Succeeds(CreateLuks)
      ensures actions == old(actions) + CreateLuksActions(call.dev.block, call.env.luks)
    {
      var luks := call.env.luks;
      ok := RunAndWait(luks.create);
      if !ok {
        assert actions + [] == actions;
        return;
      }
      Do(TakeEncrypted(call.dev.block));
      Do(DropEncrypted(call.dev.block));
      if !luks.nameOk {
        return false;
      }
      ok := RunAndWait(luks.open);
      ok := ok && luks.isBlock;
    }

    method EraseIfAsked() returns (ok: bool)
      requires At(Rank(Erase))
      modifies this`attempted, this`replies
      ensures Passed(Erase, ok)
    {
      ok := true;
      if call.req.erase {
        ok := Try(Erase);
      }
    }

    /** A second wipe, only of a new LUKS device: any other has been wiped already. */
    method CleanIfEncrypted() returns (ok: bool)
      requires At(Rank(CleanCleartext)) && call.req.kind.Empty?
      modifies this`attempted, this`replies
      ensures Passed(Mkfs, ok)
    {
      ok := true;
      if call.req.encrypt {
        ok := Try(CleanCleartext);
      }
      assert ok ==> At(Rank(Mkfs));
    }

    /** A partition table, a second wipe, or a file system. */
    method MakeByKind() returns (ok: bool)
      requires At(Rank(MakeTable))
      modifies this`attempted, this`replies
      ensures Passed(Mkfs, ok)
    {
      match call.req.kind
      case PartitionTable =>
        ok := Try(MakeTable);
        assert ok ==> At(Rank(Mkfs));
      case Empty =>
        ok := CleanIfEncrypted();
      case Filesystem =>
        assert At(Rank(CleanCleartext));
        ok := Try(Mkfs);
    }

    method SetUuidIfNeeded() returns (ok: bool)
      requires At(Rank(SetUuid))
      modifies this`attempted, this`replies
      ensures Passed(SetUuid, ok)
    {
      ok := true;
      var features := call.req.features;
      if call.req.setUuid && features.Some? && !features.value.uuidAtMkfs && call.req.canSetUuid {
        ok := Try(SetUuid);
      }
    }

    method SetPartitionTypeIfAsked() returns (ok: bool)
      requires At(Rank(SetPartitionType))
      modifies this`attempted, this`replies
      ensures Passed(SetPartitionType, ok)
    {
      ok := true;
      if call.req.updatePartitionType && call.dev.isPartition && call.dev.hasTable {
        ok := Try(SetPartitionType);
      }
    }

    method MakeContents() returns (ok: bool)
      requires At(Rank(Erase))
      modifies this`attempted, this`replies
      ensures Passed(SetPartitionType, ok)
    {
      ok := EraseIfAsked();
      if !ok { return; }
      ok := MakeByKind();
      if !ok { return; }
      ok := SetUuidIfNeeded();
      if !ok { return; }
      ok := SetPartitionTypeIfAsked();
    }

    method TakeOwnershipIfAsked() returns (ok: bool)
      requires At(Rank(TakeOwnership))
      modifies this`attempted, this`replies
      ensures Passed(TakeOwnership, ok)
    {
      ok := true;
      var features := call.req.features;
      if call.req.takeOwnership && features.Some? && features.value.owners {
        ok := Try(TakeOwnership);
      }
    }

    method AddConfigItemsIfAsked() returns (ok: bool)
      requires At(Rank(AddConfigItems))
      modifies this`attempted, this`replies
      ensures Passed(AddConfigItems, ok)
    {
      ok := true;
      if call.req.configItems {
        ok := Try(AddConfigItems);
      }
    }

    /** The wait for the result, then the ownership and the configuration, and the reply. */
    method Finish()
      requires At(Rank(AwaitFilesystem))
      modifies this`attempted, this`replies
      ensures Over()
    {
      var ok := Try(AwaitFilesystem);
      if !ok { return; }
      ok := TakeOwnershipIfAsked();
      if !ok { return; }
      ok := AddConfigItemsIfAsked();
      if !ok { return; }
      OkBeforeIsMonotone(call, Rank(CompleteEarly), END);
      if unanswered {
        replies := replies + [Completed];
      }
    }

    /** The LUKS device, if one is asked for, and the device to make the contents on. */
    method EncryptIfAsked() returns (ok: bool, target: Block)
      requires At(Rank(CreateLuks))
      modifies this`attempted, this`replies, this`actions
      ensures Passed(CreateLuks, ok)
      ensures actions == old(actions) +
                         if call.req.encrypt then CreateLuksActions(call.dev.block, call.env.luks) else []
      ensures target == if call.req.encrypt then call.env.luks.open.awaited else call.dev.block
    {
      if call.req.encrypt {
        ok := FormatCreateLuks();
        Conclude(CreateLuks, ok);
        target := call.env.luks.open.awaited;
      } else {
        assert actions + [] == actions;
        ok, target := true, call.dev.block;
      }
    }

    method CompleteEarlyIfAsked()
      requires At(Rank(CompleteEarly))
      modifies this`attempted, this`replies, this`unanswered
      ensures At(Rank(Erase))
    {
      if call.req.noBlock {
        replies, attempted, unanswered := replies + [Completed], attempted + [CompleteEarly], false;
      }
    }

    /** Completing early if asked to, then everything on the device to make the contents on. */
    method MakeOn(target: Block)
      requires At(Rank(CompleteEarly))
      modifies this
      ensures Over()
      ensures actions == old(actions) + if call.OkBefore(Rank(AwaitFilesystem)) then [Await(target)] else []
    {
      CompleteEarlyIfAsked();
      var ok := MakeContents();
      if !ok {
        assert actions + [] == actions;
        return;
      }
      Do(Await(target));
      Finish();
    }

    method Make()
      requires At(Rank(CreateLuks))
      modifies this
      ensures Over()
      ensures actions == old(actions) + AfterWipe(call.dev.block, call.Locking())
    {
      ActionsAfterWipe(call);
      var ok, target := EncryptIfAsked();
      ghost var luks := if call.req.encrypt then CreateLuksActions(call.dev.block, call.env.luks) else [];
      if !ok {
        assert luks + [] == luks;
        return;
      }
      MakeOn(target);
      Assoc(old(actions), luks, if call.OkBefore(Rank(AwaitFilesystem)) then [Await(target)] else []);
    }

    method DryRunIfAsked() returns (ok: bool)
      requires At(Rank(DryRun))
      modifies this`attempted, this`replies
      ensures Passed(DryRun, ok)
    {
      ok := true;
      var features := call.req.features;
      if call.req.dryRunFirst && features.Some? && features.value.dryRun {
        ok := Try(DryRun);
      }
    }

    /** Everything after the wipe. */
    method DryRunAndMake()
      requires At(Rank(DryRun))
      modifies this
      ensures Over()
      ensures actions == old(actions) + AfterWipe(call.dev.block, call.Locking())
    {
      var ok := DryRunIfAsked();
      if ok {
        Make();
      } else {
        assert actions + [] == actions;
      }
    }

    method WipeAndMake()
      requires At(Rank(Wipe))
      modifies this
      ensures Over()
      ensures actions == old(actions) + AfterTeardown(call.dev.block, call.Locking())
    {
      var ok := FormatWipe();
      Conclude(Wipe, ok);
      ghost var b := call.dev.block;
      if ok {
        DryRunAndMake();
        Assoc(old(actions), [Await(b)], AfterWipe(b, call.Locking()));
      } else {
        assert actions + [] == actions && [Await(b)] + [] == [Await(b)];
      }
    }

    method TearDownIfAsked() returns (ok: bool)
      requires At(Rank(TearDown))
      modifies this`attempted, this`replies, this`actions
      ensures Passed(TearDown, ok)
      ensures actions == old(actions) + TeardownActions(call.Locking().teardown)
    {
      ok := true;
      if call.req.tearDown {
        DoAll(TeardownActions(call.env.teardown));
        ok := Try(TearDown);
      } else {
        assert actions + [] == actions;
      }
    }

    /** Everything that happens while the cleanup lock is held. */
    method Locked()
      requires At(Rank(CheckPartition))
      modifies this
      ensures Over()
      ensures actions == old(actions) + FormatSteps(call.dev.block, call.Locking())
    {
      var ok := RunChecks();
      if !ok {
        assert actions + [] == actions;
        return;
      }
      ok := TearDownIfAsked();
      ghost var env := call.Locking();
      if !ok {
        assert TeardownActions(env.teardown) + [] == TeardownActions(env.teardown);
        return;
      }
      WipeAndMake();
      Assoc(old(actions), TeardownActions(env.teardown), AfterTeardown(call.dev.block, env));
    }

    /** udisks_linux_block_handle_format: whichever step fails, and with or without early
        completion, exactly one reply is sent, and it is a success exactly when everything before it
        was one; exactly the steps described above are attempted, and none but checks unless all
        checks have passed; and the locks follow the discipline, the cleanup lock being released
        on every way out. */
    method Handle()
      requires attempted == [] && replies == [] && actions == [] && unanswered
      modifies this
      ensures attempted == call.Done(END)
      ensures replies == [call.TheReply()]
      ensures forall step: Step :: step in attempted && !IsCheck(step) ==> Checked(call)
      ensures replies == [Completed] <==> if call.req.noBlock then TargetReady(call) else Configured(call)
      ensures actions == FormatActions(call.dev.block, call.env.ok(FindObject), call.Locking())
      ensures Disciplined(actions)
    {
      OnlyAfterTheChecks(call);
      ReplyExactly(call);
      var ok := Try(FindObject);
      if !ok {
        return;
      }
      HandlersAreDisciplined(call.dev.block, true, Hints(Unset, Unset), JobEnv(false, false, 0, false), call.Locking());
      Do(TakeCleanup(call.dev.block));
      assert actions == [TakeCleanup(call.dev.block)];
      Locked();
      Do(DropCleanup(call.dev.block));
    }
  }
}
