/** The handlers that unlock, lock and format encrypted devices, against the uevent thread that
    updates the exported objects: who takes which lock, who waits, and why nobody gets stuck. */
module LockDiscipline {
  import opened OptionType

  type Block = nat

  datatype CryptoType = LUKS | BITLK | TCRYPT | Unset

  /** What a handler does to the cleanup lock, the encrypted lock and the hint of a block, the jobs it
      runs, with the device that each makes appear, change or vanish, and the waits for the uevent
      thread to export or remove an object. */
  datatype Action =
    | TakeCleanup(block: Block) | DropCleanup(block: Block)
    | TakeEncrypted(block: Block) | DropEncrypted(block: Block)
    | SetHint(block: Block, hint: CryptoType) | RestoreHint(block: Block, hint: CryptoType)
    | RunJob(block: Block, awaited: Block, ok: bool)
    | Await(block: Block)

  // ----- the discipline of one handler -----

  datatype Held = Held(cleanup: Option<Block>, encrypted: Option<Block>)

  const NOTHING: Held := Held(None, None)

  /** The locks held after an action; `None` when it breaks the rules: the cleanup lock is taken
      first and with nothing held, at most one encrypted lock is held at a time, nothing is awaited
      while one is, and each lock is released by its name. A hint is set under the cleanup lock and
      put back under the encrypted lock. */
  function Act(h: Held, a: Action): Option<Held>
  {
    match a
    case TakeCleanup(b) => if h == NOTHING then Some(Held(Some(b), None)) else None
    case DropCleanup(b) => if h == Held(Some(b), None) then Some(NOTHING) else None
    case TakeEncrypted(b) => if h.encrypted.None? then Some(h.(encrypted := Some(b))) else None
    case DropEncrypted(b) => if h.encrypted == Some(b) then Some(h.(encrypted := None)) else None
    case SetHint(b, _) => if h.cleanup == Some(b) then Some(h) else None
    case RestoreHint(b, _) => if h.encrypted == Some(b) then Some(h) else None
    case RunJob(b, _, _) => if h.encrypted == Some(b) then Some(h) else None
    case Await(b) => if h.encrypted.None? then Some(h) else None
  }

  function ActAll(h: Held, actions: seq<Action>): Option<Held>
    decreases |actions|
  {
    if actions == [] then Some(h)
    else match Act(h, actions[0]) case None => None case Some(h') => ActAll(h', actions[1..])
  }

  /** A handler that starts and ends with nothing held and never breaks the rules. */
  predicate Disciplined(actions: seq<Action>)
  {
    ActAll(NOTHING, actions) == Some(NOTHING)
  }

  lemma {:induction false} ActAllConcat(h: Held, a: seq<Action>, b: seq<Action>)
    ensures ActAll(h, a + b) == match ActAll(h, a) case None => None case Some(h') => ActAll(h', b)
    decreases |a|
  {
    if a == [] {
      assert a + b == b;
    } else {
      assert (a + b)[1..] == a[1..] + b;
      match Act(h, a[0]) {
        case None =>
        case Some(h') => ActAllConcat(h', a[1..], b);
      }
    }
  }

  function Count(actions: seq<Action>, a: Action): nat
  {
    if actions == [] then 0 else (if actions[0] == a then 1 else 0) + Count(actions[1..], a)
  }

  lemma {:induction false} HeldIsTheDifference(h: Held, actions: seq<Action>, b: Block)
    requires ActAll(h, actions).Some?
    ensures var h' := ActAll(h, actions).value;
            && Count(actions, TakeCleanup(b)) + (if h.cleanup == Some(b) then 1 else 0)
               == Count(actions, DropCleanup(b)) + (if h'.cleanup == Some(b) then 1 else 0)
            && Count(actions, TakeEncrypted(b)) + (if h.encrypted == Some(b) then 1 else 0)
               == Count(actions, DropEncrypted(b)) + (if h'.encrypted == Some(b) then 1 else 0)
    decreases |actions|
  {
    if actions != [] {
      HeldIsTheDifference(Act(h, actions[0]).value, actions[1..], b);
    }
  }

  /** Every lock is released exactly as often as it is taken. */
  lemma {:induction false} LocksBalance(actions: seq<Action>, b: Block)
    requires Disciplined(actions)
    ensures Count(actions, TakeCleanup(b)) == Count(actions, DropCleanup(b))
    ensures Count(actions, TakeEncrypted(b)) == Count(actions, DropEncrypted(b))
  {
    HeldIsTheDifference(NOTHING, actions, b);
  }

  // ----- the handlers -----

  /** How the steps of a handler turn out: whether everything before the job succeeds, the job
      itself, and the wait after it, which is for `awaited` to be exported or to vanish. */
  datatype JobEnv = JobEnv(ready: bool, jobOk: bool, awaited: Block, waitOk: bool)

  /** Take the encrypted lock, run the job, release it, and only then wait. */
  function JobThenWait(b: Block, env: JobEnv): seq<Action>
  {
    [TakeEncrypted(b), RunJob(b, env.awaited, env.jobOk), DropEncrypted(b)] +
      (if env.jobOk then [Await(env.awaited)] else [])
  }

  /** The kinds of hint: what it was, and what the unlock is about to make of it. */
  datatype Hints = Hints(before: CryptoType, during: CryptoType)

  /** The hint is set before the job, without the encrypted lock, and put back, under it, when the
      job fails. */
  function UnlockSteps(b: Block, hints: Hints, env: JobEnv): seq<Action>
  {
    if !env.ready then []
    else [SetHint(b, hints.during)] +
         if env.jobOk then JobThenWait(b, env)
         else [TakeEncrypted(b), RunJob(b, env.awaited, false), RestoreHint(b, hints.before), DropEncrypted(b)]
  }

  function UnlockActions(b: Block, exported: bool, hints: Hints, env: JobEnv): seq<Action>
  {
    if exported then [TakeCleanup(b)] + UnlockSteps(b, hints, env) + [DropCleanup(b)] else []
  }

  function EncryptedLockActions(b: Block, env: JobEnv): seq<Action>
  {
    if env.ready then JobThenWait(b, env) else []
  }

  function LockActions(b: Block, exported: bool, env: JobEnv): seq<Action>
  {
    if exported then [TakeCleanup(b)] + EncryptedLockActions(b, env) + [DropCleanup(b)]
    else EncryptedLockActions(b, env)
  }

  /** format_create_luks: create, wait for the UUID, read the LUKS name, open, wait for the
      cleartext device, which must be a block device. */
  datatype LuksEnv = LuksEnv(create: JobEnv, nameOk: bool, open: JobEnv, isBlock: bool)

  function CreateLuksActions(b: Block, env: LuksEnv): seq<Action>
  {
    JobThenWait(b, env.create) +
    (if env.create.jobOk && env.create.waitOk then
       [TakeEncrypted(b), DropEncrypted(b)] + (if env.nameOk then JobThenWait(b, env.open) else [])
     else [])
  }

  /** The lock and wait steps of a format: tear down some crypto devices, wait for the wipe, create
      LUKS if asked for, wait for the result; any of them may fail. */
  datatype FormatEnv = FormatEnv(teardown: seq<(Block, JobEnv)>, teardownOk: bool, wipeOk: bool, wipeWaitOk: bool,
                                 luks: Option<LuksEnv>, mkfsOk: bool)

  function TeardownActions(locks: seq<(Block, JobEnv)>): seq<Action>
  {
    if locks == [] then [] else EncryptedLockActions(locks[0].0, locks[0].1) + TeardownActions(locks[1..])
  }

  predicate LuksOk(env: LuksEnv)
  {
    env.create.jobOk && env.create.waitOk && env.nameOk && env.open.jobOk && env.open.waitOk && env.isBlock
  }

  function FormatActions(b: Block, exported: bool, env: FormatEnv): seq<Action>
  {
    if !exported then []
    else [TakeCleanup(b)] + FormatSteps(b, env) + [DropCleanup(b)]
  }

  function FormatSteps(b: Block, env: FormatEnv): seq<Action>
  {
    TeardownActions(env.teardown) + (if env.teardownOk then AfterTeardown(b, env) else [])
  }

  function AfterTeardown(b: Block, env: FormatEnv): seq<Action>
  {
    if !env.wipeOk then []
    else [Await(b)] + (if env.wipeWaitOk then AfterWipe(b, env) else [])
  }

  function AfterWipe(b: Block, env: FormatEnv): seq<Action>
  {
    match env.luks
    case None => if env.mkfsOk then [Await(b)] else []
    case Some(luks) =>
      CreateLuksActions(b, luks) +
      (if LuksOk(luks) && env.mkfsOk then [Await(luks.open.awaited)] else [])
  }

  /** What an unlock does: with the object exported it takes the cleanup lock, and once all is ready sets
      the hint and runs the job; then it waits, or puts the hint back, as the job went. */
  lemma {:induction false} UnlockDoes(b: Block, exported: bool, hints: Hints, env: JobEnv)
    ensures var log := UnlockActions(b, exported, hints, env);
            && (TakeCleanup(b) in log <==> exported)
            && (SetHint(b, hints.during) in log <==> exported && env.ready)
            && (RunJob(b, env.awaited, env.jobOk) in log <==> exported && env.ready)
            && (Await(env.awaited) in log <==> exported && env.ready && env.jobOk)
            && (RestoreHint(b, hints.before) in log <==> exported && env.ready && !env.jobOk)
  {
    JobIsRun(b, env);
  }

  lemma {:induction false} JobIsRun(b: Block, env: JobEnv)
    ensures var log := JobThenWait(b, env);
            && RunJob(b, env.awaited, env.jobOk) in log && log[1] == RunJob(b, env.awaited, env.jobOk)
            && (Await(env.awaited) in log <==> env.jobOk)
  {
    assert JobThenWait(b, env)[1] == RunJob(b, env.awaited, env.jobOk);
    if env.jobOk {
      assert JobThenWait(b, env)[3] == Await(env.awaited);
    }
  }

  /** The hint is set before the job runs, and put back after it. */
  lemma {:induction false} HintsSurroundTheJob(b: Block, exported: bool, hints: Hints, env: JobEnv, i: nat, j: nat)
    requires var log := UnlockActions(b, exported, hints, env); i < |log| && j < |log| && log[j].RunJob?
    ensures UnlockActions(b, exported, hints, env)[i].SetHint? ==> i < j
    ensures UnlockActions(b, exported, hints, env)[i].RestoreHint? ==> j < i
  {
  }

  /** Locking runs its job once all is ready, and waits if it went well; creating and opening a LUKS
      device runs the second job if the wait for the first went well and the name is known. */
  lemma {:induction false} LocksAndLuksDo(b: Block, env: JobEnv, luks: LuksEnv)
    ensures RunJob(b, env.awaited, env.jobOk) in EncryptedLockActions(b, env) <==> env.ready
    ensures Await(env.awaited) in EncryptedLockActions(b, env) <==> env.ready && env.jobOk
    ensures var create, open, log := luks.create, luks.open, CreateLuksActions(b, luks);
            var next := create.jobOk && create.waitOk && luks.nameOk;
            && RunJob(b, create.awaited, create.jobOk) in log
            && (create.jobOk ==> Await(create.awaited) in log)
            && (next ==> RunJob(b, open.awaited, open.jobOk) in log)
            && (next && open.jobOk ==> Await(open.awaited) in log)
            && (open.awaited != create.awaited ==>
                  (RunJob(b, open.awaited, open.jobOk) in log <==> next) &&
                  (Await(open.awaited) in log <==> next && open.jobOk))
  {
    JobIsRun(b, env);
    JobIsRun(b, luks.create);
    JobIsRun(b, luks.open);
  }

  /** Locking and formatting take the cleanup lock of an exported object, and do nothing else first. */
  lemma {:induction false} CleanupComesFirst(b: Block, exported: bool, env: JobEnv, format: FormatEnv)
    ensures TakeCleanup(b) in LockActions(b, exported, env) <==> exported
    ensures TakeCleanup(b) in FormatActions(b, exported, format) <==> exported
    ensures exported ==> LockActions(b, exported, env)[0] == TakeCleanup(b)
    ensures if exported then FormatActions(b, exported, format)[0] == TakeCleanup(b)
            else FormatActions(b, exported, format) == []
  {
    assert exported ==> LockActions(b, exported, env)[0] == TakeCleanup(b);
    assert exported ==> FormatActions(b, exported, format)[0] == TakeCleanup(b);
  }

  lemma {:induction false} TeardownDoes(locks: seq<(Block, JobEnv)>, i: nat)
    requires i < |locks| && locks[i].1.ready
    ensures var env := locks[i].1;
            && RunJob(locks[i].0, env.awaited, env.jobOk) in TeardownActions(locks)
            && (env.jobOk ==> Await(env.awaited) in TeardownActions(locks))
  {
    if i == 0 {
      JobIsRun(locks[0].0, locks[0].1);
    } else {
      TeardownDoes(locks[1..], i - 1);
    }
  }

  /** A format waits for the wipe, runs the jobs of a LUKS device if one is asked for, and waits for the
      new contents on that device or on its own, each once what comes before went well. */
  lemma {:induction false} FormatDoes(b: Block, env: FormatEnv)
    requires env.teardownOk && env.wipeOk
    ensures var log := FormatActions(b, true, env);
            && Await(b) in log
            && (env.wipeWaitOk && env.luks.Some? ==>
                  var create := env.luks.value.create; RunJob(b, create.awaited, create.jobOk) in log)
            && (env.wipeWaitOk && env.mkfsOk && (env.luks.Some? ==> LuksOk(env.luks.value)) ==>
                  Await(if env.luks.Some? then env.luks.value.open.awaited else b) in log)
  {
    if env.luks.Some? {
      LocksAndLuksDo(b, env.luks.value.create, env.luks.value);
    }
    assert forall a :: a in AfterTeardown(b, env) ==> a in FormatActions(b, true, env);
    assert forall a :: env.wipeWaitOk && a in AfterWipe(b, env) ==> a in AfterTeardown(b, env);
  }

  /** Steps that leave the held locks as they were, with no encrypted lock held before or after. */
  ghost predicate Neutral(actions: seq<Action>)
  {
    forall h: Held :: h.encrypted.None? ==> ActAll(h, actions) == Some(h)
  }

  lemma {:induction false} NeutralConcat(a: seq<Action>, b: seq<Action>)
    requires Neutral(a) && Neutral(b)
    ensures Neutral(a + b)
  {
    forall h: Held | h.encrypted.None? ensures ActAll(h, a + b) == Some(h) {
      ActAllConcat(h, a, b);
    }
  }

  lemma {:induction false} ActAllTwo(h: Held, a: Action, rest: seq<Action>)
    ensures ActAll(h, [a] + rest) == match Act(h, a) case None => None case Some(h') => ActAll(h', rest)
  {
    assert ([a] + rest)[1..] == rest;
  }

  lemma {:induction false} TakeRunDrop(b: Block, awaited: Block, ok: bool)
    ensures Neutral([TakeEncrypted(b), RunJob(b, awaited, ok), DropEncrypted(b)])
    ensures Neutral([TakeEncrypted(b), DropEncrypted(b)])
    ensures Neutral([Await(b)]) && Neutral([])
  {
    forall h: Held | h.encrypted.None?
      ensures ActAll(h, [TakeEncrypted(b), RunJob(b, awaited, ok), DropEncrypted(b)]) == Some(h)
      ensures ActAll(h, [TakeEncrypted(b), DropEncrypted(b)]) == Some(h)
      ensures ActAll(h, [Await(b)]) == Some(h)
    {
      var h' := h.(encrypted := Some(b));
      var take, run, drop := TakeEncrypted(b), RunJob(b, awaited, ok), DropEncrypted(b);
      assert [take, run, drop] == [take] + ([run] + ([drop] + []));
      ActAllTwo(h, take, [run] + ([drop] + []));
      ActAllTwo(h', run, [drop] + []);
      ActAllTwo(h', drop, []);
      assert [take, drop] == [take] + ([drop] + []);
      ActAllTwo(h, take, [drop] + []);
      assert [Await(b)] == [Await(b)] + [];
      ActAllTwo(h, Await(b), []);
    }
  }

  lemma {:induction false} JobThenWaitNeutral(b: Block, env: JobEnv)
    ensures Neutral(JobThenWait(b, env))
  {
    TakeRunDrop(b, env.awaited, env.jobOk);
    TakeRunDrop(env.awaited, env.awaited, env.jobOk);
    NeutralConcat([TakeEncrypted(b), RunJob(b, env.awaited, env.jobOk), DropEncrypted(b)],
                  if env.jobOk then [Await(env.awaited)] else []);
  }

  lemma {:induction false} TeardownNeutral(locks: seq<(Block, JobEnv)>)
    ensures Neutral(TeardownActions(locks))
  {
    TakeRunDrop(0, 0, true);
    if locks != [] {
      JobThenWaitNeutral(locks[0].0, locks[0].1);
      TeardownNeutral(locks[1..]);
      NeutralConcat(EncryptedLockActions(locks[0].0, locks[0].1), TeardownActions(locks[1..]));
    }
  }

  lemma {:induction false} CreateLuksNeutral(b: Block, env: LuksEnv)
    ensures Neutral(CreateLuksActions(b, env))
  {
    TakeRunDrop(b, b, true);
    JobThenWaitNeutral(b, env.create);
    JobThenWaitNeutral(b, env.open);
    var open := if env.nameOk then JobThenWait(b, env.open) else [];
    NeutralConcat([TakeEncrypted(b), DropEncrypted(b)], open);
    NeutralConcat(JobThenWait(b, env.create),
                  if env.create.jobOk && env.create.waitOk then [TakeEncrypted(b), DropEncrypted(b)] + open else []);
  }

  lemma {:induction false} FormatStepsNeutral(b: Block, env: FormatEnv)
    ensures Neutral(FormatSteps(b, env))
  {
    TakeRunDrop(b, b, true);
    TeardownNeutral(env.teardown);
    if env.luks.Some? {
      var luks := env.luks.value;
      TakeRunDrop(luks.open.awaited, luks.open.awaited, true);
      CreateLuksNeutral(b, luks);
      NeutralConcat(CreateLuksActions(b, luks), if LuksOk(luks) && env.mkfsOk then [Await(luks.open.awaited)] else []);
    }
    NeutralConcat([Await(b)], if env.wipeWaitOk then AfterWipe(b, env) else []);
    NeutralConcat(TeardownActions(env.teardown), if env.teardownOk then AfterTeardown(b, env) else []);
  }

  lemma {:induction false} BracketedIsDisciplined(b: Block, steps: seq<Action>)
    requires ActAll(Held(Some(b), None), steps) == Some(Held(Some(b), None))
    ensures Disciplined([TakeCleanup(b)] + steps + [DropCleanup(b)])
  {
    var h := Held(Some(b), None);
    assert [TakeCleanup(b)] + steps + [DropCleanup(b)] == [TakeCleanup(b)] + (steps + [DropCleanup(b)]);
    ActAllTwo(NOTHING, TakeCleanup(b), steps + [DropCleanup(b)]);
    ActAllConcat(h, steps, [DropCleanup(b)]);
    assert [DropCleanup(b)] == [DropCleanup(b)] + [];
    ActAllTwo(h, DropCleanup(b), []);
  }

  lemma {:induction false} FailedUnlockKeepsLocks(b: Block, awaited: Block, hint: CryptoType)
    ensures var h := Held(Some(b), None);
            ActAll(h, [TakeEncrypted(b), RunJob(b, awaited, false), RestoreHint(b, hint), DropEncrypted(b)]) == Some(h)
  {
    var h, h' := Held(Some(b), None), Held(Some(b), Some(b));
    var take, run, restore, drop := TakeEncrypted(b), RunJob(b, awaited, false), RestoreHint(b, hint), DropEncrypted(b);
    assert [take, run, restore, drop] == [take] + ([run] + ([restore] + ([drop] + [])));
    ActAllTwo(h, take, [run] + ([restore] + ([drop] + [])));
    ActAllTwo(h', run, [restore] + ([drop] + []));
    ActAllTwo(h', restore, [drop] + []);
    ActAllTwo(h', drop, []);
  }

  lemma {:induction false} UnlockKeepsLocks(b: Block, hints: Hints, env: JobEnv)
    ensures ActAll(Held(Some(b), None), UnlockSteps(b, hints, env)) == Some(Held(Some(b), None))
  {
    JobThenWaitNeutral(b, env);
    FailedUnlockKeepsLocks(b, env.awaited, hints.before);
    if env.ready {
      ActAllTwo(Held(Some(b), None), SetHint(b, hints.during), UnlockSteps(b, hints, env)[1..]);
      assert UnlockSteps(b, hints, env) == [SetHint(b, hints.during)] + UnlockSteps(b, hints, env)[1..];
    }
  }

  /** Every run of every handler is disciplined, whichever step fails. */
  lemma {:induction false} HandlersAreDisciplined(b: Block, exported: bool, hints: Hints, env: JobEnv,
                                                  format: FormatEnv)
    ensures Disciplined(UnlockActions(b, exported, hints, env))
    ensures Disciplined(LockActions(b, exported, env))
    ensures Disciplined(FormatActions(b, exported, format))
  {
    JobThenWaitNeutral(b, env);
    TakeRunDrop(b, b, true);
    UnlockKeepsLocks(b, hints, env);
    BracketedIsDisciplined(b, UnlockSteps(b, hints, env));
    BracketedIsDisciplined(b, EncryptedLockActions(b, env));
    FormatStepsNeutral(b, format);
    BracketedIsDisciplined(b, FormatSteps(b, format));
  }

  // ----- the handlers as the code runs them -----

  datatype Reply = Completed | Failed

  function ReplyIf(ok: bool): Reply
  {
    if ok then Completed else Failed
  }

  class Encrypted {
    /** The hint_encryption_type property. */
    var hint: CryptoType
    var actions: seq<Action>
    /** Replies sent to the caller. */
    var replies: seq<Reply>

    constructor (hint: CryptoType)
      ensures this.hint == hint && actions == [] && replies == []
    {
      this.hint, actions, replies := hint, [], [];
    }

    method Do(a: Action)
      modifies this`actions
      ensures actions == old(actions) + [a]
    {
      actions := actions + [a];
    }

    method ChangeHint(a: Action)
      requires a.SetHint? || a.RestoreHint?
      modifies this`hint, this`actions
      ensures hint == a.hint && actions == old(actions) + [a]
    {
      hint := a.hint;
      Do(a);
    }

    /** The job of an unlock. The hint is set before it, so that the update it triggers sees it. */
    method UnlockJob(b: Block, kind: CryptoType, env: JobEnv)
      requires env.ready
      modifies this
      ensures actions == old(actions) + UnlockSteps(b, Hints(old(hint), kind), env)
      ensures replies == old(replies) + [ReplyIf(env.jobOk && env.waitOk)]
      ensures hint == if env.jobOk then kind else old(hint)
    {
      var oldHint := hint;
      ChangeHint(SetHint(b, kind));
      Do(TakeEncrypted(b));
      Do(RunJob(b, env.awaited, env.jobOk));
      if !env.jobOk {
        replies := replies + [Failed];
        ChangeHint(RestoreHint(b, oldHint));
        Do(DropEncrypted(b));
      } else {
        Do(DropEncrypted(b));
        Do(Await(env.awaited));
        replies := replies + [ReplyIf(env.waitOk)];
      }
    }

    /** handle_unlock. */
    method HandleUnlock(b: Block, exported: bool, kind: CryptoType, env: JobEnv)
      modifies this
      ensures actions == old(actions) + UnlockActions(b, exported, Hints(old(hint), kind), env)
      ensures replies == old(replies) + [ReplyIf(exported && env.ready && env.jobOk && env.waitOk)]
      ensures hint == if exported && env.ready && env.jobOk then kind else old(hint)
    {
      if !exported {
        replies := replies + [Failed];
        assert actions + [] == actions;
        return;
      }
      Do(TakeCleanup(b));
      if env.ready {
        UnlockJob(b, kind, env);
      } else {
        replies := replies + [Failed];
      }
      Do(DropCleanup(b));
    }

    /** udisks_linux_encrypted_lock, also called while a device is torn down; it sends no reply. */
    method EncryptedLock(b: Block, env: JobEnv) returns (ret: bool)
      modifies this`actions
      ensures actions == old(actions) + EncryptedLockActions(b, env)
      ensures ret == (env.ready && env.jobOk && env.waitOk)
    {
      if !env.ready {
        assert actions + [] == actions;
        return false;
      }
      Do(TakeEncrypted(b));
      Do(RunJob(b, env.awaited, env.jobOk));
      if !env.jobOk {
        Do(DropEncrypted(b));
        return false;
      }
      Do(DropEncrypted(b));
      Do(Await(env.awaited));
      return env.waitOk;
    }

    /** handle_lock. */
    method HandleLock(b: Block, exported: bool, env: JobEnv)
      modifies this
      ensures actions == old(actions) + LockActions(b, exported, env)
      ensures replies == old(replies) + [ReplyIf(env.ready && env.jobOk && env.waitOk)] && hint == old(hint)
    {
      if exported {
        Do(TakeCleanup(b));
      }
      var ok := EncryptedLock(b, env);
      replies := replies + [ReplyIf(ok)];
      if exported {
        Do(DropCleanup(b));
      }
    }
  }
}
