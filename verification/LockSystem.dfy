/** Every interleaving of any number of disciplined handlers, the uevent thread and the kernel:
    who holds which lock, why something can always move, and why every wait ends. */
module LockSystem {
  import opened OptionType
  import opened LockDiscipline

  /** A handler, named by its index: the locks it holds and what it has still to do. */
  datatype Handler = Handler(held: Held, rest: seq<Action>)

  datatype Owner = ByHandler(index: nat) | ByUpdater

  /** `pending` are the uevents not processed yet, oldest first; `updating` is the block whose
      Encrypted interface the uevent thread is updating, under the encrypted lock. */
  datatype System = System(
    handlers: seq<Handler>, cleanup: map<Block, nat>, encrypted: map<Block, Owner>,
    updating: Option<Block>, pending: seq<Block>)

  datatype Move = Handle(index: nat) | BeginUpdate | EndUpdate | Uevent(block: Block)

  /** Locks are free, or the waited-for block has no uevent outstanding. */
  predicate Ready(s: System, a: Action)
  {
    match a
    case TakeCleanup(b) => b !in s.cleanup
    case TakeEncrypted(b) => b !in s.encrypted
    case Await(b) => b !in s.pending && s.updating != Some(b)
    case _ => true
  }

  predicate Enabled(s: System, m: Move)
  {
    match m
    case Handle(i) => i < |s.handlers| && s.handlers[i].rest != [] && Ready(s, s.handlers[i].rest[0])
    case BeginUpdate => s.updating.None? && s.pending != [] && s.pending[0] !in s.encrypted
    case EndUpdate => s.updating.Some?
    case Uevent(_) => true
  }

  /** The effect of an action on the locks and the uevent queue; a successful job makes the kernel post
      uevents for its block and for the device that is then waited for. */
  function Effect(s: System, i: nat, a: Action): System
  {
    match a
    case TakeCleanup(b) => s.(cleanup := s.cleanup[b := i])
    case DropCleanup(b) => s.(cleanup := s.cleanup - {b})
    case TakeEncrypted(b) => s.(encrypted := s.encrypted[b := ByHandler(i)])
    case DropEncrypted(b) => s.(encrypted := s.encrypted - {b})
    case RunJob(b, awaited, ok) => if ok then s.(pending := s.pending + [b, awaited]) else s
    case _ => s
  }

  function Step(s: System, m: Move): System
    requires Enabled(s, m)
  {
    match m
    case Handle(i) =>
      var h := s.handlers[i];
      var held := match Act(h.held, h.rest[0]) case Some(held') => held' case None => h.held;
      Effect(s, i, h.rest[0]).(handlers := s.handlers[i := Handler(held, h.rest[1..])])
    case BeginUpdate =>
      s.(updating := Some(s.pending[0]), pending := s.pending[1..], encrypted := s.encrypted[s.pending[0] := ByUpdater])
    case EndUpdate => s.(updating := None, encrypted := s.encrypted - {s.updating.value})
    case Uevent(b) => s.(pending := s.pending + [b])
  }

  predicate Legal(s: System, moves: seq<Move>)
    decreases |moves|
  {
    moves == [] || (Enabled(s, moves[0]) && Legal(Step(s, moves[0]), moves[1..]))
  }

  function Run(s: System, moves: seq<Move>): System
    requires Legal(s, moves)
    decreases |moves|
  {
    if moves == [] then s else Run(Step(s, moves[0]), moves[1..])
  }

  /** Disciplined handlers that have not started. */
  ghost predicate Initial(s: System)
  {
    && s.cleanup == map[] && s.encrypted == map[] && s.updating == None
    && forall i :: 0 <= i < |s.handlers| ==> s.handlers[i].held == NOTHING && Disciplined(s.handlers[i].rest)
  }

  /** A call of one of the three handlers, with the way its steps turn out. */
  datatype Call =
    | Unlock(block: Block, exported: bool, hints: Hints, env: JobEnv)
    | Lock(block: Block, exported: bool, env: JobEnv)
    | Format(block: Block, exported: bool, formatEnv: FormatEnv)

  function ActionsOf(call: Call): seq<Action>
  {
    match call
    case Unlock(b, exported, hints, env) => UnlockActions(b, exported, hints, env)
    case Lock(b, exported, env) => LockActions(b, exported, env)
    case Format(b, exported, env) => FormatActions(b, exported, env)
  }

  function SystemOf(calls: seq<Call>, pending: seq<Block>): System
  {
    var handlers := seq(|calls|, i requires 0 <= i < |calls| => Handler(NOTHING, ActionsOf(calls[i])));
    System(handlers, map[], map[], None, pending)
  }

  /** Any number of calls on any blocks, before any of them has started, with any uevents queued. */
  lemma {:induction false} CallsAreInitial(calls: seq<Call>, pending: seq<Block>)
    ensures Initial(SystemOf(calls, pending))
  {
    forall i | 0 <= i < |calls| ensures Disciplined(ActionsOf(calls[i])) {
      match calls[i] {
        case Unlock(b, exported, hints, env) =>
          HandlersAreDisciplined(b, exported, hints, env, FormatEnv([], false, false, false, None, false));
        case Lock(b, exported, env) =>
          HandlersAreDisciplined(b, exported, Hints(Unset, Unset), env,
                                 FormatEnv([], false, false, false, None, false));
        case Format(b, exported, env) =>
          HandlersAreDisciplined(b, exported, Hints(Unset, Unset), JobEnv(false, false, b, false), env);
      }
    }
  }

  // ----- the invariant -----

  ghost predicate HandlersFollowRules(s: System)
  {
    forall i :: 0 <= i < |s.handlers| ==> ActAll(s.handlers[i].held, s.handlers[i].rest) == Some(NOTHING)
  }

  /** The cleanup locks as the handlers see them. */
  ghost predicate CleanupAgrees(s: System)
  {
    && (forall b :: b in s.cleanup ==> s.cleanup[b] < |s.handlers| && s.handlers[s.cleanup[b]].held.cleanup == Some(b))
    && (forall i :: 0 <= i < |s.handlers| && s.handlers[i].held.cleanup.Some? ==>
         s.handlers[i].held.cleanup.value in s.cleanup && s.cleanup[s.handlers[i].held.cleanup.value] == i)
  }

  ghost predicate OwnerAgrees(s: System, b: Block, owner: Owner)
  {
    match owner
    case ByHandler(i) => i < |s.handlers| && s.handlers[i].held.encrypted == Some(b)
    case ByUpdater => s.updating == Some(b)
  }

  ghost predicate EncryptedAgrees(s: System)
  {
    && (forall b :: b in s.encrypted ==> OwnerAgrees(s, b, s.encrypted[b]))
    && (forall i :: 0 <= i < |s.handlers| && s.handlers[i].held.encrypted.Some? ==>
         s.handlers[i].held.encrypted.value in s.encrypted &&
         s.encrypted[s.handlers[i].held.encrypted.value] == ByHandler(i))
    && (s.updating.Some? ==> s.updating.value in s.encrypted && s.encrypted[s.updating.value] == ByUpdater)
  }

  ghost predicate Inv(s: System)
  {
    HandlersFollowRules(s) && CleanupAgrees(s) && EncryptedAgrees(s)
  }

  lemma {:induction false} HandlerKeepsRules(s: System, i: nat)
    requires Inv(s) && Enabled(s, Handle(i))
    ensures Act(s.handlers[i].held, s.handlers[i].rest[0]).Some?
    ensures HandlersFollowRules(Step(s, Handle(i)))
  {
    assert ActAll(s.handlers[i].held, s.handlers[i].rest) == Some(NOTHING);
  }

  lemma {:induction false} TakingKeepsCleanup(s: System, i: nat)
    requires Inv(s) && Enabled(s, Handle(i)) && s.handlers[i].rest[0].TakeCleanup?
    ensures CleanupAgrees(Step(s, Handle(i)))
  {
    HandlerKeepsRules(s, i);
    assert s.handlers[i].held.cleanup.None?;
  }

  lemma {:induction false} DroppingKeepsCleanup(s: System, i: nat)
    requires Inv(s) && Enabled(s, Handle(i)) && s.handlers[i].rest[0].DropCleanup?
    ensures CleanupAgrees(Step(s, Handle(i)))
  {
    HandlerKeepsRules(s, i);
    assert s.cleanup[s.handlers[i].rest[0].block] == i;
  }

  lemma {:induction false} OtherActionsKeepCleanup(s: System, i: nat)
    requires Inv(s) && Enabled(s, Handle(i)) && !s.handlers[i].rest[0].TakeCleanup? &&
             !s.handlers[i].rest[0].DropCleanup?
    ensures CleanupAgrees(Step(s, Handle(i)))
  {
    HandlerKeepsRules(s, i);
    var s' := Step(s, Handle(i));
    assert s'.cleanup == s.cleanup;
    assert forall j :: 0 <= j < |s.handlers| ==> s'.handlers[j].held.cleanup == s.handlers[j].held.cleanup;
  }

  lemma {:induction false} TakingKeepsEncrypted(s: System, i: nat)
    requires Inv(s) && Enabled(s, Handle(i)) && s.handlers[i].rest[0].TakeEncrypted?
    ensures EncryptedAgrees(Step(s, Handle(i)))
  {
    HandlerKeepsRules(s, i);
    assert s.handlers[i].held.encrypted.None?;
  }

  lemma {:induction false} DroppingKeepsEncrypted(s: System, i: nat)
    requires Inv(s) && Enabled(s, Handle(i)) && s.handlers[i].rest[0].DropEncrypted?
    ensures EncryptedAgrees(Step(s, Handle(i)))
  {
    HandlerKeepsRules(s, i);
    var b := s.handlers[i].rest[0].block;
    assert s.handlers[i].held.encrypted == Some(b);
    assert s.encrypted[b] == ByHandler(i);
  }

  lemma {:induction false} OtherActionsKeepEncrypted(s: System, i: nat)
    requires Inv(s) && Enabled(s, Handle(i)) && !s.handlers[i].rest[0].TakeEncrypted? &&
             !s.handlers[i].rest[0].DropEncrypted?
    ensures EncryptedAgrees(Step(s, Handle(i)))
  {
    HandlerKeepsRules(s, i);
    var s' := Step(s, Handle(i));
    assert s'.encrypted == s.encrypted && s'.updating == s.updating;
    assert forall j :: 0 <= j < |s.handlers| ==> s'.handlers[j].held.encrypted == s.handlers[j].held.encrypted;
  }

  lemma {:induction false} HandlerKeepsInv(s: System, i: nat)
    requires Inv(s) && Enabled(s, Handle(i))
    ensures Inv(Step(s, Handle(i)))
  {
    HandlerKeepsRules(s, i);
    if s.handlers[i].rest[0].TakeCleanup? {
      TakingKeepsCleanup(s, i);
    } else if s.handlers[i].rest[0].DropCleanup? {
      DroppingKeepsCleanup(s, i);
    } else {
      OtherActionsKeepCleanup(s, i);
    }
    if s.handlers[i].rest[0].TakeEncrypted? {
      TakingKeepsEncrypted(s, i);
    } else if s.handlers[i].rest[0].DropEncrypted? {
      DroppingKeepsEncrypted(s, i);
    } else {
      OtherActionsKeepEncrypted(s, i);
    }
  }

  lemma {:induction false} BeginKeepsInv(s: System)
    requires Inv(s) && Enabled(s, BeginUpdate)
    ensures Inv(Step(s, BeginUpdate))
  {
  }

  lemma {:induction false} EndKeepsInv(s: System)
    requires Inv(s) && Enabled(s, EndUpdate)
    ensures Inv(Step(s, EndUpdate))
  {
    assert s.encrypted[s.updating.value] == ByUpdater;
  }

  lemma {:induction false} StepKeepsInv(s: System, m: Move)
    requires Inv(s) && Enabled(s, m)
    ensures Inv(Step(s, m))
  {
    match m {
      case Handle(i) => HandlerKeepsInv(s, i);
      case BeginUpdate => BeginKeepsInv(s);
      case EndUpdate => EndKeepsInv(s);
      case Uevent(b) =>
    }
  }

  lemma {:induction false} RunKeepsInv(s: System, moves: seq<Move>)
    requires Inv(s) && Legal(s, moves)
    ensures Inv(Run(s, moves))
    decreases |moves|
  {
    if moves != [] {
      StepKeepsInv(s, moves[0]);
      RunKeepsInv(Step(s, moves[0]), moves[1..]);
    }
  }

  // ----- safety in every run -----

  /** In every reachable state: a handler that waits holds no encrypted lock, it never asks for one
      it holds, and one that is done holds nothing. */
  lemma {:induction false} WaitersHoldNoEncryptedLock(s: System, moves: seq<Move>, i: nat)
    requires Initial(s) && Legal(s, moves) && i < |Run(s, moves).handlers|
    ensures var r := Run(s, moves);
            var h := r.handlers[i];
            if h.rest == [] then
              forall b ::
                (b in r.cleanup ==> r.cleanup[b] != i) && (b in r.encrypted ==> r.encrypted[b] != ByHandler(i))
            else if h.rest[0].Await? || h.rest[0].TakeEncrypted? then
              forall b :: b in r.encrypted ==> r.encrypted[b] != ByHandler(i)
            else true
  {
    RunKeepsInv(s, moves);
    var r := Run(s, moves);
    var h := r.handlers[i];
    assert ActAll(h.held, h.rest) == Some(NOTHING);
    if h.rest == [] {
      assert h.held == NOTHING;
    } else {
      assert Act(h.held, h.rest[0]).Some?;
    }
  }

  // ----- something can always move -----

  predicate Finished(s: System)
  {
    s.updating.None? && s.pending == [] && forall i :: 0 <= i < |s.handlers| ==> s.handlers[i].rest == []
  }

  /** A move of the system itself, not of the kernel. */
  predicate Internal(m: Move)
  {
    !m.Uevent?
  }

  lemma {:induction false} HolderIsNeverBlocked(s: System, i: nat)
    requires Inv(s) && i < |s.handlers| && s.handlers[i].held.encrypted.Some?
    ensures Enabled(s, Handle(i))
  {
    var h := s.handlers[i];
    assert ActAll(h.held, h.rest) == Some(NOTHING);
    assert h.rest != [];
    assert Act(h.held, h.rest[0]).Some?;
  }

  lemma {:induction false} UnlockedHandlersMove(s: System, i: nat) returns (m: Move)
    requires Inv(s) && s.encrypted == map[] && s.updating.None? && s.pending == []
    requires i < |s.handlers| && s.handlers[i].rest != []
    ensures Internal(m) && Enabled(s, m)
  {
    var h := s.handlers[i];
    if Enabled(s, Handle(i)) {
      return Handle(i);
    }
    var u := s.cleanup[h.rest[0].block];
    var other := s.handlers[u];
    assert other.held.cleanup == Some(h.rest[0].block);
    assert ActAll(other.held, other.rest) == Some(NOTHING);
    assert other.rest != [];
    assert Act(other.held, other.rest[0]).Some?;
    return Handle(u);
  }

  lemma {:induction false} NoOwners(s: System)
    requires EncryptedAgrees(s) && s.updating.None?
    requires forall i :: 0 <= i < |s.handlers| ==> s.handlers[i].held.encrypted.None?
    ensures s.encrypted == map[]
  {
    assert forall b :: b in s.encrypted ==> OwnerAgrees(s, b, s.encrypted[b]);
    assert s.encrypted.Keys == {};
  }

  /** Deadlock freedom. */
  lemma {:induction false} SomethingMoves(s: System) returns (m: Move)
    requires Inv(s) && !Finished(s)
    ensures Internal(m) && Enabled(s, m)
  {
    if s.updating.Some? {
      return EndUpdate;
    }
    if i :| 0 <= i < |s.handlers| && s.handlers[i].held.encrypted.Some? {
      HolderIsNeverBlocked(s, i);
      return Handle(i);
    }
    NoOwners(s);
    if s.pending != [] {
      return BeginUpdate;
    }
    var i :| 0 <= i < |s.handlers| && s.handlers[i].rest != [];
    m := UnlockedHandlersMove(s, i);
  }

  // ----- every run comes to an end -----

  function WorkLeft(handlers: seq<Handler>): nat
  {
    if handlers == [] then 0 else WorkLeft(handlers[..|handlers| - 1]) + |handlers[|handlers| - 1].rest|
  }

  lemma {:induction false} WorkLeftDrops(handlers: seq<Handler>, i: nat, h: Handler)
    requires i < |handlers| && |h.rest| + 1 == |handlers[i].rest|
    ensures WorkLeft(handlers[i := h]) + 1 == WorkLeft(handlers)
  {
    var n := |handlers| - 1;
    if i == n {
      assert handlers[i := h][..n] == handlers[..n];
    } else {
      assert handlers[i := h][..n] == handlers[..n][i := h];
      WorkLeftDrops(handlers[..n], i, h);
    }
  }

  /** An action may post two uevents, and a uevent takes two steps of the uevent thread. */
  function Measure(s: System): nat
  {
    5 * WorkLeft(s.handlers) + 2 * |s.pending| + (if s.updating.Some? then 1 else 0)
  }

  lemma {:induction false} StepLowersMeasure(s: System, m: Move)
    requires Enabled(s, m)
    ensures if Internal(m) then Measure(Step(s, m)) < Measure(s) else Measure(Step(s, m)) == Measure(s) + 2
  {
    if m.Handle? {
      var h := s.handlers[m.index];
      WorkLeftDrops(s.handlers, m.index, Step(s, m).handlers[m.index]);
    }
  }

  function Uevents(moves: seq<Move>): nat
  {
    if moves == [] then 0 else (if moves[0].Uevent? then 1 else 0) + Uevents(moves[1..])
  }

  /** No run can go on for ever unless the kernel keeps sending uevents. */
  lemma {:induction false} RunsAreBounded(s: System, moves: seq<Move>)
    requires Legal(s, moves)
    ensures |moves| + Measure(Run(s, moves)) <= Measure(s) + 3 * Uevents(moves)
    decreases |moves|
  {
    if moves != [] {
      StepLowersMeasure(s, moves[0]);
      RunsAreBounded(Step(s, moves[0]), moves[1..]);
    }
  }

  /** However the threads are scheduled: a run that cannot go on has finished every handler and
      every update, and the kernel's uevents bound its length. */
  lemma {:induction false} EveryRunFinishes(s: System, moves: seq<Move>)
    requires Initial(s) && Legal(s, moves)
    ensures |moves| <= Measure(s) + 3 * Uevents(moves)
    ensures (forall m: Move :: Internal(m) ==> !Enabled(Run(s, moves), m)) <==> Finished(Run(s, moves))
  {
    RunsAreBounded(s, moves);
    RunKeepsInv(s, moves);
    if !Finished(Run(s, moves)) {
      var m := SomethingMoves(Run(s, moves));
      assert Internal(m) && Enabled(Run(s, moves), m);
    }
  }

  /** A waiting handler is served by the others alone: from any reachable state the system may run
      on as it likes; once nobody but this handler can move, it can. So whatever it waits for, and
      whichever lock it wants, is never held up by the handler itself. */
  lemma {:induction false} WaiterIsServed(s: System, moves: seq<Move>, i: nat, others: seq<Move>)
    requires Initial(s) && Legal(s, moves) && Legal(Run(s, moves), others)
    requires i < |Run(Run(s, moves), others).handlers| && Run(Run(s, moves), others).handlers[i].rest != []
    requires forall m: Move :: Internal(m) && m != Handle(i) ==> !Enabled(Run(Run(s, moves), others), m)
    ensures Enabled(Run(Run(s, moves), others), Handle(i))
    ensures |others| <= Measure(Run(s, moves)) + 3 * Uevents(others)
  {
    var r := Run(s, moves);
    RunKeepsInv(s, moves);
    RunKeepsInv(r, others);
    RunsAreBounded(r, others);
    var m := SomethingMoves(Run(r, others));
    assert m == Handle(i);
  }

  /** Some update in the run is of block `c`. */
  predicate Updates(s: System, moves: seq<Move>, c: Block)
    requires Legal(s, moves)
    decreases |moves|
  {
    moves != [] && ((moves[0].BeginUpdate? && s.pending[0] == c) || Updates(Step(s, moves[0]), moves[1..], c))
  }

  lemma {:induction false} StaysPending(s: System, m: Move, c: Block)
    requires Enabled(s, m) && c in s.pending
    ensures c in Step(s, m).pending || (m.BeginUpdate? && s.pending[0] == c)
  {
    if m.BeginUpdate? {
      assert s.pending == [s.pending[0]] + s.pending[1..];
    }
  }

  lemma {:induction false} AwaitedIsUpdated(s: System, moves: seq<Move>, c: Block)
    requires Legal(s, moves) && c in s.pending && Ready(Run(s, moves), Await(c))
    ensures Updates(s, moves, c)
    decreases |moves|
  {
    if moves != [] {
      StaysPending(s, moves[0], c);
      if c in Step(s, moves[0]).pending {
        AwaitedIsUpdated(Step(s, moves[0]), moves[1..], c);
      }
    }
  }

  lemma {:induction false} JobPostsAwaited(s: System, i: nat)
    requires Enabled(s, Handle(i)) && s.handlers[i].rest[0].RunJob? && s.handlers[i].rest[0].ok
    ensures s.handlers[i].rest[0].awaited in Step(s, Handle(i)).pending
  {
    var a := s.handlers[i].rest[0];
    assert (s.pending + [a.block, a.awaited])[|s.pending| + 1] == a.awaited;
  }

  /** After a successful job, a wait for the device it makes appear or vanish is over only when that
      device has been updated, whatever else happens meanwhile. */
  lemma {:induction false} WaitOutlastsTheUpdate(s: System, i: nat, moves: seq<Move>)
    requires Enabled(s, Handle(i)) && s.handlers[i].rest[0].RunJob? && s.handlers[i].rest[0].ok
    requires Legal(Step(s, Handle(i)), moves)
    requires Ready(Run(Step(s, Handle(i)), moves), Await(s.handlers[i].rest[0].awaited))
    ensures Updates(Step(s, Handle(i)), moves, s.handlers[i].rest[0].awaited)
  {
    JobPostsAwaited(s, i);
    AwaitedIsUpdated(Step(s, Handle(i)), moves, s.handlers[i].rest[0].awaited);
  }

  /** Take the encrypted lock, run the job, and wait before releasing it. */
  function Undisciplined(b: Block): seq<Action>
  {
    [TakeEncrypted(b)] + ([RunJob(b, b, true)] + ([Await(b)] + [DropEncrypted(b)]))
  }

  lemma {:induction false} IsUndisciplined(b: Block)
    ensures !Disciplined(Undisciplined(b))
  {
    ActAllTwo(NOTHING, TakeEncrypted(b), [RunJob(b, b, true)] + ([Await(b)] + [DropEncrypted(b)]));
    ActAllTwo(Held(None, Some(b)), RunJob(b, b, true), [Await(b)] + [DropEncrypted(b)]);
    ActAllTwo(Held(None, Some(b)), Await(b), [DropEncrypted(b)]);
  }

  lemma {:induction false} RunOne(s: System, m: Move)
    requires Enabled(s, m)
    ensures Legal(s, [m]) && Run(s, [m]) == Step(s, m)
  {
    assert [m][1..] == [];
    assert Legal(Step(s, m), []) && Run(Step(s, m), []) == Step(s, m);
  }

  lemma {:induction false} RunTwo(s: System, m: Move, n: Move)
    requires Enabled(s, m) && Enabled(Step(s, m), n)
    ensures Legal(s, [m, n]) && Run(s, [m, n]) == Step(Step(s, m), n)
  {
    assert [m, n][1..] == [n];
    RunOne(Step(s, m), n);
  }

  lemma {:induction false} UpToTheWait(b: Block)
    ensures var s := System([Handler(NOTHING, Undisciplined(b))], map[], map[], None, []);
            && Legal(s, [Handle(0), Handle(0)])
            && Run(s, [Handle(0), Handle(0)]) ==
               System([Handler(Held(None, Some(b)), [Await(b)] + [DropEncrypted(b)])], map[], map[b := ByHandler(0)],
                      None, [b, b])
  {
    var rest := [Await(b)] + [DropEncrypted(b)];
    var s := System([Handler(NOTHING, Undisciplined(b))], map[], map[], None, []);
    assert Undisciplined(b)[1..] == [RunJob(b, b, true)] + rest && ([RunJob(b, b, true)] + rest)[1..] == rest;
    assert Step(s, Handle(0)) ==
           System([Handler(Held(None, Some(b)), [RunJob(b, b, true)] + rest)], map[], map[b := ByHandler(0)], None, []);
    RunTwo(s, Handle(0), Handle(0));
  }

  /** The rule is needed: a handler that waits for the uevent of its own job under the encrypted lock
      stops everything. It runs up to the wait, and then nothing can move. */
  lemma {:induction false} WaitingUnderTheLockDeadlocks(b: Block, m: Move)
    requires Internal(m)
    ensures var s := System([Handler(NOTHING, Undisciplined(b))], map[], map[], None, []);
            && !Disciplined(Undisciplined(b))
            && Legal(s, [Handle(0), Handle(0)])
            && !Finished(Run(s, [Handle(0), Handle(0)]))
            && !Enabled(Run(s, [Handle(0), Handle(0)]), m)
  {
    IsUndisciplined(b);
    UpToTheWait(b);
    assert b in [b, b];
  }
}
