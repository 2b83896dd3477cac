/** The SMART self-test: start, abort and job threads around one mutex and one job pointer. */
module SelfTest {
  import opened OptionType

  type Tid = nat

  /** handle_smart_selftest_start drops the lock between its check and its launch;
      handle_smart_selftest_abort cancels under the lock; selftest_job_func polls, and clears the
      pointer under the lock at the end. `Busy` constructors hold the lock. */
  datatype Thread =
    | StartEntry | StartCheckBusy | StartCommand | StartRelock | StartLaunchBusy | StartUnlockBusy
    | AbortCommand | AbortEntry | AbortCancelBusy | AbortUnlockBusy
    | JobRefresh(cancelled: bool) | JobLock(cancelled: bool) | JobReadBusy(cancelled: bool) | JobSleep(cancelled: bool)
    | JobEnd | JobClearBusy | JobUnlockBusy
    | Finished

  predicate HoldsLock(th: Thread)
  {
    th.StartCheckBusy? || th.StartLaunchBusy? || th.StartUnlockBusy? || th.AbortCancelBusy? || th.AbortUnlockBusy? ||
    th.JobReadBusy? || th.JobClearBusy? || th.JobUnlockBusy?
  }

  /** A job in its loop: it reads the SMART data, looks at the result under the lock, sleeps until it is
      cancelled or it is time to read again. `cancelled` is the flag of its cancellable. */
  predicate Polls(th: Thread)
  {
    th.JobRefresh? || th.JobLock? || th.JobReadBusy? || th.JobSleep?
  }

  /** A job that has been launched and has not cleared the pointer yet. */
  predicate LiveJob(th: Thread)
  {
    Polls(th) || th.JobEnd? || th.JobClearBusy?
  }

  datatype Event = Launched(job: Tid) | Cleared(job: Tid) | Cancelled(job: Tid)

  /** `selftestJob` is the pointer; a job is named by its thread. */
  datatype System = System(lock: Option<Tid>, selftestJob: Option<Tid>, threads: map<Tid, Thread>, log: seq<Event>)

  /** What the environment decides: whether a command succeeds, whether a poll ends the job, and
      the identity of a new thread. */
  datatype Choice = Choice(ok: bool, ends: bool, newTid: Tid)

  function Goto(s: System, t: Tid, th: Thread): System
  {
    s.(threads := s.threads[t := th])
  }

  function Lock(s: System, t: Tid, th: Thread): System
  {
    if s.lock.Some? then s else Goto(s, t, th).(lock := Some(t))
  }

  function Unlock(s: System, t: Tid, th: Thread): System
  {
    Goto(s, t, th).(lock := None)
  }

  /** Cancelling sets the flag of the job that `selftestJob` is. */
  function CancelJob(s: System): System
  {
    match s.selftestJob
    case None => s
    case Some(j) =>
      var s' := s.(log := s.log + [Cancelled(j)]);
      if j in s.threads && Polls(s.threads[j]) then Goto(s', j, s.threads[j].(cancelled := true)) else s'
  }

  /** udisks_daemon_launch_threaded_job and udisks_threaded_job_start, under the lock. */
  function LaunchJob(s: System, newTid: Tid): System
  {
    if s.selftestJob.Some? || newTid in s.threads then s
    else Goto(s, newTid, JobRefresh(false)).(selftestJob := Some(newTid), log := s.log + [Launched(newTid)])
  }

  function Step(s: System, t: Tid, c: Choice): System
    requires t in s.threads
  {
    match s.threads[t]
    case StartEntry => Lock(s, t, StartCheckBusy)
    case StartCheckBusy => Unlock(s, t, if s.selftestJob.Some? then Finished else StartCommand)
    case StartCommand => Goto(s, t, if c.ok then StartRelock else Finished)
    case StartRelock => Lock(s, t, StartLaunchBusy)
    case StartLaunchBusy =>
      if s.selftestJob.None? && c.newTid in s.threads then s else Goto(LaunchJob(s, c.newTid), t, StartUnlockBusy)
    case StartUnlockBusy => Unlock(s, t, Finished)
    case AbortCommand => Goto(s, t, if c.ok then AbortEntry else Finished)
    case AbortEntry => Lock(s, t, AbortCancelBusy)
    case AbortCancelBusy => Goto(CancelJob(s), t, AbortUnlockBusy)
    case AbortUnlockBusy => Unlock(s, t, Finished)
    case JobRefresh(cancelled) => Goto(s, t, if c.ok then JobLock(cancelled) else JobEnd)
    case JobLock(cancelled) => Lock(s, t, JobReadBusy(cancelled))
    case JobReadBusy(cancelled) => Unlock(s, t, if c.ends then JobEnd else JobSleep(cancelled))
    case JobSleep(cancelled) => Goto(s, t, if cancelled || !c.ok then JobEnd else JobRefresh(cancelled))
    case JobEnd => Lock(s, t, JobClearBusy)
    case JobClearBusy => Goto(s, t, JobUnlockBusy).(selftestJob := None, log := s.log + [Cleared(t)])
    case JobUnlockBusy => Unlock(s, t, Finished)
    case Finished => s
  }

  // ----- the invariant -----

  /** The pointer as the log tells it; `None` when the log breaks the rules: a launch over a live
      job, a clear by another job, a cancel of a job that is not live. */
  function PointerAfter(log: seq<Event>): Option<Option<Tid>>
  {
    if log == [] then Some(None)
    else
      match PointerAfter(log[..|log| - 1])
      case None => None
      case Some(p) =>
        match log[|log| - 1]
        case Launched(j) => if p == None then Some(Some(j)) else None
        case Cleared(j) => if p == Some(j) then Some(None) else None
        case Cancelled(j) => if p == Some(j) then Some(p) else None
  }

  ghost predicate LockInv(s: System)
  {
    forall t :: t in s.threads ==> (HoldsLock(s.threads[t]) <==> s.lock == Some(t))
  }

  /** `selftestJob` is the one live job. */
  ghost predicate JobInv(s: System)
  {
    && (forall t :: t in s.threads ==> (LiveJob(s.threads[t]) <==> s.selftestJob == Some(t)))
    && (s.selftestJob.Some? ==> s.selftestJob.value in s.threads)
    && PointerAfter(s.log) == Some(s.selftestJob)
  }

  ghost predicate Inv(s: System)
  {
    LockInv(s) && JobInv(s) && (s.lock.Some? ==> s.lock.value in s.threads)
  }

  lemma LogSnoc(log: seq<Event>, e: Event)
    ensures PointerAfter(log + [e]) ==
            match PointerAfter(log)
            case None => None
            case Some(p) =>
              match e
              case Launched(j) => if p == None then Some(Some(j)) else None
              case Cleared(j) => if p == Some(j) then Some(None) else None
              case Cancelled(j) => if p == Some(j) then Some(p) else None
  {
    assert (log + [e])[..|log|] == log;
  }

  lemma {:induction false} GotoKeepsInv(s: System, t: Tid, th: Thread)
    requires Inv(s) && t in s.threads
    requires HoldsLock(th) == HoldsLock(s.threads[t]) && LiveJob(th) == LiveJob(s.threads[t])
    ensures Inv(Goto(s, t, th))
  {
  }

  lemma {:induction false} LockKeepsInv(s: System, t: Tid, th: Thread)
    requires Inv(s) && t in s.threads && !HoldsLock(s.threads[t]) && HoldsLock(th) &&
             LiveJob(th) == LiveJob(s.threads[t])
    ensures Inv(Lock(s, t, th))
  {
  }

  lemma {:induction false} UnlockKeepsInv(s: System, t: Tid, th: Thread)
    requires Inv(s) && t in s.threads && HoldsLock(s.threads[t]) && !HoldsLock(th) &&
             LiveJob(th) == LiveJob(s.threads[t])
    ensures Inv(Unlock(s, t, th))
  {
  }

  lemma {:induction false} CancelKeepsInv(s: System)
    requires Inv(s)
    ensures Inv(CancelJob(s)) && CancelJob(s).threads.Keys == s.threads.Keys
    ensures forall t :: t in s.threads && !Polls(s.threads[t]) ==> CancelJob(s).threads[t] == s.threads[t]
  {
    if s.selftestJob.Some? {
      LogSnoc(s.log, Cancelled(s.selftestJob.value));
    }
  }

  lemma {:induction false} LaunchKeepsInv(s: System, newTid: Tid)
    requires Inv(s)
    ensures Inv(LaunchJob(s, newTid)) && s.threads.Keys <= LaunchJob(s, newTid).threads.Keys
    ensures forall t :: t in s.threads ==> LaunchJob(s, newTid).threads[t] == s.threads[t]
  {
    LogSnoc(s.log, Launched(newTid));
  }

  lemma {:induction false} ClearKeepsInv(s: System, t: Tid)
    requires Inv(s) && t in s.threads && s.threads[t].JobClearBusy?
    ensures Inv(Goto(s, t, JobUnlockBusy).(selftestJob := None, log := s.log + [Cleared(t)]))
  {
    LogSnoc(s.log, Cleared(t));
  }

  /** The thread of a job, live or about to finish. */
  predicate IsJob(th: Thread)
  {
    LiveJob(th) || th.JobUnlockBusy?
  }

  lemma {:induction false} PollKeepsInv(s: System, t: Tid, c: Choice)
    requires Inv(s) && t in s.threads && Polls(s.threads[t])
    ensures Inv(Step(s, t, c)) && s.threads.Keys <= Step(s, t, c).threads.Keys
  {
    var th := s.threads[t];
    var cancelled := th.cancelled;
    if th.JobRefresh? {
      GotoKeepsInv(s, t, if c.ok then JobLock(cancelled) else JobEnd);
    } else if th.JobLock? {
      LockKeepsInv(s, t, JobReadBusy(cancelled));
    } else if th.JobReadBusy? {
      UnlockKeepsInv(s, t, if c.ends then JobEnd else JobSleep(cancelled));
    } else {
      GotoKeepsInv(s, t, if cancelled || !c.ok then JobEnd else JobRefresh(cancelled));
    }
  }

  lemma {:induction false} JobEndKeepsInv(s: System, t: Tid, c: Choice)
    requires Inv(s) && t in s.threads && (s.threads[t].JobEnd? || s.threads[t].JobUnlockBusy?)
    ensures Inv(Step(s, t, c)) && s.threads.Keys <= Step(s, t, c).threads.Keys
  {
    if s.threads[t].JobEnd? {
      LockKeepsInv(s, t, JobClearBusy);
    } else {
      UnlockKeepsInv(s, t, Finished);
    }
  }

  lemma {:induction false} ClearStepKeepsInv(s: System, t: Tid, c: Choice)
    requires Inv(s) && t in s.threads && s.threads[t].JobClearBusy?
    ensures Inv(Step(s, t, c)) && s.threads.Keys <= Step(s, t, c).threads.Keys
  {
    ClearKeepsInv(s, t);
  }

  lemma {:induction false} CallStepKeepsInv(s: System, t: Tid, c: Choice)
    requires Inv(s) && t in s.threads && !IsJob(s.threads[t])
    ensures Inv(Step(s, t, c)) && s.threads.Keys <= Step(s, t, c).threads.Keys
  {
    match s.threads[t] {
      case StartEntry => LockKeepsInv(s, t, StartCheckBusy);
      case StartCheckBusy => UnlockKeepsInv(s, t, if s.selftestJob.Some? then Finished else StartCommand);
      case StartCommand => GotoKeepsInv(s, t, if c.ok then StartRelock else Finished);
      case StartRelock => LockKeepsInv(s, t, StartLaunchBusy);
      case StartLaunchBusy =>
        LaunchKeepsInv(s, c.newTid);
        GotoKeepsInv(LaunchJob(s, c.newTid), t, StartUnlockBusy);
      case StartUnlockBusy => UnlockKeepsInv(s, t, Finished);
      case AbortCommand => GotoKeepsInv(s, t, if c.ok then AbortEntry else Finished);
      case AbortEntry => LockKeepsInv(s, t, AbortCancelBusy);
      case AbortCancelBusy =>
        CancelKeepsInv(s);
        GotoKeepsInv(CancelJob(s), t, AbortUnlockBusy);
      case AbortUnlockBusy => UnlockKeepsInv(s, t, Finished);
      case Finished =>
    }
  }

  lemma {:induction false} StepKeepsInv(s: System, t: Tid, c: Choice)
    requires Inv(s) && t in s.threads
    ensures Inv(Step(s, t, c)) && s.threads.Keys <= Step(s, t, c).threads.Keys
  {
    if Polls(s.threads[t]) {
      PollKeepsInv(s, t, c);
    } else if s.threads[t].JobClearBusy? {
      ClearStepKeepsInv(s, t, c);
    } else if IsJob(s.threads[t]) {
      JobEndKeepsInv(s, t, c);
    } else {
      CallStepKeepsInv(s, t, c);
    }
  }

  // ----- what starts and aborts achieve -----

  /** A job that will not go round its loop again. */
  predicate Stopping(th: Thread)
  {
    (Polls(th) && th.cancelled) || th.JobEnd? || th.JobClearBusy?
  }

  /** The flag of a job is set exactly when it has been cancelled. */
  ghost predicate FlagInv(s: System)
  {
    && (forall t :: t in s.threads && Polls(s.threads[t]) ==> (s.threads[t].cancelled <==> Cancelled(t) in s.log))
    && (forall t :: Cancelled(t) in s.log ==> t in s.threads)
  }

  /** What holds when a call lets go of the lock: a start leaves a job, an abort leaves none that would
      go on, and a job leaves none. */
  ghost predicate ReleaseInv(s: System)
  {
    forall t :: t in s.threads ==>
      && (s.threads[t].StartUnlockBusy? ==> s.selftestJob.Some?)
      && (s.threads[t].AbortUnlockBusy? && s.selftestJob.Some? ==>
            s.selftestJob.value in s.threads && Stopping(s.threads[s.selftestJob.value]))
      && (s.threads[t].JobUnlockBusy? ==> s.selftestJob.None?)
  }

  predicate KeepsFlag(th: Thread, th': Thread)
  {
    Polls(th') ==> Polls(th) && th'.cancelled == th.cancelled
  }

  /** Everything but the cancel, the launch and the clear leaves the log alone, and all of these but
      the thread itself. */
  lemma {:induction false} MoveKeepsFlags(s: System, t: Tid, th: Thread, lock: Option<Tid>)
    requires FlagInv(s) && t in s.threads
    requires KeepsFlag(s.threads[t], th)
    ensures FlagInv(Goto(s, t, th)) && FlagInv(Goto(s, t, th).(lock := lock))
  {
  }

  lemma {:induction false} CancelKeepsFlags(s: System)
    requires Inv(s) && FlagInv(s)
    ensures FlagInv(CancelJob(s))
  {
    if s.selftestJob.Some? {
      var j := s.selftestJob.value;
      assert forall u :: Cancelled(u) in s.log + [Cancelled(j)] <==> Cancelled(u) in s.log || u == j;
    }
  }

  lemma {:induction false} LaunchKeepsFlags(s: System, newTid: Tid)
    requires FlagInv(s)
    ensures FlagInv(LaunchJob(s, newTid))
  {
    assert forall u :: Cancelled(u) in s.log + [Launched(newTid)] <==> Cancelled(u) in s.log;
  }

  lemma {:induction false} ClearKeepsFlags(s: System, t: Tid)
    requires FlagInv(s) && t in s.threads
    ensures FlagInv(Goto(s, t, JobUnlockBusy).(selftestJob := None, log := s.log + [Cleared(t)]))
  {
    assert forall u :: Cancelled(u) in s.log + [Cleared(t)] <==> Cancelled(u) in s.log;
  }

  lemma {:induction false} CancelStepKeepsFlags(s: System, t: Tid, c: Choice)
    requires Inv(s) && FlagInv(s) && t in s.threads && s.threads[t].AbortCancelBusy?
    ensures FlagInv(Step(s, t, c))
  {
    CancelKeepsInv(s);
    CancelKeepsFlags(s);
    MoveKeepsFlags(CancelJob(s), t, AbortUnlockBusy, s.lock);
  }

  lemma {:induction false} LaunchStepKeepsFlags(s: System, t: Tid, c: Choice)
    requires FlagInv(s) && t in s.threads && s.threads[t].StartLaunchBusy?
    ensures FlagInv(Step(s, t, c))
  {
    LaunchKeepsFlags(s, c.newTid);
    MoveKeepsFlags(LaunchJob(s, c.newTid), t, StartUnlockBusy, s.lock);
  }

  lemma {:induction false} StepKeepsFlags(s: System, t: Tid, c: Choice)
    requires Inv(s) && FlagInv(s) && t in s.threads
    ensures FlagInv(Step(s, t, c))
  {
    if s.threads[t].AbortCancelBusy? {
      CancelStepKeepsFlags(s, t, c);
    } else if s.threads[t].StartLaunchBusy? {
      LaunchStepKeepsFlags(s, t, c);
    } else if s.threads[t].JobClearBusy? {
      ClearKeepsFlags(s, t);
    } else {
      MoveIsOneThread(s, t, c);
      MoveKeepsFlags(s, t, Step(s, t, c).threads[t], Step(s, t, c).lock);
    }
  }

  predicate ChangesMore(th: Thread)
  {
    th.AbortCancelBusy? || th.StartLaunchBusy? || th.JobClearBusy?
  }

  lemma {:induction false} CallMoveIsOneThread(s: System, t: Tid, c: Choice)
    requires t in s.threads && !ChangesMore(s.threads[t]) && !IsJob(s.threads[t])
    ensures var s' := Step(s, t, c);
            && t in s'.threads && s' == Goto(s, t, s'.threads[t]).(lock := s'.lock)
            && !IsJob(s'.threads[t]) && (Releases(s'.threads[t]) ==> s' == s)
  {
    assert s.threads[t := s.threads[t]] == s.threads;
  }

  lemma {:induction false} JobMoveIsOneThread(s: System, t: Tid, c: Choice)
    requires t in s.threads && !ChangesMore(s.threads[t]) && IsJob(s.threads[t])
    ensures var s' := Step(s, t, c);
            && t in s'.threads && s' == Goto(s, t, s'.threads[t]).(lock := s'.lock)
            && KeepsFlag(s.threads[t], s'.threads[t])
            && (Stopping(s.threads[t]) ==> Stopping(s'.threads[t]))
            && (Releases(s'.threads[t]) ==> s' == s)
  {
    assert s.threads[t := s.threads[t]] == s.threads;
  }

  lemma {:induction false} MoveIsOneThread(s: System, t: Tid, c: Choice)
    requires t in s.threads && !ChangesMore(s.threads[t])
    ensures var s' := Step(s, t, c);
            && t in s'.threads && s' == Goto(s, t, s'.threads[t]).(lock := s'.lock)
            && KeepsFlag(s.threads[t], s'.threads[t])
            && (Stopping(s.threads[t]) ==> Stopping(s'.threads[t]))
            && (Releases(s'.threads[t]) ==> s' == s)
  {
    if IsJob(s.threads[t]) {
      JobMoveIsOneThread(s, t, c);
    } else {
      CallMoveIsOneThread(s, t, c);
    }
  }

  predicate Releases(th: Thread)
  {
    th.StartUnlockBusy? || th.AbortUnlockBusy? || th.JobUnlockBusy?
  }

  lemma {:induction false} MoveKeepsReleases(s: System, t: Tid, th: Thread, lock: Option<Tid>)
    requires ReleaseInv(s) && t in s.threads && !Releases(th)
    requires Stopping(s.threads[t]) ==> Stopping(th)
    ensures ReleaseInv(Goto(s, t, th).(lock := lock))
  {
  }

  /** Nobody else is about to release the lock while `t` holds it. */
  lemma {:induction false} ChangeKeepsReleases(s: System, t: Tid, c: Choice)
    requires Inv(s) && ReleaseInv(s) && t in s.threads && ChangesMore(s.threads[t])
    ensures ReleaseInv(Step(s, t, c))
  {
    var s' := Step(s, t, c);
    forall u | u in s'.threads && u != t ensures !Releases(s'.threads[u]) {
      assert u in s.threads ==> !HoldsLock(s.threads[u]);
    }
  }

  lemma {:induction false} StepKeepsReleases(s: System, t: Tid, c: Choice)
    requires Inv(s) && ReleaseInv(s) && t in s.threads
    ensures ReleaseInv(Step(s, t, c))
  {
    if ChangesMore(s.threads[t]) {
      ChangeKeepsReleases(s, t, c);
    } else {
      MoveIsOneThread(s, t, c);
      var s' := Step(s, t, c);
      if s' != s {
        MoveKeepsReleases(s, t, s'.threads[t], s'.lock);
      }
    }
  }

  // ----- every interleaving -----

  /** Any mix of start and abort calls, none of which has done anything yet. */
  ghost predicate Initial(s: System)
  {
    s.lock == None && s.selftestJob == None && s.log == []
    && forall t :: t in s.threads ==> s.threads[t].StartEntry? || s.threads[t].AbortCommand?
  }

  /** A schedule names a thread and the environment's choice at every step; a thread that does not
      exist (yet) does nothing. */
  function Run(s: System, schedule: seq<(Tid, Choice)>): System
  {
    if schedule == [] then s
    else
      var before := Run(s, schedule[..|schedule| - 1]);
      var (t, c) := schedule[|schedule| - 1];
      if t in before.threads then Step(before, t, c) else before
  }

  lemma {:induction false} RunKeepsInv(s: System, schedule: seq<(Tid, Choice)>)
    requires Initial(s)
    ensures Inv(Run(s, schedule)) && FlagInv(Run(s, schedule)) && ReleaseInv(Run(s, schedule))
  {
    if schedule != [] {
      RunKeepsInv(s, schedule[..|schedule| - 1]);
      var before := Run(s, schedule[..|schedule| - 1]);
      var (t, c) := schedule[|schedule| - 1];
      if t in before.threads {
        StepKeepsInv(before, t, c);
        StepKeepsFlags(before, t, c);
        StepKeepsReleases(before, t, c);
      }
    }
  }

  /** In every interleaving at most one job is live; the pointer is set exactly between a launch
      and the clear by that same job; and every cancel hits the live job. */
  lemma {:induction false} OneJobInEveryRun(s: System, schedule: seq<(Tid, Choice)>, t: Tid, u: Tid)
    requires Initial(s)
    ensures var r := Run(s, schedule);
            && PointerAfter(r.log) == Some(r.selftestJob)
            && (t in r.threads && u in r.threads && LiveJob(r.threads[t]) && LiveJob(r.threads[u]) ==> t == u)
            && (t in r.threads ==> (LiveJob(r.threads[t]) <==> r.selftestJob == Some(t)))
  {
    RunKeepsInv(s, schedule);
  }

  /** In every interleaving: when a start call that was not refused lets go of the lock, there is a job;
      when an abort does, there is none that would go round its loop again; and a job that wakes up
      goes to its end if it was cancelled meanwhile. */
  lemma {:induction false} CallsTakeEffect(s: System, schedule: seq<(Tid, Choice)>, t: Tid, c: Choice)
    requires Initial(s) && t in Run(s, schedule).threads
    ensures var r := Run(s, schedule);
            && (r.threads[t].StartUnlockBusy? ==> r.selftestJob.Some?)
            && (r.threads[t].AbortUnlockBusy? && r.selftestJob.Some? ==>
                  r.selftestJob.value in r.threads && Stopping(r.threads[r.selftestJob.value]))
            && (r.threads[t].JobUnlockBusy? ==> r.selftestJob.None?)
            && (r.threads[t].JobSleep? && c.ok ==>
                  Step(r, t, c).threads[t] == if Cancelled(t) in r.log then JobEnd else JobRefresh(false))
  {
    RunKeepsInv(s, schedule);
  }

  /** A start or an abort goes on exactly when its command succeeds, and takes the lock when it is free. */
  lemma {:induction false} CallsGoOnExactly(s: System, t: Tid, c: Choice)
    requires t in s.threads
    ensures var th, th' := s.threads[t], Step(s, t, c).threads[t];
            && (th.StartCommand? ==> if c.ok then th'.StartRelock? else th'.Finished?)
            && (th.AbortCommand? ==> if c.ok then th'.AbortEntry? else th'.Finished?)
            && (th.StartEntry? ==> (th'.StartCheckBusy? <==> s.lock.None?))
            && (th.StartRelock? ==> (th'.StartLaunchBusy? <==> s.lock.None?))
            && (th.AbortEntry? ==> (th'.AbortCancelBusy? <==> s.lock.None?))
            && (th.JobRefresh? ==> if c.ok then th'.JobLock? else th'.JobEnd?)
            && (th.JobLock? ==> (th'.JobReadBusy? <==> s.lock.None?))
            && (th.JobReadBusy? ==> if c.ends then th'.JobEnd? else th'.JobSleep?)
  {
  }

  /** A start sends its command exactly when it sees no job, and launches one exactly when there is none
      by then. */
  lemma {:induction false} StartsExactly(s: System, t: Tid, c: Choice)
    requires Inv(s) && t in s.threads
    ensures s.threads[t].StartCheckBusy? ==>
              Step(s, t, c).threads[t] == if s.selftestJob.None? then StartCommand else Finished
    ensures s.threads[t].StartLaunchBusy? && c.newTid !in s.threads ==>
              var s' := Step(s, t, c);
              && s'.threads[t] == StartUnlockBusy
              && (if s.selftestJob.None? then
                    s'.selftestJob == Some(c.newTid) && s'.log == s.log + [Launched(c.newTid)] &&
                    c.newTid in s'.threads && s'.threads[c.newTid] == JobRefresh(false)
                  else s'.selftestJob == s.selftestJob && s'.log == s.log)
  {
  }

  /** What a log that follows the rules looks like: a launch follows no launch that is not cleared
      yet, and a clear or a cancel follows the launch of the same job with no clear in between. */
  lemma {:induction false} LogIsBracketed(log: seq<Event>, i: nat)
    requires PointerAfter(log).Some? && i < |log| && !log[i].Launched?
    ensures exists k :: 0 <= k < i && log[k] == Launched(log[i].job)
                        && forall m :: k < m < i ==> log[m] == Cancelled(log[i].job)
    decreases |log|
  {
    var before := log[..|log| - 1];
    if i < |log| - 1 {
      LogIsBracketed(before, i);
      var k :| 0 <= k < i && before[k] == Launched(before[i].job)
               && forall m :: k < m < i ==> before[m] == Cancelled(before[i].job);
      assert log[k] == Launched(log[i].job);
    } else {
      PointerHasLaunch(before, log[i].job);
    }
  }

  lemma {:induction false} PointerHasLaunch(log: seq<Event>, j: Tid)
    requires PointerAfter(log) == Some(Some(j))
    ensures exists k :: 0 <= k < |log| && log[k] == Launched(j)
                        && forall m :: k < m < |log| ==> log[m] == Cancelled(j)
    decreases |log|
  {
    var before := log[..|log| - 1];
    if log[|log| - 1] == Cancelled(j) {
      PointerHasLaunch(before, j);
      var k :| 0 <= k < |before| && before[k] == Launched(j) &&
               forall m :: k < m < |before| ==> before[m] == Cancelled(j);
      assert log[k] == Launched(j);
    } else {
      assert log[|log| - 1] == Launched(j);
    }
  }
}
