/** ATA secure erase: the command sequence of one call, and any number of calls interleaved
    step by step around the busy flag and the exclusive open. */
module SecureErase {
  import opened OptionType
  import opened Sequences

  datatype Command = Identify | SetPassword | ErasePrepare | EraseUnit | DisablePassword

  datatype Sent = Sent(command: Command, ok: bool)

  /** The bits of the IDENTIFY DEVICE data the checks read: words 82 (bit 1) and 128 (bits 0, 3
      and 5). */
  datatype IdentifyData = IdentifyData(featureSet: bool, supported: bool, frozen: bool, enhancedSupported: bool)

  /** How the drive answers each command of one call. */
  datatype Replies = Replies(identifyOk: bool, data: IdentifyData, setOk: bool, prepareOk: bool, eraseOk: bool,
                             disableOk: bool)

  /** Security supported in both words, not frozen, and enhanced erase supported if asked for. */
  predicate ChecksPass(enhanced: bool, d: IdentifyData)
  {
    d.featureSet && d.supported && !d.frozen && (enhanced ==> d.enhancedSupported)
  }

  // ----- one call -----

  predicate Succeeds(enhanced: bool, r: Replies)
  {
    r.identifyOk && ChecksPass(enhanced, r.data) && r.setOk && r.prepareOk && r.eraseOk
  }

  function SessionLength(enhanced: bool, r: Replies): nat
  {
    if !r.identifyOk || !ChecksPass(enhanced, r.data) then 1
    else if !r.setOk then 2
    else if r.prepareOk && !r.eraseOk then 5
    else 4
  }

  function SessionAt(r: Replies, k: nat): Sent
  {
    if k == 0 then Sent(Identify, r.identifyOk)
    else if k == 1 then Sent(SetPassword, r.setOk)
    else if k == 2 then Sent(ErasePrepare, r.prepareOk)
    else if k == 3 && r.prepareOk then Sent(EraseUnit, r.eraseOk)
    else Sent(DisablePassword, r.disableOk)
  }

  /** The commands of one call that got past the open. */
  function SessionOf(enhanced: bool, r: Replies): (s: seq<Sent>)
    ensures |s| == SessionLength(enhanced, r)
    ensures forall k :: 0 <= k < |s| ==> s[k] == SessionAt(r, k)
  {
    seq(SessionLength(enhanced, r), k requires 0 <= k => SessionAt(r, k))
  }

  class DriveAta {
    var secureEraseInProgress: bool
    /** Whether some process holds the device open exclusively. */
    var held: bool
    var log: seq<Sent>

    constructor ()
      ensures !secureEraseInProgress && !held && log == []
    {
      secureEraseInProgress, held, log := false, false, [];
    }

    method Send(command: Command, ok: bool) returns (r: bool)
      modifies this`log
      ensures r == ok && log == old(log) + [Sent(command, ok)]
    {
      log := log + [Sent(command, ok)];
      return ok;
    }

    /** udisks_linux_drive_ata_secure_erase_sync, start to end. `flockFailures` is how often the
        BSD lock is refused before it is granted. */
    method SecureEraseSync(enhanced: bool, openOk: bool, flockFailures: nat, r: Replies) returns (ret: bool)
      modifies this
      ensures var entered := !old(secureEraseInProgress) && !old(held) && openOk;
              if entered then
                log == old(log) + SessionOf(enhanced, r) && ret == Succeeds(enhanced, r)
                && !secureEraseInProgress && !held
              else
                !ret && log == old(log) && secureEraseInProgress == old(secureEraseInProgress) && held == old(held)
    {
      ret := false;
      if secureEraseInProgress {
        return;
      }
      if held || !openOk {
        return;
      }
      held := true;
      secureEraseInProgress := true;
      var numTries := 0;
      while numTries < flockFailures
        invariant 0 <= numTries <= 7
        invariant secureEraseInProgress && held && log == old(log)
      {
        numTries := numTries + 1;
        if numTries > 6 {
          break;
        }
      }
      var claimed := true;
      var clearPasswdOnFailure := false;
      label out: {
        var ok := Send(Identify, r.identifyOk);
        if !ok || !ChecksPass(enhanced, r.data) {
          break out;
        }
        ok := Send(SetPassword, r.setOk);
        if !ok {
          break out;
        }
        clearPasswdOnFailure := true;
        ok := Send(ErasePrepare, r.prepareOk);
        if !ok {
          break out;
        }
        ok := Send(EraseUnit, r.eraseOk);
        if !ok {
          break out;
        }
        clearPasswdOnFailure := false;
        ret := true;
      }
      if clearPasswdOnFailure {
        var cleared := Send(DisablePassword, r.disableOk);
      }
      if claimed {
        secureEraseInProgress := false;
      }
      held := false;
    }
  }

  // ----- what the drive makes of it (ATA8-ACS sections 7.41 to 7.45) -----

  datatype Drive = Drive(securityOn: bool, prepared: bool, erased: bool)

  /** A failed command changes nothing but withdraws the preparation; ERASE UNIT erases and
      switches security off; every other command withdraws the preparation too. */
  function Obey(d: Drive, s: Sent): Drive
  {
    var d' := d.(prepared := false);
    if !s.ok then d'
    else
      match s.command
      case Identify => d'
      case SetPassword => d'.(securityOn := true)
      case ErasePrepare => d.(prepared := true)
      case EraseUnit => d'.(erased := true, securityOn := false)
      case DisablePassword => d'.(securityOn := false)
  }

  function ObeyAll(d: Drive, trace: seq<Sent>): Drive
    decreases |trace|
  {
    if trace == [] then d else ObeyAll(Obey(d, trace[0]), trace[1..])
  }

  /** The drive accepts ERASE UNIT only right after a successful ERASE PREPARE. */
  predicate Accepted(d: Drive, trace: seq<Sent>)
    decreases |trace|
  {
    trace == [] || ((trace[0].command.EraseUnit? ==> d.prepared) && Accepted(Obey(d, trace[0]), trace[1..]))
  }

  lemma {:induction false} ObeyConcat(d: Drive, a: seq<Sent>, b: seq<Sent>)
    ensures ObeyAll(d, a + b) == ObeyAll(ObeyAll(d, a), b)
    ensures Accepted(d, a + b) <==> Accepted(d, a) && Accepted(ObeyAll(d, a), b)
    decreases |a|
  {
    if a == [] {
      assert a + b == b;
    } else {
      assert (a + b)[1..] == a[1..] + b;
      ObeyConcat(Obey(d, a[0]), a[1..], b);
    }
  }

  /** What a whole session does to the drive. */
  ghost predicate EffectOf(d: Drive, enhanced: bool, r: Replies)
  {
    var sent, after := SessionOf(enhanced, r), ObeyAll(d, SessionOf(enhanced, r));
    var passwordSet := r.identifyOk && ChecksPass(enhanced, r.data) && r.setOk;
    && Accepted(d, sent)
    && (Succeeds(enhanced, r) ==> after.erased && !after.securityOn)
    && (!Succeeds(enhanced, r) ==>
          after.erased == d.erased && after.securityOn == if passwordSet then !r.disableOk else d.securityOn)
  }

  lemma {:induction false} EffectOfNoPassword(d: Drive, enhanced: bool, r: Replies)
    requires !(r.identifyOk && ChecksPass(enhanced, r.data) && r.setOk)
    ensures EffectOf(d, enhanced, r)
  {
    if r.identifyOk && ChecksPass(enhanced, r.data) {
      assert SessionOf(enhanced, r) == [Sent(Identify, true)] + [Sent(SetPassword, false)];
      ObeyTwo(d, Sent(Identify, true), [Sent(SetPassword, false)]);
    } else {
      assert SessionOf(enhanced, r) == [Sent(Identify, r.identifyOk)] + [];
      ObeyTwo(d, Sent(Identify, r.identifyOk), []);
    }
  }

  lemma {:induction false} EffectOfPrepareFailure(d: Drive, enhanced: bool, r: Replies)
    requires r.identifyOk && ChecksPass(enhanced, r.data) && r.setOk && !r.prepareOk
    ensures EffectOf(d, enhanced, r)
  {
    var rest := [Sent(ErasePrepare, false), Sent(DisablePassword, r.disableOk)];
    var d2 := Obey(Obey(d, Sent(Identify, true)), Sent(SetPassword, true));
    assert SessionOf(enhanced, r) == [Sent(Identify, true)] + ([Sent(SetPassword, true)] + rest);
    assert ([Sent(SetPassword, true)] + rest)[1..] == rest;
    ObeyTwo(d, Sent(Identify, true), [Sent(SetPassword, true)] + rest);
    assert rest == [rest[0]] + [rest[1]];
    ObeyTwo(d2, rest[0], [rest[1]]);
  }

  lemma {:induction false} EffectOfErase(d: Drive, enhanced: bool, r: Replies)
    requires r.identifyOk && ChecksPass(enhanced, r.data) && r.setOk && r.prepareOk
    ensures EffectOf(d, enhanced, r)
  {
    var last := if r.eraseOk then [] else [Sent(DisablePassword, r.disableOk)];
    var rest := [Sent(ErasePrepare, true)] + ([Sent(EraseUnit, r.eraseOk)] + last);
    var d2 := Obey(Obey(d, Sent(Identify, true)), Sent(SetPassword, true));
    assert SessionOf(enhanced, r) == [Sent(Identify, true)] + ([Sent(SetPassword, true)] + rest);
    assert ([Sent(SetPassword, true)] + rest)[1..] == rest;
    ObeyTwo(d, Sent(Identify, true), [Sent(SetPassword, true)] + rest);
    assert ([Sent(EraseUnit, r.eraseOk)] + last)[1..] == last;
    ObeyTwo(d2, Sent(ErasePrepare, true), [Sent(EraseUnit, r.eraseOk)] + last);
    var d4 := Obey(Obey(d2, Sent(ErasePrepare, true)), Sent(EraseUnit, r.eraseOk));
    if !r.eraseOk {
      assert last == [Sent(DisablePassword, r.disableOk)] + [];
      ObeyTwo(d4, Sent(DisablePassword, r.disableOk), []);
    }
  }

  /** From any drive state: a session is accepted; success leaves the drive erased with security
      off; failure leaves a password behind exactly when one was set and its removal failed. */
  lemma {:induction false} SessionEffect(d: Drive, enhanced: bool, r: Replies)
    ensures EffectOf(d, enhanced, r)
  {
    if !(r.identifyOk && ChecksPass(enhanced, r.data) && r.setOk) {
      EffectOfNoPassword(d, enhanced, r);
    } else if !r.prepareOk {
      EffectOfPrepareFailure(d, enhanced, r);
    } else {
      EffectOfErase(d, enhanced, r);
    }
  }

  lemma {:induction false} ObeyTwo(d: Drive, a: Sent, rest: seq<Sent>)
    ensures ObeyAll(d, [a] + rest) == if rest == [] then Obey(d, a) else ObeyAll(Obey(Obey(d, a), rest[0]), rest[1..])
    ensures Accepted(d, [a] + rest) ==
            ((a.command.EraseUnit? ==> d.prepared) &&
             (rest == [] || ((rest[0].command.EraseUnit? ==> Obey(d, a).prepared) &&
                             Accepted(Obey(Obey(d, a), rest[0]), rest[1..]))))
  {
    assert ([a] + rest)[1..] == rest;
  }

  /** SET PASSWORD is sent only after the checks pass, DISABLE PASSWORD exactly when SET PASSWORD
      succeeded and ERASE UNIT did not, and success means ERASE UNIT did. */
  lemma {:induction false} SessionGrammar(enhanced: bool, r: Replies)
    ensures var sent, ret := SessionOf(enhanced, r), Succeeds(enhanced, r);
            && (forall ok :: Sent(SetPassword, ok) in sent ==>
                 ChecksPass(enhanced, r.data) && sent[0] == Sent(Identify, true))
            && ((exists ok :: Sent(DisablePassword, ok) in sent)
                <==> Sent(SetPassword, true) in sent && Sent(EraseUnit, true) !in sent)
            && (ret <==> Sent(EraseUnit, true) in sent)
            && (forall i :: 0 <= i < |sent| && sent[i].command.EraseUnit? ==>
                 i > 0 && sent[i - 1] == Sent(ErasePrepare, true))
            && (forall i :: 0 <= i < |sent| && sent[i] == Sent(ErasePrepare, true) ==>
                  i + 1 < |sent| && sent[i + 1].command.EraseUnit?)
  {
    var sent, ret := SessionOf(enhanced, r), Succeeds(enhanced, r);
    if exists ok :: Sent(DisablePassword, ok) in sent {
    } else {
      assert Sent(DisablePassword, r.disableOk) !in sent;
    }
    if r.identifyOk && ChecksPass(enhanced, r.data) && r.setOk && !(r.prepareOk && r.eraseOk) {
      assert sent[|sent| - 1] == Sent(DisablePassword, r.disableOk);
      assert sent[1] == Sent(SetPassword, true);
    }
    if ret {
      assert sent[3] == Sent(EraseUnit, true);
    }
  }

  /** The drive is sent SET PASSWORD exactly when it identifies itself as one that can be erased this way:
      security is supported in both words, it is not frozen, and it can do an enhanced erase if that is
      what was asked for. Otherwise it is only asked to identify itself. */
  lemma {:induction false} PasswordIsSetExactly(enhanced: bool, r: Replies)
    ensures var sent := SessionOf(enhanced, r);
            var fit := r.identifyOk && r.data.featureSet && r.data.supported && !r.data.frozen &&
                       (enhanced ==> r.data.enhancedSupported);
            && ((exists ok :: Sent(SetPassword, ok) in sent) <==> fit)
            && (!fit ==> sent == [Sent(Identify, r.identifyOk)])
            && (Succeeds(enhanced, r) <==> fit && r.setOk && r.prepareOk && r.eraseOk)
  {
    var sent := SessionOf(enhanced, r);
    if r.identifyOk && ChecksPass(enhanced, r.data) {
      assert sent[1] == Sent(SetPassword, r.setOk);
    } else {
      assert sent == [Sent(Identify, r.identifyOk)];
    }
  }

  // ----- many calls at once -----

  type Tid = nat

  datatype Pc =
    | Start | Checked | Opened | FlagSet | Claimed | Identified | ReadyToSet | PasswordSet | Prepared
    | Out | CleanedUp | FlagCleared | Done

  datatype Thread = Thread(pc: Pc, enhanced: bool, openOk: bool, replies: Replies,
                           sent: seq<Sent>, clearPassword: bool, ret: bool)

  /** `flag` is secure_erase_in_progress; `setter` remembers who set it last; `past` are the calls
      that got past the open and have closed the device again. */
  datatype System = System(flag: bool, setter: Option<Tid>, holder: Option<Tid>, threads: map<Tid, Thread>,
                           trace: seq<Sent>, past: seq<(bool, Replies)>)

  /** What a step does to the shared state. */
  datatype Effect = Nothing | OpenDevice | RaiseFlag | Transmit(sent: Sent) | LowerFlag | CloseDevice

  function Transmitted(th: Thread, command: Command, ok: bool, next: Pc): (Thread, Effect)
  {
    var m := Sent(command, ok);
    (th.(sent := th.sent + [m], pc := next), Transmit(m))
  }

  /** The next step of a call, given the flag and whether the device is free. */
  function Advance(th: Thread, flag: bool, free: bool): (Thread, Effect)
  {
    var r := th.replies;
    match th.pc
    case Start => (th.(pc := if flag then Done else Checked), Nothing)
    case Checked =>
      if th.openOk && free then (th.(pc := Opened), OpenDevice) else (th.(pc := Done), Nothing)
    case Opened => (th.(pc := FlagSet), RaiseFlag)
    case FlagSet => (th.(pc := Claimed), Nothing)
    case Claimed => Transmitted(th, Identify, r.identifyOk, if r.identifyOk then Identified else Out)
    case Identified => (th.(pc := if ChecksPass(th.enhanced, r.data) then ReadyToSet else Out), Nothing)
    case ReadyToSet =>
      Transmitted(th.(clearPassword := r.setOk), SetPassword, r.setOk, if r.setOk then PasswordSet else Out)
    case PasswordSet => Transmitted(th, ErasePrepare, r.prepareOk, if r.prepareOk then Prepared else Out)
    case Prepared => Transmitted(th.(clearPassword := !r.eraseOk, ret := r.eraseOk), EraseUnit, r.eraseOk, Out)
    case Out =>
      if th.clearPassword then Transmitted(th, DisablePassword, r.disableOk, CleanedUp)
      else (th.(pc := CleanedUp), Nothing)
    case CleanedUp => (th.(pc := FlagCleared), LowerFlag)
    case FlagCleared => (th.(pc := Done), CloseDevice)
    case Done => (th, Nothing)
  }

  /** One step of call `t`; the flag is checked, set and cleared without a lock. */
  function Step(s: System, t: Tid): (s': System)
    requires t in s.threads
    ensures s'.threads.Keys == s.threads.Keys
  {
    var (th, effect) := Advance(s.threads[t], s.flag, s.holder.None?);
    var s1 := s.(threads := s.threads[t := th]);
    match effect
    case Nothing => s1
    case OpenDevice => s1.(holder := Some(t))
    case RaiseFlag => s1.(flag := true, setter := Some(t))
    case Transmit(m) => s1.(trace := s.trace + [m])
    case LowerFlag => s1.(flag := false)
    case CloseDevice => s1.(holder := None, past := s.past + [(th.enhanced, th.replies)])
  }

  /** A call goes on exactly when it sees the flag down and then gets the device; one that does not ends
      there, with nothing sent and nothing changed for the others. */
  lemma {:induction false} EntryExactly(s: System, t: Tid)
    requires t in s.threads && (s.threads[t].pc.Start? || s.threads[t].pc.Checked?)
    ensures var s', pc' := Step(s, t), Step(s, t).threads[t].pc;
            && s'.trace == s.trace && s'.flag == s.flag
            && (s.threads[t].pc.Start? ==> s'.holder == s.holder && (pc'.Checked? <==> !s.flag))
            && (s.threads[t].pc.Checked? ==> (pc'.Opened? <==> s.threads[t].openOk && s.holder.None?))
            && (pc'.Opened? ==> s'.holder == Some(t))
            && (pc'.Done? <==> !pc'.Checked? && !pc'.Opened?)
  {
  }

  /** How many steps a call has left at most. */
  function StepsLeft(pc: Pc): nat
  {
    match pc
    case Start => 12 case Checked => 11 case Opened => 10 case FlagSet => 9 case Claimed => 8 case Identified => 7
    case ReadyToSet => 6 case PasswordSet => 5 case Prepared => 4 case Out => 3 case CleanedUp => 2
    case FlagCleared => 1 case Done => 0
  }

  lemma {:induction false} EntryMovesOn(th: Thread, flag: bool, free: bool)
    requires StepsLeft(th.pc) > 7
    ensures StepsLeft(Advance(th, flag, free).0.pc) < StepsLeft(th.pc)
  {
  }

  lemma {:induction false} SessionMovesOn(th: Thread, flag: bool, free: bool)
    requires 3 < StepsLeft(th.pc) <= 7
    ensures StepsLeft(Advance(th, flag, free).0.pc) < StepsLeft(th.pc)
  {
  }

  lemma {:induction false} ExitMovesOn(th: Thread, flag: bool, free: bool)
    requires 0 < StepsLeft(th.pc) <= 3
    ensures StepsLeft(Advance(th, flag, free).0.pc) < StepsLeft(th.pc)
  {
  }

  /** No call is ever stuck, whatever the others do. */
  lemma {:induction false} EveryStepMovesOn(s: System, t: Tid)
    requires t in s.threads && !s.threads[t].pc.Done?
    ensures StepsLeft(Step(s, t).threads[t].pc) < StepsLeft(s.threads[t].pc)
  {
    var th := s.threads[t];
    if StepsLeft(th.pc) > 7 {
      EntryMovesOn(th, s.flag, s.holder.None?);
    } else if StepsLeft(th.pc) > 3 {
      SessionMovesOn(th, s.flag, s.holder.None?);
    } else {
      ExitMovesOn(th, s.flag, s.holder.None?);
    }
    assert Step(s, t).threads[t] == Advance(s.threads[t], s.flag, s.holder.None?).0;
  }

  predicate PastOpen(pc: Pc)
  {
    !(pc.Start? || pc.Checked? || pc.Done?)
  }

  predicate FlagIsUp(pc: Pc)
  {
    PastOpen(pc) && !pc.Opened? && !pc.FlagCleared?
  }

  function Session(th: Thread): (s: seq<Sent>)
  {
    SessionOf(th.enhanced, th.replies)
  }

  /** How much of its session a call has sent. */
  function SentCount(th: Thread): int
  {
    match th.pc
    case Start | Checked | Opened | FlagSet | Claimed => 0
    case Identified | ReadyToSet => 1
    case PasswordSet => 2
    case Prepared => 3
    case Out => if th.clearPassword then |Session(th)| - 1 else |Session(th)|
    case CleanedUp | FlagCleared => |Session(th)|
    case Done => if th.sent == [] then 0 else |Session(th)|
  }

  /** What a call knows where it stands. */
  predicate KnownSoFar(th: Thread)
  {
    var r := th.replies;
    match th.pc
    case Start | Checked | Opened | FlagSet | Claimed => !th.ret && !th.clearPassword
    case Identified => !th.ret && !th.clearPassword && r.identifyOk
    case ReadyToSet => !th.ret && !th.clearPassword && r.identifyOk && ChecksPass(th.enhanced, r.data)
    case PasswordSet => !th.ret && th.clearPassword && r.identifyOk && ChecksPass(th.enhanced, r.data) && r.setOk
    case Prepared =>
      !th.ret && th.clearPassword && r.identifyOk && ChecksPass(th.enhanced, r.data) && r.setOk && r.prepareOk
    case Out =>
      && th.ret == Succeeds(th.enhanced, r)
      && (th.clearPassword <==>
           r.identifyOk && ChecksPass(th.enhanced, r.data) && r.setOk && !(r.prepareOk && r.eraseOk))
    case CleanedUp | FlagCleared => th.ret == Succeeds(th.enhanced, r)
    case Done => th.ret == (th.sent != [] && Succeeds(th.enhanced, r))
  }

  /** The commands a call has sent so far are the start of its session. */
  predicate SentSoFar(th: Thread)
  {
    && KnownSoFar(th)
    && 0 <= SentCount(th) <= |Session(th)|
    && th.sent == Session(th)[..SentCount(th)]
  }

  function Flatten(past: seq<(bool, Replies)>): seq<Sent>
  {
    if past == [] then [] else Flatten(past[..|past| - 1]) + SessionOf(past[|past| - 1].0, past[|past| - 1].1)
  }

  function HolderSent(s: System): seq<Sent>
  {
    if s.holder.Some? && s.holder.value in s.threads then s.threads[s.holder.value].sent else []
  }

  /** The flag is up only while the one call past the open holds the device, and is its own. */
  ghost predicate Exclusive(s: System)
  {
    && (forall t :: t in s.threads ==> (PastOpen(s.threads[t].pc) <==> s.holder == Some(t)))
    && (s.holder.Some? ==> s.holder.value in s.threads)
    && (s.flag <==> s.holder.Some? && FlagIsUp(s.threads[s.holder.value].pc))
    && (s.flag ==> s.setter == s.holder)
  }

  ghost predicate AllSentSoFar(s: System)
  {
    forall t :: t in s.threads ==> SentSoFar(s.threads[t])
  }

  /** What the drive got is what the past sessions and the current one sent it. */
  ghost predicate TraceAgrees(s: System)
  {
    s.trace == Flatten(s.past) + HolderSent(s)
  }

  /** What every step keeps. */
  ghost predicate Inv(s: System)
  {
    Exclusive(s) && AllSentSoFar(s) && TraceAgrees(s)
  }

  lemma FlattenSnoc(past: seq<(bool, Replies)>, p: (bool, Replies))
    ensures Flatten(past + [p]) == Flatten(past) + SessionOf(p.0, p.1)
  {
    assert (past + [p])[..|past|] == past;
  }

  lemma TakeOneMore<T>(s: seq<T>, n: nat)
    requires n < |s|
    ensures s[..n + 1] == s[..n] + [s[n]]
  {
  }

  /** What a step does to the call's position, and when it has which effect. */
  predicate MovesRightly(th: Thread, th': Thread, e: Effect, free: bool)
  {
    && (PastOpen(th'.pc) <==> (PastOpen(th.pc) && !e.CloseDevice?) || e.OpenDevice?)
    && (FlagIsUp(th'.pc) <==> (FlagIsUp(th.pc) && !e.LowerFlag?) || e.RaiseFlag?)
    && (e.OpenDevice? ==> free && !PastOpen(th.pc))
    && (e.LowerFlag? || e.RaiseFlag? || e.CloseDevice? || e.Transmit? ==> PastOpen(th.pc))
    && (e.LowerFlag? ==> FlagIsUp(th.pc)) && (e.CloseDevice? ==> th.pc.FlagCleared?)
  }

  predicate BeforeTheCommands(th: Thread)
  {
    th.pc in {Start, Checked, Opened, FlagSet, Claimed}
  }

  lemma {:induction false} AdvanceMovesBefore(th: Thread, flag: bool, free: bool)
    requires BeforeTheCommands(th)
    ensures var (th', e) := Advance(th, flag, free); MovesRightly(th, th', e, free)
  {
    match th.pc {
      case Start =>
      case Checked =>
      case Opened =>
      case FlagSet =>
      case _ =>
    }
  }

  lemma {:induction false} AdvanceMovesBehind(th: Thread, flag: bool, free: bool)
    requires !BeforeTheCommands(th)
    ensures var (th', e) := Advance(th, flag, free); MovesRightly(th, th', e, free)
  {
    match th.pc {
      case Identified =>
      case ReadyToSet =>
      case PasswordSet =>
      case Prepared =>
      case Out =>
      case CleanedUp =>
      case FlagCleared =>
      case _ =>
    }
  }

  lemma {:induction false} AdvanceMoves(th: Thread, flag: bool, free: bool)
    ensures var (th', e) := Advance(th, flag, free); MovesRightly(th, th', e, free)
  {
    if BeforeTheCommands(th) {
      AdvanceMovesBefore(th, flag, free);
    } else {
      AdvanceMovesBehind(th, flag, free);
    }
  }

  lemma {:induction false} AdvanceSends(th: Thread, flag: bool, free: bool)
    ensures var (th', e) := Advance(th, flag, free);
            && th'.sent == (if e.Transmit? then th.sent + [e.sent] else th.sent)
            && th'.enhanced == th.enhanced && th'.replies == th.replies
  {
    match th.pc {
      case Claimed | ReadyToSet | PasswordSet | Prepared =>
      case Out =>
      case _ =>
    }
  }

  lemma {:induction false} KeepsSentBeforeTheChecks(th: Thread, flag: bool, free: bool)
    requires SentSoFar(th) && th.pc in {Start, Checked, Opened, FlagSet, Claimed}
    ensures SentSoFar(Advance(th, flag, free).0)
  {
    if th.pc.Claimed? {
      TakeOneMore(Session(th), 0);
    }
  }

  lemma {:induction false} KeepsSentAmongTheCommands(th: Thread, flag: bool, free: bool)
    requires SentSoFar(th) && th.pc in {Identified, ReadyToSet, PasswordSet, Prepared}
    ensures SentSoFar(Advance(th, flag, free).0)
  {
    var n := SentCount(th);
    if n < |Session(th)| {
      TakeOneMore(Session(th), n);
    }
    match th.pc {
      case Identified =>
      case ReadyToSet =>
      case PasswordSet =>
      case _ =>
    }
  }

  lemma {:induction false} KeepsSentAtTheEnd(th: Thread, flag: bool, free: bool)
    requires SentSoFar(th) && th.pc in {Out, CleanedUp, FlagCleared, Done}
    ensures SentSoFar(Advance(th, flag, free).0)
  {
    if th.pc.Out? && th.clearPassword {
      TakeOneMore(Session(th), |Session(th)| - 1);
    }
  }

  lemma {:induction false} AdvanceKeepsSent(th: Thread, flag: bool, free: bool)
    requires SentSoFar(th)
    ensures SentSoFar(Advance(th, flag, free).0)
  {
    if th.pc in {Start, Checked, Opened, FlagSet, Claimed} {
      KeepsSentBeforeTheChecks(th, flag, free);
    } else if th.pc in {Identified, ReadyToSet, PasswordSet, Prepared} {
      KeepsSentAmongTheCommands(th, flag, free);
    } else {
      KeepsSentAtTheEnd(th, flag, free);
    }
  }

  lemma {:induction false} StepKeepsExclusive(s: System, t: Tid)
    requires t in s.threads && Exclusive(s)
    ensures Exclusive(Step(s, t))
  {
    AdvanceMoves(s.threads[t], s.flag, s.holder.None?);
    var s' := Step(s, t);
    forall u | u in s'.threads ensures PastOpen(s'.threads[u].pc) <==> s'.holder == Some(u) {
      if u != t {
        assert s'.threads[u] == s.threads[u];
      }
    }
  }

  function StepEffect(s: System, t: Tid): Effect
    requires t in s.threads
  {
    Advance(s.threads[t], s.flag, s.holder.None?).1
  }

  lemma {:induction false} TransmitKeepsTrace(s: System, t: Tid)
    requires t in s.threads && Inv(s) && StepEffect(s, t).Transmit?
    ensures TraceAgrees(Step(s, t))
  {
    var th := s.threads[t];
    AdvanceMoves(th, s.flag, s.holder.None?);
    AdvanceSends(th, s.flag, s.holder.None?);
    Assoc(Flatten(s.past), th.sent, [StepEffect(s, t).sent]);
  }

  lemma {:induction false} CloseKeepsTrace(s: System, t: Tid)
    requires t in s.threads && Inv(s) && s.threads[t].pc.FlagCleared?
    ensures TraceAgrees(Step(s, t))
  {
    var th := s.threads[t];
    WholeSessionSent(th);
    assert HolderSent(s) == th.sent;
    FlattenSnoc(s.past, (th.enhanced, th.replies));
    ClosingMove(s, t);
    NothingHeld(Step(s, t));
  }

  lemma {:induction false} ClosingMove(s: System, t: Tid)
    requires t in s.threads && s.threads[t].pc.FlagCleared?
    ensures var s', th := Step(s, t), s.threads[t];
            s'.trace == s.trace && s'.past == s.past + [(th.enhanced, th.replies)] && s'.holder == None
  {
  }

  lemma {:induction false} NothingHeld(s: System)
    requires s.holder == None && s.trace == Flatten(s.past)
    ensures TraceAgrees(s)
  {
    assert s.trace == Flatten(s.past) + [];
  }

  lemma {:induction false} OpenKeepsTrace(s: System, t: Tid)
    requires t in s.threads && Inv(s) && StepEffect(s, t).OpenDevice?
    ensures TraceAgrees(Step(s, t))
  {
    AdvanceSends(s.threads[t], s.flag, s.holder.None?);
    NothingSent(s.threads[t]);
  }

  lemma {:induction false} OthersKeepTrace(s: System, t: Tid)
    requires t in s.threads && Inv(s)
    requires !StepEffect(s, t).Transmit? && !StepEffect(s, t).CloseDevice? && !StepEffect(s, t).OpenDevice?
    ensures TraceAgrees(Step(s, t))
  {
    AdvanceSends(s.threads[t], s.flag, s.holder.None?);
  }

  lemma {:induction false} StepKeepsTrace(s: System, t: Tid)
    requires t in s.threads && Inv(s)
    ensures TraceAgrees(Step(s, t))
  {
    AdvanceMoves(s.threads[t], s.flag, s.holder.None?);
    match StepEffect(s, t) {
      case Transmit(_) => TransmitKeepsTrace(s, t);
      case CloseDevice => CloseKeepsTrace(s, t);
      case OpenDevice => OpenKeepsTrace(s, t);
      case _ => OthersKeepTrace(s, t);
    }
  }

  lemma {:induction false} WholeSessionSent(th: Thread)
    requires SentSoFar(th) && th.pc.FlagCleared?
    ensures th.sent == Session(th)
  {
  }

  lemma {:induction false} NothingSent(th: Thread)
    requires SentSoFar(th) && th.pc.Checked?
    ensures th.sent == [] && th.sent + [] == []
  {
  }

  lemma {:induction false} StepKeepsInv(s: System, t: Tid)
    requires t in s.threads && Inv(s)
    ensures Inv(Step(s, t))
  {
    StepKeepsExclusive(s, t);
    StepKeepsTrace(s, t);
    StepKeepsSent(s, t);
  }

  lemma {:induction false} StepKeepsSent(s: System, t: Tid)
    requires t in s.threads && AllSentSoFar(s)
    ensures AllSentSoFar(Step(s, t))
  {
    forall u | u in Step(s, t).threads ensures SentSoFar(Step(s, t).threads[u]) {
      StepKeepsSentOf(s, t, u);
    }
  }

  lemma {:induction false} StepKeepsSentOf(s: System, t: Tid, u: Tid)
    requires t in s.threads && u in s.threads && AllSentSoFar(s)
    ensures SentSoFar(Step(s, t).threads[u])
  {
    StepMovesOne(s, t, u);
    if u == t {
      AdvanceKeepsSent(s.threads[t], s.flag, s.holder.None?);
    }
  }

  lemma {:induction false} StepMovesOne(s: System, t: Tid, u: Tid)
    requires t in s.threads && u in s.threads
    ensures Step(s, t).threads[u] == if u == t then Advance(s.threads[t], s.flag, s.holder.None?).0 else s.threads[u]
  {
  }

  // ----- every interleaving -----

  predicate Fresh(t: Thread)
  {
    t.pc == Start && t.sent == [] && !t.ret && !t.clearPassword
  }

  /** Any schedule of any number of calls. */
  function Run(threads: map<Tid, Thread>, schedule: seq<Tid>): (s: System)
    requires forall i :: 0 <= i < |schedule| ==> schedule[i] in threads
    ensures s.threads.Keys == threads.Keys
  {
    if schedule == [] then System(false, None, None, threads, [], [])
    else Step(Run(threads, schedule[..|schedule| - 1]), schedule[|schedule| - 1])
  }

  lemma {:induction false} RunKeepsInv(threads: map<Tid, Thread>, schedule: seq<Tid>)
    requires forall i :: 0 <= i < |schedule| ==> schedule[i] in threads
    requires forall t :: t in threads ==> Fresh(threads[t])
    ensures Inv(Run(threads, schedule))
  {
    if schedule == [] {
      assert Flatten([]) == [];
    } else {
      RunKeepsInv(threads, schedule[..|schedule| - 1]);
      StepKeepsInv(Run(threads, schedule[..|schedule| - 1]), schedule[|schedule| - 1]);
    }
  }

  /** In every interleaving at most one call is past the open, the flag is up only while that call
      holds the device, and a call that clears the flag clears the one it set itself. */
  lemma {:induction false} ExclusionInEveryRun(threads: map<Tid, Thread>, schedule: seq<Tid>, t: Tid, u: Tid)
    requires forall i :: 0 <= i < |schedule| ==> schedule[i] in threads
    requires forall x :: x in threads ==> Fresh(threads[x])
    requires t in threads && u in threads
    ensures var s := Run(threads, schedule);
            && (PastOpen(s.threads[t].pc) && PastOpen(s.threads[u].pc) ==> t == u)
            && (s.flag ==> s.holder.Some? && s.holder.value in s.threads && s.setter == s.holder
                           && FlagIsUp(s.threads[s.holder.value].pc))
            && (s.threads[t].pc.CleanedUp? ==> s.flag && s.setter == Some(t))
  {
    RunKeepsInv(threads, schedule);
  }

  // ----- the drive in every interleaving -----

  lemma {:induction false} PastIsAccepted(d: Drive, past: seq<(bool, Replies)>)
    ensures Accepted(d, Flatten(past))
  {
    if past != [] {
      var before, last := past[..|past| - 1], past[|past| - 1];
      PastIsAccepted(d, before);
      ObeyConcat(d, Flatten(before), SessionOf(last.0, last.1));
      SessionEffect(ObeyAll(d, Flatten(before)), last.0, last.1);
    }
  }

  lemma {:induction false} PrefixAccepted(d: Drive, a: seq<Sent>, b: seq<Sent>)
    requires a <= b && Accepted(d, b)
    ensures Accepted(d, a)
  {
    assert b == a + b[|a|..];
    ObeyConcat(d, a, b[|a|..]);
  }

  lemma {:induction false} SentIsPrefix(th: Thread)
    requires SentSoFar(th)
    ensures th.sent <= Session(th)
    ensures th.pc.FlagCleared? ==> th.sent == Session(th) && th.ret == Succeeds(th.enhanced, th.replies)
  {
  }

  lemma {:induction false} CurrentSession(d: Drive, th: Thread)
    requires SentSoFar(th)
    ensures Accepted(d, th.sent)
    ensures th.pc.FlagCleared? && th.ret ==> ObeyAll(d, th.sent).erased && !ObeyAll(d, th.sent).securityOn
  {
    SentIsPrefix(th);
    SessionEffect(d, th.enhanced, th.replies);
    PrefixAccepted(d, th.sent, Session(th));
  }

  /** Whole sessions one after the other, then a prefix of the current one. */
  ghost predicate SessionByTurns(s: System)
  {
    && s.trace == Flatten(s.past) + HolderSent(s)
    && (s.holder.Some? && s.holder.value in s.threads ==>
          HolderSent(s) <= Session(s.threads[s.holder.value]))
  }

  lemma {:induction false} DriveInState(s: System, d: Drive, t: Tid)
    requires Inv(s) && t in s.threads
    ensures SessionByTurns(s) && Accepted(d, s.trace)
    ensures s.threads[t].pc.FlagCleared? && s.threads[t].ret ==>
              ObeyAll(d, s.trace).erased && !ObeyAll(d, s.trace).securityOn
  {
    var before := Flatten(s.past);
    PastIsAccepted(d, s.past);
    ObeyConcat(d, before, HolderSent(s));
    if s.holder.Some? {
      var h := s.threads[s.holder.value];
      SentIsPrefix(h);
      CurrentSession(ObeyAll(d, before), h);
    }
  }

  /** The commands of different erase calls never interleave: what these send is one whole session
      after the other, and then a prefix of the current one. So, with nobody else sending, ERASE UNIT
      is accepted whenever it is sent, and when a call that succeeded is about to give the device up,
      the drive is erased with security off. What other callers may do to that is in DriveReaders. */
  lemma {:induction false} DriveInEveryRun(threads: map<Tid, Thread>, schedule: seq<Tid>, d: Drive, t: Tid)
    requires forall i :: 0 <= i < |schedule| ==> schedule[i] in threads
    requires forall x :: x in threads ==> Fresh(threads[x])
    requires t in threads
    ensures var s := Run(threads, schedule);
            && SessionByTurns(s) && Accepted(d, s.trace)
            && (s.threads[t].pc.FlagCleared? && s.threads[t].ret ==>
                  ObeyAll(d, s.trace).erased && !ObeyAll(d, s.trace).securityOn)
  {
    RunKeepsInv(threads, schedule);
    DriveInState(Run(threads, schedule), d, t);
  }
}
