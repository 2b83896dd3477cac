/** Secure erase calls among the calls that only read from the drive, a SMART refresh or a power query:
    these look at the busy flag once and send their commands later. */
module DriveReaders {
  import opened OptionType
  import opened SecureErase

  /** A reader that has yet to look at the flag, or has looked, with the commands it has to send. */
  datatype Reader = Asking(commands: nat) | Sending(commands: nat)

  /** What the drive hears, in order. */
  datatype Heard = FromErase(sent: Sent) | FromReader

  datatype Whole = Whole(erase: System, readers: map<Tid, Reader>, heard: seq<Heard>)

  datatype Turn = OfErase(t: Tid) | OfReader(t: Tid)

  predicate Possible(w: Whole, turn: Turn)
  {
    match turn case OfErase(t) => t in w.erase.threads case OfReader(t) => t in w.readers
  }

  /** The commands a step of an erase call sends. */
  function Spoken(s: System, t: Tid): seq<Heard>
    requires t in s.threads
  {
    var e := StepEffect(s, t);
    if e.Transmit? then [FromErase(e.sent)] else []
  }

  function AfterLook(reader: Reader, flag: bool): Reader
  {
    match reader
    case Asking(n) => Sending(if flag then 0 else n)
    case Sending(n) => Sending(if n == 0 then 0 else n - 1)
  }

  predicate Speaks(reader: Reader)
  {
    reader.Sending? && reader.commands > 0
  }

  function Take(w: Whole, turn: Turn): (w': Whole)
    requires Possible(w, turn)
    ensures w'.erase.threads.Keys == w.erase.threads.Keys && w'.readers.Keys == w.readers.Keys
  {
    match turn
    case OfErase(t) => w.(erase := Step(w.erase, t), heard := w.heard + Spoken(w.erase, t))
    case OfReader(t) =>
      w.(readers := w.readers[t := AfterLook(w.readers[t], w.erase.flag)],
         heard := w.heard + if Speaks(w.readers[t]) then [FromReader] else [])
  }

  predicate AllPossible(w: Whole, turns: seq<Turn>)
  {
    forall i :: 0 <= i < |turns| ==> Possible(w, turns[i])
  }

  function TakeAll(w: Whole, turns: seq<Turn>): (w': Whole)
    requires AllPossible(w, turns)
    ensures w'.erase.threads.Keys == w.erase.threads.Keys && w'.readers.Keys == w.readers.Keys
  {
    if turns == [] then w else Take(TakeAll(w, turns[..|turns| - 1]), turns[|turns| - 1])
  }

  /** Any number of erase calls and of readers, before any of them has started. */
  function Initially(threads: map<Tid, Thread>, readers: map<Tid, Reader>): Whole
  {
    Whole(System(false, None, None, threads, [], []), readers, [])
  }

  ghost predicate Fits(threads: map<Tid, Thread>, readers: map<Tid, Reader>, turns: seq<Turn>)
  {
    && AllPossible(Initially(threads, readers), turns)
    && forall t :: t in threads ==> Fresh(threads[t])
  }

  // ----- the erase calls do not notice -----

  function EraseTurns(turns: seq<Turn>): seq<Tid>
  {
    if turns == [] then []
    else
      var before, last := EraseTurns(turns[..|turns| - 1]), turns[|turns| - 1];
      if last.OfErase? then before + [last.t] else before
  }

  /** What the erase calls have said. */
  function Said(heard: seq<Heard>): seq<Sent>
  {
    if heard == [] then []
    else
      var before, last := Said(heard[..|heard| - 1]), heard[|heard| - 1];
      if last.FromErase? then before + [last.sent] else before
  }

  lemma {:induction false} SaidSnoc(heard: seq<Heard>, h: Heard)
    ensures Said(heard + [h]) == if h.FromErase? then Said(heard) + [h.sent] else Said(heard)
  {
    assert (heard + [h])[..|heard|] == heard;
  }

  lemma {:induction false} EraseTurnsPossible(threads: map<Tid, Thread>, readers: map<Tid, Reader>, turns: seq<Turn>)
    requires AllPossible(Initially(threads, readers), turns)
    ensures forall i :: 0 <= i < |EraseTurns(turns)| ==> EraseTurns(turns)[i] in threads
  {
    if turns != [] {
      EraseTurnsPossible(threads, readers, turns[..|turns| - 1]);
      assert Possible(Initially(threads, readers), turns[|turns| - 1]);
    }
  }

  lemma {:induction false} TraceGrows(s: System, t: Tid)
    requires t in s.threads
    ensures Step(s, t).trace == s.trace + (if StepEffect(s, t).Transmit? then [StepEffect(s, t).sent] else [])
  {
    assert s.trace + [] == s.trace;
  }

  /** Over every run with readers in it, the erase calls run as they would without them, and what they
      said to the drive is what they would have sent it. So every statement about runs of erase calls
      holds of their part. */
  lemma {:induction false} ReadersGoUnnoticed(threads: map<Tid, Thread>, readers: map<Tid, Reader>, turns: seq<Turn>)
    requires AllPossible(Initially(threads, readers), turns)
    ensures forall i :: 0 <= i < |EraseTurns(turns)| ==> EraseTurns(turns)[i] in threads
    ensures var w := TakeAll(Initially(threads, readers), turns);
            w.erase == Run(threads, EraseTurns(turns)) && Said(w.heard) == w.erase.trace
  {
    EraseTurnsPossible(threads, readers, turns);
    if turns != [] {
      var before, last := turns[..|turns| - 1], turns[|turns| - 1];
      ReadersGoUnnoticed(threads, readers, before);
      var w := TakeAll(Initially(threads, readers), before);
      assert Possible(Initially(threads, readers), last);
      assert w.heard + [] == w.heard;
      if last.OfErase? {
        assert (EraseTurns(before) + [last.t])[..|EraseTurns(before)|] == EraseTurns(before);
        TraceGrows(w.erase, last.t);
        if StepEffect(w.erase, last.t).Transmit? {
          SaidSnoc(w.heard, FromErase(StepEffect(w.erase, last.t).sent));
        }
      } else if Speaks(w.readers[last.t]) {
        SaidSnoc(w.heard, FromReader);
      }
    }
  }

  // ----- when the readers are silent -----

  /** No reader has passed its check with something left to send. */
  predicate Quiet(w: Whole)
  {
    forall t :: t in w.readers ==> !Speaks(w.readers[t])
  }

  predicate FlagUpBefore(w: Whole, turns: seq<Turn>)
    requires AllPossible(w, turns)
  {
    forall n :: 0 <= n < |turns| ==> TakeAll(w, turns[..n]).erase.flag
  }

  /** However the threads are scheduled, no reader is heard until after the flag comes down. */
  ghost predicate SilentUnderFlag(w: Whole)
  {
    forall turns :: AllPossible(w, turns) && FlagUpBefore(w, turns) ==>
      w.heard <= TakeAll(w, turns).heard && FromReader !in TakeAll(w, turns).heard[|w.heard|..]
  }

  lemma {:induction false} QuietStays(w: Whole, turn: Turn)
    requires Possible(w, turn) && w.erase.flag && Quiet(w)
    ensures Quiet(Take(w, turn))
    ensures w.heard <= Take(w, turn).heard && FromReader !in Take(w, turn).heard[|w.heard|..]
  {
    assert w.heard + [] == w.heard;
  }

  lemma {:induction false} QuietUntilLowered(w: Whole, turns: seq<Turn>)
    requires AllPossible(w, turns) && FlagUpBefore(w, turns) && Quiet(w)
    ensures Quiet(TakeAll(w, turns))
    ensures w.heard <= TakeAll(w, turns).heard && FromReader !in TakeAll(w, turns).heard[|w.heard|..]
  {
    if turns != [] {
      var n := |turns| - 1;
      var before := turns[..n];
      assert forall k :: 0 <= k < n ==> before[..k] == turns[..k];
      QuietUntilLowered(w, before);
      var w' := TakeAll(w, before);
      assert w'.erase.flag;
      QuietStays(w', turns[n]);
      StillNotHeard(w.heard, w'.heard, Take(w', turns[n]).heard);
    }
  }

  lemma {:induction false} StillNotHeard(a: seq<Heard>, b: seq<Heard>, c: seq<Heard>)
    requires a <= b <= c && FromReader !in b[|a|..] && FromReader !in c[|b|..]
    ensures a <= c && FromReader !in c[|a|..]
  {
    assert c[|a|..] == b[|a|..] + c[|b|..];
  }

  /** From a state in which the flag is up, no reader can be heard before it comes down if and only if
      none had passed its check with something left to send. */
  lemma {:induction false} SilentExactlyWhenQuiet(w: Whole)
    requires w.erase.flag
    ensures SilentUnderFlag(w) <==> Quiet(w)
  {
    if Quiet(w) {
      forall turns | AllPossible(w, turns) && FlagUpBefore(w, turns)
        ensures w.heard <= TakeAll(w, turns).heard && FromReader !in TakeAll(w, turns).heard[|w.heard|..]
      {
        QuietUntilLowered(w, turns);
      }
    } else {
      var t :| t in w.readers && Speaks(w.readers[t]);
      var turns := [OfReader(t)];
      assert turns[..0] == [] && TakeAll(w, turns) == Take(w, OfReader(t));
      assert FlagUpBefore(w, turns);
      assert TakeAll(w, turns).heard[|w.heard|..] == [FromReader];
    }
  }

  // ----- what the drive makes of it -----

  /** Any other command ends the preparation for an erase. */
  function ObeyHeard(d: Drive, h: Heard): Drive
  {
    match h case FromErase(m) => Obey(d, m) case FromReader => d.(prepared := false)
  }

  function ObeyAllHeard(d: Drive, heard: seq<Heard>): Drive
  {
    if heard == [] then d else ObeyHeard(ObeyAllHeard(d, heard[..|heard| - 1]), heard[|heard| - 1])
  }

  predicate Accepts(d: Drive, h: Heard)
  {
    h.FromErase? && h.sent.command.EraseUnit? ==> d.prepared
  }

  /** ERASE UNIT is heard only right after a successful ERASE PREPARE. */
  predicate AllAccepted(d: Drive, heard: seq<Heard>)
  {
    heard == [] ||
    (AllAccepted(d, heard[..|heard| - 1]) && Accepts(ObeyAllHeard(d, heard[..|heard| - 1]), heard[|heard| - 1]))
  }

  lemma {:induction false} HeardSnoc(d: Drive, heard: seq<Heard>, h: Heard)
    ensures ObeyAllHeard(d, heard + [h]) == ObeyHeard(ObeyAllHeard(d, heard), h)
    ensures AllAccepted(d, heard + [h]) <==> AllAccepted(d, heard) && Accepts(ObeyAllHeard(d, heard), h)
  {
    assert (heard + [h])[..|heard|] == heard;
  }

  /** The drive has accepted everything, and is prepared for each call that is about to erase. */
  ghost predicate ReadyToErase(w: Whole, d: Drive)
  {
    && AllAccepted(d, w.heard)
    && forall t :: t in w.erase.threads && w.erase.threads[t].pc.Prepared? ==> ObeyAllHeard(d, w.heard).prepared
  }

  lemma {:induction false} PreparesBefore(th: Thread, flag: bool, free: bool)
    requires BeforeTheCommands(th)
    ensures var (th', e) := Advance(th, flag, free);
            !(e.Transmit? && e.sent.command.EraseUnit?) && !th'.pc.Prepared?
  {
    match th.pc {
      case Start =>
      case Checked =>
      case Opened =>
      case FlagSet =>
      case _ =>
    }
  }

  /** ERASE UNIT is sent from one position only, and that is reached by ERASE PREPARE only. */
  lemma {:induction false} PreparedBySending(th: Thread, flag: bool, free: bool)
    ensures var (th', e) := Advance(th, flag, free);
            && (e.Transmit? && e.sent.command.EraseUnit? ==> th.pc.Prepared?)
            && (th'.pc.Prepared? ==> e == Transmit(Sent(ErasePrepare, true)))
  {
    if BeforeTheCommands(th) {
      PreparesBefore(th, flag, free);
    } else {
      match th.pc {
        case Identified =>
        case ReadyToSet =>
        case PasswordSet =>
        case Prepared =>
        case Out =>
        case CleanedUp =>
        case FlagCleared =>
        case _ =>
      }
    }
  }

  lemma {:induction false} SpokenIsAccepted(w: Whole, t: Tid, d: Drive)
    requires t in w.erase.threads && ReadyToErase(w, d)
    ensures AllAccepted(d, w.heard + Spoken(w.erase, t))
  {
    var e := StepEffect(w.erase, t);
    PreparedBySending(w.erase.threads[t], w.erase.flag, w.erase.holder.None?);
    if e.Transmit? {
      HeardSnoc(d, w.heard, FromErase(e.sent));
    } else {
      assert w.heard + [] == w.heard;
    }
  }

  lemma {:induction false} CallIsReady(w: Whole, t: Tid, d: Drive)
    requires t in w.erase.threads && Advance(w.erase.threads[t], w.erase.flag, w.erase.holder.None?).0.pc.Prepared?
    ensures ObeyAllHeard(d, w.heard + Spoken(w.erase, t)).prepared
  {
    PreparedBySending(w.erase.threads[t], w.erase.flag, w.erase.holder.None?);
    HeardSnoc(d, w.heard, FromErase(Sent(ErasePrepare, true)));
  }

  lemma {:induction false} OthersStayReady(w: Whole, t: Tid, u: Tid, d: Drive)
    requires t in w.erase.threads && u in w.erase.threads && t != u && Exclusive(w.erase) && ReadyToErase(w, d)
    requires w.erase.threads[u].pc.Prepared?
    ensures ObeyAllHeard(d, w.heard + Spoken(w.erase, t)).prepared
  {
    assert PastOpen(w.erase.threads[u].pc) && !PastOpen(w.erase.threads[t].pc);
    AdvanceMoves(w.erase.threads[t], w.erase.flag, w.erase.holder.None?);
    assert w.heard + [] == w.heard;
  }

  lemma {:induction false} EraseKeepsReady(w: Whole, t: Tid, d: Drive)
    requires t in w.erase.threads && Inv(w.erase) && ReadyToErase(w, d)
    ensures ReadyToErase(Take(w, OfErase(t)), d)
  {
    SpokenIsAccepted(w, t, d);
    var s' := Step(w.erase, t);
    forall u | u in s'.threads && s'.threads[u].pc.Prepared?
      ensures ObeyAllHeard(d, w.heard + Spoken(w.erase, t)).prepared
    {
      StepMovesOne(w.erase, t, u);
      if u == t {
        CallIsReady(w, t, d);
      } else {
        OthersStayReady(w, t, u, d);
      }
    }
  }

  lemma {:induction false} NoneIsPrepared(s: System)
    requires Exclusive(s) && !s.flag
    ensures forall u :: u in s.threads ==> !s.threads[u].pc.Prepared?
  {
    forall u | u in s.threads ensures !s.threads[u].pc.Prepared? {
      assert PastOpen(s.threads[u].pc) <==> s.holder == Some(u);
    }
  }

  lemma {:induction false} ReaderKeepsReady(w: Whole, t: Tid, d: Drive)
    requires t in w.readers && Inv(w.erase) && ReadyToErase(w, d) && (w.erase.flag ==> Quiet(w))
    ensures ReadyToErase(Take(w, OfReader(t)), d)
  {
    if Speaks(w.readers[t]) {
      HeardSnoc(d, w.heard, FromReader);
      NoneIsPrepared(w.erase);
    } else {
      assert w.heard + [] == w.heard;
    }
  }

  /** Whenever the flag goes up, no reader has passed its check with something left to send. */
  ghost predicate RaisedQuietly(w: Whole, turns: seq<Turn>)
    requires AllPossible(w, turns)
  {
    forall n :: 0 <= n < |turns| && !TakeAll(w, turns[..n]).erase.flag && TakeAll(w, turns[..n + 1]).erase.flag ==>
      Quiet(TakeAll(w, turns[..n + 1]))
  }

  lemma {:induction false} QuietWhileUp(w: Whole, turns: seq<Turn>)
    requires AllPossible(w, turns) && !w.erase.flag && RaisedQuietly(w, turns)
    ensures TakeAll(w, turns).erase.flag ==> Quiet(TakeAll(w, turns))
  {
    if turns != [] {
      var n := |turns| - 1;
      var before := turns[..n];
      assert forall k :: 0 <= k <= n ==> before[..k] == turns[..k];
      QuietWhileUp(w, before);
      assert turns[..n + 1] == turns;
      if TakeAll(w, before).erase.flag {
        QuietStays(TakeAll(w, before), turns[n]);
      }
    }
  }

  /** In every run of erase calls and readers in which the flag only ever goes up while no reader is
      between its check and its last command, the drive hears every ERASE UNIT right after a
      successful ERASE PREPARE, and accepts it. */
  lemma {:induction false} EraseUnitIsAccepted(threads: map<Tid, Thread>, readers: map<Tid, Reader>, turns: seq<Turn>,
                                               d: Drive)
    requires Fits(threads, readers, turns) && RaisedQuietly(Initially(threads, readers), turns)
    ensures ReadyToErase(TakeAll(Initially(threads, readers), turns), d)
  {
    var w0 := Initially(threads, readers);
    if turns != [] {
      var n := |turns| - 1;
      var before := turns[..n];
      assert forall k :: 0 <= k <= n ==> before[..k] == turns[..k];
      EraseUnitIsAccepted(threads, readers, before, d);
      QuietWhileUp(w0, before);
      ReadersGoUnnoticed(threads, readers, before);
      RunKeepsInv(threads, EraseTurns(before));
      assert Possible(w0, turns[n]);
      match turns[n] {
        case OfErase(t) => EraseKeepsReady(TakeAll(w0, before), t, d);
        case OfReader(t) => ReaderKeepsReady(TakeAll(w0, before), t, d);
      }
    }
  }

  // ----- a reader that is late -----

  /** A reader that passed its check can still get between ERASE PREPARE and ERASE UNIT, and then the
      drive refuses the erase. */
  lemma {:induction false} LateReaderSpoilsErase(w: Whole, t: Tid, r: Tid, d: Drive)
    requires t in w.erase.threads && w.erase.threads[t].pc.Prepared? && r in w.readers && Speaks(w.readers[r])
    ensures !AllAccepted(d, Take(Take(w, OfReader(r)), OfErase(t)).heard)
  {
    var heard := w.heard + [FromReader];
    HeardSnoc(d, w.heard, FromReader);
    assert Take(w, OfReader(r)).heard == heard;
    var e := StepEffect(w.erase, t);
    assert e.Transmit? && e.sent.command.EraseUnit?;
    HeardSnoc(d, heard, FromErase(e.sent));
  }

  /** A call that goes well. */
  function Willing(pc: Pc, sent: seq<Sent>): Thread
  {
    var replies := Replies(true, IdentifyData(true, true, false, false), true, true, true, true);
    Thread(pc, false, true, replies, sent, |sent| > 1, false)
  }

  const SAID: seq<Sent> := [Sent(Identify, true), Sent(SetPassword, true), Sent(ErasePrepare, true)]

  /** Where such a call is after its first steps, up to the one before ERASE UNIT. */
  function PcAt(k: nat): Pc
  {
    if k == 0 then Start else if k == 1 then Checked else if k == 2 then Opened else if k == 3 then FlagSet
    else if k == 4 then Claimed else if k == 5 then Identified else if k == 6 then ReadyToSet
    else if k == 7 then PasswordSet else Prepared
  }

  function SaidAt(k: nat): nat
  {
    if k < 5 then 0 else if k < 7 then 1 else if k < 8 then 2 else 3
  }

  function AsHeard(sent: seq<Sent>): seq<Heard>
  {
    seq(|sent|, i requires 0 <= i < |sent| => FromErase(sent[i]))
  }

  /** The state after as many steps of the call, a reader having looked before. */
  function StateAt(k: nat): Whole
    requires k <= 8
  {
    var sent := SAID[..SaidAt(k)];
    Whole(System(k >= 3, if k >= 3 then Some(0) else None, if k >= 2 then Some(0) else None,
                 map[0 := Willing(PcAt(k), sent)], sent, []),
          map[1 := Sending(1)], AsHeard(sent))
  }

  lemma {:induction false} StateMoves(k: nat)
    requires k < 8
    ensures Take(StateAt(k), OfErase(0)) == StateAt(k + 1)
  {
    var sent := SAID[..SaidAt(k)];
    assert StateAt(k).heard + [] == StateAt(k).heard;
    if SaidAt(k + 1) > SaidAt(k) {
      var m := SAID[SaidAt(k)];
      assert SAID[..SaidAt(k + 1)] == sent + [m];
      assert AsHeard(sent + [m]) == AsHeard(sent) + [FromErase(m)];
    }
    var th, th' := Willing(PcAt(k), sent), Willing(PcAt(k + 1), SAID[..SaidAt(k + 1)]);
    assert Advance(th, k >= 3, k < 2).0 == th';
    assert StateAt(k).erase.threads[0 := th'] == StateAt(k + 1).erase.threads;
  }

  const ONE_CALL: map<Tid, Thread> := map[0 := Willing(Start, [])]
  const ONE_READER: map<Tid, Reader> := map[1 := Asking(1)]

  function ReaderFirst(k: nat): seq<Turn>
  {
    [OfReader(1)] + seq(k, _ => OfErase(0))
  }

  lemma {:induction false} TakeSnoc(w: Whole, turns: seq<Turn>, turn: Turn)
    requires AllPossible(w, turns) && Possible(w, turn)
    ensures AllPossible(w, turns + [turn]) && TakeAll(w, turns + [turn]) == Take(TakeAll(w, turns), turn)
  {
    assert (turns + [turn])[..|turns|] == turns;
  }

  lemma {:induction false} ReaderLooks()
    ensures Take(Initially(ONE_CALL, ONE_READER), OfReader(1)) == StateAt(0)
  {
    assert ONE_READER[1 := Sending(1)] == map[1 := Sending(1)];
    assert SAID[..0] == [];
  }

  lemma {:induction false} StateIsReached(k: nat)
    requires k <= 8
    ensures Fits(ONE_CALL, ONE_READER, ReaderFirst(k))
    ensures TakeAll(Initially(ONE_CALL, ONE_READER), ReaderFirst(k)) == StateAt(k)
  {
    var w := Initially(ONE_CALL, ONE_READER);
    if k == 0 {
      assert ReaderFirst(0) == [] + [OfReader(1)];
      TakeSnoc(w, [], OfReader(1));
      ReaderLooks();
    } else {
      StateIsReached(k - 1);
      assert ReaderFirst(k) == ReaderFirst(k - 1) + [OfErase(0)];
      TakeSnoc(w, ReaderFirst(k - 1), OfErase(0));
      StateMoves(k - 1);
    }
  }

  /** Such a run exists: a reader looks, a call raises the flag and gets up to its erase, the reader
      sends its command, and the drive refuses ERASE UNIT. */
  lemma {:induction false} ReaderMayBeLate(d: Drive)
    ensures Fits(ONE_CALL, ONE_READER, ReaderFirst(8))
    ensures var w := TakeAll(Initially(ONE_CALL, ONE_READER), ReaderFirst(8));
            !AllAccepted(d, Take(Take(w, OfReader(1)), OfErase(0)).heard)
  {
    StateIsReached(8);
    LateReaderSpoilsErase(StateAt(8), 0, 1, d);
  }
}
