/**
 What the trace says about the flag: which writes are durable, and what became of every transaction that
 was begun. Kept beside the invariant of `UnlockInvariant`, by the same steps.
 */
module UnlockLedger {
  import opened Wrappers
  import opened FlagRegister
  import opened DataVolume
  import opened UnlockMachine
  import opened UnlockInvariant
  import opened UnlockSteps

  // ---- durability, as a caller can see it ----

  predicate RebootBetween(trace: seq<Event>, from: nat, to: nat)
    requires to <= |trace|
  {
    exists j {:trigger trace[j]} :: from < j < to && trace[j].PowerLost?
  }

  /** By position `to` the flag write at `d` is durable: it was there from the start, or it returned nil, or the
      device has rebooted since. */
  predicate Durably(trace: seq<Event>, d: nat, to: nat)
    requires d < to <= |trace|
  {
    d == 0 || EndOf(trace[d]) == Durable || RebootBetween(trace, d, to)
  }

  predicate SettledOk(s: State)
    requires s.flag.Valid()
  {
    && s.flag.log[0].at == 0 && s.flag.Newest().at < |s.trace|
    && (s.flag.Settled() <==> Durably(s.trace, s.flag.Newest().at, |s.trace|))
  }

  /** Resuming calls say truly whether the record they rest on was durable. */
  predicate ResumeIsTrue(trace: seq<Event>, i: nat)
    requires i < |trace|
  {
    trace[i].ResumeCall? ==>
      trace[i].recordedAt < i && (trace[i].settled <==> Durably(trace, trace[i].recordedAt, i))
  }

  predicate ResumesOk(trace: seq<Event>) {
    forall i | 0 <= i < |trace| :: ResumeIsTrue(trace, i)
  }

  // ---- accounting ----

  predicate Begins(e: Event) {
    e.Recorded? && e.end != Unchanged
  }

  /** How many transactions were begun: phase records that took effect. */
  function Begun(trace: seq<Event>): (n: nat) {
    if trace == [] then 0
    else Begun(trace[..|trace| - 1]) + if Begins(trace[|trace| - 1]) then 1 else 0
  }

  function DroppedBy(e: Event): (n: nat) {
    if e.PowerLost? then e.dropped else 0
  }

  /** How many of them power losses took back. */
  function Dropped(trace: seq<Event>): (n: nat) {
    if trace == [] then 0
    else Dropped(trace[..|trace| - 1]) + DroppedBy(trace[|trace| - 1])
  }

  predicate AccountOk(s: State) {
    Begun(s.trace) == Starts(s.flag.log) + Dropped(s.trace)
  }

  // ---- what wipes and flips rest on ----

  predicate RestsOnRecord(e: Event) {
    IsWipe(e) || e.FlipRequested?
  }

  /** The record at `d` is among the values that no power loss can take back. */
  predicate SafelyLogged(reg: Register<Entry>, d: nat)
    requires reg.Valid()
  {
    exists k {:trigger reg.log[k]} :: 0 <= k < reg.synced && reg.log[k].at == d
  }

  predicate RestsSafely(reg: Register<Entry>, trace: seq<Event>, i: nat)
    requires reg.Valid() && i < |trace|
  {
    RestsOnRecord(trace[i]) ==>
      trace[i].recordedAt < i && SafelyLogged(reg, trace[i].recordedAt) && Durably(trace, trace[i].recordedAt, i)
  }

  predicate SafetyOk(s: State)
    requires s.flag.Valid()
  {
    Careful(s.trace) ==> forall i | 0 <= i < |s.trace| :: RestsSafely(s.flag, s.trace, i)
  }

  predicate Ledger(s: State) {
    s.flag.Valid() && SettledOk(s) && ResumesOk(s.trace) && AccountOk(s) && SafetyOk(s)
  }

  // ---- adding events ----

  lemma DurablyGrows(trace: seq<Event>, e: Event, d: nat)
    requires d < |trace|
    ensures Durably(trace + [e], d, |trace| + 1) <==> Durably(trace, d, |trace|) || e.PowerLost?
  {
    var longer := trace + [e];
    assert longer[|trace|] == e;
    assert forall j | 0 <= j < |trace| :: longer[j] == trace[j];
  }

  lemma DurablyStays(trace: seq<Event>, e: Event, d: nat, to: nat)
    requires d < to <= |trace|
    ensures Durably(trace + [e], d, to) <==> Durably(trace, d, to)
  {
    assert forall j | 0 <= j < |trace| :: (trace + [e])[j] == trace[j];
  }

  lemma CountsGrow(trace: seq<Event>, e: Event)
    ensures Begun(trace + [e]) == Begun(trace) + if Begins(e) then 1 else 0
    ensures Dropped(trace + [e]) == Dropped(trace) + DroppedBy(e)
  {
    assert (trace + [e])[..|trace|] == trace;
  }

  lemma ResumesGrow(trace: seq<Event>, e: Event)
    requires ResumesOk(trace) && ResumeIsTrue(trace + [e], |trace|)
    ensures ResumesOk(trace + [e])
  {
    forall i | 0 <= i < |trace| + 1 ensures ResumeIsTrue(trace + [e], i) {
      if i < |trace| {
        assert ResumeIsTrue(trace, i);
        if trace[i].ResumeCall? { DurablyStays(trace, e, trace[i].recordedAt, i); }
      }
    }
  }

  lemma SafetyGrows(reg: Register<Entry>, reg': Register<Entry>, trace: seq<Event>, e: Event)
    requires reg.Valid() && reg'.Valid() && RestsSafely(reg', trace + [e], |trace|)
    requires reg.synced <= reg'.synced && reg'.log[..reg.synced] == reg.log[..reg.synced]
    requires forall i | 0 <= i < |trace| :: RestsSafely(reg, trace, i)
    ensures forall i | 0 <= i < |trace| + 1 :: RestsSafely(reg', trace + [e], i)
  {
    forall i | 0 <= i < |trace| + 1 ensures RestsSafely(reg', trace + [e], i) {
      if i < |trace| && RestsOnRecord(trace[i]) {
        assert RestsSafely(reg, trace, i);
        var d := trace[i].recordedAt;
        DurablyStays(trace, e, d, i);
        StaysLogged(reg, reg', d);
      }
    }
  }

  lemma StaysLogged(reg: Register<Entry>, reg': Register<Entry>, d: nat)
    requires reg.Valid() && reg'.Valid() && SafelyLogged(reg, d)
    requires reg.synced <= reg'.synced && reg'.log[..reg.synced] == reg.log[..reg.synced]
    ensures SafelyLogged(reg', d)
  {
    var k :| 0 <= k < reg.synced && reg.log[k].at == d;
    assert reg'.log[k] == reg'.log[..reg.synced][k];
  }

  // ---- the three kinds of steps ----

  /** An event that writes no flag, and rests on the current flag value if on any. */
  predicate Plain(s: State, e: Event)
    requires s.flag.Valid()
  {
    && !IsFlagWrite(e) && !e.PowerLost?
    && (e.ResumeCall? ==> e.recordedAt == s.flag.Newest().at && (e.settled <==> s.flag.Settled()))
    && (RestsOnRecord(e) ==> e.recordedAt == s.flag.Newest().at && PastRecord(s.pc))
  }

  lemma PlainKeeps(s: State, e: Event)
    requires Ledger(s) && Plain(s, e) && (Careful(s.trace) && PastRecord(s.pc) ==> s.flag.Settled())
    ensures Ledger(s.Log(e))
  {
    DurablyGrows(s.trace, e, s.flag.Newest().at);
    DurablyStays(s.trace, e, s.flag.Newest().at, |s.trace|);
    CountsGrow(s.trace, e);
    ResumesGrow(s.trace, e);
    HistoryGrows(s.trace, e);
    if Careful(s.trace + [e]) {
      if RestsOnRecord(e) { NewestIsLogged(s.flag); }
      SafetyGrows(s.flag, s.flag, s.trace, e);
    }
  }

  lemma NewestIsLogged(reg: Register<Entry>)
    requires reg.Valid() && reg.Settled()
    ensures SafelyLogged(reg, reg.Newest().at)
  {
    assert reg.log[|reg.log| - 1].at == reg.Newest().at;
  }

  lemma WriteKeepsLedger(s: State, f: Flag, e: Event, end: WriteEnd)
    requires Ledger(s) && IsFlagWrite(e) && EndOf(e) == end
    requires e.Recorded? <==> f.phase == VERITY_OFF
    ensures Ledger(s.Write(f, e, end))
  {
    var s' := s.Write(f, e, end);
    DurablyGrows(s.trace, e, s.flag.Newest().at);
    CountsGrow(s.trace, e);
    ResumesGrow(s.trace, e);
    HistoryGrows(s.trace, e);
    if end != Unchanged { assert s'.flag.log[..|s.flag.log|] == s.flag.log; }
    if Careful(s'.trace) {
      SafetyGrows(s.flag, s'.flag, s.trace, e);
    }
  }

  lemma {:induction false} StartsSplits(log: seq<Entry>, keep: nat)
    requires keep <= |log|
    ensures Starts(log) == Starts(log[..keep]) + Starts(log[keep..])
    decreases |log|
  {
    if keep == |log| {
      assert log[..keep] == log && log[keep..] == [];
    } else {
      var front := log[..|log| - 1];
      StartsSplits(front, keep);
      assert front[..keep] == log[..keep];
      var lost := log[keep..];
      assert lost[..|lost| - 1] == front[keep..] && lost[|lost| - 1] == log[|log| - 1];
    }
  }

  lemma PowerLossKeepsLedger(s: State, keep: nat, mode: Mode, back: set<Path>)
    requires Ledger(s) && LogOk(s.flag.log, s.trace) && s.flag.synced <= keep <= |s.flag.log|
    ensures Ledger(PowerLossStep(s, keep, mode, back))
  {
    var s' := PowerLossStep(s, keep, mode, back);
    var e := s'.trace[|s.trace|];
    LogIsOrdered(s.flag.log, s.trace, keep - 1, |s.flag.log| - 1);
    DurablyGrows(s.trace, e, s'.flag.Newest().at);
    CountsGrow(s.trace, e);
    StartsSplits(s.flag.log, keep);
    ResumesGrow(s.trace, e);
    HistoryGrows(s.trace, e);
    assert s'.flag.log[..s.flag.synced] == s.flag.log[..s.flag.synced];
    if Careful(s'.trace) {
      SafetyGrows(s.flag, s'.flag, s.trace, e);
    }
  }

  // ---- every step is of one of these kinds ----

  predicate WritesFlag(a: Action) {
    a.LockState? || a.Arm? || a.Disarm? || a.Record? || a.Finalize?
  }

  /** A step that writes no flag logs at most two plain events. */
  lemma PlainStep(inst: Install, s: State, a: Action) returns (es: seq<Event>)
    requires s.flag.Valid() && Next(inst, s, a).Some? && !WritesFlag(a) && !a.LosePower?
    ensures |es| <= 2 && forall e | e in es :: Plain(s, e)
    ensures var s' := Next(inst, s, a).value; s'.flag == s.flag && s'.trace == s.trace + es
  {
    if a.StartPrepare? || a.RemoveOne? || a.PassDone? || a.EraseCustody? || a.Flip? {
      es := WipeEvents(inst, s, a);
    } else if a.Unlock? {
      es := GateEvents(inst, s, a);
    } else {
      es := match a
        case CheckArmPin(uid, _, _) => [ArmPin(uid)]
        case DisableVerity(_, _) => [VerityRequested]
        case ConfirmVerity(verity) => if verity == Says(true) then [VerityConfirmed] else []
        case HostWrites(after) => [HostWrote(after)]
        case _ => [];
    }
  }

  lemma WipeEvents(inst: Install, s: State, a: Action) returns (es: seq<Event>)
    requires s.flag.Valid() && Next(inst, s, a).Some?
    requires a.StartPrepare? || a.RemoveOne? || a.PassDone? || a.EraseCustody? || a.Flip?
    ensures |es| <= 1 && forall e | e in es :: Plain(s, e)
    ensures var s' := Next(inst, s, a).value; s'.flag == s.flag && s'.trace == s.trace + es
  {
    if a.StartPrepare? {
      es := if Recognised(inst, s.tree) then [PrepareStarted(s.tree)] else [];
    } else if a.PassDone? {
      es := if s.pc.pass == LibPass then [PrepareDone] else if s.pc.pass == FinalPass then [FinishDone] else [];
    } else {
      var e := RestingEvent(inst, s, a);
      es := [e];
    }
  }

  lemma RestingEvent(inst: Install, s: State, a: Action) returns (e: Event)
    requires s.flag.Valid() && Next(inst, s, a).Some? && (a.RemoveOne? || a.EraseCustody? || a.Flip?)
    ensures Plain(s, e)
    ensures var s' := Next(inst, s, a).value; s'.flag == s.flag && s'.trace == s.trace + [e]
  {
    var d := s.flag.Newest().at;
    e := match a
      case RemoveOne(p) => Removed(s.Flag().owner, d, p)
      case EraseCustody(ok, _) => CustodyErased(s.Flag().owner, d, ok)
      case Flip(_, _) => FlipRequested(d, s.pc.marks.prepareAt, s.pc.marks.eraseAt, s.pc.marks.finishAt);
  }

  lemma GateEvents(inst: Install, s: State, a: Action) returns (es: seq<Event>)
    requires s.flag.Valid() && Next(inst, s, a).Some? && a.Unlock?
    ensures |es| <= 2 && forall e | e in es :: Plain(s, e)
    ensures var s' := Next(inst, s, a).value; s'.flag == s.flag && s'.trace == s.trace + es
  {
    var s' := Next(inst, s, a).value;
    if s'.trace == s.trace {
      es := [];
    } else if s.Flag().phase == VERITY_OFF {
      es := [ResumeCall(s.flag.Newest().at, s.flag.Settled())];
    } else {
      es := [UnlockCall, UnlockPin(s.Flag().owner, a.reply)];
    }
  }

  /** A step that writes the flag, or decides not to. */
  lemma WriteStep(inst: Install, s: State, a: Action) returns (f: Flag, e: Event, end: WriteEnd, written: bool)
    requires PastOk(s) && Next(inst, s, a).Some? && WritesFlag(a)
    requires s.pc.Recording? ==> s.pc.f.phase == ""
    ensures IsFlagWrite(e) && EndOf(e) == end && (e.Recorded? <==> f.phase == VERITY_OFF)
    ensures var s' := Next(inst, s, a).value;
            if written then s'.flag == s.Write(f, e, end).flag && s'.trace == s.Write(f, e, end).trace
            else s'.flag == s.flag && s'.trace == s.trace
  {
    NewestOk(s);
    if a.LockState? || a.Disarm? {
      f, e, end, written := ClearingWrite(inst, s, a);
    } else if a.Arm? {
      f, e, end, written := ArmingWrite(inst, s, a);
    } else if a.Record? {
      f, end, written := s.pc.f.(phase := VERITY_OFF), a.end, true;
      e := Recorded(s.pc.f.owner, s.flag.Newest().at, s.pc.pinAt, s.pc.verityAt, a.end);
    } else {
      f, e, end, written := FinalizedFlag(s.Flag()), Finalized(a.end), a.end, true;
    }
  }

  lemma ClearingWrite(inst: Install, s: State, a: Action) returns (f: Flag, e: Event, end: WriteEnd, written: bool)
    requires s.flag.Valid() && Sane(s.Flag()) && Next(inst, s, a).Some? && (a.LockState? || a.Disarm?)
    ensures IsFlagWrite(e) && EndOf(e) == end && !e.Recorded? && f.phase != VERITY_OFF
    ensures var s' := Next(inst, s, a).value;
            if written then s'.flag == s.Write(f, e, end).flag && s'.trace == s.Write(f, e, end).trace
            else s'.flag == s.flag && s'.trace == s.trace
  {
    var g := s.Flag();
    if a.Disarm? && g.phase == "" {
      f, e, end, written := g.(armed := false, owner := 0, phase := ""), Disarmed(a.end), a.end, true;
    } else {
      f, e, end := FinalizedFlag(g), Finalized(a.end), a.end;
      written := a.lockBit == Says(false) && g.phase == VERITY_OFF;
    }
  }

  lemma ArmingWrite(inst: Install, s: State, a: Action) returns (f: Flag, e: Event, end: WriteEnd, written: bool)
    requires s.flag.Valid() && Next(inst, s, a).Some? && a.Arm?
    ensures IsFlagWrite(e) && EndOf(e) == end && !e.Recorded? && f.phase != VERITY_OFF
    ensures var s' := Next(inst, s, a).value;
            if written then s'.flag == s.Write(f, e, end).flag && s'.trace == s.Write(f, e, end).trace
            else s'.flag == s.flag && s'.trace == s.trace
  {
    var g := s.Flag();
    f, e, end := g.(armed := true, owner := a.uid, phase := ""), Armed(a.uid, a.grant, a.end), a.end;
    written := !(a.uid < FIRST_OWNER_UID || (g.armed && g.phase != ""));
  }

  /** The ledger depends on the flag and the trace only. */
  lemma LedgerReads(s: State, s': State)
    requires Ledger(s) && s'.flag == s.flag && s'.trace == s.trace
    ensures Ledger(s')
  {
  }

  lemma LedgerStep(inst: Install, s: State, a: Action)
    requires Inv(inst, s) && Ledger(s) && Next(inst, s, a).Some?
    ensures Ledger(Next(inst, s, a).value)
  {
    if a.LosePower? {
      LedgerLoss(inst, s, a);
    } else if WritesFlag(a) {
      LedgerWrite(inst, s, a);
    } else {
      LedgerPlain(inst, s, a);
    }
  }

  lemma LedgerLoss(inst: Install, s: State, a: Action)
    requires PastOk(s) && Ledger(s) && Next(inst, s, a).Some? && a.LosePower?
    ensures Ledger(Next(inst, s, a).value)
  {
    PowerLossKeepsLedger(s, a.keep, a.mode, a.back);
  }

  lemma LedgerWrite(inst: Install, s: State, a: Action)
    requires PastOk(s) && Ledger(s) && Next(inst, s, a).Some? && WritesFlag(a)
    requires s.pc.Recording? ==> s.pc.f.phase == ""
    ensures Ledger(Next(inst, s, a).value)
  {
    var f, e, end, written := WriteStep(inst, s, a);
    if written {
      WriteKeepsLedger(s, f, e, end);
      LedgerReads(s.Write(f, e, end), Next(inst, s, a).value);
    } else {
      LedgerReads(s, Next(inst, s, a).value);
    }
  }

  lemma LedgerPlain(inst: Install, s: State, a: Action)
    requires Ledger(s) && ResumeOk(s) && Next(inst, s, a).Some? && !WritesFlag(a) && !a.LosePower?
    ensures Ledger(Next(inst, s, a).value)
  {
    var es := PlainStep(inst, s, a);
    PlainStepKeeps(s, es);
    LedgerReads(s.(trace := s.trace + es), Next(inst, s, a).value);
  }

  lemma PlainStepKeeps(s: State, es: seq<Event>)
    requires Ledger(s) && |es| <= 2 && (forall e | e in es :: Plain(s, e))
    requires Careful(s.trace) && PastRecord(s.pc) ==> s.flag.Settled()
    ensures Ledger(s.(trace := s.trace + es))
  {
    if |es| == 0 {
      assert s.trace + es == s.trace;
    } else {
      assert es[0] in es && es[|es| - 1] in es;
      if |es| == 1 {
        assert es == [es[0]];
        PlainKeeps(s, es[0]);
      } else {
        assert s.trace + es == s.trace + [es[0]] + [es[1]];
        TwoPlainKeep(s, es[0], es[1]);
      }
    }
  }

  lemma TwoPlainKeep(s: State, e: Event, e': Event)
    requires Ledger(s) && Plain(s, e) && Plain(s, e') && (Careful(s.trace) && PastRecord(s.pc) ==> s.flag.Settled())
    ensures Ledger(s.Log(e).Log(e'))
  {
    HistoryGrows(s.trace, e);
    PlainKeeps(s, e);
    PlainKeeps(s.Log(e), e');
  }

  lemma FreshLedger(s: State)
    requires Fresh(s)
    ensures Ledger(s)
  {
    assert s.flag.log[..0] == [] && s.trace[..0] == [];
    assert Starts(s.flag.log[..0]) == 0 && Begun(s.trace[..0]) == 0 && Dropped(s.trace[..0]) == 0;
  }

  lemma {:induction false} RunKeepsLedger(inst: Install, s: State, actions: seq<Action>)
    requires Inv(inst, s) && Ledger(s) && Run(inst, s, actions).Some?
    ensures Ledger(Run(inst, s, actions).value)
    decreases |actions|
  {
    if actions != [] {
      StepKeeps(inst, s, actions[0]);
      LedgerStep(inst, s, actions[0]);
      RunKeepsLedger(inst, Next(inst, s, actions[0]).value, actions[1..]);
    }
  }

  lemma ReachableLedger(inst: Install, s: State)
    requires Reachable(inst, s)
    ensures Ledger(s)
  {
    var s0: State, actions: seq<Action> :| Fresh(s0) && Run(inst, s0, actions) == Some(s);
    FreshIsInv(inst, s0);
    FreshLedger(s0);
    RunKeepsLedger(inst, s0, actions);
  }
}
