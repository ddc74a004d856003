/**
 Preservation of the invariant, one kind of step at a time, and from there over every run.
 */
module UnlockSteps {
  import opened Wrappers
  import opened FlagRegister
  import opened DataVolume
  import opened UnlockMachine
  import opened UnlockInvariant

  // ---- building blocks ----

  lemma NoCallGrows(trace: seq<Event>, e: Event, from: nat)
    requires NoCallBetween(trace, from, |trace|) && !IsCall(e)
    ensures NoCallBetween(trace + [e], from, |trace| + 1)
  {
  }

  lemma PinHeldGrows(reg: Register<Entry>, trace: seq<Event>, e: Event, f: Flag, c: nat)
    requires reg.Valid() && PinHeld(reg, trace, f, c) && !IsCall(e) && !IsFlagWrite(e)
    ensures PinHeld(reg, trace + [e], f, c)
  {
  }

  lemma CallOkGrows(pc: Pc, reg: Register<Entry>, trace: seq<Event>, e: Event)
    requires reg.Valid() && CallOk(pc, reg, trace)
    requires IsCall(e) || IsFlagWrite(e) ==> pc == Idle
    ensures CallOk(pc, reg, trace + [e])
  {
    match pc {
      case Idle =>
      case PinAccepted(f, c) => PinHeldGrows(reg, trace, e, f, c);
      case Validated(f, c) => PinHeldGrows(reg, trace, e, f, c);
      case VerityDisabled(f, c) => PinHeldGrows(reg, trace, e, f, c);
      case Recording(f, c, v) => PinHeldGrows(reg, trace, e, f, c);
      case Sweeping(pass, m) => if pass == FinalPass { NoCallGrows(trace, e, m.prepareAt); }
      case Erasing(m) => NoCallGrows(trace, e, m.prepareAt);
      case Finishing(m) => NoCallGrows(trace, e, m.prepareAt);
      case Flipping(m) => NoCallGrows(trace, e, m.prepareAt);
      case _ =>
    }
  }

  /** A step of a call may log `e`, leave tree `t` with deletions `u` unsynced, and move on to `pc`. */
  predicate MayAdvance(inst: Install, s: State, e: Event, t: Tree, u: Tree, pc: Pc)
    requires s.flag.Valid()
  {
    && EventOk(s.trace + [e], |s.trace|) && !IsFlagWrite(e) && !e.PowerLost?
    && WellFormed(t) && (Recognised(inst, s.tree) ==> Recognised(inst, t)) && Expendable(u)
    && PcOk(inst, s.Log(e).(tree := t, unsynced := u).At(pc))
    && (IsWipe(e) ==> Recognised(inst, s.tree) && PastRecord(s.pc))
    && (PastRecord(pc) && Careful(s.trace + [e]) ==> PastRecord(s.pc) || s.flag.Settled())
  }

  lemma AdvanceKeeps(inst: Install, s: State, e: Event, t: Tree, u: Tree, pc: Pc)
    requires Inv(inst, s) && MayAdvance(inst, s, e, t, u, pc)
    ensures Inv(inst, s.Log(e).(tree := t, unsynced := u).At(pc))
  {
    PastAdvances(s, e, t, u, pc);
    PresentAdvances(inst, s, e, t, u, pc);
  }

  lemma PresentAdvances(inst: Install, s: State, e: Event, t: Tree, u: Tree, pc: Pc)
    requires s.flag.Valid() && PresentOk(inst, s) && MayAdvance(inst, s, e, t, u, pc)
    ensures PresentOk(inst, s.Log(e).(tree := t, unsynced := u).At(pc))
  {
    HistoryGrows(s.trace, e);
  }

  lemma PastAdvances(s: State, e: Event, t: Tree, u: Tree, pc: Pc)
    requires PastOk(s) && EventOk(s.trace + [e], |s.trace|) && !IsFlagWrite(e) && !e.PowerLost?
    ensures PastOk(s.Log(e).(tree := t, unsynced := u).At(pc))
  {
    LogOkGrows(s.flag.log, s.trace, e);
    TraceOkGrows(s.trace, e);
    GrantsOkGrows(s.trace, s.grants, e);
    StandingGrows(s.trace, e);
  }

  /** ... that only logs. */
  lemma LogKeeps(inst: Install, s: State, e: Event)
    requires Inv(inst, s) && EventOk(s.trace + [e], |s.trace|) && !IsFlagWrite(e) && !e.PowerLost?
    requires (IsCall(e) ==> s.pc == Idle) && !IsWipe(e)
    requires e.PrepareStarted? || e.HostWrote? ==> !MidWipe(s.pc)
    ensures Inv(inst, s.Log(e))
  {
    CallOkGrows(s.pc, s.flag, s.trace, e);
    BasisGrows(s.trace, e);
    AdvanceKeeps(inst, s, e, s.tree, s.unsynced, s.pc);
  }

  lemma MoveKeeps(inst: Install, s: State, pc: Pc)
    requires Inv(inst, s) && PcOk(inst, s.At(pc))
    requires PastRecord(pc) && Careful(s.trace) ==> PastRecord(s.pc) || s.flag.Settled()
    ensures Inv(inst, s.At(pc))
  {
  }

  lemma TreeKeeps(inst: Install, s: State, t: Tree)
    requires Inv(inst, s) && WellFormed(t)
    requires Recognised(inst, s.tree) ==> Recognised(inst, t)
    requires PcOk(inst, s.(tree := t))
    ensures Inv(inst, s.(tree := t))
  {
  }

  lemma WriteKeeps(inst: Install, s: State, f: Flag, e: Event, end: WriteEnd)
    requires Inv(inst, s) && s.pc == Idle
    requires Sane(f) && Turns(s.Flag(), f, e, s.flag.Newest().at) && EndOf(e) == end
    requires EventOk(s.trace + [e], |s.trace|)
    requires GrantsOk(s.trace + [e], s.grants)
    requires e.Finalized? ==> !s.locked
    requires e.Recorded? ==> s.verityOff
    ensures Inv(inst, s.Write(f, e, end))
  {
    var s' := s.Write(f, e, end);
    WriteKeepsLog(s, f, e, end);
    TraceOkGrows(s.trace, e);
    HistoryGrows(s.trace, e);
    WriteKeepsTpm(s, f, e, end);
    WriteKeepsDurability(s, f, e, end);
  }

  lemma WriteKeepsTpm(s: State, f: Flag, e: Event, end: WriteEnd)
    requires s.flag.Valid() && TpmOk(s) && Turns(s.Flag(), f, e, s.flag.Newest().at)
    requires e.Finalized? ==> !s.locked
    requires e.Recorded? ==> s.verityOff
    ensures TpmOk(s.Write(f, e, end))
  {
    var s' := s.Write(f, e, end);
    forall k | 0 <= k < |s'.flag.log| && Pending(s'.flag.log[k])
      ensures s'.verityOff && (k < |s'.flag.log| - 1 ==> !s'.locked)
    {
      if k < |s.flag.log| {
        assert Pending(s.flag.log[k]);
      }
    }
  }

  lemma WriteKeepsDurability(s: State, f: Flag, e: Event, end: WriteEnd)
    requires s.flag.Valid() && DurabilityOk(s)
    requires Turns(s.Flag(), f, e, s.flag.Newest().at) && EndOf(e) == end
    requires e.Finalized? ==> !s.locked
    ensures DurabilityOk(s.Write(f, e, end))
  {
    StandingGrows(s.trace, e);
  }

  lemma GrantsOkGrows(trace: seq<Event>, grants: set<nat>, e: Event)
    requires GrantsOk(trace, grants)
    requires e.Armed? ==> e.pinAt !in grants && e.pinAt < |trace|
                          && forall i | 0 <= i < |trace| && trace[i].Armed? :: trace[i].pinAt != e.pinAt
    ensures GrantsOk(trace + [e], grants)
  {
  }

  // ---- the steps ----

  lemma FinalizeKeeps(inst: Install, s: State, end: WriteEnd)
    requires Inv(inst, s) && s.pc == Idle && !s.locked && Pending(s.flag.Newest())
    ensures Inv(inst, s.Write(FinalizedFlag(s.Flag()), Finalized(end), end))
  {
    NewestOk(s);
    GrantsOkGrows(s.trace, s.grants, Finalized(end));
    WriteKeeps(inst, s, FinalizedFlag(s.Flag()), Finalized(end), end);
  }

  lemma ArmKeeps(inst: Install, s: State, uid: int, grant: nat, end: WriteEnd)
    requires Inv(inst, s) && s.pc == Idle && (uid >= FIRST_OWNER_UID ==> HoldsGrant(s, uid, grant))
    ensures Inv(inst, ArmStep(s, uid, grant, end))
  {
    NewestOk(s);
    var f := s.Flag();
    var spent := s.(grants := s.grants - {grant});
    assert Inv(inst, spent);
    if uid >= FIRST_OWNER_UID && f.phase == "" {
      var e := Armed(uid, grant, end);
      GrantsOkGrows(spent.trace, spent.grants, e);
      WriteKeeps(inst, spent, f.(armed := true, owner := uid, phase := ""), e, end);
    }
  }

  lemma DisarmKeeps(inst: Install, s: State, lockBit: Answer, end: WriteEnd)
    requires Inv(inst, s) && s.pc == Idle && Truthful(lockBit, s.locked)
    ensures Inv(inst, DisarmStep(s, lockBit, end))
  {
    NewestOk(s);
    var f := s.Flag();
    if f.phase != "" {
      if lockBit == Says(false) { FinalizeKeeps(inst, s, end); }
    } else {
      GrantsOkGrows(s.trace, s.grants, Disarmed(end));
      WriteKeeps(inst, s, f.(armed := false, owner := 0, phase := ""), Disarmed(end), end);
    }
  }

  lemma ResumeKeeps(inst: Install, s: State)
    requires Inv(inst, s) && s.pc == Idle && s.mode == Recovery && Pending(s.flag.Newest())
    ensures Inv(inst, s.Log(ResumeCall(s.flag.Newest().at, s.flag.Settled())).At(Preparing))
  {
    var e := ResumeCall(s.flag.Newest().at, s.flag.Settled());
    HistoryGrows(s.trace, e);
    AdvanceKeeps(inst, s, e, s.tree, s.unsynced, Preparing);
  }

  lemma AskPinKeeps(inst: Install, s: State, reply: Answer)
    requires Inv(inst, s) && s.pc == Idle && s.mode == Recovery && s.Flag().armed && s.Flag().phase == ""
    ensures var asked := s.Log(UnlockCall).Log(UnlockPin(s.Flag().owner, reply));
            Inv(inst, asked.At(if reply == Says(true) then PinAccepted(s.Flag(), |s.trace| + 1) else Idle))
  {
    CallKeeps(inst, s);
    PinReplyKeeps(inst, s.Log(UnlockCall), reply);
  }

  lemma CallKeeps(inst: Install, s: State)
    requires Inv(inst, s) && s.pc == Idle
    ensures Inv(inst, s.Log(UnlockCall))
  {
    assert s.Log(UnlockCall).At(Idle) == s.Log(UnlockCall);
    StopKeeps(inst, s, UnlockCall);
  }

  lemma PinReplyKeeps(inst: Install, s: State, reply: Answer)
    requires Inv(inst, s) && s.pc == Idle && s.mode == Recovery && s.Flag().armed && s.Flag().phase == ""
    ensures Inv(inst, s.Log(UnlockPin(s.Flag().owner, reply)).At(if reply == Says(true) then PinAccepted(s.Flag(), |s.trace|) else Idle))
  {
    NewestOk(s);
    var e := UnlockPin(s.Flag().owner, reply);
    AdvanceKeeps(inst, s, e, s.tree, s.unsynced, if reply == Says(true) then PinAccepted(s.Flag(), |s.trace|) else Idle);
  }

  lemma UnlockKeeps(inst: Install, s: State, confirm: string, pin: string, verity: Answer, reply: Answer)
    requires Inv(inst, s) && s.pc == Idle && s.mode == Recovery && Truthful(verity, s.verityOff)
    ensures Inv(inst, UnlockStep(s, confirm, pin, verity, reply))
  {
    var f := s.Flag();
    if confirm != CONFIRM_WORD || !f.armed || f.owner < FIRST_OWNER_UID {
    } else if f.phase == VERITY_OFF {
      ResumeKeeps(inst, s);
    } else if f.phase == "" {
      AskPinKeeps(inst, s, reply);
    }
  }

  lemma AbortKeeps(inst: Install, s: State)
    requires Inv(inst, s)
    ensures Inv(inst, s.At(Idle))
  {
  }

  /** Verity only ever goes off. */
  lemma VerityBitKeeps(inst: Install, s: State, off: bool)
    requires Inv(inst, s) && (s.verityOff ==> off)
    ensures Inv(inst, s.(verityOff := off))
  {
  }

  lemma VerityRequestMoves(inst: Install, s: State)
    requires s.flag.Valid() && PcOk(inst, s) && s.pc.Validated?
    ensures PcOk(inst, s.Log(VerityRequested).At(VerityDisabled(s.pc.f, s.pc.pinAt)))
  {
    PinHeldGrows(s.flag, s.trace, VerityRequested, s.pc.f, s.pc.pinAt);
  }

  lemma VerityRequestKeeps(inst: Install, s: State)
    requires Inv(inst, s) && s.pc.Validated?
    ensures Inv(inst, s.Log(VerityRequested).At(VerityDisabled(s.pc.f, s.pc.pinAt)))
  {
    VerityRequestMoves(inst, s);
    AdvanceKeeps(inst, s, VerityRequested, s.tree, s.unsynced, VerityDisabled(s.pc.f, s.pc.pinAt));
  }

  lemma DisableVerityKeeps(inst: Install, s: State, ok: bool, tookEffect: bool)
    requires Inv(inst, s) && s.pc.Validated?
    ensures Inv(inst, DisableVerityStep(s, ok, tookEffect))
  {
    var s1 := s.Log(VerityRequested).At(VerityDisabled(s.pc.f, s.pc.pinAt));
    var off := s.verityOff || ok || tookEffect;
    VerityRequestKeeps(inst, s);
    VerityBitKeeps(inst, s1, off);
    if !ok { AbortKeeps(inst, s1.(verityOff := off)); }
  }

  lemma ConfirmVerityKeeps(inst: Install, s: State, verity: Answer)
    requires Inv(inst, s) && s.pc.VerityDisabled? && Truthful(verity, s.verityOff)
    ensures Inv(inst, ConfirmVerityStep(s, verity))
  {
    if verity == Says(true) {
      PinHeldGrows(s.flag, s.trace, VerityConfirmed, s.pc.f, s.pc.pinAt);
      AdvanceKeeps(inst, s, VerityConfirmed, s.tree, s.unsynced,
        if ConsentUnchanged(s.Flag(), s.pc.f) then Recording(s.Flag(), s.pc.pinAt, |s.trace|) else Idle);
    } else {
      AbortKeeps(inst, s);
    }
  }

  /** The record rests on the arm that wrote the current flag, and nothing durable came between. */
  lemma RecordRests(inst: Install, s: State, end: WriteEnd)
    requires Inv(inst, s) && s.pc.Recording?
    ensures EventOk(s.trace + [Recorded(s.pc.f.owner, s.flag.Newest().at, s.pc.pinAt, s.pc.verityAt, end)], |s.trace|)
  {
    NewestOk(s);
    LogIsOrdered(s.flag.log, s.trace, s.flag.synced - 1, |s.flag.log| - 1);
  }

  lemma RecordKeeps(inst: Install, s: State, end: WriteEnd)
    requires Inv(inst, s) && s.pc.Recording?
    ensures Inv(inst, RecordStep(s, end))
  {
    NewestOk(s);
    var f := s.pc.f.(phase := VERITY_OFF);
    var e := Recorded(f.owner, s.flag.Newest().at, s.pc.pinAt, s.pc.verityAt, end);
    var idle := s.At(Idle);
    AbortKeeps(inst, s);
    RecordRests(inst, s, end);
    GrantsOkGrows(s.trace, s.grants, e);
    WriteKeeps(inst, idle, f, e, end);
    RecordedMoves(inst, idle.Write(f, e, end), end);
  }

  /** A durable record lets the call go on to the wipe. */
  lemma RecordedMoves(inst: Install, s: State, end: WriteEnd)
    requires Inv(inst, s) && s.pc == Idle && s.mode == Recovery
    requires end == Durable ==> Pending(s.flag.Newest()) && s.flag.Settled()
    ensures Inv(inst, s.At(if end == Durable then Preparing else Idle))
  {
  }

  /** The operations of a wipe leave what they should of its basis. */
  lemma OpFollows(inst: Install, pc: Pc, b: Basis, t: Tree, op: WipeOp)
    requires WellFormed(t) && Recognised(inst, t) && Allowed(t, op) && Follows(pc, b, t)
    requires if pc.Sweeping? then op.Remove? && op.pass == pc.pass else op.Make? || op.Erase?
    ensures Follows(pc, b, Apply(t, op))
  {
    OpKeepsVolume(inst, t, op);
    if b.Found? {
      if !op.Remove? {
        forall p | p in Apply(t, op) ensures p in t || LIB_DIR <= p { assert CUSTODY_DIR <= p ==> LIB_DIR <= p; }
        CustodyKeepsScrubbed(t, Apply(t, op));
      }
    } else {
      OpKeepsFinished(t, op);
    }
  }

  /** A wipe step rests on the phase record in the flag. */
  lemma WipeRests(s: State, e: Event)
    requires s.flag.Valid() && LogOk(s.flag.log, s.trace) && Pending(s.flag.Newest()) && IsWipe(e)
    requires e.uid == s.Flag().owner && e.recordedAt == s.flag.Newest().at
    ensures EventOk(s.trace + [e], |s.trace|)
  {
    NewestOk(s);
  }

  lemma RemoveMoves(inst: Install, s: State, p: Path, e: Event)
    requires s.flag.Valid() && PcOk(inst, s) && WellFormed(s.tree) && s.pc.Sweeping? && e.Removed?
    requires Allowed(s.tree, Remove(s.pc.pass, p))
    ensures WellFormed(Unlink(s.tree, p)) && Recognised(inst, Unlink(s.tree, p))
    ensures PcOk(inst, s.Log(e).(tree := Unlink(s.tree, p), unsynced := s.unsynced[p := s.tree[p]]))
  {
    OpKeepsVolume(inst, s.tree, Remove(s.pc.pass, p));
    OpFollows(inst, s.pc, BasisOf(s.trace), s.tree, Remove(s.pc.pass, p));
    BasisGrows(s.trace, e);
    CallOkGrows(s.pc, s.flag, s.trace, e);
    RemoveSyncs(s.pc, s.unsynced, p, s.tree[p]);
  }

  /** A removal leaves the completed passes synced: they doom nothing a later pass removes. */
  lemma RemoveSyncs(pc: Pc, unsynced: Tree, p: Path, n: Node)
    requires SyncOk(pc, unsynced) && pc.Sweeping? && pc.pass.Dooms(p)
    ensures SyncOk(pc, unsynced[p := n])
  {
    PassesAreApart(pc.pass, p);
  }

  lemma PassesAreApart(pass: Pass, p: Path)
    requires pass.Dooms(p)
    ensures pass != BootPass ==> !BootPass.Dooms(p)
    ensures pass != BootPass && pass != RootfsPass ==> !RootfsPass.Dooms(p)
  {
    NamesDiffer();
    StrayIsBelowBoot(p);
  }

  lemma RemovedIsExpendable(inst: Install, s: State, p: Path)
    requires Recognised(inst, s.tree) && Expendable(s.unsynced) && s.pc.Sweeping? && s.pc.pass.Dooms(p) && p in s.tree
    ensures Expendable(s.unsynced[p := s.tree[p]])
  {
    DoomedIsNotKept(s.pc.pass, p);
  }

  lemma RemoveKeeps(inst: Install, s: State, p: Path)
    requires Inv(inst, s) && s.pc.Sweeping? && Allowed(s.tree, Remove(s.pc.pass, p))
    ensures Inv(inst, RemoveStep(s, p))
  {
    var e := Removed(s.Flag().owner, s.flag.Newest().at, p);
    WipeRests(s, e);
    RemoveMoves(inst, s, p, e);
    RemovedIsExpendable(inst, s, p);
    AdvanceKeeps(inst, s, e, Unlink(s.tree, p), s.unsynced[p := s.tree[p]], s.pc);
  }

  lemma ValidateKeeps(inst: Install, s: State)
    requires Inv(inst, s) && s.pc.PinAccepted?
    ensures Inv(inst, ValidateStep(inst, s))
  {
    AbortKeeps(inst, s);
    MoveKeeps(inst, s, Validated(s.pc.f, s.pc.pinAt));
  }

  lemma StartPrepareKeeps(inst: Install, s: State)
    requires Inv(inst, s) && s.pc.Preparing?
    ensures Inv(inst, StartPrepareStep(inst, s))
  {
    if Recognised(inst, s.tree) {
      BasisGrows(s.trace, PrepareStarted(s.tree));
      AdvanceKeeps(inst, s, PrepareStarted(s.tree), s.tree, s.unsynced, Sweeping(BootPass, NO_MARKS));
    } else {
      AbortKeeps(inst, s);
    }
  }

  lemma StartFinishKeeps(inst: Install, s: State)
    requires Inv(inst, s) && s.pc.Finishing?
    ensures Inv(inst, s.At(if Recognised(inst, s.tree) then Sweeping(FinalPass, s.pc.marks) else Idle))
  {
    MoveKeeps(inst, s, Sweeping(FinalPass, s.pc.marks));
  }

  /** The host writes to the volume, between calls or during one. */
  lemma HostKeeps(inst: Install, s: State, after: Tree)
    requires Inv(inst, s) && HostMayWrite(s.pc) && WellFormed(after)
    requires Recognised(inst, s.tree) ==> Recognised(inst, after)
    ensures Inv(inst, s.Log(HostWrote(after)).(tree := after))
  {
    var e := HostWrote(after);
    CallOkGrows(s.pc, s.flag, s.trace, e);
    BasisGrows(s.trace, e);
    AdvanceKeeps(inst, s, e, after, s.unsynced, s.pc);
  }

  lemma CleanUpKeeps(inst: Install, s: State, end: WriteEnd)
    requires Inv(inst, s) && s.pc.Finalizing?
    ensures Inv(inst, s.Write(FinalizedFlag(s.Flag()), Finalized(end), end).At(Idle))
  {
    AbortKeeps(inst, s);
    FinalizeKeeps(inst, s.At(Idle), end);
  }

  /** The directory sync at the end of a pass. */
  lemma PassSyncs(pc: Pc, unsynced: Tree, now: nat)
    requires SyncOk(pc, unsynced) && pc.Sweeping? && Expendable(unsynced)
    ensures SyncOk(NextPc(pc.pass, pc.marks, now), Swept(unsynced, pc.pass)) && Expendable(Swept(unsynced, pc.pass))
  {
    var u := Swept(unsynced, pc.pass);
    if pc.pass == FinalPass {
      forall p | p in u ensures false { KeptMeansSpared(p); }
    }
  }

  /** The last pass of prepare or of finish is done. */
  lemma LastPassKeeps(inst: Install, s: State, e: Event)
    requires Inv(inst, s) && s.pc.Sweeping? && Clean(s.tree, s.pc.pass)
    requires (s.pc.pass == LibPass && e == PrepareDone) || (s.pc.pass == FinalPass && e == FinishDone)
    ensures Inv(inst, PassDoneStep(s))
  {
    LastPassMayAdvance(inst, s, e);
    AdvanceKeeps(inst, s, e, s.tree, Swept(s.unsynced, s.pc.pass), NextPc(s.pc.pass, s.pc.marks, |s.trace|));
  }

  lemma LastPassMayAdvance(inst: Install, s: State, e: Event)
    requires s.flag.Valid() && PresentOk(inst, s) && s.pc.Sweeping? && Clean(s.tree, s.pc.pass)
    requires (s.pc.pass == LibPass && e == PrepareDone) || (s.pc.pass == FinalPass && e == FinishDone)
    ensures MayAdvance(inst, s, e, s.tree, Swept(s.unsynced, s.pc.pass), NextPc(s.pc.pass, s.pc.marks, |s.trace|))
  {
    LastPassMoves(inst, s, e);
    PassSyncs(s.pc, s.unsynced, |s.trace|);
  }

  lemma LastPassMoves(inst: Install, s: State, e: Event)
    requires s.flag.Valid() && PcOk(inst, s) && s.pc.Sweeping? && Clean(s.tree, s.pc.pass) && Expendable(s.unsynced)
    requires (s.pc.pass == LibPass && e == PrepareDone) || (s.pc.pass == FinalPass && e == FinishDone)
    ensures PcOk(inst, s.Log(e).(unsynced := Swept(s.unsynced, s.pc.pass)).At(NextPc(s.pc.pass, s.pc.marks, |s.trace|)))
  {
    LastPassCall(s.pc, s.flag, s.trace, e);
    BasisGrows(s.trace, e);
    PassSyncs(s.pc, s.unsynced, |s.trace|);
  }

  lemma LastPassCall(pc: Pc, reg: Register<Entry>, trace: seq<Event>, e: Event)
    requires reg.Valid() && CallOk(pc, reg, trace) && pc.Sweeping?
    requires (pc.pass == LibPass && e == PrepareDone) || (pc.pass == FinalPass && e == FinishDone)
    ensures CallOk(NextPc(pc.pass, pc.marks, |trace|), reg, trace + [e])
  {
    CallOkGrows(pc, reg, trace, e);
  }

  /** A pass with another one, or the custody directories, to follow. */
  lemma MiddlePassKeeps(inst: Install, s: State)
    requires Inv(inst, s) && s.pc.Sweeping? && Clean(s.tree, s.pc.pass) && s.pc.pass in {BootPass, RootfsPass, TopPass}
    ensures Inv(inst, PassDoneStep(s))
  {
    PassSyncs(s.pc, s.unsynced, |s.trace|);
    MoveOn(inst, s, Swept(s.unsynced, s.pc.pass), NextPc(s.pc.pass, s.pc.marks, |s.trace|));
  }

  /** The past does not depend on the volume or the running call. */
  lemma PastReads(s: State, s': State)
    requires PastOk(s) && s' == s.(tree := s'.tree, unsynced := s'.unsynced, pc := s'.pc, mode := s'.mode)
    ensures PastOk(s')
  {
  }

  lemma MoveOn(inst: Install, s: State, u: Tree, pc: Pc)
    requires Inv(inst, s) && PastRecord(s.pc) && Expendable(u) && PcOk(inst, s.(unsynced := u).At(pc))
    ensures Inv(inst, s.(unsynced := u).At(pc))
  {
    PastReads(s, s.(unsynced := u).At(pc));
    PresentMoves(inst, s, u, pc);
  }

  lemma PresentMoves(inst: Install, s: State, u: Tree, pc: Pc)
    requires s.flag.Valid() && PresentOk(inst, s) && PastRecord(s.pc) && Expendable(u) && PcOk(inst, s.(unsynced := u).At(pc))
    ensures PresentOk(inst, s.(unsynced := u).At(pc))
  {
  }

  lemma PassDoneKeeps(inst: Install, s: State)
    requires Inv(inst, s) && s.pc.Sweeping? && Clean(s.tree, s.pc.pass)
    ensures Inv(inst, PassDoneStep(s))
  {
    match s.pc.pass {
      case LibPass => LastPassKeeps(inst, s, PrepareDone);
      case FinalPass => LastPassKeeps(inst, s, FinishDone);
      case _ => MiddlePassKeeps(inst, s);
    }
  }

  /** Making and erasing custody leaves the scrubbed boot directories scrubbed. */
  lemma CustodyKeepsScrubbed(t: Tree, t': Tree)
    requires Scrubbed(t)
    requires forall p | p in t' :: p in t || LIB_DIR <= p
    ensures Scrubbed(t')
  {
    NamesDiffer();
    forall p | p in t' ensures !Stray(p) {
      assert LIB_DIR <= p ==> p[0] == LIB;
    }
  }

  lemma MakeDirsKeeps(inst: Install, s: State, done: nat, ok: bool)
    requires Inv(inst, s) && s.pc.MakingCustody?
    ensures Inv(inst, MakeDirsStep(s, done, ok))
  {
    var t := MakeCustody(s.tree, done);
    OpKeepsVolume(inst, s.tree, Make(done));
    OpFollows(inst, s.pc, BasisOf(s.trace), s.tree, Make(done));
    TreeKeeps(inst, s, t);
    MoveKeeps(inst, s.(tree := t), if ok then Sweeping(LibPass, NO_MARKS) else Idle);
  }

  lemma EraseMoves(inst: Install, s: State, ok: bool, after: Tree, e: Event)
    requires s.flag.Valid() && PcOk(inst, s) && WellFormed(s.tree) && s.pc.Erasing? && CustodyChange(s.tree, after)
    requires e.CustodyErased? && e.ok == ok
    ensures Recognised(inst, after)
    ensures PcOk(inst, s.Log(e).(tree := after).At(if ok then Finishing(s.pc.marks.(eraseAt := |s.trace|)) else Idle))
  {
    OpKeepsVolume(inst, s.tree, Erase(after));
    OpFollows(inst, s.pc, BasisOf(s.trace), s.tree, Erase(after));
    BasisGrows(s.trace, e);
    CallOkGrows(s.pc, s.flag, s.trace, e);
  }

  lemma EraseKeeps(inst: Install, s: State, ok: bool, after: Tree)
    requires Inv(inst, s) && s.pc.Erasing? && CustodyChange(s.tree, after)
    ensures Inv(inst, EraseStep(s, ok, after))
  {
    var e := CustodyErased(s.Flag().owner, s.flag.Newest().at, ok);
    WipeRests(s, e);
    EraseMoves(inst, s, ok, after, e);
    AdvanceKeeps(inst, s, e, after, s.unsynced, if ok then Finishing(s.pc.marks.(eraseAt := |s.trace|)) else Idle);
  }

  /** Clearing the lock bit endangers nothing. */
  lemma UnlockBitKeeps(inst: Install, s: State, locked: bool)
    requires Inv(inst, s) && (locked ==> s.locked)
    ensures Inv(inst, s.(locked := locked))
  {
  }

  /** A call may end after any event. */
  lemma StopKeeps(inst: Install, s: State, e: Event)
    requires Inv(inst, s) && EventOk(s.trace + [e], |s.trace|) && !IsFlagWrite(e) && !e.PowerLost? && !IsWipe(e)
    ensures Inv(inst, s.Log(e).At(Idle))
  {
    AdvanceKeeps(inst, s, e, s.tree, s.unsynced, Idle);
  }

  lemma FlipRests(s: State)
    requires s.flag.Valid() && LogOk(s.flag.log, s.trace) && CallOk(s.pc, s.flag, s.trace) && s.pc.Flipping?
    ensures var m := s.pc.marks;
            EventOk(s.trace + [FlipRequested(s.flag.Newest().at, m.prepareAt, m.eraseAt, m.finishAt)], |s.trace|)
  {
    NewestOk(s);
  }

  lemma FlipRequestKeeps(inst: Install, s: State, e: Event)
    requires Inv(inst, s) && s.pc.Flipping?
    requires e == FlipRequested(s.flag.Newest().at, s.pc.marks.prepareAt, s.pc.marks.eraseAt, s.pc.marks.finishAt)
    ensures Inv(inst, s.Log(e).At(Idle))
  {
    FlipRests(s);
    StopKeeps(inst, s, e);
  }

  lemma FlipKeeps(inst: Install, s: State, ok: bool, tookEffect: bool)
    requires Inv(inst, s) && s.pc.Flipping?
    ensures Inv(inst, FlipStep(s, ok, tookEffect))
  {
    var m := s.pc.marks;
    var e := FlipRequested(s.flag.Newest().at, m.prepareAt, m.eraseAt, m.finishAt);
    var locked := s.locked && !ok && !tookEffect;
    FlipRequestKeeps(inst, s, e);
    HistoryGrows(s.trace, e);
    UnlockBitKeeps(inst, s.Log(e).At(Idle), locked);
    if ok { FlippedMoves(inst, s.Log(e).At(Idle).(locked := locked)); }
  }

  lemma FlippedMoves(inst: Install, s: State)
    requires Inv(inst, s) && s.pc == Idle && s.mode == Recovery && !s.locked && Pending(s.flag.Newest())
    requires s.unsynced == map[] && (Careful(s.trace) ==> s.flag.Settled())
    ensures Inv(inst, s.At(Finalizing))
  {
  }

  lemma CutLogOk(log: seq<Entry>, trace: seq<Event>, keep: nat)
    requires LogOk(log, trace) && keep <= |log|
    ensures LogOk(log[..keep], trace)
  {
    forall k | 0 <= k < keep ensures EntryOk(log[..keep], trace, k) { assert EntryOk(log, trace, k); }
  }

  /** Entries are in the order in which they were written. */
  lemma {:induction false} LogIsOrdered(log: seq<Entry>, trace: seq<Event>, i: nat, j: nat)
    requires LogOk(log, trace) && i <= j < |log|
    ensures log[i].at <= log[j].at < |trace|
    decreases j
  {
    assert EntryOk(log, trace, j);
    if i < j { LogIsOrdered(log, trace, i, j - 1); }
  }

  /** On a locked device a power loss drops a record exactly when the newest value is one and is lost. */
  lemma DropsNewest(s: State, keep: nat)
    requires s.flag.Valid() && s.flag.synced <= keep <= |s.flag.log| && TpmOk(s) && s.locked
    ensures Starts(s.flag.log[keep..]) > 0 <==> keep < |s.flag.log| && Pending(s.flag.Newest())
  {
    var lost := s.flag.log[keep..];
    StartsIsPositiveIff(lost);
    if keep < |s.flag.log| { assert lost[|lost| - 1] == s.flag.Newest(); }
    assert forall k | 0 <= k < |lost| :: lost[k] == s.flag.log[keep + k];
  }

  lemma PowerLossKeepsDurability(s: State, keep: nat, mode: Mode, back: set<Path>)
    requires s.flag.Valid() && s.flag.synced <= keep <= |s.flag.log|
    requires LogOk(s.flag.log, s.trace) && TpmOk(s) && DurabilityOk(s)
    ensures DurabilityOk(PowerLossStep(s, keep, mode, back))
  {
    var s' := PowerLossStep(s, keep, mode, back);
    LogIsOrdered(s.flag.log, s.trace, s.flag.synced - 1, keep - 1);
    StandingGrows(s.trace, s'.trace[|s.trace|]);
    if s.locked { DropsNewest(s, keep); }
  }

  /** Deletions that come back leave a recognised volume recognised. */
  lemma LossKeepsVolume(inst: Install, s: State, keep: nat, back: set<Path>)
    requires WellFormed(s.tree) && Expendable(s.unsynced) && CanLose(s, keep, back)
    ensures var t := s.tree + Revived(s.tree, s.unsynced, back);
            WellFormed(t) && (Recognised(inst, s.tree) ==> Recognised(inst, t) && Survivors(t) == Survivors(s.tree))
  {
    if Recognised(inst, s.tree) { ReviveKeepsVolume(inst, s.tree, Revived(s.tree, s.unsynced, back)); }
  }

  lemma PowerLossKeeps(inst: Install, s: State, keep: nat, mode: Mode, back: set<Path>)
    requires Inv(inst, s) && CanLose(s, keep, back)
    ensures Inv(inst, PowerLossStep(s, keep, mode, back))
  {
    var s' := PowerLossStep(s, keep, mode, back);
    var e := s'.trace[|s.trace|];
    LogOkGrows(s.flag.log, s.trace, e);
    CutLogOk(s.flag.log, s'.trace, keep);
    TraceOkGrows(s.trace, e);
    GrantsOkGrows(s.trace, {}, e);
    HistoryGrows(s.trace, e);
    PowerLossKeepsDurability(s, keep, mode, back);
    LossKeepsVolume(inst, s, keep, back);
    assert TpmOk(s');
    if s.flag.Settled() { assert s'.flag.log == s.flag.log; }
  }

  lemma CheckArmPinKeeps(inst: Install, s: State, uid: int)
    requires Inv(inst, s)
    ensures Inv(inst, s.Log(ArmPin(uid)).(grants := s.grants + {|s.trace|}))
  {
    LogKeeps(inst, s, ArmPin(uid));
  }

  /** Calls that make one durable change. */
  lemma CallStepKeeps(inst: Install, s: State, a: Action)
    requires Inv(inst, s) && Next(inst, s, a).Some?
    requires a.LockState? || a.CheckArmPin? || a.Arm? || a.Disarm?
    ensures Inv(inst, Next(inst, s, a).value)
  {
    match a {
      case LockState(lockBit, end) =>
        if lockBit == Says(false) && s.Flag().phase == VERITY_OFF { FinalizeKeeps(inst, s, end); }
      case CheckArmPin(uid, pin, reply) => CheckArmPinKeeps(inst, s, uid);
      case Arm(uid, grant, end) => ArmKeeps(inst, s, uid, grant, end);
      case Disarm(lockBit, end) => DisarmKeeps(inst, s, lockBit, end);
    }
  }

  /** Errors, power losses and the host. */
  lemma WorldStepKeeps(inst: Install, s: State, a: Action)
    requires Inv(inst, s) && Next(inst, s, a).Some?
    requires a.Fail? || a.LosePower? || a.HostWrites?
    ensures Inv(inst, Next(inst, s, a).value)
  {
    if a.Fail? {
      AbortKeeps(inst, s);
    } else if a.LosePower? {
      LossStepKeeps(inst, s, a.keep, a.mode, a.back);
    } else {
      HostStepKeeps(inst, s, a.after);
    }
  }

  lemma LossStepKeeps(inst: Install, s: State, keep: nat, mode: Mode, back: set<Path>)
    requires Inv(inst, s) && Next(inst, s, LosePower(keep, mode, back)).Some?
    ensures Inv(inst, Next(inst, s, LosePower(keep, mode, back)).value)
  {
    PowerLossKeeps(inst, s, keep, mode, back);
  }

  lemma HostStepKeeps(inst: Install, s: State, after: Tree)
    requires Inv(inst, s) && Next(inst, s, HostWrites(after)).Some?
    ensures Inv(inst, Next(inst, s, HostWrites(after)).value)
  {
    HostKeeps(inst, s, after);
  }

  /** UnlockBootloader up to the phase record. */
  lemma StartStepKeeps(inst: Install, s: State, a: Action)
    requires Inv(inst, s) && Next(inst, s, a).Some?
    requires a.Unlock? || a.Validate? || a.DisableVerity? || a.ConfirmVerity? || a.Record?
    ensures Inv(inst, Next(inst, s, a).value)
  {
    match a {
      case Unlock(confirm, pin, verity, reply) => UnlockKeeps(inst, s, confirm, pin, verity, reply);
      case Validate => ValidateKeeps(inst, s);
      case DisableVerity(ok, tookEffect) => DisableVerityKeeps(inst, s, ok, tookEffect);
      case ConfirmVerity(verity) => ConfirmVerityKeeps(inst, s, verity);
      case Record(end) => RecordKeeps(inst, s, end);
    }
  }

  /** Prepare, and the passes of finish. */
  lemma SweepStepKeeps(inst: Install, s: State, a: Action)
    requires Inv(inst, s) && Next(inst, s, a).Some?
    requires a.StartPrepare? || a.RemoveOne? || a.PassDone? || a.MakeDirs?
    ensures Inv(inst, Next(inst, s, a).value)
  {
    match a {
      case StartPrepare => StartPrepareKeeps(inst, s);
      case RemoveOne(p) => RemoveKeeps(inst, s, p);
      case PassDone => PassDoneKeeps(inst, s);
      case MakeDirs(done, ok) => MakeDirsKeeps(inst, s, done, ok);
    }
  }

  /** The custody erase, the flip and the clean-up. */
  lemma EndStepKeeps(inst: Install, s: State, a: Action)
    requires Inv(inst, s) && Next(inst, s, a).Some?
    requires a.EraseCustody? || a.StartFinish? || a.Flip? || a.Finalize?
    ensures Inv(inst, Next(inst, s, a).value)
  {
    match a {
      case EraseCustody(ok, after) => EraseKeeps(inst, s, ok, after);
      case StartFinish => StartFinishKeeps(inst, s);
      case Flip(ok, tookEffect) => FlipKeeps(inst, s, ok, tookEffect);
      case Finalize(end) => CleanUpKeeps(inst, s, end);
    }
  }

  /** Every step keeps the invariant. */
  lemma StepKeeps(inst: Install, s: State, a: Action)
    requires Inv(inst, s) && Next(inst, s, a).Some?
    ensures Inv(inst, Next(inst, s, a).value)
  {
    if a.Unlock? || a.Validate? || a.DisableVerity? || a.ConfirmVerity? || a.Record? {
      StartStepKeeps(inst, s, a);
    } else if a.LockState? || a.CheckArmPin? || a.Arm? || a.Disarm? {
      CallStepKeeps(inst, s, a);
    } else if a.Fail? || a.LosePower? || a.HostWrites? {
      WorldStepKeeps(inst, s, a);
    } else if a.EraseCustody? || a.StartFinish? || a.Flip? || a.Finalize? {
      EndStepKeeps(inst, s, a);
    } else {
      SweepStepKeeps(inst, s, a);
    }
  }

  lemma FreshIsInv(inst: Install, s: State)
    requires Fresh(s)
    ensures Inv(inst, s)
  {
    assert EntryOk(s.flag.log, s.trace, 0);
    assert EventOk(s.trace, 0);
  }

  /** The invariant holds at the end of every run that starts where it holds. */
  lemma {:induction false} RunKeeps(inst: Install, s: State, actions: seq<Action>)
    requires Inv(inst, s) && Run(inst, s, actions).Some?
    ensures Inv(inst, Run(inst, s, actions).value)
    decreases |actions|
  {
    if actions == [] {
    } else {
      StepKeeps(inst, s, actions[0]);
      RunKeeps(inst, Next(inst, s, actions[0]).value, actions[1..]);
    }
  }

  /** `s` is reachable from a fresh device. */
  ghost predicate Reachable(inst: Install, s: State) {
    exists s0: State, actions: seq<Action> :: Fresh(s0) && Run(inst, s0, actions) == Some(s)
  }

  lemma ReachableKeeps(inst: Install, s: State)
    requires Reachable(inst, s)
    ensures Inv(inst, s)
  {
    var s0: State, actions: seq<Action> :| Fresh(s0) && Run(inst, s0, actions) == Some(s);
    FreshIsInv(inst, s0);
    RunKeeps(inst, s0, actions);
  }
}
