/**
 What every step of the unlock transaction keeps, in every run from a fresh device.
 */
module UnlockInvariant {
  import opened FlagRegister
  import opened DataVolume
  import opened UnlockMachine

  // ---- the values the flag file has held ----

  predicate Sane(f: Flag) {
    && f.phase in {"", VERITY_OFF}
    && (f.phase == VERITY_OFF ==> f.armed)
    && (if f.armed then f.owner >= FIRST_OWNER_UID else f.owner == 0)
  }

  /** Event `e` may turn flag `prev` into flag `f`. */
  predicate Turns(prev: Flag, f: Flag, e: Event, prevAt: nat) {
    match e
    case Armed(u, _, _) => prev.phase == "" && u >= FIRST_OWNER_UID && f == prev.(armed := true, owner := u)
    case Recorded(u, b, _, _, _) =>
      prev.phase == "" && prev.armed && prev.owner == u && b == prevAt && f == prev.(phase := VERITY_OFF)
    case Finalized(_) => prev.phase == VERITY_OFF && f == Flag(false, prev.count + 1, 0, "")
    case Disarmed(_) => prev.phase == "" && f == prev.(armed := false, owner := 0)
    case _ => false
  }

  predicate EntryOk(log: seq<Entry>, trace: seq<Event>, k: nat)
    requires k < |log|
  {
    && log[k].at < |trace|
    && Sane(Load(log[k].stored))
    && (k == 0 ==> !Load(log[k].stored).armed)
    && (k > 0 ==> log[k - 1].at < log[k].at && EndOf(trace[log[k].at]) != Unchanged
                  && Turns(Load(log[k - 1].stored), Load(log[k].stored), trace[log[k].at], log[k - 1].at))
  }

  predicate LogOk(log: seq<Entry>, trace: seq<Event>) {
    forall k | 0 <= k < |log| :: EntryOk(log, trace, k)
  }

  // ---- the trace ----

  predicate IsCall(e: Event) {
    e.UnlockCall? || e.ResumeCall?
  }

  predicate NoCallBetween(trace: seq<Event>, from: nat, to: nat)
    requires to <= |trace|
  {
    forall j {:trigger IsCall(trace[j])} | from <= j < to :: !IsCall(trace[j])
  }

  predicate IsFlagWrite(e: Event) {
    e.Armed? || e.Disarmed? || e.Finalized? || e.Recorded?
  }

  /** Nobody asked for a flag write from `from` on. */
  predicate NoWriteBetween(trace: seq<Event>, from: nat, to: nat)
    requires to <= |trace|
  {
    forall j {:trigger IsFlagWrite(trace[j])} | from <= j < to :: !IsFlagWrite(trace[j])
  }

  /** No flag write after `from` reached the medium. */
  predicate NoneDurableBetween(trace: seq<Event>, from: nat, to: nat)
    requires to <= |trace|
  {
    forall j {:trigger EndOf(trace[j])} | from < j < to :: EndOf(trace[j]) != Durable
  }

  predicate RecordedAt(trace: seq<Event>, d: nat, uid: int) {
    d < |trace| && trace[d].Recorded? && trace[d].uid == uid && trace[d].end != Unchanged
  }

  /** The prepare, erase and finish marked in `m` were completed in this order, within one call, before `to`. */
  predicate WipedBy(trace: seq<Event>, m: Marks, to: nat)
    requires to <= |trace|
  {
    && m.prepareAt < m.eraseAt < m.finishAt < to
    && trace[m.prepareAt] == PrepareDone
    && trace[m.eraseAt].CustodyErased? && trace[m.eraseAt].ok
    && trace[m.finishAt] == FinishDone
    && NoCallBetween(trace, m.prepareAt, to)
  }

  /** What event `i` rests on. */
  predicate EventOk(trace: seq<Event>, i: nat)
    requires i < |trace|
  {
    match trace[i]
    case Armed(u, a, _) => a < i && trace[a] == ArmPin(u)
    case Recorded(u, b, c, v, _) =>
      && b < c < v < i
      && trace[b].Armed? && trace[b].uid == u && trace[b].end != Unchanged
      && trace[c] == UnlockPin(u, Says(true))
      && trace[v] == VerityConfirmed
      && NoCallBetween(trace, c, i) && NoWriteBetween(trace, c, i)
      && NoneDurableBetween(trace, b, i)
    case Removed(u, d, _) => d < i && RecordedAt(trace, d, u)
    case CustodyErased(u, d, _) => d < i && RecordedAt(trace, d, u)
    case FlipRequested(d, p, e, f) =>
      d < i && trace[d].Recorded? && trace[d].end != Unchanged && WipedBy(trace, Marks(p, e, f), i)
    case _ => true
  }

  predicate TraceOk(trace: seq<Event>) {
    forall i | 0 <= i < |trace| :: EventOk(trace, i)
  }

  predicate IsArm(trace: seq<Event>, i: nat)
    requires i < |trace|
  {
    trace[i].Armed?
  }

  /** Each PIN check of an arm request pays for at most one arm. */
  predicate GrantsOk(trace: seq<Event>, grants: set<nat>) {
    && (forall g | g in grants :: g < |trace|)
    && (forall i | 0 <= i < |trace| && IsArm(trace, i) :: trace[i].pinAt !in grants && trace[i].pinAt < |trace|)
    && (forall i, j | 0 <= i < j < |trace| && IsArm(trace, i) && IsArm(trace, j) :: trace[i].pinAt != trace[j].pinAt)
  }

  predicate IsWipe(e: Event) {
    e.Removed? || e.CustodyErased?
  }

  predicate Wiped(trace: seq<Event>) {
    exists i {:trigger IsWipe(trace[i])} :: 0 <= i < |trace| && IsWipe(trace[i])
  }

  predicate IsHasty(e: Event) {
    e.ResumeCall? && !e.settled
  }

  /** No call resumed a transaction whose phase record might still be lost. */
  predicate Careful(trace: seq<Event>) {
    forall i {:trigger IsHasty(trace[i])} | 0 <= i < |trace| :: !IsHasty(trace[i])
  }

  /** A phase record has taken effect and no power loss has taken it back since. */
  predicate Standing(trace: seq<Event>) {
    if trace == [] then false
    else
      var e := trace[|trace| - 1];
      if e.PowerLost? && e.dropped > 0 then false
      else (e.Recorded? && e.end != Unchanged) || Standing(trace[..|trace| - 1])
  }

  // ---- the running call ----

  predicate PastRecord(pc: Pc) {
    pc.Preparing? || pc.Sweeping? || pc.MakingCustody? || pc.Erasing? || pc.Finishing? || pc.Flipping? || pc.Finalizing?
  }

  predicate PinHeld(reg: Register<Entry>, trace: seq<Event>, f: Flag, c: nat)
    requires reg.Valid()
  {
    && f == Load(reg.Newest().stored) && f.armed && f.phase == ""
    && reg.Newest().at < c < |trace|
    && trace[c] == UnlockPin(f.owner, Says(true))
    && NoCallBetween(trace, c, |trace|) && NoWriteBetween(trace, c, |trace|)
  }

  predicate PrepareMarked(trace: seq<Event>, m: Marks) {
    && m.prepareAt < |trace| && trace[m.prepareAt] == PrepareDone
    && NoCallBetween(trace, m.prepareAt, |trace|)
  }

  predicate EraseMarked(trace: seq<Event>, m: Marks) {
    && PrepareMarked(trace, m)
    && m.prepareAt < m.eraseAt < |trace|
    && trace[m.eraseAt].CustodyErased? && trace[m.eraseAt].ok
  }

  /** What the running call knows about its own past. */
  predicate CallOk(pc: Pc, reg: Register<Entry>, trace: seq<Event>)
    requires reg.Valid()
  {
    && (PastRecord(pc) ==> Pending(reg.Newest()))
    && match pc
       case PinAccepted(f, c) => PinHeld(reg, trace, f, c)
       case Validated(f, c) => PinHeld(reg, trace, f, c)
       case VerityDisabled(f, c) => PinHeld(reg, trace, f, c)
       case Recording(f, c, v) => PinHeld(reg, trace, f, c) && c < v < |trace| && trace[v] == VerityConfirmed
       case Sweeping(pass, m) => pass == FinalPass ==> EraseMarked(trace, m)
       case Erasing(m) => PrepareMarked(trace, m)
       case Finishing(m) => EraseMarked(trace, m)
       case Flipping(m) => WipedBy(trace, m, |trace|)
       case _ => true
  }

  predicate MidWipe(pc: Pc) {
    pc.Sweeping? || pc.MakingCustody? || pc.Erasing? || pc.Finishing? || pc.Flipping?
  }

  /** The last tree that did not come from the wipe itself: the one prepare found, or what the host wrote. */
  datatype Basis = NoBasis | Found(tree: Tree) | Rewritten(tree: Tree)

  function BasisOf(trace: seq<Event>): (b: Basis) {
    if trace == [] then NoBasis
    else
      match trace[|trace| - 1]
      case PrepareStarted(t) => Found(t)
      case HostWrote(t) => Rewritten(t)
      case _ => BasisOf(trace[..|trace| - 1])
  }

  /** What is left of the basis at this point of a wipe. */
  predicate Follows(pc: Pc, b: Basis, t: Tree) {
    match b
    case NoBasis => false
    case Found(t0) =>
      && Survivors(t) == Survivors(t0)
      && ((pc.Sweeping? && pc.pass == BootPass) || Clean(t, BootPass))
      && ((pc.Sweeping? && pc.pass in {BootPass, RootfsPass}) || Clean(t, RootfsPass))
    case Rewritten(t0) =>
      && Finished(t) == Finished(t0)
      && (pc.Sweeping? ==> pc.pass in {LibPass, FinalPass})
  }

  /** What the running call knows about the volume. */
  predicate VolumeOk(inst: Install, pc: Pc, trace: seq<Event>, t: Tree) {
    && (MidWipe(pc) ==> Recognised(inst, t) && Follows(pc, BasisOf(trace), t))
    && (pc.Flipping? ==> Clean(t, FinalPass))
  }

  /** What the running call knows about deletions that are not synced yet: those of its completed passes are, and
      when the flip is due all are. */
  predicate SyncOk(pc: Pc, unsynced: Tree) {
    && (MidWipe(pc) && !(pc.Sweeping? && pc.pass == BootPass) ==> Clean(unsynced, BootPass))
    && (MidWipe(pc) && !(pc.Sweeping? && pc.pass in {BootPass, RootfsPass}) ==> Clean(unsynced, RootfsPass))
    && (pc.Flipping? || pc.Finalizing? ==> unsynced == map[])
  }

  predicate PcOk(inst: Install, s: State)
    requires s.flag.Valid()
  {
    && CallOk(s.pc, s.flag, s.trace)
    && VolumeOk(inst, s.pc, s.trace, s.tree)
    && SyncOk(s.pc, s.unsynced)
    && (s.pc != Idle ==> s.mode == Recovery)
    && (s.pc.Recording? ==> s.verityOff)
    && (s.pc.Finalizing? ==> !s.locked)
  }

  predicate TpmOk(s: State)
    requires s.flag.Valid()
  {
    && (forall k | 0 <= k < |s.flag.log| && Pending(s.flag.log[k]) :: s.verityOff)
    && (forall k | 0 <= k < |s.flag.log| - 1 && Pending(s.flag.log[k]) :: !s.locked)
  }

  /** A wipe under way, or begun and not yet ended by the flip, has its phase record on the medium. */
  predicate ResumeOk(s: State)
    requires s.flag.Valid()
  {
    Careful(s.trace) ==>
      && (PastRecord(s.pc) ==> s.flag.Settled())
      && (Wiped(s.trace) && s.locked ==> Pending(s.flag.Newest()) && s.flag.Settled())
  }

  /** No flag write after the last synced value is durable, and a locked device is pending exactly while its
      record stands. */
  predicate DurabilityOk(s: State)
    requires s.flag.Valid()
  {
    && s.flag.log[s.flag.synced - 1].at < |s.trace|
    && NoneDurableBetween(s.trace, s.flag.log[s.flag.synced - 1].at, |s.trace|)
    && (s.locked ==> (Pending(s.flag.Newest()) <==> Standing(s.trace)))
  }

  /** What holds of the flag, the TPM and everything logged so far. */
  predicate PastOk(s: State) {
    && s.flag.Valid()
    && LogOk(s.flag.log, s.trace)
    && TraceOk(s.trace)
    && GrantsOk(s.trace, s.grants)
    && TpmOk(s)
    && DurabilityOk(s)
  }

  /** What holds of the volume and the running call. */
  predicate PresentOk(inst: Install, s: State)
    requires s.flag.Valid()
  {
    && WellFormed(s.tree) && Expendable(s.unsynced)
    && PcOk(inst, s)
    && (Wiped(s.trace) ==> Recognised(inst, s.tree))
    && ResumeOk(s)
  }

  predicate Inv(inst: Install, s: State) {
    PastOk(s) && PresentOk(inst, s)
  }

  // ---- adding to the trace and to the log ----

  lemma {:induction false} StartsIsPositiveIff(log: seq<Entry>)
    ensures Starts(log) > 0 <==> exists k :: 0 <= k < |log| && Pending(log[k])
    decreases |log|
  {
    if log != [] {
      var front := log[..|log| - 1];
      StartsIsPositiveIff(front);
      assert forall k | 0 <= k < |front| :: front[k] == log[k];
    }
  }

  lemma HistoryGrows(trace: seq<Event>, e: Event)
    ensures Wiped(trace + [e]) <==> Wiped(trace) || IsWipe(e)
    ensures Careful(trace + [e]) <==> Careful(trace) && !IsHasty(e)
  {
    assert (trace + [e])[|trace|] == e;
    assert forall i | 0 <= i < |trace| :: (trace + [e])[i] == trace[i];
  }

  lemma StandingGrows(trace: seq<Event>, e: Event)
    ensures Standing(trace + [e]) <==>
            if e.PowerLost? && e.dropped > 0 then false else (e.Recorded? && e.end != Unchanged) || Standing(trace)
  {
    assert (trace + [e])[..|trace|] == trace;
  }

  lemma BasisGrows(trace: seq<Event>, e: Event)
    ensures BasisOf(trace + [e]) == match e
                                    case PrepareStarted(t) => Found(t)
                                    case HostWrote(t) => Rewritten(t)
                                    case _ => BasisOf(trace)
  {
    assert (trace + [e])[..|trace|] == trace;
  }

  lemma LogOkGrows(log: seq<Entry>, trace: seq<Event>, e: Event)
    requires LogOk(log, trace)
    ensures LogOk(log, trace + [e])
  {
    forall k | 0 <= k < |log| ensures EntryOk(log, trace + [e], k) { assert EntryOk(log, trace, k); }
  }

  lemma EventOkGrows(trace: seq<Event>, e: Event, i: nat)
    requires i < |trace| && EventOk(trace, i)
    ensures EventOk(trace + [e], i)
  {
  }

  lemma TraceOkGrows(trace: seq<Event>, e: Event)
    requires TraceOk(trace) && EventOk(trace + [e], |trace|)
    ensures TraceOk(trace + [e])
  {
    forall i | 0 <= i < |trace| + 1 ensures EventOk(trace + [e], i) {
      if i < |trace| { EventOkGrows(trace, e, i); }
    }
  }

  /** What a write through `State.Write` keeps of the log, whichever way it ends. */
  lemma WriteKeepsLog(s: State, f: Flag, e: Event, end: WriteEnd)
    requires s.flag.Valid() && LogOk(s.flag.log, s.trace)
    requires Sane(f) && Turns(s.Flag(), f, e, s.flag.Newest().at) && EndOf(e) == end
    ensures LogOk(s.Write(f, e, end).flag.log, s.trace + [e])
    ensures end != Unchanged ==> s.Write(f, e, end).Flag() == f
    ensures end == Unchanged ==> s.Write(f, e, end).flag == s.flag
    ensures end == Durable ==> s.Write(f, e, end).flag.Settled()
  {
    var log := s.flag.log;
    var log' := s.Write(f, e, end).flag.log;
    forall k | 0 <= k < |log'| ensures EntryOk(log', s.trace + [e], k) {
      if k < |log| { assert EntryOk(log, s.trace, k); }
      else { assert EntryOk(log, s.trace, k - 1); }
    }
  }

  lemma NewestOk(s: State)
    requires s.flag.Valid() && LogOk(s.flag.log, s.trace)
    ensures Sane(s.Flag()) && s.flag.Newest().at < |s.trace|
    ensures s.Flag().armed && s.Flag().phase == "" ==>
              var e := s.trace[s.flag.Newest().at];
              e.Armed? && e.uid == s.Flag().owner && e.end != Unchanged
    ensures Pending(s.flag.Newest()) ==> RecordedAt(s.trace, s.flag.Newest().at, s.Flag().owner)
  {
    assert EntryOk(s.flag.log, s.trace, |s.flag.log| - 1);
  }
}
