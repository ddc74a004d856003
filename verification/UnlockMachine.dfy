/**
 The bootloader-unlock transaction as a transition system.

 A step is one API call that makes at most one durable change, or one destructive primitive inside
 UnlockBootloader, or one deletion inside a wipe, or a power loss. `lockMu` makes a Core call one
 critical section, so while `pc` is not Idle only the running call, a PIN check of an arm request, a
 power loss and the host may move. The host may write to the volume at any time except while a pass is
 reading and clearing its directory and between the last pass and the flip (`HostMayWrite`). An error
 that a call can return without further effect is `Fail`.

 The trace records the primitive calls. Events point back at the events they rest on.
 */
module UnlockMachine {
  import opened Wrappers
  import opened FlagRegister
  import opened DataVolume

  const CONFIRM_WORD := "UNLOCK"
  const FIRST_OWNER_UID := 1000

  /** Which server runs: the running system's policy socket, or recovery. */
  datatype Mode = Runtime | Recovery

  /** Reply of a primitive that reads. */
  datatype Answer = NoAnswer | Says(yes: bool)

  datatype Event =
    | Boot
    | ArmPin(uid: int)                                     // arm handler: PIN accepted
    | Armed(uid: int, pinAt: nat, end: WriteEnd)           // flag writes, and how they ended
    | Disarmed(end: WriteEnd)
    | Finalized(end: WriteEnd)
    | UnlockCall                                           // UnlockBootloader past its gates, no phase pending
    | ResumeCall(recordedAt: nat, settled: bool)           // ... with a phase pending; was the flag settled?
    | UnlockPin(uid: int, reply: Answer)                   // unlock call: PIN verifier asked
    | VerityRequested
    | VerityConfirmed
    | Recorded(uid: int, armedAt: nat, pinAt: nat, verityAt: nat, end: WriteEnd)
    | PrepareStarted(found: Tree)
    | Removed(uid: int, recordedAt: nat, path: Path)
    | PrepareDone
    | CustodyErased(uid: int, recordedAt: nat, ok: bool)
    | FinishDone
    | FlipRequested(recordedAt: nat, prepareAt: nat, eraseAt: nat, finishAt: nat)
    | HostWrote(after: Tree)
    | PowerLost(dropped: nat)                              // how many phase records it took back

  /** How the flag write of an event ended; events that write no flag changed nothing. */
  function EndOf(e: Event): (end: WriteEnd) {
    if e.Armed? || e.Disarmed? || e.Finalized? || e.Recorded? then e.end else Unchanged
  }

  /** One value of the flag file and the trace position of the event that wrote it. */
  datatype Entry = Entry(stored: Stored, at: nat)

  /** Where a running UnlockBootloader is. */
  datatype Pc =
    | Idle
    | PinAccepted(f: Flag, pinAt: nat)
    | Validated(f: Flag, pinAt: nat)
    | VerityDisabled(f: Flag, pinAt: nat)
    | Recording(f: Flag, pinAt: nat, verityAt: nat)
    | Preparing
    | Sweeping(pass: Pass, marks: Marks)
    | MakingCustody
    | Erasing(marks: Marks)
    | Finishing(marks: Marks)
    | Flipping(marks: Marks)
    | Finalizing

  /** Trace positions of what this call has completed (only meaningful once it has). */
  datatype Marks = Marks(prepareAt: nat, eraseAt: nat, finishAt: nat)

  const NO_MARKS := Marks(0, 0, 0)

  predicate Pending(e: Entry) {
    Load(e.stored).phase == VERITY_OFF
  }

  /** How many transaction starts a flag history records. */
  function Starts(log: seq<Entry>): (n: nat) {
    if log == [] then 0
    else Starts(log[..|log| - 1]) + if Pending(log[|log| - 1]) then 1 else 0
  }

  /** When something other than the running call may write to the volume. */
  predicate HostMayWrite(pc: Pc) {
    !pc.Sweeping? && !pc.Flipping?
  }

  datatype State = State(
    mode: Mode,
    flag: Register<Entry>,
    locked: bool,
    verityOff: bool,
    tree: Tree,
    unsynced: Tree,         // deleted nodes that a power loss may bring back
    trace: seq<Event>,
    grants: set<nat>,       // ArmPin events whose arm request has not yet reached Core
    pc: Pc)
  {
    function Flag(): (f: Flag)
      requires flag.Valid()
    {
      Load(flag.Newest().stored)
    }

    function Log(e: Event): (s: State) {
      this.(trace := trace + [e])
    }

    function At(pc': Pc): (s: State) {
      this.(pc := pc')
    }

    /** Logs `e` and writes `f` as its flag value. */
    function Write(f: Flag, e: Event, end: WriteEnd): (s: State)
      requires flag.Valid()
      ensures s.flag.Valid()
    {
      Log(e).(flag := flag.Put(Entry(Saved(f), |trace|), end))
    }
  }

  datatype Action =
    // Core calls with a single durable effect
    | LockState(lockBit: Answer, end: WriteEnd)
    | CheckArmPin(uid: int, pin: string, reply: Answer)
    | Arm(uid: int, grant: nat, end: WriteEnd)
    | Disarm(lockBit: Answer, end: WriteEnd)
    // UnlockBootloader, step by step
    | Unlock(confirm: string, pin: string, verity: Answer, reply: Answer)
    | Validate
    | DisableVerity(ok: bool, tookEffect: bool)
    | ConfirmVerity(verity: Answer)
    | Record(end: WriteEnd)
    | StartPrepare
    | RemoveOne(path: Path)
    | PassDone
    | MakeDirs(done: nat, ok: bool)
    | EraseCustody(ok: bool, after: Tree)
    | StartFinish
    | Flip(ok: bool, tookEffect: bool)
    | Finalize(end: WriteEnd)
    | Fail
    // the world
    | LosePower(keep: nat, mode: Mode, back: set<Path>)
    | HostWrites(after: Tree)

  predicate PinFormat(pin: string) {
    4 <= |pin| <= 256 && '\r' !in pin && '\n' !in pin
  }

  predicate Truthful(a: Answer, fact: bool) {
    a.Says? ==> a.yes == fact
  }

  function FinalizedFlag(f: Flag): (r: Flag) {
    Flag(false, if f.phase != "" then f.count + 1 else f.count, 0, "")
  }

  // ---- Core calls with one durable effect ----

  /** LockState finalizes a pending transaction it finds on an unlocked device. */
  function LockStateStep(s: State, lockBit: Answer, end: WriteEnd): (r: State)
    requires s.flag.Valid()
    ensures r.flag.Valid()
  {
    var f := s.Flag();
    if lockBit == Says(false) && f.armed && f.phase == VERITY_OFF
    then s.Write(FinalizedFlag(f), Finalized(end), end)
    else s
  }

  function ArmStep(s: State, uid: int, grant: nat, end: WriteEnd): (r: State)
    requires s.flag.Valid()
    ensures r.flag.Valid()
  {
    var f := s.Flag();
    if uid < FIRST_OWNER_UID || (f.armed && f.phase != "") then s.(grants := s.grants - {grant})
    else s.(grants := s.grants - {grant})
          .Write(f.(armed := true, owner := uid, phase := ""), Armed(uid, grant, end), end)
  }

  function DisarmStep(s: State, lockBit: Answer, end: WriteEnd): (r: State)
    requires s.flag.Valid()
    ensures r.flag.Valid()
  {
    var f := s.Flag();
    if f.phase != "" then
      if lockBit != Says(false) then s else s.Write(FinalizedFlag(f), Finalized(end), end)
    else s.Write(f.(armed := false, owner := 0, phase := ""), Disarmed(end), end)
  }

  // ---- UnlockBootloader ----

  function UnlockStep(s: State, confirm: string, pin: string, verity: Answer, reply: Answer): (r: State)
    requires s.flag.Valid()
    ensures r.flag.Valid()
  {
    var f := s.Flag();
    if confirm != CONFIRM_WORD || !f.armed || f.owner < FIRST_OWNER_UID then s
    else if f.phase == VERITY_OFF then
      if verity == Says(true) then s.Log(ResumeCall(s.flag.Newest().at, s.flag.Settled())).At(Preparing) else s
    else if f.phase != "" || !PinFormat(pin) then s
    else
      var asked := s.Log(UnlockCall).Log(UnlockPin(f.owner, reply));
      if reply == Says(true) then asked.At(PinAccepted(f, |s.trace| + 1)) else asked
  }

  predicate ConsentUnchanged(current: Flag, f: Flag) {
    current.armed && current.owner == f.owner && current.phase == ""
  }

  function NextPc(pass: Pass, marks: Marks, now: nat): (pc: Pc) {
    match pass
    case BootPass => Sweeping(RootfsPass, marks)
    case RootfsPass => Sweeping(TopPass, marks)
    case TopPass => MakingCustody
    case LibPass => Erasing(marks.(prepareAt := now))
    case FinalPass => Flipping(marks.(finishAt := now))
  }

  /** The pass ends with a sync of its directory: nothing it removed can come back. */
  function PassDoneStep(s: State): (r: State)
    requires s.pc.Sweeping?
  {
    var next := s.(unsynced := Swept(s.unsynced, s.pc.pass)).At(NextPc(s.pc.pass, s.pc.marks, |s.trace|));
    match s.pc.pass
    case LibPass => next.Log(PrepareDone)
    case FinalPass => next.Log(FinishDone)
    case _ => next
  }

  function ValidateStep(inst: Install, s: State): (r: State)
    requires s.flag.Valid() && s.pc.PinAccepted?
    ensures r.flag.Valid()
  {
    if !ConsentUnchanged(s.Flag(), s.pc.f) || !Recognised(inst, s.tree) then s.At(Idle)
    else s.At(Validated(s.pc.f, s.pc.pinAt))
  }

  function DisableVerityStep(s: State, ok: bool, tookEffect: bool): (r: State)
    requires s.pc.Validated?
  {
    s.Log(VerityRequested).(verityOff := s.verityOff || ok || tookEffect)
     .At(if ok then VerityDisabled(s.pc.f, s.pc.pinAt) else Idle)
  }

  function ConfirmVerityStep(s: State, verity: Answer): (r: State)
    requires s.flag.Valid() && s.pc.VerityDisabled?
    ensures r.flag.Valid()
  {
    if verity != Says(true) then s.At(Idle)
    else if !ConsentUnchanged(s.Flag(), s.pc.f) then s.Log(VerityConfirmed).At(Idle)
    else s.Log(VerityConfirmed).At(Recording(s.Flag(), s.pc.pinAt, |s.trace|))
  }

  function RecordStep(s: State, end: WriteEnd): (r: State)
    requires s.flag.Valid() && s.pc.Recording?
    ensures r.flag.Valid()
  {
    s.Write(s.pc.f.(phase := VERITY_OFF),
            Recorded(s.pc.f.owner, s.flag.Newest().at, s.pc.pinAt, s.pc.verityAt, end), end)
     .At(if end == Durable then Preparing else Idle)
  }

  function StartPrepareStep(inst: Install, s: State): (r: State) {
    if Recognised(inst, s.tree) then s.Log(PrepareStarted(s.tree)).At(Sweeping(BootPass, NO_MARKS)) else s.At(Idle)
  }

  function RemoveStep(s: State, p: Path): (r: State)
    requires s.flag.Valid() && s.pc.Sweeping? && p in s.tree
    ensures r.flag.Valid()
  {
    s.Log(Removed(s.Flag().owner, s.flag.Newest().at, p))
     .(tree := Unlink(s.tree, p), unsynced := s.unsynced[p := s.tree[p]])
  }

  function MakeDirsStep(s: State, done: nat, ok: bool): (r: State) {
    s.(tree := MakeCustody(s.tree, done)).At(if ok then Sweeping(LibPass, NO_MARKS) else Idle)
  }

  function EraseStep(s: State, ok: bool, after: Tree): (r: State)
    requires s.flag.Valid() && s.pc.Erasing?
    ensures r.flag.Valid()
  {
    s.Log(CustodyErased(s.Flag().owner, s.flag.Newest().at, ok)).(tree := after)
     .At(if ok then Finishing(s.pc.marks.(eraseAt := |s.trace|)) else Idle)
  }

  function FlipStep(s: State, ok: bool, tookEffect: bool): (r: State)
    requires s.flag.Valid() && s.pc.Flipping?
    ensures r.flag.Valid()
  {
    var m := s.pc.marks;
    s.Log(FlipRequested(s.flag.Newest().at, m.prepareAt, m.eraseAt, m.finishAt))
     .(locked := s.locked && !ok && !tookEffect)
     .At(if ok then Finalizing else Idle)
  }

  function PowerLossStep(s: State, keep: nat, mode: Mode, back: set<Path>): (r: State)
    requires s.flag.Valid() && s.flag.synced <= keep <= |s.flag.log|
    ensures r.flag.Valid()
  {
    s.Log(PowerLost(Starts(s.flag.log[keep..])))
     .(flag := s.flag.Lose(keep), mode := mode, grants := {},
       tree := s.tree + Revived(s.tree, s.unsynced, back), unsynced := map[])
     .At(Idle)
  }

  /** What a power loss can do: keep the first `keep` flag values and undo the deletions in `back`. */
  predicate CanLose(s: State, keep: nat, back: set<Path>) {
    s.flag.synced <= keep <= |s.flag.log| && WellFormed(s.tree + Revived(s.tree, s.unsynced, back))
  }

  /** An arm request for a real account carries the trace position of its own accepted PIN. */
  predicate HoldsGrant(s: State, uid: int, grant: nat) {
    s.mode == Runtime && grant in s.grants && grant < |s.trace| && s.trace[grant] == ArmPin(uid)
  }

  /** The successor of `s` under `a`, or None if `a` cannot happen in `s`. */
  function Next(inst: Install, s: State, a: Action): (r: Option<State>)
    requires s.flag.Valid()
    ensures r.Some? ==> r.value.flag.Valid()
  {
    var idle := s.pc == Idle;
    match a
    case LockState(lockBit, end) =>
      if idle && Truthful(lockBit, s.locked) then Some(LockStateStep(s, lockBit, end)) else None
    case CheckArmPin(uid, pin, reply) =>
      if s.mode == Runtime && uid >= FIRST_OWNER_UID && PinFormat(pin) && reply == Says(true)
      then Some(s.Log(ArmPin(uid)).(grants := s.grants + {|s.trace|})) else None
    case Arm(uid, grant, end) =>
      if idle && (uid >= FIRST_OWNER_UID ==> HoldsGrant(s, uid, grant)) then Some(ArmStep(s, uid, grant, end)) else None
    case Disarm(lockBit, end) =>
      if idle && Truthful(lockBit, s.locked) then Some(DisarmStep(s, lockBit, end)) else None
    case Unlock(confirm, pin, verity, reply) =>
      if idle && s.mode == Recovery && Truthful(verity, s.verityOff)
      then Some(UnlockStep(s, confirm, pin, verity, reply)) else None
    case Validate =>
      if s.pc.PinAccepted? then Some(ValidateStep(inst, s)) else None
    case DisableVerity(ok, tookEffect) =>
      if s.pc.Validated? then Some(DisableVerityStep(s, ok, tookEffect)) else None
    case ConfirmVerity(verity) =>
      if s.pc.VerityDisabled? && Truthful(verity, s.verityOff) then Some(ConfirmVerityStep(s, verity)) else None
    case Record(end) =>
      if s.pc.Recording? then Some(RecordStep(s, end)) else None
    case StartPrepare =>
      if s.pc.Preparing? then Some(StartPrepareStep(inst, s)) else None
    case RemoveOne(p) =>
      if s.pc.Sweeping? && Allowed(s.tree, Remove(s.pc.pass, p)) then Some(RemoveStep(s, p)) else None
    case PassDone =>
      if s.pc.Sweeping? && Clean(s.tree, s.pc.pass) then Some(PassDoneStep(s)) else None
    case MakeDirs(done, ok) =>
      if s.pc.MakingCustody? && (ok ==> done >= 2) then Some(MakeDirsStep(s, done, ok)) else None
    case EraseCustody(ok, after) =>
      if s.pc.Erasing? && CustodyChange(s.tree, after) then Some(EraseStep(s, ok, after)) else None
    case StartFinish =>
      if s.pc.Finishing?
      then Some(s.At(if Recognised(inst, s.tree) then Sweeping(FinalPass, s.pc.marks) else Idle)) else None
    case Flip(ok, tookEffect) =>
      if s.pc.Flipping? then Some(FlipStep(s, ok, tookEffect)) else None
    case Finalize(end) =>
      if s.pc.Finalizing? then Some(s.Write(FinalizedFlag(s.Flag()), Finalized(end), end).At(Idle)) else None
    case Fail =>
      if idle then None else Some(s.At(Idle))
    case LosePower(keep, mode, back) =>
      if CanLose(s, keep, back) then Some(PowerLossStep(s, keep, mode, back)) else None
    case HostWrites(after) =>
      if HostMayWrite(s.pc) && WellFormed(after) && (Recognised(inst, s.tree) ==> Recognised(inst, after))
      then Some(s.Log(HostWrote(after)).(tree := after)) else None
  }

  /** A device before any of this code ran: any TPM bits, any volume, and a flag that grants nothing. */
  predicate Fresh(s: State) {
    && s.pc == Idle && s.grants == {} && s.trace == [Boot]
    && s.flag.synced == 1 && |s.flag.log| == 1 && s.flag.log[0].at == 0
    && (s.flag.log[0].stored.Saved? ==> s.flag.log[0].stored.flag == UNARMED.(count := s.flag.log[0].stored.flag.count))
    && WellFormed(s.tree) && s.unsynced == map[]
  }

  function Run(inst: Install, s: State, actions: seq<Action>): (r: Option<State>)
    requires s.flag.Valid()
    ensures r.Some? ==> r.value.flag.Valid()
    decreases |actions|
  {
    if actions == [] then Some(s)
    else
      var first := Next(inst, s, actions[0]);
      if first.None? then None else Run(inst, first.value, actions[1..])
  }

  lemma {:induction false} RunConcat(inst: Install, s: State, xs: seq<Action>, ys: seq<Action>)
    requires s.flag.Valid() && Run(inst, s, xs).Some?
    ensures Run(inst, s, xs + ys) == Run(inst, Run(inst, s, xs).value, ys)
    decreases |xs|
  {
    if xs == [] {
      assert xs + ys == ys;
    } else {
      assert (xs + ys)[0] == xs[0] && (xs + ys)[1..] == xs[1..] + ys;
      RunConcat(inst, Next(inst, s, xs[0]).value, xs[1..], ys);
    }
  }

  lemma RunOne(inst: Install, s: State, a: Action)
    requires s.flag.Valid()
    ensures Run(inst, s, [a]) == Next(inst, s, a)
  {
    var first := Next(inst, s, a);
    if first.Some? { assert Run(inst, first.value, [a][1..]) == first; }
  }
}
