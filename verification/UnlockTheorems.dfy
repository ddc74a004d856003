/**
 The promises of the unlock transaction, for every run from a fresh device: any sequence of API
 calls, primitive failures, single deletions and power losses.
 */
module UnlockTheorems {
  import opened Wrappers
  import opened FlagRegister
  import opened DataVolume
  import opened UnlockMachine
  import opened UnlockInvariant
  import opened UnlockSteps
  import opened UnlockLedger

  // ---- resuming after a crash ----

  /** The state the next UnlockBootloader call needs in order to resume without the owner's PIN. */
  predicate Resumable(inst: Install, s: State) {
    && s.flag.Valid() && s.pc == Idle
    && s.Flag().armed && s.Flag().owner >= FIRST_OWNER_UID && s.Flag().phase == VERITY_OFF
    && s.verityOff
    && WellFormed(s.tree) && Recognised(inst, s.tree)
  }

  /** Resume after any crash. If a wipe step has happened in a run whose calls only ever resumed a durably
      recorded transaction, and the TPM is still locked, then whatever flag writes a power loss now takes
      away and whatever deletions it undoes, the transaction can be resumed. */
  lemma ResumableAfterCrash(inst: Install, s: State, keep: nat, mode: Mode, back: set<Path>)
    requires Reachable(inst, s) && Careful(s.trace) && Wiped(s.trace) && s.locked && CanLose(s, keep, back)
    ensures Resumable(inst, PowerLossStep(s, keep, mode, back))
    ensures s.pc == Idle ==> Resumable(inst, s)
  {
    CarefulIsSettled(inst, s);
    ResumableIff(inst, s);
  }

  /** Careful histories as a caller can see them: no call resumed a transaction whose record had returned an error
      and had not been through a reboot. */
  lemma CarefulMeans(inst: Install, s: State)
    requires Reachable(inst, s)
    ensures Careful(s.trace) <==>
            forall i | 0 <= i < |s.trace| && s.trace[i].ResumeCall? ::
              s.trace[i].recordedAt < i && Durably(s.trace, s.trace[i].recordedAt, i)
  {
    ReachableLedger(inst, s);
    forall i | 0 <= i < |s.trace| && s.trace[i].ResumeCall?
      ensures !IsHasty(s.trace[i]) <==> s.trace[i].recordedAt < i && Durably(s.trace, s.trace[i].recordedAt, i)
    {
      assert ResumeIsTrue(s.trace, i);
    }
  }

  /** The exact condition, over every run. On a locked device on which a wipe step has happened (or is under way),
      every power loss leaves the transaction resumable if and only if the flag carries the phase and the
      write that put it there returned nil or was followed by a reboot. Between calls the transaction is
      resumable as it is if and only if the flag carries the phase, and that is so exactly while no power
      loss has taken its record back. */
  lemma ResumableIff(inst: Install, s: State)
    requires Reachable(inst, s) && s.locked && (MidWipe(s.pc) || Wiped(s.trace))
    ensures s.flag.Newest().at < |s.trace|
    ensures s.Flag().phase == VERITY_OFF && Durably(s.trace, s.flag.Newest().at, |s.trace|) <==>
            forall keep: nat, mode: Mode, back: set<Path> | CanLose(s, keep, back) ::
              Resumable(inst, PowerLossStep(s, keep, mode, back))
    ensures s.pc == Idle ==> (Resumable(inst, s) <==> s.Flag().phase == VERITY_OFF)
    ensures s.Flag().phase == VERITY_OFF <==> Standing(s.trace)
  {
    IdleResumableIff(inst, s);
    if s.Flag().phase == VERITY_OFF && s.flag.Settled() {
      forall keep: nat, mode: Mode, back: set<Path> | CanLose(s, keep, back)
        ensures Resumable(inst, PowerLossStep(s, keep, mode, back))
      {
        LossLeavesResumable(inst, s, keep, mode, back);
      }
    } else {
      LossCanTakeBack(inst, s);
    }
  }

  lemma IdleResumableIff(inst: Install, s: State)
    requires Reachable(inst, s) && s.locked && (MidWipe(s.pc) || Wiped(s.trace))
    ensures s.flag.Valid() && SettledOk(s)
    ensures s.pc == Idle ==> (Resumable(inst, s) <==> s.Flag().phase == VERITY_OFF)
    ensures s.Flag().phase == VERITY_OFF <==> Standing(s.trace)
  {
    ReachableLedger(inst, s);
    ReachableKeeps(inst, s);
    NewestOk(s);
  }

  lemma PendingIsReady(inst: Install, s: State)
    requires Reachable(inst, s) && (MidWipe(s.pc) || Wiped(s.trace)) && s.Flag().phase == VERITY_OFF
    ensures WellFormed(s.tree) && Recognised(inst, s.tree) && Expendable(s.unsynced)
    ensures s.verityOff && s.Flag().armed && s.Flag().owner >= FIRST_OWNER_UID
  {
    ReachableKeeps(inst, s);
    NewestOk(s);
  }

  lemma LossLeavesResumable(inst: Install, s: State, keep: nat, mode: Mode, back: set<Path>)
    requires Reachable(inst, s) && (MidWipe(s.pc) || Wiped(s.trace)) && CanLose(s, keep, back)
    requires s.Flag().phase == VERITY_OFF && s.flag.Settled()
    ensures var lost := PowerLossStep(s, keep, mode, back);
            Resumable(inst, lost) && lost.Flag() == s.Flag() && Survivors(lost.tree) == Survivors(s.tree)
  {
    PendingIsReady(inst, s);
    LossKeepsVolume(inst, s, keep, back);
    assert s.flag.log[..keep] == s.flag.log;
  }

  lemma NothingRevived(t: Tree, lost: Tree)
    ensures t + Revived(t, lost, {}) == t
  {
  }

  /** On a locked device no value of the flag before the newest is pending. */
  lemma LossCanTakeBack(inst: Install, s: State)
    requires Reachable(inst, s) && s.locked && !(s.Flag().phase == VERITY_OFF && s.flag.Settled())
    ensures CanLose(s, s.flag.synced, {}) && !Resumable(inst, PowerLossStep(s, s.flag.synced, Recovery, {}))
  {
    ReachableKeeps(inst, s);
    NothingRevived(s.tree, s.unsynced);
    var lost := PowerLossStep(s, s.flag.synced, Recovery, {});
    assert lost.flag.Newest() == s.flag.log[s.flag.synced - 1];
    assert !Pending(s.flag.log[s.flag.synced - 1]);
  }

  lemma ReachableStep(inst: Install, s: State, a: Action, s': State)
    requires s.flag.Valid() && Reachable(inst, s) && Next(inst, s, a) == Some(s')
    ensures s'.flag.Valid() && Reachable(inst, s')
  {
    var s0: State, acts: seq<Action> :| Fresh(s0) && Run(inst, s0, acts) == Some(s);
    RunOne(inst, s, a);
    RunConcat(inst, s0, acts, [a]);
  }

  lemma FreshIsReachable(inst: Install, s: State)
    requires Fresh(s)
    ensures Reachable(inst, s)
  {
    assert Run(inst, s, []) == Some(s);
  }

  /** A fresh device whose owner 1000 has just proved the PIN to the arm handler. */
  lemma GrantedDevice(inst: Install, t: Tree) returns (s: State)
    requires WellFormed(t)
    ensures s.flag.Valid() && Reachable(inst, s) && s.pc == Idle && s.tree == t && s.locked
    ensures s.Flag() == UNARMED && |s.flag.log| == 1 && s.flag.synced == 1 && HoldsGrant(s, 1000, 1)
  {
    var s0 := State(Runtime, Register([Entry(Missing, 0)], 1), true, false, t, map[], [Boot], {}, Idle);
    FreshIsReachable(inst, s0);
    assert PinFormat("1234");
    s := s0.Log(ArmPin(1000)).(grants := s0.grants + {1});
    ReachableStep(inst, s0, CheckArmPin(1000, "1234", Says(true)), s);
  }

  /** A device whose owner 1000 has armed the unlock from the running system, now booted into recovery. */
  lemma ArmedDevice(inst: Install, t: Tree) returns (s: State)
    requires WellFormed(t)
    ensures s.flag.Valid() && Reachable(inst, s) && s.pc == Idle && s.mode == Recovery && s.tree == t && s.locked
    ensures s.Flag() == Flag(true, 0, 1000, "") && |s.flag.log| == 2 && s.flag.synced == 2
    ensures Load(s.flag.log[0].stored) == UNARMED
  {
    var s1 := GrantedDevice(inst, t);
    var s2 := ArmStep(s1, 1000, 1, Durable);
    ReachableStep(inst, s1, Arm(1000, 1, Durable), s2);
    NothingRevived(t, s2.unsynced);
    s := PowerLossStep(s2, 2, Recovery, {});
    ReachableStep(inst, s2, LosePower(2, Recovery, {}), s);
  }

  /** An unlock call of an armed device, up to the request to disable verity. */
  lemma PinAndValidate(inst: Install, s: State) returns (s': State)
    requires s.flag.Valid() && Reachable(inst, s) && s.pc == Idle && s.mode == Recovery && Recognised(inst, s.tree)
    requires s.Flag().armed && s.Flag().owner >= FIRST_OWNER_UID && s.Flag().phase == ""
    ensures s'.flag.Valid() && Reachable(inst, s') && s'.pc.Validated? && s'.pc.f == s.Flag()
    ensures s' == s.(pc := s'.pc, trace := s'.trace)
  {
    assert PinFormat("1234");
    var s1 := UnlockStep(s, CONFIRM_WORD, "1234", NoAnswer, Says(true));
    ReachableStep(inst, s, Unlock(CONFIRM_WORD, "1234", NoAnswer, Says(true)), s1);
    s' := ValidateStep(inst, s1);
    ReachableStep(inst, s1, Validate, s');
  }

  /** ... and from there to a phase record that is renamed into place but not synced. */
  lemma UnsyncedRecord(inst: Install, s: State) returns (s': State)
    requires s.flag.Valid() && Reachable(inst, s) && s.pc.Validated? && s.pc.f == s.Flag()
    requires s.Flag().armed && s.Flag().phase == ""
    ensures s'.flag.Valid() && Reachable(inst, s') && s'.verityOff
    ensures s' == s.(pc := Idle, verityOff := true, flag := s'.flag, trace := s'.trace)
    ensures s'.Flag() == s.Flag().(phase := VERITY_OFF)
    ensures |s'.flag.log| == |s.flag.log| + 1 && s'.flag.log[..|s.flag.log|] == s.flag.log
    ensures s'.flag.synced == s.flag.synced
  {
    var s1 := DisableVerityStep(s, true, true);
    ReachableStep(inst, s, DisableVerity(true, true), s1);
    var s2 := ConfirmVerityStep(s1, Says(true));
    ReachableStep(inst, s1, ConfirmVerity(Says(true)), s2);
    s' := RecordStep(s2, Unsynced);
    ReachableStep(inst, s2, Record(Unsynced), s');
  }

  /** A retry of an unsettled transaction is let through without a PIN. */
  lemma UnsettledResume(inst: Install, s: State) returns (s': State)
    requires Resumable(inst, s) && Reachable(inst, s) && s.mode == Recovery && !s.flag.Settled()
    ensures s'.flag.Valid() && Reachable(inst, s')
    ensures s' == s.(trace := s'.trace, pc := Preparing)
  {
    ResumeIsAccepted(inst, s, "");
    s' := s.Log(ResumeCall(s.flag.Newest().at, false)).At(Preparing);
    ReachableStep(inst, s, Unlock(CONFIRM_WORD, "", Says(true), NoAnswer), s');
  }

  /** ... prepares the volume */
  lemma PrepareReaches(inst: Install, s: State) returns (s': State)
    requires s.flag.Valid() && Reachable(inst, s) && s.pc == Preparing && Recognised(inst, s.tree)
    ensures s'.flag.Valid() && Reachable(inst, s') && s'.pc.Erasing?
    ensures s' == s.(tree := Prepared(s.tree), unsynced := s'.unsynced, trace := s'.trace, pc := s'.pc)
  {
    s' := PrepareLeads(inst, s);
    LeadsReaches(inst, s, s');
  }

  /** ... and erases key custody. */
  lemma EraseReaches(inst: Install, s: State) returns (s': State)
    requires s.flag.Valid() && Reachable(inst, s) && s.pc.Erasing? && WellFormed(s.tree)
    ensures s'.flag.Valid() && Reachable(inst, s') && Wiped(s'.trace) && s'.pc.Finishing? && WellFormed(s'.tree)
    ensures s' == s.(tree := WithoutCustody(s.tree), trace := s'.trace, pc := s'.pc)
  {
    var erased := WithoutCustody(s.tree);
    WithoutCustodyIsErase(s.tree);
    s' := EraseStep(s, true, erased);
    ReachableStep(inst, s, EraseCustody(true, erased), s');
    HistoryGrows(s.trace, CustodyErased(s.Flag().owner, s.flag.Newest().at, true));
  }

  lemma LeadsReaches(inst: Install, s: State, s': State)
    requires s.flag.Valid() && Reachable(inst, s) && Leads(inst, s, s')
    ensures Reachable(inst, s')
  {
    var s0: State, acts: seq<Action> :| Fresh(s0) && Run(inst, s0, acts) == Some(s);
    var more: seq<Action> :| AllSucceed(more) && Run(inst, s, more) == Some(s');
    RunConcat(inst, s0, acts, more);
  }

  /** The power then takes the record back. */
  lemma RecordIsLost(inst: Install, s: State, prior: Register<Entry>) returns (s': State)
    requires s.flag.Valid() && Reachable(inst, s) && Wiped(s.trace) && WellFormed(s.tree)
    requires prior.Valid() && s.flag.synced == |prior.log| <= |s.flag.log| && s.flag.log[..|prior.log|] == prior.log
    ensures s'.flag.Valid() && Reachable(inst, s') && s'.Flag() == Load(prior.Newest().stored) && s'.locked == s.locked
    ensures Wiped(s'.trace) && s'.tree == s.tree && s'.pc == Idle && s'.mode == Recovery
  {
    NothingRevived(s.tree, s.unsynced);
    s' := PowerLossStep(s, s.flag.synced, Recovery, {});
    ReachableStep(inst, s, LosePower(s.flag.synced, Recovery, {}), s');
    HistoryGrows(s.trace, s'.trace[|s.trace|]);
  }

  /** A retry of a transaction whose record is not synced, up to the custody erase; `prior` is the flag before. */
  lemma UnsyncedRetry(inst: Install, t: Tree) returns (s: State, prior: Register<Entry>)
    requires WellFormed(t) && Recognised(inst, t)
    ensures s.flag.Valid() && Reachable(inst, s) && s.pc.Finishing? && s.mode == Recovery && s.locked && Wiped(s.trace)
    ensures s.tree == WithoutCustody(Prepared(t)) && WellFormed(s.tree)
    ensures prior.Valid() && s.flag.synced == |prior.log| <= |s.flag.log| && s.flag.log[..|prior.log|] == prior.log
    ensures Load(prior.Newest().stored) == Flag(true, 0, 1000, "") && Load(prior.log[0].stored) == UNARMED
  {
    var s0 := ArmedDevice(inst, t);
    prior := s0.flag;
    var s1 := PinAndValidate(inst, s0);
    var s2 := UnsyncedRecord(inst, s1);
    var s3 := UnsettledResume(inst, s2);
    var s4 := PrepareReaches(inst, s3);
    PreparedIsRecognised(inst, t);
    s := EraseReaches(inst, s4);
  }

  /** The promise does fail when the condition does. On every recognised volume this run is possible: the directory
      sync of the phase record fails, the call is retried without a reboot and resumes without a PIN, the
      volume is prepared and key custody erased, and the power goes. The device is locked, its custody is
      gone, and its flag no longer carries the phase. */
  lemma UnsyncedRetryCanStrand(inst: Install, t: Tree) returns (s: State)
    requires WellFormed(t) && Recognised(inst, t)
    ensures s.flag.Valid() && Reachable(inst, s) && s.pc == Idle && s.mode == Recovery
    ensures s.locked && Wiped(s.trace) && !Resumable(inst, s)
    ensures s.Flag() == Flag(true, 0, 1000, "")
    ensures s.tree == WithoutCustody(Prepared(t)) && forall p | p in s.tree :: !(CUSTODY_DIR <= p)
  {
    var wiped, prior := UnsyncedRetry(inst, t);
    NoCustodyLeft(wiped.tree, Prepared(t));
    s := RecordIsLost(inst, wiped, prior);
  }

  lemma NoCustodyLeft(t: Tree, t0: Tree)
    requires t == WithoutCustody(t0)
    ensures forall p | p in t :: !(CUSTODY_DIR <= p)
  {
  }

  predicate AcceptsPin(a: Action) {
    a.Unlock? && a.reply == Says(true)
  }

  /** Event `i` wipes nothing and resumes nothing, and a call that passed its gates asked for a PIN in vain. */
  predicate Fruitless(trace: seq<Event>, i: nat)
    requires i < |trace|
  {
    && !RestsOnRecord(trace[i]) && !trace[i].ResumeCall?
    && (trace[i].UnlockCall? ==> i + 1 < |trace| && trace[i + 1].UnlockPin? && trace[i + 1].reply != Says(true))
  }

  /** And no run of whatever calls, arms, reboots and host writes gets it any further: as long as the verifier
      accepts no PIN, a locked device without a standing record stays locked, nothing more is wiped, and
      every unlock call is refused at its gates or goes on to ask for a PIN. */
  lemma {:induction false} StrandedUntilPin(inst: Install, s: State, actions: seq<Action>)
    requires Inv(inst, s) && s.pc == Idle && s.locked && !Pending(s.flag.Newest())
    requires Run(inst, s, actions).Some? && forall a | a in actions :: !AcceptsPin(a)
    ensures var s' := Run(inst, s, actions).value;
            && Inv(inst, s') && s'.pc == Idle && s'.locked && !Pending(s'.flag.Newest())
            && |s.trace| <= |s'.trace| && forall i | |s.trace| <= i < |s'.trace| :: Fruitless(s'.trace, i)
    decreases |actions|
  {
    if actions != [] {
      var s1 := Next(inst, s, actions[0]).value;
      StepKeeps(inst, s, actions[0]);
      StrandedStep(inst, s, actions[0]);
      StrandedUntilPin(inst, s1, actions[1..]);
      RunGrowsTrace(inst, s1, actions[1..]);
      var s' := Run(inst, s, actions).value;
      forall i | |s.trace| <= i < |s'.trace| ensures Fruitless(s'.trace, i) {
        if i < |s1.trace| { assert Fruitless(s1.trace, i) && s'.trace[..|s1.trace|] == s1.trace; }
      }
    }
  }

  lemma StrandedStep(inst: Install, s: State, a: Action)
    requires Inv(inst, s) && s.pc == Idle && s.locked && !Pending(s.flag.Newest()) && Next(inst, s, a).Some?
    requires !AcceptsPin(a)
    ensures var s' := Next(inst, s, a).value;
            && s'.pc == Idle && s'.locked && !Pending(s'.flag.Newest())
            && |s.trace| <= |s'.trace| && forall i | |s.trace| <= i < |s'.trace| :: Fruitless(s'.trace, i)
  {
    NewestOk(s);
    IdleActions(inst, s, a);
    if a.Unlock? { StrandedUnlock(inst, s, a); } else { StrandedOther(inst, s, a); }
  }

  lemma IdleActions(inst: Install, s: State, a: Action)
    requires s.flag.Valid() && s.pc == Idle && Next(inst, s, a).Some?
    ensures a.LockState? || a.CheckArmPin? || a.Arm? || a.Disarm? || a.Unlock? || a.LosePower? || a.HostWrites?
  {
  }

  lemma StrandedUnlock(inst: Install, s: State, a: Action)
    requires s.flag.Valid() && s.pc == Idle && s.Flag().phase == "" && Next(inst, s, a).Some? && a.Unlock? && !AcceptsPin(a)
    ensures var s' := Next(inst, s, a).value;
            && s'.pc == Idle && s'.locked == s.locked && s'.flag == s.flag
            && |s.trace| <= |s'.trace| && forall i | |s.trace| <= i < |s'.trace| :: Fruitless(s'.trace, i)
  {
  }

  lemma StrandedOther(inst: Install, s: State, a: Action)
    requires s.flag.Valid() && TpmOk(s) && s.pc == Idle && s.locked && s.Flag().phase == "" && Next(inst, s, a).Some?
    requires a.LockState? || a.CheckArmPin? || a.Arm? || a.Disarm? || a.LosePower? || a.HostWrites?
    ensures var s' := Next(inst, s, a).value;
            && s'.pc == Idle && s'.locked && !Pending(s'.flag.Newest())
            && |s.trace| <= |s'.trace| && forall i | |s.trace| <= i < |s'.trace| :: Fruitless(s'.trace, i)
  {
  }

  /** Runs only ever add to the trace. */
  lemma {:induction false} RunGrowsTrace(inst: Install, s: State, actions: seq<Action>)
    requires Inv(inst, s) && Run(inst, s, actions).Some?
    ensures s.trace <= Run(inst, s, actions).value.trace
    decreases |actions|
  {
    if actions != [] {
      StepKeeps(inst, s, actions[0]);
      StepGrowsTrace(inst, s, actions[0]);
      RunGrowsTrace(inst, Next(inst, s, actions[0]).value, actions[1..]);
    }
  }

  lemma StepGrowsTrace(inst: Install, s: State, a: Action)
    requires Inv(inst, s) && Next(inst, s, a).Some?
    ensures s.trace <= Next(inst, s, a).value.trace
  {
    if a.LosePower? {
    } else if WritesFlag(a) {
      WriteGrowsTrace(inst, s, a);
    } else {
      var es := PlainStep(inst, s, a);
    }
  }

  lemma WriteGrowsTrace(inst: Install, s: State, a: Action)
    requires PastOk(s) && Next(inst, s, a).Some? && WritesFlag(a) && (s.pc.Recording? ==> s.pc.f.phase == "")
    ensures s.trace <= Next(inst, s, a).value.trace
  {
    var f, e, end, written := WriteStep(inst, s, a);
  }

  const SAMPLE_ID := "0123456789abcdef0123456789abcdef"

  const SAMPLE_INSTALL := Install(true, false, false, Some(File(SAMPLE_ID)))

  /** A smallest installed volume with a key in custody. */
  const SAMPLE_TREE: Tree := map[
    [] := Dir,
    [".atom-var"] := File(""),
    [".atom-install-id"] := File(SAMPLE_ID),
    ["lib"] := Dir,
    ["lib", "sinty"] := Dir,
    ["lib", "sinty", "key"] := File(""),
    ["boot"] := Dir,
    ["boot", "rootfs"] := Dir,
    ["boot", "rootfs", "deployment.json"] := File(""),
    ["boot", "rootfs", "rootfs-active.erofs"] := File(""),
    ["boot", "rootfs", "rootfs-active.hash"] := File("")
  ]

  lemma SampleIdIsValid()
    ensures InstallIdOf(Some(File(SAMPLE_ID))) == Some(SAMPLE_ID)
  {
    assert IsInstallId(SAMPLE_ID);
    assert "" + SAMPLE_ID + "" == SAMPLE_ID;
    TrimSpaceDrops("", SAMPLE_ID, "");
  }

  lemma SampleDirs()
    ensures var t := SAMPLE_TREE;
            RealDir(t, []) && RealDir(t, [LIB]) && RealDir(t, [LIB, SINTY]) && RealDir(t, [BOOT]) && RealDir(t, [BOOT, ROOTFS])
  {
    NamesDiffer();
  }

  lemma SampleIsWellFormed()
    ensures WellFormed(SAMPLE_TREE)
  {
    var t := SAMPLE_TREE;
    SampleDirs();
    forall p | p in t && |p| > 0 ensures Parent(p) in t && t[Parent(p)].Dir? {
      assert |p| == 1 ==> Parent(p) == [];
      assert |p| == 2 ==> Parent(p) == [p[0]];
      assert |p| == 3 ==> Parent(p) == [p[0], p[1]];
    }
  }

  lemma SampleFiles()
    ensures var t := SAMPLE_TREE;
            && RegularFile(t, [MARKER]) && NodeAt(t, [INSTALL_ID]) == Some(File(SAMPLE_ID))
            && forall name | name in REQUIRED_SLOTS :: RegularFile(t, ROOTFS_DIR + [name])
  {
    NamesDiffer();
    var t := SAMPLE_TREE;
    forall name | name in REQUIRED_SLOTS ensures RegularFile(t, ROOTFS_DIR + [name]) {
      assert ROOTFS_DIR + [name] == [BOOT, ROOTFS, name];
    }
  }

  lemma SampleIsRecognised()
    ensures Recognised(SAMPLE_INSTALL, SAMPLE_TREE)
  {
    SampleIdIsValid();
    SampleDirs();
    SampleFiles();
  }

  /** So the failing family is not empty: a device that had a key, is locked, and has neither key nor phase. */
  lemma StrandedDeviceExists() returns (s: State)
    ensures [LIB, SINTY, "key"] in SAMPLE_TREE && Recognised(SAMPLE_INSTALL, SAMPLE_TREE)
    ensures s.flag.Valid() && Reachable(SAMPLE_INSTALL, s) && s.pc == Idle && s.locked
    ensures s.tree == WithoutCustody(Prepared(SAMPLE_TREE)) && [LIB, SINTY, "key"] !in s.tree
    ensures !Resumable(SAMPLE_INSTALL, s)
  {
    SampleIsWellFormed();
    SampleIsRecognised();
    s := UnsyncedRetryCanStrand(SAMPLE_INSTALL, SAMPLE_TREE);
    assert CUSTODY_DIR <= [LIB, SINTY, "key"];
  }

  /** The steps of a call whose primitives all succeed. */
  predicate Succeeds(a: Action) {
    match a
    case StartPrepare => true
    case RemoveOne(_) => true
    case PassDone => true
    case MakeDirs(_, ok) => ok
    case EraseCustody(ok, _) => ok
    case StartFinish => true
    case Flip(ok, _) => ok
    case Finalize(end) => end == Durable
    case _ => false
  }

  predicate AllSucceed(actions: seq<Action>) {
    forall a | a in actions :: Succeeds(a)
  }

  /** How often a PIN verifier has been asked. */
  function PinsAsked(trace: seq<Event>): (n: nat) {
    if trace == [] then 0
    else
      var e := trace[|trace| - 1];
      PinsAsked(trace[..|trace| - 1]) + if e.UnlockPin? || e.ArmPin? then 1 else 0
  }

  lemma PinsAskedGrows(trace: seq<Event>, e: Event)
    ensures PinsAsked(trace + [e]) == PinsAsked(trace) + if e.UnlockPin? || e.ArmPin? then 1 else 0
  {
    assert (trace + [e])[..|trace|] == trace;
  }

  /** The steps after the gates never ask for a PIN. */
  lemma SuccessAsksNoPin(inst: Install, s: State, a: Action)
    requires s.flag.Valid() && Succeeds(a) && Next(inst, s, a).Some?
    ensures PinsAsked(Next(inst, s, a).value.trace) == PinsAsked(s.trace)
  {
    match a {
      case StartPrepare => PinsAskedGrows(s.trace, PrepareStarted(s.tree));
      case RemoveOne(p) => PinsAskedGrows(s.trace, Removed(s.Flag().owner, s.flag.Newest().at, p));
      case PassDone =>
        PinsAskedGrows(s.trace, PrepareDone);
        PinsAskedGrows(s.trace, FinishDone);
      case EraseCustody(ok, _) => PinsAskedGrows(s.trace, CustodyErased(s.Flag().owner, s.flag.Newest().at, ok));
      case Flip(_, _) =>
        var m := s.pc.marks;
        PinsAskedGrows(s.trace, FlipRequested(s.flag.Newest().at, m.prepareAt, m.eraseAt, m.finishAt));
      case Finalize(end) => PinsAskedGrows(s.trace, Finalized(end));
      case _ =>
    }
  }

  /** A run of steps that all succeed and never ask for a PIN leads from `s` to `s'`. */
  ghost predicate Leads(inst: Install, s: State, s': State)
    requires s.flag.Valid()
  {
    exists acts: seq<Action> :: AllSucceed(acts) && Run(inst, s, acts) == Some(s') && PinsAsked(s'.trace) == PinsAsked(s.trace)
  }

  lemma LeadsByStep(inst: Install, s: State, a: Action)
    requires s.flag.Valid() && Succeeds(a) && Next(inst, s, a).Some?
    ensures Leads(inst, s, Next(inst, s, a).value)
  {
    RunOne(inst, s, a);
    SuccessAsksNoPin(inst, s, a);
    assert AllSucceed([a]);
  }

  lemma LeadsOnwards(inst: Install, s: State, s1: State, s2: State)
    requires s.flag.Valid() && s1.flag.Valid() && Leads(inst, s, s1) && Leads(inst, s1, s2)
    ensures Leads(inst, s, s2)
  {
    var xs: seq<Action> :| AllSucceed(xs) && Run(inst, s, xs) == Some(s1) && PinsAsked(s1.trace) == PinsAsked(s.trace);
    var ys: seq<Action> :| AllSucceed(ys) && Run(inst, s1, ys) == Some(s2) && PinsAsked(s2.trace) == PinsAsked(s1.trace);
    RunConcat(inst, s, xs, ys);
    assert AllSucceed(xs + ys);
  }

  lemma LeadsNowhere(inst: Install, s: State)
    requires s.flag.Valid()
    ensures Leads(inst, s, s)
  {
    assert AllSucceed([]) && Run(inst, s, []) == Some(s);
  }

  /** A pass runs to its end: some deletions lead to the swept tree. */
  lemma {:induction false} SweepLeads(inst: Install, s: State) returns (s': State)
    requires s.flag.Valid() && s.pc.Sweeping?
    ensures Leads(inst, s, s') && s' == s.(tree := Swept(s.tree, s.pc.pass), unsynced := s'.unsynced, trace := s'.trace)
    decreases |s.tree|
  {
    var pass := s.pc.pass;
    if p :| p in s.tree && pass.Dooms(p) {
      var leaf := DoomedLeafBelow(s.tree, pass, p);
      var s1 := RemoveStep(s, leaf);
      RemoveTowardsSwept(s.tree, pass, leaf);
      LeadsByStep(inst, s, RemoveOne(leaf));
      s' := SweepLeads(inst, s1);
      LeadsOnwards(inst, s, s1, s');
    } else {
      s' := s;
      assert Swept(s.tree, pass) == s.tree;
      LeadsNowhere(inst, s);
    }
  }

  /** ... and its PassDone moves the call on. */
  lemma PassLeads(inst: Install, s: State) returns (s': State)
    requires s.flag.Valid() && s.pc.Sweeping?
    ensures Leads(inst, s, s')
    ensures s' == s.(tree := Swept(s.tree, s.pc.pass), unsynced := s'.unsynced, trace := s'.trace, pc := s'.pc)
    ensures exists now: nat :: s'.pc == NextPc(s.pc.pass, s.pc.marks, now)
  {
    var swept := SweepLeads(inst, s);
    LeadsByStep(inst, swept, PassDone);
    s' := PassDoneStep(swept);
    LeadsOnwards(inst, s, swept, s');
    assert s'.pc == NextPc(s.pc.pass, s.pc.marks, |swept.trace|);
  }

  /** scrubBootArtifacts and the top-level pass run to their end. */
  lemma ScrubLeads(inst: Install, s: State) returns (s': State)
    requires s.flag.Valid() && s.pc == Sweeping(BootPass, NO_MARKS)
    ensures Leads(inst, s, s')
    ensures s' == s.(tree := Swept(Swept(Swept(s.tree, BootPass), RootfsPass), TopPass), unsynced := s'.unsynced,
                     trace := s'.trace, pc := MakingCustody)
  {
    var s1 := PassLeads(inst, s);
    var s2 := PassLeads(inst, s1);
    s' := PassLeads(inst, s2);
    LeadsOnwards(inst, s, s1, s2);
    LeadsOnwards(inst, s, s2, s');
  }

  /** MkdirAll and the pass over lib run to their end. */
  lemma CustodyLeads(inst: Install, s: State) returns (s': State)
    requires s.flag.Valid() && s.pc.MakingCustody?
    ensures Leads(inst, s, s')
    ensures s'.pc.Erasing?
    ensures s' == s.(tree := Swept(MakeCustody(s.tree, 2), LibPass), unsynced := s'.unsynced, trace := s'.trace, pc := s'.pc)
  {
    LeadsByStep(inst, s, MakeDirs(2, true));
    var s1 := MakeDirsStep(s, 2, true);
    s' := PassLeads(inst, s1);
    LeadsOnwards(inst, s, s1, s');
  }

  /** prepareDataWipe runs to its end. */
  lemma PrepareLeads(inst: Install, s: State) returns (s': State)
    requires s.flag.Valid() && s.pc.Preparing? && Recognised(inst, s.tree)
    ensures Leads(inst, s, s')
    ensures s'.pc.Erasing? && s' == s.(tree := Prepared(s.tree), unsynced := s'.unsynced, trace := s'.trace, pc := s'.pc)
  {
    LeadsByStep(inst, s, StartPrepare);
    var s1 := StartPrepareStep(inst, s);
    var s2 := ScrubLeads(inst, s1);
    s' := CustodyLeads(inst, s2);
    LeadsOnwards(inst, s, s1, s2);
    LeadsOnwards(inst, s, s2, s');
  }

  /** The flip and the clean-up. */
  lemma FlipLeads(inst: Install, s: State) returns (s': State)
    requires s.flag.Valid() && s.pc.Flipping?
    ensures Leads(inst, s, s')
    ensures s'.flag.Valid() && s'.pc == Idle && !s'.locked && s'.tree == s.tree && s'.Flag() == FinalizedFlag(s.Flag())
  {
    LeadsByStep(inst, s, Flip(true, true));
    var s1 := FlipStep(s, true, true);
    LeadsByStep(inst, s1, Finalize(Durable));
    s' := s1.Write(FinalizedFlag(s1.Flag()), Finalized(Durable), Durable).At(Idle);
    LeadsOnwards(inst, s, s1, s');
  }

  /** The rest of the call, from the custody erase on. */
  lemma FinishLeads(inst: Install, s: State, erased: Tree) returns (s': State)
    requires s.flag.Valid() && s.pc.Erasing? && CustodyChange(s.tree, erased) && Recognised(inst, erased)
    ensures Leads(inst, s, s') && s'.flag.Valid()
    ensures s'.pc == Idle && !s'.locked && s'.tree == Finished(erased) && s'.Flag() == FinalizedFlag(s.Flag())
  {
    LeadsByStep(inst, s, EraseCustody(true, erased));
    var s1 := EraseStep(s, true, erased);
    LeadsByStep(inst, s1, StartFinish);
    var s2 := s1.At(Sweeping(FinalPass, s1.pc.marks));
    var s3 := PassLeads(inst, s2);
    s' := FlipLeads(inst, s3);
    LeadsOnwards(inst, s, s1, s2);
    LeadsOnwards(inst, s, s2, s3);
    LeadsOnwards(inst, s, s3, s');
  }

  /** Prepare leaves a recognised volume recognised. */
  lemma PreparedIsRecognised(inst: Install, t: Tree)
    requires WellFormed(t) && Recognised(inst, t)
    ensures WellFormed(Prepared(t)) && Recognised(inst, Prepared(t))
  {
    SweptIsRecognised(inst, t, BootPass);
    var t1 := Swept(t, BootPass);
    SweptIsRecognised(inst, t1, RootfsPass);
    var t2 := Swept(t1, RootfsPass);
    SweptIsRecognised(inst, t2, TopPass);
    var t3 := Swept(t2, TopPass);
    MakeKeepsVolume(inst, t3, 2);
    SweptIsRecognised(inst, MakeCustody(t3, 2), LibPass);
  }

  lemma {:induction false} SweptIsRecognised(inst: Install, t: Tree, pass: Pass)
    requires WellFormed(t) && Recognised(inst, t)
    ensures WellFormed(Swept(t, pass)) && Recognised(inst, Swept(t, pass))
    decreases |t|
  {
    if p :| p in t && pass.Dooms(p) {
      var leaf := SweepOne(inst, t, pass, p);
      SweptIsRecognised(inst, Unlink(t, leaf), pass);
    } else {
      assert Swept(t, pass) == t;
    }
  }

  lemma SweepOne(inst: Install, t: Tree, pass: Pass, p: Path) returns (leaf: Path)
    requires WellFormed(t) && Recognised(inst, t) && p in t && pass.Dooms(p)
    ensures WellFormed(Unlink(t, leaf)) && Recognised(inst, Unlink(t, leaf))
    ensures Swept(Unlink(t, leaf), pass) == Swept(t, pass) && |Unlink(t, leaf)| < |t|
  {
    leaf := DoomedLeafBelow(t, pass, p);
    RemoveIsConfined(inst, t, pass, leaf);
    RemoveTowardsSwept(t, pass, leaf);
  }

  /** An erase that keeps to its own directory, whatever tree it meets. */
  ghost predicate Eraser(eraser: Tree -> Tree) {
    forall t | WellFormed(t) && AbsentOrRealDir(t, CUSTODY_DIR) :: CustodyChange(t, eraser(t))
  }

  /** The erase leaves the prepared volume recognised. */
  lemma ErasedIsRecognised(inst: Install, t: Tree, eraser: Tree -> Tree)
    requires WellFormed(t) && Recognised(inst, t) && Eraser(eraser)
    ensures CustodyChange(Prepared(t), eraser(Prepared(t))) && Recognised(inst, eraser(Prepared(t)))
  {
    PreparedIsRecognised(inst, t);
    assert CustodyChange(Prepared(t), eraser(Prepared(t)));
    OpKeepsVolume(inst, Prepared(t), Erase(eraser(Prepared(t))));
  }

  lemma CallLeads(inst: Install, s: State, eraser: Tree -> Tree) returns (s': State)
    requires s.flag.Valid() && s.pc.Preparing? && WellFormed(s.tree) && Recognised(inst, s.tree) && Eraser(eraser)
    ensures Leads(inst, s, s') && s'.flag.Valid()
    ensures s'.pc == Idle && !s'.locked && s'.tree == Survivors(s.tree) && s'.Flag() == FinalizedFlag(s.Flag())
  {
    ErasedIsRecognised(inst, s.tree, eraser);
    var erased := eraser(Prepared(s.tree));
    FullWipe(s.tree, erased);
    var s1 := PrepareLeads(inst, s);
    s' := FinishLeads(inst, s1, erased);
    LeadsOnwards(inst, s, s1, s');
  }

  /** The gates of UnlockBootloader let a resumable transaction through without a PIN. */
  lemma ResumeIsAccepted(inst: Install, s: State, pin: string)
    requires Resumable(inst, s) && s.mode == Recovery
    ensures Next(inst, s, Unlock(CONFIRM_WORD, pin, Says(true), NoAnswer))
            == Some(s.Log(ResumeCall(s.flag.Newest().at, s.flag.Settled())).At(Preparing))
  {
  }

  lemma CallThen(inst: Install, s: State, call: Action, s0: State, s': State) returns (acts: seq<Action>)
    requires s.flag.Valid() && s0.flag.Valid() && Next(inst, s, call) == Some(s0) && Leads(inst, s0, s')
    requires PinsAsked(s0.trace) == PinsAsked(s.trace)
    ensures AllSucceed(acts) && Run(inst, s, [call] + acts) == Some(s') && PinsAsked(s'.trace) == PinsAsked(s.trace)
  {
    acts :| AllSucceed(acts) && Run(inst, s0, acts) == Some(s') && PinsAsked(s'.trace) == PinsAsked(s0.trace);
    RunOne(inst, s, call);
    RunConcat(inst, s, [call], acts);
  }

  /** A resumable transaction is completed by one UnlockBootloader call with the word UNLOCK and any PIN,
      whatever the custody erase leaves behind: the device ends unlocked, only preserved paths are left,
      the transaction is counted once, and the PIN verifier is never asked. */
  lemma ResumeCompletes(inst: Install, s: State, pin: string, eraser: Tree -> Tree)
    returns (acts: seq<Action>, s': State)
    requires Resumable(inst, s) && s.mode == Recovery && Eraser(eraser)
    ensures AllSucceed(acts)
    ensures Run(inst, s, [Unlock(CONFIRM_WORD, pin, Says(true), NoAnswer)] + acts) == Some(s')
    ensures s'.flag.Valid() && s'.pc == Idle && !s'.locked
    ensures s'.tree == Survivors(s.tree)
    ensures s'.Flag() == Flag(false, s.Flag().count + 1, 0, "")
    ensures PinsAsked(s'.trace) == PinsAsked(s.trace)
  {
    var s0 := s.Log(ResumeCall(s.flag.Newest().at, s.flag.Settled())).At(Preparing);
    ResumeIsAccepted(inst, s, pin);
    PinsAskedGrows(s.trace, ResumeCall(s.flag.Newest().at, s.flag.Settled()));
    s' := CallLeads(inst, s0, eraser);
    acts := CallThen(inst, s, Unlock(CONFIRM_WORD, pin, Says(true), NoAnswer), s0, s');
  }

  /** The whole promise in one: after any such run and any power loss, one UnlockBootloader call whose
      primitives do not fail finishes the unlock, with only preserved paths left and no PIN asked. */
  lemma CrashThenResume(inst: Install, s: State, keep: nat, back: set<Path>, pin: string, eraser: Tree -> Tree)
    returns (acts: seq<Action>, s': State)
    requires Reachable(inst, s) && Careful(s.trace) && Wiped(s.trace) && s.locked && Eraser(eraser)
    requires CanLose(s, keep, back)
    ensures AllSucceed(acts)
    ensures Run(inst, PowerLossStep(s, keep, Recovery, back), [Unlock(CONFIRM_WORD, pin, Says(true), NoAnswer)] + acts)
            == Some(s')
    ensures s'.flag.Valid() && !s'.locked && s'.tree == Survivors(s.tree)
    ensures s'.Flag() == Flag(false, s.Flag().count + 1, 0, "")
    ensures PinsAsked(s'.trace) == PinsAsked(s.trace)
  {
    CarefulIsSettled(inst, s);
    acts, s' := StandingThenResume(inst, s, keep, back, pin, eraser);
  }

  /** The same, under the exact condition of `ResumableIff` in place of a history without hasty retries. */
  lemma StandingThenResume(inst: Install, s: State, keep: nat, back: set<Path>, pin: string, eraser: Tree -> Tree)
    returns (acts: seq<Action>, s': State)
    requires Reachable(inst, s) && Wiped(s.trace) && Eraser(eraser) && CanLose(s, keep, back)
    requires s.flag.Newest().at < |s.trace|
    requires s.Flag().phase == VERITY_OFF && Durably(s.trace, s.flag.Newest().at, |s.trace|)
    ensures AllSucceed(acts)
    ensures Run(inst, PowerLossStep(s, keep, Recovery, back), [Unlock(CONFIRM_WORD, pin, Says(true), NoAnswer)] + acts)
            == Some(s')
    ensures s'.flag.Valid() && !s'.locked && s'.tree == Survivors(s.tree)
    ensures s'.Flag() == Flag(false, s.Flag().count + 1, 0, "")
    ensures PinsAsked(s'.trace) == PinsAsked(s.trace)
  {
    LossAsksNothing(inst, s, keep, back);
    acts, s' := ResumeCompletes(inst, PowerLossStep(s, keep, Recovery, back), pin, eraser);
  }

  lemma LossAsksNothing(inst: Install, s: State, keep: nat, back: set<Path>)
    requires Reachable(inst, s) && Wiped(s.trace) && CanLose(s, keep, back)
    requires s.flag.Newest().at < |s.trace|
    requires s.Flag().phase == VERITY_OFF && Durably(s.trace, s.flag.Newest().at, |s.trace|)
    ensures var lost := PowerLossStep(s, keep, Recovery, back);
            && Resumable(inst, lost) && lost.mode == Recovery && lost.Flag() == s.Flag()
            && Survivors(lost.tree) == Survivors(s.tree) && PinsAsked(lost.trace) == PinsAsked(s.trace)
  {
    DurableIsSettled(inst, s);
    LossLeavesResumable(inst, s, keep, Recovery, back);
    PinsAskedGrows(s.trace, PowerLost(Starts(s.flag.log[keep..])));
  }

  lemma DurableIsSettled(inst: Install, s: State)
    requires Reachable(inst, s) && s.flag.Newest().at < |s.trace| && Durably(s.trace, s.flag.Newest().at, |s.trace|)
    ensures s.flag.Settled()
  {
    ReachableLedger(inst, s);
  }

  lemma CarefulIsSettled(inst: Install, s: State)
    requires Reachable(inst, s) && Careful(s.trace) && Wiped(s.trace) && s.locked
    ensures s.flag.Valid() && SettledOk(s) && s.flag.Settled() && s.Flag().phase == VERITY_OFF
  {
    ReachableLedger(inst, s);
    ReachableKeeps(inst, s);
  }

  // ---- the flip comes last ----

  /** Every lock-bit flip request in every trace comes after a complete prepare, a successful custody erase
      and a complete finish of the same call, and after a phase record that took effect and itself came
      after a confirmed verity-off. In a careful history that record was durable by then and cannot be lost. */
  lemma FlipComesLast(inst: Install, s: State, i: nat)
    requires Reachable(inst, s) && i < |s.trace| && s.trace[i].FlipRequested?
    ensures WipedBy(s.trace, Marks(s.trace[i].prepareAt, s.trace[i].eraseAt, s.trace[i].finishAt), i)
    ensures var d := s.trace[i].recordedAt;
            && d < i && s.trace[d].Recorded? && s.trace[d].end != Unchanged
            && s.trace[d].verityAt < d && s.trace[s.trace[d].verityAt] == VerityConfirmed
            && (Careful(s.trace) ==> Durably(s.trace, d, i) && SafelyLogged(s.flag, d))
  {
    ReachableTrace(inst, s);
    assert EventOk(s.trace, i);
    assert EventOk(s.trace, s.trace[i].recordedAt);
    if Careful(s.trace) { assert RestsSafely(s.flag, s.trace, i); }
  }

  lemma ReachableTrace(inst: Install, s: State)
    requires Reachable(inst, s)
    ensures s.flag.Valid() && TraceOk(s.trace) && SafetyOk(s)
  {
    ReachableKeeps(inst, s);
    ReachableLedger(inst, s);
  }

  /** What the flip finds: exactly the preserved paths of the tree that prepare found, or, if the host wrote to the
      volume during the wipe, exactly what the final pass leaves of the last tree the host wrote. No
      deletion is still unsynced, verity is off, and the flag carries the phase; its record is durable if
      and only if it returned nil or was followed by a reboot. */
  lemma FlipFinds(inst: Install, s: State, ok: bool, tookEffect: bool)
    requires Reachable(inst, s) && Next(inst, s, Flip(ok, tookEffect)).Some?
    ensures LeftOf(BasisOf(s.trace), s.tree) && s.unsynced == map[]
    ensures s.verityOff && s.Flag().armed && RecordedAt(s.trace, s.flag.Newest().at, s.Flag().owner)
    ensures s.flag.Settled() <==> Durably(s.trace, s.flag.Newest().at, |s.trace|)
    ensures Careful(s.trace) ==> s.flag.Settled()
  {
    ReachableLedger(inst, s);
    ReachableKeeps(inst, s);
    NewestOk(s);
    WholeBasis(s.pc, BasisOf(s.trace), s.tree);
  }

  /** The wipe is final: when the flip is due, and from then on, no power loss brings anything back. */
  lemma NothingComesBack(inst: Install, s: State, keep: nat, mode: Mode, back: set<Path>)
    requires Reachable(inst, s) && (s.pc.Flipping? || s.pc.Finalizing?) && CanLose(s, keep, back)
    ensures s.unsynced == map[] && PowerLossStep(s, keep, mode, back).tree == s.tree
    ensures s.pc.Flipping? ==> forall ok, tookEffect :: FlipStep(s, ok, tookEffect).unsynced == map[]
  {
    ReachableKeeps(inst, s);
    assert Revived(s.tree, map[], back) == map[];
  }

  /** Until the pass has synced its directory a deletion is not final: a power loss right after it can give back
      exactly the tree that was there before. */
  lemma UnsyncedDeletionCanComeBack(inst: Install, s: State, p: Path, mode: Mode) returns (after: State)
    requires Reachable(inst, s) && s.pc.Sweeping? && Allowed(s.tree, Remove(s.pc.pass, p))
    ensures Run(inst, s, [RemoveOne(p)] + [Action.LosePower(|s.flag.log|, mode, {p})]) == Some(after)
    ensures after.tree == s.tree && after.pc == Idle && after.Flag() == s.Flag()
  {
    ReachableKeeps(inst, s);
    after := RemoveThenLose(inst, s, p, mode);
  }

  lemma RemoveThenLose(inst: Install, s: State, p: Path, mode: Mode) returns (after: State)
    requires s.flag.Valid() && WellFormed(s.tree) && s.pc.Sweeping? && Allowed(s.tree, Remove(s.pc.pass, p))
    ensures Run(inst, s, [RemoveOne(p)] + [Action.LosePower(|s.flag.log|, mode, {p})]) == Some(after)
    ensures after.tree == s.tree && after.pc == Idle && after.Flag() == s.Flag()
  {
    after := LossUndoes(s, p, mode);
    RunTwo(inst, s, RemoveOne(p), RemoveStep(s, p), Action.LosePower(|s.flag.log|, mode, {p}), after);
  }

  lemma RunTwo(inst: Install, s: State, a: Action, s1: State, b: Action, s2: State)
    requires s.flag.Valid() && Next(inst, s, a) == Some(s1) && Next(inst, s1, b) == Some(s2)
    ensures Run(inst, s, [a] + [b]) == Some(s2)
  {
    RunOne(inst, s, a);
    RunOne(inst, s1, b);
    RunConcat(inst, s, [a], [b]);
  }

  lemma LossUndoes(s: State, p: Path, mode: Mode) returns (after: State)
    requires s.flag.Valid() && WellFormed(s.tree) && s.pc.Sweeping? && p in s.tree
    ensures CanLose(RemoveStep(s, p), |s.flag.log|, {p}) && after == PowerLossStep(RemoveStep(s, p), |s.flag.log|, mode, {p})
    ensures after.tree == s.tree && after.pc == Idle && after.Flag() == s.Flag()
  {
    RevivedIsUndone(s.tree, s.unsynced, p);
    assert s.flag.log[..|s.flag.log|] == s.flag.log;
    after := PowerLossStep(RemoveStep(s, p), |s.flag.log|, mode, {p});
  }

  lemma RevivedIsUndone(t: Tree, lost: Tree, p: Path)
    requires p in t
    ensures Unlink(t, p) + Revived(Unlink(t, p), lost[p := t[p]], {p}) == t
  {
  }

  /** `t` is what a completed wipe leaves of `b`. */
  predicate LeftOf(b: Basis, t: Tree) {
    match b
    case NoBasis => false
    case Found(t0) => t == Survivors(t0)
    case Rewritten(t0) => t == Finished(t0)
  }

  lemma WholeBasis(pc: Pc, b: Basis, t: Tree)
    requires !pc.Sweeping? && Follows(pc, b, t) && Clean(t, FinalPass)
    ensures LeftOf(b, t)
  {
    assert Finished(t) == t;
    if b.Found? { FinishedIs(t); }
  }

  /** So at the flip every path is preserved or a stray below boot, and only preserved paths are left if and only
      if the host, should it have written during the wipe, left no stray there. */
  lemma FlipFindsOnlyKept(inst: Install, s: State, ok: bool, tookEffect: bool)
    requires Reachable(inst, s) && Next(inst, s, Flip(ok, tookEffect)).Some?
    ensures forall p | p in s.tree :: Kept(p) || Stray(p)
    ensures (forall p | p in s.tree :: Kept(p)) <==>
            (BasisOf(s.trace).Rewritten? ==> Scrubbed(BasisOf(s.trace).tree))
  {
    FlipFinds(inst, s, ok, tookEffect);
    FinishedIs(BasisOf(s.trace).tree);
  }

  /** The documented purpose of the second pass, to remove whatever was recreated between the two phases, fails
      for strays: on every recognised volume there is a run that unlocks the device with a file left in
      boot that no pass keeps. */
  lemma RecreatedStraySurvives(inst: Install, t: Tree, name: string) returns (s: State)
    requires WellFormed(t) && Recognised(inst, t) && name !in {EFI, ROOTFS}
    ensures s.flag.Valid() && Reachable(inst, s) && !s.locked
    ensures [BOOT, name] in s.tree && !Kept([BOOT, name])
  {
    var stray := [BOOT, name];
    assert BootPass.Dooms(stray);
    DoomedIsNotKept(BootPass, stray);
    var s0 := ArmedDevice(inst, t);
    var s1 := PinAndValidate(inst, s0);
    var s2 := DurableRecord(inst, s1);
    var s3 := PrepareReaches(inst, s2);
    PreparedIsRecognised(inst, t);
    PreparedAt(t, stray);
    var s4 := EraseReaches(inst, s3);
    FinishingIsRecognised(inst, s4);
    s := HostThenFlip(inst, s4, stray);
  }

  lemma DurableRecord(inst: Install, s: State) returns (s': State)
    requires s.flag.Valid() && Reachable(inst, s) && s.pc.Validated? && s.pc.f == s.Flag()
    requires s.Flag().armed && s.Flag().phase == ""
    ensures s'.flag.Valid() && Reachable(inst, s') && s'.pc == Preparing && s'.tree == s.tree
  {
    var s1 := DisableVerityStep(s, true, true);
    ReachableStep(inst, s, DisableVerity(true, true), s1);
    var s2 := ConfirmVerityStep(s1, Says(true));
    ReachableStep(inst, s1, ConfirmVerity(Says(true)), s2);
    s' := RecordStep(s2, Durable);
    ReachableStep(inst, s2, Record(Durable), s');
  }

  lemma FinishingIsRecognised(inst: Install, s: State)
    requires Reachable(inst, s) && s.pc.Finishing?
    ensures WellFormed(s.tree) && Recognised(inst, s.tree)
  {
    ReachableKeeps(inst, s);
  }

  /** The host puts a file into boot after the custody erase, and the call goes on to the flip. */
  lemma HostThenFlip(inst: Install, s: State, stray: Path) returns (s': State)
    requires s.flag.Valid() && Reachable(inst, s) && s.pc.Finishing? && WellFormed(s.tree) && Recognised(inst, s.tree)
    requires stray !in s.tree && |stray| == 2 && stray[0] == BOOT && !Kept(stray)
    ensures s'.flag.Valid() && Reachable(inst, s') && !s'.locked && stray in s'.tree
  {
    var after := StrayCreated(inst, s.tree, stray);
    var s1 := HostReaches(inst, s, after);
    var s2 := FinishReaches(inst, s1);
    s' := FlipReaches(inst, s2);
  }

  lemma HostReaches(inst: Install, s: State, after: Tree) returns (s': State)
    requires s.flag.Valid() && Reachable(inst, s) && HostMayWrite(s.pc) && WellFormed(after) && Recognised(inst, after)
    ensures s' == s.Log(HostWrote(after)).(tree := after) && Reachable(inst, s')
  {
    s' := s.Log(HostWrote(after)).(tree := after);
    ReachableStep(inst, s, HostWrites(after), s');
  }

  lemma FlipReaches(inst: Install, s: State) returns (s': State)
    requires s.flag.Valid() && Reachable(inst, s) && s.pc.Flipping?
    ensures s'.flag.Valid() && Reachable(inst, s') && !s'.locked && s'.tree == s.tree
  {
    s' := FlipStep(s, true, true);
    ReachableStep(inst, s, Flip(true, true), s');
  }

  lemma StrayCreated(inst: Install, t: Tree, stray: Path) returns (after: Tree)
    requires WellFormed(t) && Recognised(inst, t)
    requires stray !in t && |stray| == 2 && stray[0] == BOOT && !Kept(stray)
    ensures WellFormed(after) && Recognised(inst, after) && stray in Finished(after)
  {
    NamesDiffer();
    assert Parent(stray) == BOOT_DIR;
    CreateKeepsVolume(inst, t, stray, File(""));
    after := t[stray := File("")];
  }

  lemma FinishReaches(inst: Install, s: State) returns (s': State)
    requires s.flag.Valid() && Reachable(inst, s) && s.pc.Finishing? && Recognised(inst, s.tree)
    ensures s'.flag == s.flag && Reachable(inst, s') && s'.pc.Flipping? && s'.tree == Finished(s.tree)
  {
    var s1 := s.At(Sweeping(FinalPass, s.pc.marks));
    ReachableStep(inst, s, StartFinish, s1);
    s' := PassLeads(inst, s1);
    LeadsReaches(inst, s1, s');
  }

  // ---- consent ----

  /** The chain of consent behind a wipe step: the owner's PIN was accepted by the runtime arm handler, that check
      paid for the flag write that armed this owner, the same owner's PIN was accepted again by the unlock
      call that recorded the phase, no flag write at all was asked for between that check and the record,
      and none between the arm and the record reached the medium. */
  ghost predicate ConsentBehind(trace: seq<Event>, uid: int, recordedAt: nat) {
    && RecordedAt(trace, recordedAt, uid)
    && var b, c := trace[recordedAt].armedAt, trace[recordedAt].pinAt;
       && b < c < recordedAt
       && trace[b].Armed? && trace[b].uid == uid && trace[b].end != Unchanged
       && trace[b].pinAt < b && trace[trace[b].pinAt] == ArmPin(uid)
       && trace[c] == UnlockPin(uid, Says(true))
       && NoCallBetween(trace, c, recordedAt) && NoWriteBetween(trace, c, recordedAt)
       && NoneDurableBetween(trace, b, recordedAt)
  }

  lemma ConsentChain(inst: Install, s: State, i: nat)
    requires Reachable(inst, s) && i < |s.trace| && IsWipe(s.trace[i])
    ensures s.trace[i].recordedAt < i && ConsentBehind(s.trace, s.trace[i].uid, s.trace[i].recordedAt)
  {
    ReachableKeeps(inst, s);
    assert EventOk(s.trace, i);
    ChainBehind(s.trace, s.trace[i].uid, s.trace[i].recordedAt);
  }

  lemma ChainBehind(trace: seq<Event>, uid: int, d: nat)
    requires TraceOk(trace) && RecordedAt(trace, d, uid)
    ensures ConsentBehind(trace, uid, d)
  {
    assert EventOk(trace, d);
    assert EventOk(trace, trace[d].armedAt);
  }

  /** The owner is unchanged in between: whenever a call makes a wipe step, the flag value before its phase record is
      the one that the owner's arm wrote, the record changed nothing but the phase, and the step is logged
      for that owner and that record. */
  lemma OwnerUnchanged(inst: Install, s: State, a: Action)
    requires Reachable(inst, s) && (a.RemoveOne? || a.EraseCustody?) && Next(inst, s, a).Some?
    ensures var log, n := s.flag.log, |s.flag.log|;
            && n >= 2
            && Load(log[n - 2].stored).armed && Load(log[n - 2].stored).phase == ""
            && s.Flag() == Load(log[n - 2].stored).(phase := VERITY_OFF)
            && ConsentBehind(s.trace, s.Flag().owner, log[n - 1].at)
            && s.trace[log[n - 1].at].armedAt == log[n - 2].at
    ensures var s' := Next(inst, s, a).value;
            && |s'.trace| == |s.trace| + 1 && IsWipe(s'.trace[|s.trace|])
            && s'.trace[|s.trace|].uid == s.Flag().owner && s'.trace[|s.trace|].recordedAt == s.flag.Newest().at
  {
    PastRecordConsent(inst, s);
  }

  lemma PastRecordConsent(inst: Install, s: State)
    requires Reachable(inst, s) && PastRecord(s.pc)
    ensures var log, n := s.flag.log, |s.flag.log|;
            && n >= 2
            && Load(log[n - 2].stored).armed && Load(log[n - 2].stored).phase == ""
            && s.Flag() == Load(log[n - 2].stored).(phase := VERITY_OFF)
            && ConsentBehind(s.trace, s.Flag().owner, log[n - 1].at)
            && s.trace[log[n - 1].at].armedAt == log[n - 2].at
  {
    ReachableKeeps(inst, s);
    PendingRests(s);
    ChainBehind(s.trace, s.Flag().owner, s.flag.Newest().at);
  }

  lemma PendingRests(s: State)
    requires s.flag.Valid() && LogOk(s.flag.log, s.trace) && Pending(s.flag.Newest())
    ensures var log, n := s.flag.log, |s.flag.log|;
            && n >= 2 && RecordedAt(s.trace, log[n - 1].at, s.Flag().owner)
            && Load(log[n - 2].stored).armed && Load(log[n - 2].stored).phase == ""
            && s.Flag() == Load(log[n - 2].stored).(phase := VERITY_OFF)
            && s.trace[log[n - 1].at].armedAt == log[n - 2].at
  {
    assert EntryOk(s.flag.log, s.trace, |s.flag.log| - 1);
  }

  /** One PIN check of an arm request never pays for two arms. */
  lemma ArmPinPaysOnce(inst: Install, s: State, i: nat, j: nat)
    requires Reachable(inst, s) && i < |s.trace| && j < |s.trace|
    requires s.trace[i].Armed? && s.trace[j].Armed? && s.trace[i].pinAt == s.trace[j].pinAt
    ensures i == j
  {
    ReachableKeeps(inst, s);
  }

  /** Neither server alone can take a device from consent to wipe: outside runtime mode no step arms the flag or
      changes the owner of an armed one, and outside recovery mode no step starts, continues or finishes an unlock call. */
  lemma ModesAreSeparate(inst: Install, s: State, a: Action)
    requires Reachable(inst, s) && Next(inst, s, a).Some? && !a.LosePower?
    ensures s.mode == Recovery && Next(inst, s, a).value.Flag().armed ==>
              s.Flag().armed && Next(inst, s, a).value.Flag().owner == s.Flag().owner
    ensures s.mode == Runtime ==>
              var s' := Next(inst, s, a).value;
              && s'.pc == Idle && s'.locked == s.locked && s'.verityOff == s.verityOff
              && (s'.tree == s.tree || a.HostWrites?)
              && forall i | |s.trace| <= i < |s'.trace| :: !IsCall(s'.trace[i]) && !IsWipe(s'.trace[i])
  {
    ReachableKeeps(inst, s);
    if s.mode == Recovery { RecoveryNeverArms(inst, s, a); } else { RuntimeNeverUnlocks(inst, s, a); }
  }

  lemma OthersKeepFlag(inst: Install, s: State, a: Action)
    requires s.flag.Valid() && Next(inst, s, a).Some? && !WritesFlag(a) && !a.LosePower?
    ensures Next(inst, s, a).value.flag == s.flag
  {
  }

  lemma RecoveryNeverArms(inst: Install, s: State, a: Action)
    requires Inv(inst, s) && s.mode == Recovery && Next(inst, s, a).Some? && !a.LosePower?
    ensures Next(inst, s, a).value.Flag().armed ==>
              s.Flag().armed && Next(inst, s, a).value.Flag().owner == s.Flag().owner
  {
    if WritesFlag(a) { NewestOk(s); } else { OthersKeepFlag(inst, s, a); }
  }

  lemma RuntimeNeverUnlocks(inst: Install, s: State, a: Action)
    requires Inv(inst, s) && s.mode == Runtime && Next(inst, s, a).Some? && !a.LosePower?
    ensures var s' := Next(inst, s, a).value;
            && s'.pc == Idle && s'.locked == s.locked && s'.verityOff == s.verityOff
            && (s'.tree == s.tree || a.HostWrites?)
            && forall i | |s.trace| <= i < |s'.trace| :: !IsCall(s'.trace[i]) && !IsWipe(s'.trace[i])
  {
    assert s.pc == Idle;
    RuntimeActions(inst, s, a);
    RuntimeStep(inst, s, a);
  }

  lemma RuntimeActions(inst: Install, s: State, a: Action)
    requires s.flag.Valid() && s.pc == Idle && s.mode == Runtime && Next(inst, s, a).Some? && !a.LosePower?
    ensures a.LockState? || a.CheckArmPin? || a.Arm? || a.Disarm? || a.HostWrites?
  {
  }

  lemma RuntimeStep(inst: Install, s: State, a: Action)
    requires s.flag.Valid() && s.pc == Idle && Next(inst, s, a).Some?
    requires a.LockState? || a.CheckArmPin? || a.Arm? || a.Disarm? || a.HostWrites?
    ensures var s' := Next(inst, s, a).value;
            && s'.pc == Idle && s'.locked == s.locked && s'.verityOff == s.verityOff
            && (s'.tree == s.tree || a.HostWrites?)
            && forall i | |s.trace| <= i < |s'.trace| :: !IsCall(s'.trace[i]) && !IsWipe(s'.trace[i])
  {
    if a.LockState? || a.Arm? || a.Disarm? { RuntimeWrite(inst, s, a); }
  }

  lemma RuntimeWrite(inst: Install, s: State, a: Action)
    requires s.flag.Valid() && s.pc == Idle && Next(inst, s, a).Some? && (a.LockState? || a.Arm? || a.Disarm?)
    ensures var s' := Next(inst, s, a).value;
            && s' == s.(flag := s'.flag, trace := s'.trace, grants := s'.grants)
            && forall i | |s.trace| <= i < |s'.trace| :: !IsCall(s'.trace[i]) && !IsWipe(s'.trace[i])
  {
    match a {
      case LockState(_, _) =>
      case Arm(_, _, _) =>
      case Disarm(_, _) =>
    }
  }

  // ---- confinement ----

  /** In every run, every single deletion is strictly below the data directory, reached through real
      directories only, spares every preserved path, and leaves a volume that is still recognised. */
  lemma DeletionsAreConfined(inst: Install, s: State, p: Path)
    requires Reachable(inst, s) && Next(inst, s, RemoveOne(p)).Some?
    ensures |p| > 0 && !Kept(p)
    ensures forall k | 0 <= k < |p| :: RealDir(s.tree, p[..k])
    ensures Recognised(inst, s.tree) && Recognised(inst, Next(inst, s, RemoveOne(p)).value.tree)
    ensures Survivors(Next(inst, s, RemoveOne(p)).value.tree) == Survivors(s.tree)
  {
    ReachableKeeps(inst, s);
    RemoveIsConfined(inst, s.tree, s.pc.pass, p);
    DoomedIsNotKept(s.pc.pass, p);
  }
}
