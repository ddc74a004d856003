/**
 The count of unlocks, which the flag carries for attestation, against the transactions that were begun.
 */
module UnlockCount {
  import opened FlagRegister
  import opened DataVolume
  import opened UnlockMachine
  import opened UnlockInvariant
  import opened UnlockSteps
  import opened UnlockLedger
  import opened UnlockTheorems

  lemma {:induction false} LogConserves(log: seq<Entry>, trace: seq<Event>)
    requires |log| > 0 && LogOk(log, trace)
    ensures Starts(log) == Load(log[|log| - 1].stored).count - Load(log[0].stored).count
                           + if Pending(log[|log| - 1]) then 1 else 0
    decreases |log|
  {
    var n := |log| - 1;
    assert EntryOk(log, trace, n);
    if n == 0 {
      assert log[..0] == [];
      assert Starts(log[..0]) == 0;
    } else {
      var front := log[..n];
      forall k | 0 <= k < n ensures EntryOk(front, trace, k) { assert EntryOk(log, trace, k); }
      LogConserves(front, trace);
      assert EntryOk(log, trace, n - 1);
    }
  }

  /** Count conservation over every run: the transactions ever begun, that is, the phase records in the trace that
      took effect, are those counted as unlocks, the one still pending, and those that power losses took
      back. */
  lemma CountConservation(inst: Install, s: State)
    requires Reachable(inst, s)
    ensures Begun(s.trace) == s.Flag().count - Load(s.flag.log[0].stored).count
                              + (if Pending(s.flag.Newest()) then 1 else 0) + Dropped(s.trace)
  {
    ReachableLog(inst, s);
    LogConserves(s.flag.log, s.trace);
  }

  /** The history counts record `d`: it is still pending, or the very next write finalized it, adding one. */
  predicate CountedOnce(log: seq<Entry>, trace: seq<Event>, k: nat)
    requires k < |log|
  {
    && Pending(log[k])
    && (k + 1 < |log| ==>
          && log[k + 1].at < |trace| && trace[log[k + 1].at].Finalized?
          && !Pending(log[k + 1]) && Load(log[k + 1].stored).count == Load(log[k].stored).count + 1)
  }

  /** In a careful history every transaction that got as far as a flip request is in the flag history for good, and
      is counted there exactly once or still pending. */
  lemma FlipIsCounted(inst: Install, s: State, i: nat) returns (k: nat)
    requires Reachable(inst, s) && Careful(s.trace) && i < |s.trace| && s.trace[i].FlipRequested?
    ensures k < s.flag.synced <= |s.flag.log| && s.flag.log[k].at == s.trace[i].recordedAt
    ensures CountedOnce(s.flag.log, s.trace, k)
    ensures forall j | 0 <= j < |s.flag.log| && s.flag.log[j].at == s.trace[i].recordedAt :: j == k
    ensures s.Flag().count > Load(s.flag.log[0].stored).count || Pending(s.flag.Newest())
  {
    FlipComesLast(inst, s, i);
    var m :| 0 <= m < s.flag.synced && s.flag.log[m].at == s.trace[i].recordedAt;
    k := m;
    LoggedIsCounted(inst, s, k);
  }

  lemma LoggedIsCounted(inst: Install, s: State, k: nat)
    requires Reachable(inst, s) && k < |s.flag.log| && s.flag.log[k].at < |s.trace| && s.trace[s.flag.log[k].at].Recorded?
    ensures CountedOnce(s.flag.log, s.trace, k)
    ensures forall j | 0 <= j < |s.flag.log| && s.flag.log[j].at == s.flag.log[k].at :: j == k
    ensures s.Flag().count > Load(s.flag.log[0].stored).count || Pending(s.flag.Newest())
  {
    ReachableLog(inst, s);
    assert EventOk(s.trace, 0);
    RecordIsCounted(s.flag.log, s.trace, k);
    forall j | 0 <= j < |s.flag.log| && j != k ensures s.flag.log[j].at != s.flag.log[k].at {
      if j < k { LogIsStrict(s.flag.log, s.trace, j, k); } else { LogIsStrict(s.flag.log, s.trace, k, j); }
    }
    LogConserves(s.flag.log, s.trace);
    StartsIsPositiveIff(s.flag.log);
  }

  lemma ReachableLog(inst: Install, s: State)
    requires Reachable(inst, s)
    ensures s.flag.Valid() && LogOk(s.flag.log, s.trace) && TraceOk(s.trace) && s.flag.log[0].at == 0 && |s.trace| > 0
    ensures AccountOk(s)
  {
    ReachableKeeps(inst, s);
    ReachableLedger(inst, s);
  }

  lemma RecordIsCounted(log: seq<Entry>, trace: seq<Event>, k: nat)
    requires LogOk(log, trace) && k < |log| && log[k].at < |trace| && trace[log[k].at].Recorded?
    requires k > 0
    ensures CountedOnce(log, trace, k)
  {
    assert EntryOk(log, trace, k);
    if k + 1 < |log| { assert EntryOk(log, trace, k + 1); }
  }

  lemma LogIsStrict(log: seq<Entry>, trace: seq<Event>, i: nat, j: nat)
    requires LogOk(log, trace) && i < j < |log|
    ensures log[i].at < log[j].at
  {
    LogIsOrdered(log, trace, i, j - 1);
    assert EntryOk(log, trace, j);
  }

  // ---- the count is monotonic, except ----

  predicate IsFinalizing(log: seq<Entry>, trace: seq<Event>, k: nat) {
    k < |log| && log[k].at < |trace| && trace[log[k].at].Finalized?
  }

  /** Along the flag history the count never goes down, and goes up exactly at finalizing writes. */
  lemma {:induction false} CountAlong(log: seq<Entry>, trace: seq<Event>, i: nat, j: nat)
    requires LogOk(log, trace) && i <= j < |log|
    ensures Load(log[i].stored).count <= Load(log[j].stored).count
    ensures Load(log[i].stored).count < Load(log[j].stored).count <==>
            exists k: nat :: i < k <= j && IsFinalizing(log, trace, k)
    decreases j
  {
    if i < j {
      CountAlong(log, trace, i, j - 1);
      assert EntryOk(log, trace, j);
      assert IsFinalizing(log, trace, j) ==> Load(log[j].stored).count == Load(log[j - 1].stored).count + 1;
    }
  }

  /** The visible count goes down in exactly one way: a power loss takes back a finalizing write whose directory sync
      had failed. */
  lemma CountGoesDownIff(inst: Install, s: State, a: Action)
    requires Reachable(inst, s) && Next(inst, s, a).Some?
    ensures Next(inst, s, a).value.Flag().count < s.Flag().count <==>
            a.LosePower? && exists k: nat :: a.keep <= k && IsFinalizing(s.flag.log, s.trace, k)
    ensures a.LosePower? ==> forall k: nat | a.keep <= k && IsFinalizing(s.flag.log, s.trace, k) ::
                               EndOf(s.trace[s.flag.log[k].at]) == Unsynced
  {
    if a.LosePower? {
      LossLowersCountIff(inst, s, a.keep);
    } else {
      ReachablePast(inst, s);
      CountOnlyGrows(inst, s, a);
    }
  }

  lemma LossLowersCountIff(inst: Install, s: State, keep: nat)
    requires Reachable(inst, s) && s.flag.synced <= keep <= |s.flag.log|
    ensures Load(s.flag.Lose(keep).Newest().stored).count < s.Flag().count <==>
            exists k: nat :: keep <= k && IsFinalizing(s.flag.log, s.trace, k)
    ensures forall k: nat | keep <= k && IsFinalizing(s.flag.log, s.trace, k) ::
              EndOf(s.trace[s.flag.log[k].at]) == Unsynced
  {
    ReachableKeeps(inst, s);
    CountAlong(s.flag.log, s.trace, keep - 1, |s.flag.log| - 1);
    forall k: nat | keep <= k && IsFinalizing(s.flag.log, s.trace, k)
      ensures EndOf(s.trace[s.flag.log[k].at]) == Unsynced
    {
      LostIsUnsynced(s, k);
    }
  }

  lemma CountOnlyGrows(inst: Install, s: State, a: Action)
    requires PastOk(s) && (s.pc.Recording? ==> s.pc.f == s.Flag()) && Next(inst, s, a).Some? && !a.LosePower?
    ensures Next(inst, s, a).value.Flag().count >= s.Flag().count
  {
    if !WritesFlag(a) {
      OthersKeepFlag(inst, s, a);
    } else if a.Record? {
      assert Next(inst, s, a).value.flag == s.flag.Put(Entry(Saved(s.pc.f.(phase := VERITY_OFF)), |s.trace|), a.end);
    } else {
      NewestOk(s);
    }
  }

  lemma LostIsUnsynced(s: State, k: nat)
    requires s.flag.Valid() && LogOk(s.flag.log, s.trace) && DurabilityOk(s) && s.flag.synced <= k < |s.flag.log|
    ensures s.flag.log[k].at < |s.trace| && EndOf(s.trace[s.flag.log[k].at]) == Unsynced
  {
    assert EntryOk(s.flag.log, s.trace, k);
    LogIsOrdered(s.flag.log, s.trace, s.flag.synced - 1, k - 1);
  }

  /** And an unlock can go uncounted for good: after an unsynced retry (see `UnsyncedRetryCanStrand`) that runs to its
      end, with a clean-up write that fails to sync, a power loss can take back both the record and the
      count. The device is unlocked, still armed, and nothing is pending or counted. */
  lemma UnlockCanGoUncounted(inst: Install, t: Tree) returns (s: State)
    requires WellFormed(t) && Recognised(inst, t)
    ensures s.flag.Valid() && Reachable(inst, s) && s.pc == Idle && !s.locked
    ensures s.Flag() == Flag(true, 0, 1000, "") && Load(s.flag.log[0].stored).count == 0
    ensures exists i :: 0 <= i < |s.trace| && s.trace[i].FlipRequested?
  {
    var wiped, prior := UnsyncedRetry(inst, t);
    FinishingIsRecognised(inst, wiped);
    var flipping := FinishReaches(inst, wiped);
    s := UncountedFrom(inst, flipping, prior);
  }

  lemma UncountedFrom(inst: Install, s: State, prior: Register<Entry>) returns (s': State)
    requires s.flag.Valid() && Reachable(inst, s) && s.pc.Flipping?
    requires prior.Valid() && s.flag.synced == |prior.log| <= |s.flag.log| && s.flag.log[..|prior.log|] == prior.log
    ensures s'.flag.Valid() && Reachable(inst, s') && s'.pc == Idle && !s'.locked
    ensures s'.Flag() == Load(prior.Newest().stored) && s'.flag.log[0] == prior.log[0]
    ensures exists i :: 0 <= i < |s'.trace| && s'.trace[i].FlipRequested?
  {
    var s1 := FlipStep(s, true, true);
    ReachableStep(inst, s, Flip(true, true), s1);
    var s2 := s1.Write(FinalizedFlag(s1.Flag()), Finalized(Unsynced), Unsynced).At(Idle);
    ReachableStep(inst, s1, Finalize(Unsynced), s2);
    s' := LosesUnsynced(inst, s2, prior);
    assert s'.trace[|s.trace|].FlipRequested?;
  }

  lemma ReachableTree(inst: Install, s: State)
    requires Reachable(inst, s)
    ensures WellFormed(s.tree)
  {
    ReachableKeeps(inst, s);
  }

  lemma LosesUnsynced(inst: Install, s: State, prior: Register<Entry>) returns (s': State)
    requires s.flag.Valid() && Reachable(inst, s)
    requires prior.Valid() && s.flag.synced == |prior.log| <= |s.flag.log| && s.flag.log[..|prior.log|] == prior.log
    ensures s'.flag.Valid() && Reachable(inst, s') && s'.pc == Idle && s'.locked == s.locked
    ensures s'.Flag() == Load(prior.Newest().stored) && s'.flag.log[0] == prior.log[0]
    ensures s.trace <= s'.trace
  {
    ReachableTree(inst, s);
    NothingRevived(s.tree, s.unsynced);
    s' := PowerLossStep(s, s.flag.synced, Recovery, {});
    ReachableStep(inst, s, LosePower(s.flag.synced, Recovery, {}), s');
  }

  // ---- irrevocability ----

  /** As long as the power stays on, a pending phase is only ever cleared on an unlocked device, and clearing it
      counts the transaction once, whichever call does it. A power loss clears a pending phase of a locked
      device only if its record was never synced. */
  lemma PendingIsIrrevocable(inst: Install, s: State, a: Action)
    requires Reachable(inst, s) && Next(inst, s, a).Some? && Pending(s.flag.Newest())
    requires !Pending(Next(inst, s, a).value.flag.Newest())
    ensures a.LosePower? ==> !s.flag.Settled()
    ensures !a.LosePower? ==> !s.locked && Next(inst, s, a).value.Flag() == Flag(false, s.Flag().count + 1, 0, "")
  {
    ReachablePast(inst, s);
    if a.LosePower? {
      SettledLosesNothing(s.flag, a.keep);
    } else if WritesFlag(a) {
      ClearsOnlyUnlocked(inst, s, a);
    } else {
      OthersKeepFlag(inst, s, a);
    }
  }

  lemma ReachablePast(inst: Install, s: State)
    requires Reachable(inst, s)
    ensures PastOk(s) && (s.pc.Finalizing? ==> !s.locked) && (s.pc.Recording? ==> s.pc.f == s.Flag())
  {
    ReachableKeeps(inst, s);
  }

  lemma SettledLosesNothing(reg: Register<Entry>, keep: nat)
    requires reg.Valid() && reg.synced <= keep <= |reg.log|
    ensures reg.Settled() ==> reg.Lose(keep) == reg
  {
    if keep == |reg.log| { assert reg.log[..keep] == reg.log; }
  }

  lemma ClearsOnlyUnlocked(inst: Install, s: State, a: Action)
    requires PastOk(s) && (s.pc.Finalizing? ==> !s.locked) && Next(inst, s, a).Some? && WritesFlag(a)
    requires Pending(s.flag.Newest()) && !Pending(Next(inst, s, a).value.flag.Newest())
    ensures !s.locked && Next(inst, s, a).value.Flag() == Flag(false, s.Flag().count + 1, 0, "")
  {
    NewestOk(s);
    match a {
      case LockState(_, _) =>
      case Arm(_, _, _) =>
      case Disarm(_, _) =>
      case Record(_) =>
      case Finalize(_) =>
    }
  }
}
