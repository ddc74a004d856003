/**
 The recovery agent in its own imperative form: Core's lock methods and the data wipe. Every method is
 proved to move along the transition system of `UnlockMachine` only, so the theorems about its runs
 hold of every execution of this code.

 Whatever the outside world decides (replies, failures, power losses, what the host writes between the
 two wipe phases) is an arbitrary value chosen inside the methods; `steady` excludes failures and
 power losses, `verdict` is what the PIN verifier answers if it is asked.
 */
module Agent {
  import opened Wrappers
  import opened FlagRegister
  import opened DataVolume
  import opened UnlockMachine
  import opened UnlockInvariant
  import opened UnlockSteps
  import opened UnlockTheorems

  datatype LockInfo = LockInfo(locked: bool, unlockArmed: bool, unlockCount: int)

  /** How an API call ends for its caller. */
  datatype Reply = Granted | Refused | Dead   // Dead: the power went before a reply

  datatype VolumeError =
    | UnsafePath | NotADirectory | MarkerMissing | BadInstallId | IdMismatch
    | NotRealDir(path: Path) | SlotMissing(name: string) | NotMounted

  /** Between `s` and `s'` only the volume was touched and no PIN was asked. */
  predicate OnlyVolume(s: State, s': State) {
    s' == s.(tree := s'.tree, unsynced := s'.unsynced, trace := s'.trace, pc := s'.pc) && PinsAsked(s'.trace) == PinsAsked(s.trace)
  }

  /** ... and only by the wipe itself. */
  predicate OnlyWiped(s: State, s': State) {
    OnlyVolume(s, s') && BasisOf(s'.trace) == BasisOf(s.trace)
  }

  /** `t` is what a complete wipe of a volume found as `found` leaves: its preserved paths, unless the host wrote
      to the volume meanwhile, and then what the final pass leaves of what the host wrote. */
  predicate Completed(found: Tree, trace: seq<Event>, t: Tree) {
    LeftOf(BasisOf(trace), t) && (BasisOf(trace) == Found(found) || BasisOf(trace).Rewritten?)
  }

  /** Most events ask for no PIN and bring no new tree. */
  lemma QuietEvent(trace: seq<Event>, e: Event)
    requires !e.UnlockPin? && !e.ArmPin? && !e.PrepareStarted? && !e.HostWrote?
    ensures PinsAsked(trace + [e]) == PinsAsked(trace) && BasisOf(trace + [e]) == BasisOf(trace)
  {
    PinsAskedGrows(trace, e);
    BasisGrows(trace, e);
  }

  lemma PassDoneIsQuiet(s: State)
    requires s.pc.Sweeping?
    ensures OnlyWiped(s, PassDoneStep(s))
  {
    QuietEvent(s.trace, PrepareDone);
    QuietEvent(s.trace, FinishDone);
  }

  lemma RemoveIsQuiet(s: State, p: Path)
    requires s.flag.Valid() && s.pc.Sweeping? && p in s.tree
    ensures OnlyWiped(s, RemoveStep(s, p))
  {
    QuietEvent(s.trace, Removed(s.Flag().owner, s.flag.Newest().at, p));
  }

  lemma RecordIsQuiet(s: State, end: WriteEnd)
    requires s.flag.Valid() && s.pc.Recording?
    ensures PinsAsked(RecordStep(s, end).trace) == PinsAsked(s.trace)
  {
    PinsAskedGrows(s.trace, Recorded(s.pc.f.owner, s.flag.Newest().at, s.pc.pinAt, s.pc.verityAt, end));
  }

  lemma PrepareIsQuiet(inst: Install, s: State)
    ensures OnlyVolume(s, StartPrepareStep(inst, s))
    ensures Recognised(inst, s.tree) ==> BasisOf(StartPrepareStep(inst, s).trace) == Found(s.tree)
  {
    PinsAskedGrows(s.trace, PrepareStarted(s.tree));
    BasisGrows(s.trace, PrepareStarted(s.tree));
  }

  lemma HostWriteIsQuiet(s: State, after: Tree)
    ensures PinsAsked(s.trace + [HostWrote(after)]) == PinsAsked(s.trace)
    ensures BasisOf(s.trace + [HostWrote(after)]) == Rewritten(after)
  {
    PinsAskedGrows(s.trace, HostWrote(after));
    BasisGrows(s.trace, HostWrote(after));
  }

  /** The consent an owner has given and nothing has used yet, on a volume that can be wiped. */
  predicate Startable(inst: Install, s: State)
    requires s.flag.Valid()
  {
    && s.Flag().armed && s.Flag().owner >= FIRST_OWNER_UID && s.Flag().phase == "" && Recognised(inst, s.tree)
  }

  /** Nothing of `t` is missing in `t'`. */
  predicate Grew(t: Tree, t': Tree) {
    forall p | p in t :: p in t' && t'[p] == t[p]
  }

  /** `t'` is `t` without some of the nodes at or below `target`. */
  predicate Spares(t: Tree, target: Path, t': Tree) {
    && (forall p | p in t' :: p in t && t'[p] == t[p])
    && (forall p | p in t :: p in t' || target <= p)
  }

  /** ReadDir: the names in directory `dir`. */
  function Children(t: Tree, dir: Path): (names: set<string>) {
    set p | p in t && |p| == |dir| + 1 && dir <= p :: p[|dir|]
  }

  lemma ChildOf(t: Tree, dir: Path, p: Path)
    requires WellFormed(t) && p in t && |dir| < |p| && dir <= p
    ensures p[|dir|] in Children(t, dir)
  {
    var child := p[..|dir| + 1];
    if |child| < |p| { AncestorsAreDirs(t, p, |child|); } else { assert child == p; }
    assert child in t && child[|dir|] == p[|dir|];
  }

  /** Clearing one unkept entry changes nothing a pass keeps. */
  lemma DoomedGone(t: Tree, pass: Pass, name: string, t': Tree)
    requires name !in pass.Keep()
    requires forall p :: p in t' <==> p in t && !(pass.Directory() + [name] <= p)
    requires forall p | p in t' :: t'[p] == t[p]
    ensures Swept(t', pass) == Swept(t, pass)
    ensures forall p | p in t' && pass.Dooms(p) :: p[|pass.Directory()|] != name
  {
    var d := pass.Directory();
    forall p ensures d + [name] <= p <==> |d| < |p| && d <= p && p[|d|] == name { EntryHolds(d, name, p); }
    assert Swept(t', pass).Keys == Swept(t, pass).Keys;
  }

  lemma EntryHolds(d: Path, name: string, p: Path)
    ensures d + [name] <= p <==> |d| < |p| && d <= p && p[|d|] == name
  {
    if |d| < |p| && d <= p && p[|d|] == name { assert p[..|d| + 1] == d + [name]; }
  }

  lemma CleanIsSwept(t: Tree, pass: Pass)
    requires Clean(t, pass)
    ensures Swept(t, pass) == t
  {
  }

  /** Step `i` of a history is a step of the transition system. */
  ghost predicate LinkAt(inst: Install, history: seq<State>, i: nat)
    requires i + 1 < |history|
  {
    history[i].flag.Valid() && exists a: Action :: Next(inst, history[i], a) == Some(history[i + 1])
  }

  /** A history is the states of one run from a fresh device. */
  ghost predicate History(inst: Install, history: seq<State>) {
    && |history| > 0 && Fresh(history[0])
    && forall i: nat {:trigger LinkAt(inst, history, i)} | i + 1 < |history| :: LinkAt(inst, history, i)
  }

  lemma ExtendHistory(inst: Install, history: seq<State>, a: Action, s: State)
    requires History(inst, history) && history[|history| - 1].flag.Valid()
    requires Next(inst, history[|history| - 1], a) == Some(s)
    ensures History(inst, history + [s])
  {
    var longer := history + [s];
    forall i: nat | i + 1 < |longer| ensures LinkAt(inst, longer, i) {
      if i + 1 < |history| { assert LinkAt(inst, history, i); }
    }
  }

  lemma {:induction false} HistoryIsReachable(inst: Install, history: seq<State>)
    requires History(inst, history)
    ensures Reachable(inst, history[|history| - 1])
    decreases |history|
  {
    var n := |history| - 1;
    if n == 0 {
      FreshIsReachable(inst, history[0]);
    } else {
      var front := history[..n];
      forall i: nat | i + 1 < |front| ensures LinkAt(inst, front, i) { assert LinkAt(inst, history, i); }
      HistoryIsReachable(inst, front);
      LinkReaches(inst, history, n - 1);
    }
  }

  lemma LinkReaches(inst: Install, history: seq<State>, i: nat)
    requires i + 1 < |history| && LinkAt(inst, history, i) && Reachable(inst, history[i])
    ensures Reachable(inst, history[i + 1])
  {
    var a: Action :| Next(inst, history[i], a) == Some(history[i + 1]);
    ReachableStep(inst, history[i], a, history[i + 1]);
  }

  class Core {
    const inst: Install
    var mode: Mode
    var flag: Register<Entry>
    var locked: bool
    var verityOff: bool
    var tree: Tree
    var unsynced: Tree            // deleted nodes that a power loss may bring back
    // bookkeeping of the model
    var trace: seq<Event>         // journal of primitive calls
    var grants: set<nat>          // accepted PIN checks of arm requests still on their way
    var pc: Pc                    // where a running UnlockBootloader is
    ghost var past: seq<State>    // the states of the transition system that led here

    ghost function View(): (s: State)
      reads this
    {
      State(mode, flag, locked, verityOff, tree, unsynced, trace, grants, pc)
    }

    ghost predicate Valid()
      reads this
    {
      flag.Valid() && History(inst, past) && past[|past| - 1] == View()
    }

    /** Between calls: no Core call holds the lock. */
    ghost predicate Quiet()
      reads this
    {
      Valid() && pc == Idle
    }

    /** So every theorem about reachable states holds of the agent. */
    lemma Holds()
      requires Valid()
      ensures Reachable(inst, View()) && Inv(inst, View())
    {
      HistoryIsReachable(inst, past);
      ReachableKeeps(inst, View());
    }

    lemma FlagIsSane()
      requires Valid()
      ensures Sane(View().Flag())
    {
      Holds();
      NewestOk(View());
    }

    constructor (inst: Install, mode: Mode, stored: Stored, locked: bool, verityOff: bool, tree: Tree)
      requires WellFormed(tree)
      requires stored.Saved? ==> stored.flag == UNARMED.(count := stored.flag.count)
      ensures Quiet() && this.inst == inst
    {
      this.inst := inst;
      this.mode := mode;
      this.flag := Register([Entry(stored, 0)], 1);
      this.locked, this.verityOff, this.tree, this.unsynced := locked, verityOff, tree, map[];
      this.trace, this.grants, this.pc := [Boot], {}, Idle;
      this.past := [State(mode, Register([Entry(stored, 0)], 1), locked, verityOff, tree, map[], [Boot], {}, Idle)];
    }

    // ---- steps of the world ----

    ghost method Stepped(before: State, a: Action)
      requires History(inst, past) && past[|past| - 1] == before && before.flag.Valid()
      requires Next(inst, before, a) == Some(View())
      modifies this`past
      ensures Valid()
    {
      ExtendHistory(inst, past, a, View());
      past := past + [View()];
    }

    /** How many of the flag's values a power loss leaves. */
    method HowManySurvive() returns (keep: nat)
      requires flag.Valid()
      ensures flag.synced <= keep <= |flag.log|
    {
      keep := *;
      if keep < flag.synced { keep := flag.synced; }
      if keep > |flag.log| { keep := |flag.log|; }
    }

    /** Which unsynced deletions a power loss undoes. */
    method WhatComesBack() returns (back: set<Path>)
      requires Valid()
      ensures WellFormed(tree + Revived(tree, unsynced, back))
    {
      back := *;
      var possible := WellFormed(tree + Revived(tree, unsynced, back));
      if !possible {
        Holds();
        NothingRevived(tree, unsynced);
        back := {};
      }
    }

    /** The power goes: unsynced flag writes may be lost, unsynced deletions may be undone, and some server starts
        again. */
    method LosePower()
      requires Valid()
      modifies this
      ensures Quiet() && Grew(old(tree), tree) && (old(unsynced) == map[] ==> tree == old(tree))
      ensures locked == old(locked) && verityOff == old(verityOff)
    {
      var keep := HowManySurvive();
      var next: Mode := *;
      var back := WhatComesBack();
      RestartAs(keep, next, back);
    }

    method RestartAs(keep: nat, next: Mode, back: set<Path>)
      requires Valid() && CanLose(View(), keep, back)
      modifies this
      ensures Valid() && View() == PowerLossStep(old(View()), keep, next, back)
    {
      ghost var before := View();
      assert Next(inst, before, Action.LosePower(keep, next, back)) == Some(PowerLossStep(before, keep, next, back));
      trace := trace + [PowerLost(Starts(flag.log[keep..]))];
      flag, mode, grants, pc := flag.Lose(keep), next, {}, Idle;
      tree, unsynced := tree + Revived(tree, unsynced, back), map[];
      Stepped(before, Action.LosePower(keep, next, back));
    }

    /** Something other than this call may write to the volume. */
    method LetHostWrite()
      requires Valid() && HostMayWrite(pc)
      modifies this
      ensures Valid() && OnlyVolume(old(View()), View()) && pc == old(pc)
      ensures View() == old(View()) || BasisOf(trace) == Rewritten(tree)
    {
      var writes: bool := *;
      var after: Tree := *;
      if writes && WellFormed(after) && (Recognised(inst, tree) ==> Recognised(inst, after)) {
        HostWriteIsQuiet(View(), after);
        HostWrites(after);
      }
    }

    method HostWrites(after: Tree)
      requires Valid() && HostMayWrite(pc) && WellFormed(after) && (Recognised(inst, tree) ==> Recognised(inst, after))
      modifies this
      ensures Valid() && View() == old(View()).Log(HostWrote(after)).(tree := after)
    {
      ghost var before := View();
      trace := trace + [HostWrote(after)];
      tree := after;
      Stepped(before, Action.HostWrites(after));
    }

    /** Before each primitive: an error may end the call, or the power may go. */
    method Proceed(steady: bool) returns (fate: Fate)
      requires Valid() && pc != Idle
      modifies this
      ensures Valid() && (steady ==> fate == Works)
      ensures fate == Works ==> View() == old(View())
      ensures fate != Works ==> pc == Idle && locked == old(locked) && verityOff == old(verityOff) && Grew(old(tree), tree)
      ensures fate != PowerCut || old(unsynced) == map[] ==> tree == old(tree)
      ensures fate != PowerCut ==> mode == old(mode)
    {
      fate := *;
      if steady { fate := Works; }
      if fate == PowerCut {
        LosePower();
      } else if fate == Fails {
        ghost var before := View();
        pc := Idle;
        Stepped(before, Action.Fail);
      }
    }

    method ReadFlag() returns (f: Flag)
      requires flag.Valid()
      ensures f == View().Flag()
    {
      f := Load(flag.log[|flag.log| - 1].stored);
    }

    /** How a flag write will end. */
    method WriteOutcome(steady: bool) returns (end: WriteEnd)
      ensures steady ==> end == Durable
    {
      end := *;
      if steady { end := Durable; }
    }

    /** writeUnlockFlag, with the event it is journalled as. */
    method WriteFlag(f: Flag, e: Event, end: WriteEnd)
      requires flag.Valid()
      modifies this`flag, this`trace
      ensures flag.Valid() && View() == old(View()).Write(f, e, end)
    {
      flag := flag.Put(Entry(Saved(f), |trace|), end);
      trace := trace + [e];
    }

    method ReadLockBit(steady: bool) returns (a: Answer)
      ensures Truthful(a, locked) && (steady ==> a.Says?)
    {
      var failed: bool := *;
      a := if failed && !steady then NoAnswer else Says(locked);
    }

    method ReadVerityOff(steady: bool) returns (a: Answer)
      ensures Truthful(a, verityOff) && (steady ==> a.Says?)
    {
      var failed: bool := *;
      a := if failed && !steady then NoAnswer else Says(verityOff);
    }

    // ---- LockState, ArmUnlockForOwner ----

    /** Fails closed: a device is only ever reported unlocked when the TPM says so, and armed only when the
        stored flag is. */
    method LockState(steady: bool) returns (info: LockInfo, ghost lockBit: Answer, ghost end: WriteEnd)
      requires Quiet()
      modifies this
      ensures Quiet() && Truthful(lockBit, locked) && View() == LockStateStep(old(View()), lockBit, end)
      ensures !info.locked <==> lockBit == Says(false)
      ensures info.unlockArmed <==> View().Flag().armed && View().Flag().owner >= FIRST_OWNER_UID
      ensures info.unlockCount == View().Flag().count
      ensures steady && !locked ==> !info.locked && View().Flag().phase != VERITY_OFF
      ensures steady && View() != old(View()) ==> flag.Settled()
    {
      ghost var before := View();
      FlagIsSane();
      var bit := ReadLockBit(steady);
      lockBit, end := bit, Unchanged;
      var isLocked := if bit.Says? then bit.yes else true;
      var f := ReadFlag();
      if !isLocked && f.armed && f.phase == VERITY_OFF {
        var e := WriteOutcome(steady);
        WriteFlag(Flag(false, f.count + 1, 0, ""), Finalized(e), e);
        end := e;
        f := ReadFlag();
      }
      Stepped(before, Action.LockState(lockBit, end));
      info := LockInfo(isLocked, f.armed && f.owner >= FIRST_OWNER_UID, f.count);
    }

    /** ArmUnlockForOwner(true, uid). A real account comes with its own accepted PIN check. */
    method ArmForOwner(uid: int, grant: nat, steady: bool) returns (ok: bool, ghost end: WriteEnd)
      requires Quiet() && (uid >= FIRST_OWNER_UID ==> HoldsGrant(View(), uid, grant))
      modifies this
      ensures Quiet() && View() == ArmStep(old(View()), uid, grant, end)
      ensures ok ==> View().Flag() == old(View()).Flag().(armed := true, owner := uid) && flag.Settled()
      ensures ok ==> uid >= FIRST_OWNER_UID && old(View()).Flag().phase == ""
      ensures old(View()).Flag().phase != "" ==> flag == old(flag)
      ensures steady && uid >= FIRST_OWNER_UID && old(View()).Flag().phase == "" ==> ok
    {
      ghost var before := View();
      FlagIsSane();
      var f := ReadFlag();
      grants := grants - {grant};
      end := Unchanged;
      if uid < FIRST_OWNER_UID || (f.armed && f.phase != "") {
        ok := false;
      } else {
        var e := WriteOutcome(steady);
        WriteFlag(f.(armed := true, owner := uid, phase := ""), Armed(uid, grant, e), e);
        ok, end := e == Durable, e;
      }
      assert View() == ArmStep(before, uid, grant, end);
      Stepped(before, Action.Arm(uid, grant, end));
    }

    /** ArmUnlockForOwner(false, 0). */
    method Disarm(steady: bool) returns (ok: bool, ghost lockBit: Answer, ghost end: WriteEnd)
      requires Quiet()
      modifies this
      ensures Quiet() && Truthful(lockBit, locked) && View() == DisarmStep(old(View()), lockBit, end)
      ensures ok ==> View().Flag() == FinalizedFlag(old(View()).Flag()) && flag.Settled()
      ensures old(View()).Flag().phase != "" && locked ==> !ok && View() == old(View())
      ensures steady && (old(View()).Flag().phase == "" || !locked) ==> ok
    {
      ghost var before := View();
      var f := ReadFlag();
      lockBit, end := NoAnswer, Unchanged;
      if f.phase != "" {
        var bit := ReadLockBit(steady);
        lockBit := bit;
        if bit != Says(false) {
          ok := false;
        } else {
          var e := WriteOutcome(steady);
          WriteFlag(Flag(false, f.count + 1, 0, ""), Finalized(e), e);
          ok, end := e == Durable, e;
        }
      } else {
        var e := WriteOutcome(steady);
        WriteFlag(f.(armed := false, owner := 0, phase := ""), Disarmed(e), e);
        ok, end := e == Durable, e;
      }
      Stepped(before, Action.Disarm(lockBit, end));
    }

    // ---- data_wipe.go ----

    /** validateDataDir. */
    method ValidateDataDir() returns (err: Option<VolumeError>)
      ensures err.None? <==> Recognised(inst, tree)
    {
      if !inst.safePath { return Some(UnsafePath); }
      if !RealDir(tree, []) { return Some(NotADirectory); }
      if !RegularFile(tree, [MARKER]) { return Some(MarkerMissing); }
      var dataId := InstallIdOf(NodeAt(tree, [INSTALL_ID]));
      if dataId.None? { return Some(BadInstallId); }
      if InstallIdOf(inst.espId) != dataId { return Some(IdMismatch); }
      if !RealDir(tree, BOOT_DIR) { return Some(NotRealDir(BOOT_DIR)); }
      if !RealDir(tree, ROOTFS_DIR) { return Some(NotRealDir(ROOTFS_DIR)); }
      if !AbsentOrRealDir(tree, LIB_DIR) { return Some(NotRealDir(LIB_DIR)); }
      if !AbsentOrRealDir(tree, CUSTODY_DIR) { return Some(NotRealDir(CUSTODY_DIR)); }
      var names := ["deployment.json", "rootfs-active.erofs", "rootfs-active.hash"];
      assert forall name | name in REQUIRED_SLOTS :: name in names;
      assert forall i | 0 <= i < |names| :: names[i] in REQUIRED_SLOTS;
      for i := 0 to |names|
        invariant forall j | 0 <= j < i :: RegularFile(tree, ROOTFS_DIR + [names[j]])
      {
        if !RegularFile(tree, ROOTFS_DIR + [names[i]]) { return Some(SlotMissing(names[i])); }
      }
      if inst.requireMount && !inst.distinctMount { return Some(NotMounted); }
      return None;
    }

    /** os.RemoveAll of one unkept child: nodes go one at a time, children before their directory, and nothing
        else does. */
    method RemoveAll(target: Path, steady: bool) returns (fate: Fate)
      requires Valid() && pc.Sweeping? && pc.pass.Dooms(target)
      modifies this
      ensures Valid() && (steady ==> fate == Works)
      ensures fate == Works ==> OnlyWiped(old(View()), View()) && pc == old(pc)
      ensures fate == Works ==> forall p :: p in tree <==> p in old(tree) && !(target <= p)
      ensures fate == Works ==> forall p | p in tree :: tree[p] == old(tree)[p]
      ensures fate != Works ==> pc == Idle && locked == old(locked)
      ensures fate != PowerCut ==> mode == old(mode)
    {
      ghost var start := View();
      fate := Works;
      while fate == Works && exists p :: p in tree && target <= p
        invariant Valid() && (steady ==> fate == Works)
        invariant fate == Works ==> pc == start.pc && OnlyWiped(start, View()) && Spares(start.tree, target, tree)
        invariant fate != Works ==> pc == Idle && locked == start.locked
        invariant fate != PowerCut ==> mode == start.mode
        decreases if fate == Works then |tree| + 1 else 0
      {
        fate := RemoveSome(target, steady);
      }
    }

    /** One deletion at or below `target`. */
    method RemoveSome(target: Path, steady: bool) returns (fate: Fate)
      requires Valid() && pc.Sweeping? && pc.pass.Dooms(target) && exists p :: p in tree && target <= p
      modifies this
      ensures Valid() && (steady ==> fate == Works)
      ensures fate == Works ==> OnlyWiped(old(View()), View()) && pc == old(pc) && |tree| < |old(tree)|
      ensures fate == Works ==> Spares(old(tree), target, tree)
      ensures fate != Works ==> pc == Idle && locked == old(locked)
      ensures fate != PowerCut ==> mode == old(mode)
    {
      var victim := FindLeaf(target, pc.pass);
      RemoveTowardsSwept(tree, pc.pass, victim);
      fate := Proceed(steady);
      if fate != Works { return; }
      RemoveNode(victim);
    }

    /** Something at or below `target` with nothing below it. */
    method FindLeaf(target: Path, ghost pass: Pass) returns (victim: Path)
      requires pass.Dooms(target) && exists p :: p in tree && target <= p
      ensures Leaf(tree, victim) && pass.Dooms(victim) && target <= victim
    {
      ghost var doomed :| doomed in tree && target <= doomed;
      ghost var leaf := DoomedLeafBelow(tree, pass, doomed);
      assert target <= leaf && Leaf(tree, leaf);
      victim :| victim in tree && target <= victim && Leaf(tree, victim);
    }

    /** One unlink or rmdir. */
    method RemoveNode(p: Path)
      requires Valid() && pc.Sweeping? && pc.pass.Dooms(p) && Leaf(tree, p)
      modifies this
      ensures Valid() && View() == RemoveStep(old(View()), p) && OnlyWiped(old(View()), View())
    {
      ghost var before := View();
      assert Next(inst, before, Action.RemoveOne(p)) == Some(RemoveStep(before, p));
      RemoveIsQuiet(before, p);
      var f := ReadFlag();
      trace := trace + [Removed(f.owner, flag.log[|flag.log| - 1].at, p)];
      tree, unsynced := Unlink(tree, p), unsynced[p := tree[p]];
      Stepped(before, Action.RemoveOne(p));
    }

    /** removeChildrenExcept over the directory of `pass`, with the closing directory sync. */
    method RemoveChildrenExcept(pass: Pass, steady: bool) returns (fate: Fate)
      requires Valid() && pc.Sweeping? && pc.pass == pass
      modifies this
      ensures Valid() && (steady ==> fate == Works)
      ensures fate == Works ==> OnlyWiped(old(View()), View()) && tree == Swept(old(tree), pass)
      ensures fate == Works ==> exists now: nat :: pc == NextPc(pass, old(pc).marks, now)
      ensures fate != Works ==> pc == Idle && locked == old(locked)
      ensures fate != PowerCut ==> mode == old(mode)
    {
      var entries := ReadDir(pass);
      fate := RemoveEntries(pass, entries, steady);
      if fate != Works { return; }
      CleanIsSwept(tree, pass);
      fate := SyncDir(pass, steady);
    }

    /** The loop over the entries of the pass directory. */
    method RemoveEntries(pass: Pass, names: set<string>, steady: bool) returns (fate: Fate)
      requires Valid() && pc.Sweeping? && pc.pass == pass
      requires forall p | p in tree && pass.Dooms(p) :: p[|pass.Directory()|] in names
      modifies this
      ensures Valid() && (steady ==> fate == Works)
      ensures fate == Works ==> OnlyWiped(old(View()), View()) && pc == old(pc)
      ensures fate == Works ==> Clean(tree, pass) && Swept(tree, pass) == Swept(old(tree), pass)
      ensures fate != Works ==> pc == Idle && locked == old(locked)
      ensures fate != PowerCut ==> mode == old(mode)
    {
      ghost var start := View();
      var entries, keep := names, pass.Keep();
      fate := Works;
      while entries != {}
        invariant Valid() && fate == Works && pc == start.pc && OnlyWiped(start, View())
        invariant Swept(tree, pass) == Swept(start.tree, pass)
        invariant forall p | p in tree && pass.Dooms(p) :: p[|pass.Directory()|] in entries
        decreases entries
      {
        var name :| name in entries;
        entries := entries - {name};
        if name !in keep {
          fate := RemoveEntry(pass, name, steady);
          if fate != Works { return; }
        }
      }
    }

    /** The closing directory sync. */
    method SyncDir(pass: Pass, steady: bool) returns (fate: Fate)
      requires Valid() && pc.Sweeping? && pc.pass == pass && Clean(tree, pass)
      modifies this
      ensures Valid() && (steady ==> fate == Works)
      ensures fate == Works ==> OnlyWiped(old(View()), View()) && tree == old(tree) == Swept(old(tree), pass)
      ensures fate == Works ==> exists now: nat :: pc == NextPc(pass, old(pc).marks, now)
      ensures fate != Works ==> pc == Idle && locked == old(locked)
      ensures fate != PowerCut ==> mode == old(mode)
    {
      assert tree == Swept(tree, pass);
      fate := Proceed(steady);
      if fate != Works { return; }
      FinishPass(pass);
      assert pc == NextPc(pass, old(pc).marks, |old(trace)|);
    }

    /** RemoveAll of one entry of the pass directory. */
    method RemoveEntry(pass: Pass, name: string, steady: bool) returns (fate: Fate)
      requires Valid() && pc.Sweeping? && pc.pass == pass && name !in pass.Keep()
      modifies this
      ensures Valid() && (steady ==> fate == Works)
      ensures fate == Works ==> OnlyWiped(old(View()), View()) && pc == old(pc)
      ensures fate == Works ==> Swept(tree, pass) == Swept(old(tree), pass)
      ensures fate == Works ==>
                forall p | p in tree :: p in old(tree) && (pass.Dooms(p) ==> p[|pass.Directory()|] != name)
      ensures fate != Works ==> pc == Idle && locked == old(locked)
      ensures fate != PowerCut ==> mode == old(mode)
    {
      var dir := pass.Directory();
      var target := dir + [name];
      fate := RemoveAll(target, steady);
      if fate == Works { DoomedGone(old(tree), pass, name, tree); }
    }

    /** os.ReadDir of the pass directory: every doomed path lies in or below one of its entries. */
    method ReadDir(pass: Pass) returns (entries: set<string>)
      requires Valid()
      ensures entries == Children(tree, pass.Directory())
      ensures forall p | p in tree && pass.Dooms(p) :: p[|pass.Directory()|] in entries
    {
      Holds();
      entries := Children(tree, pass.Directory());
      forall p | p in tree && pass.Dooms(p) ensures p[|pass.Directory()|] in entries {
        ChildOf(tree, pass.Directory(), p);
      }
    }

    method FinishPass(pass: Pass)
      requires Valid() && pc.Sweeping? && pc.pass == pass && Clean(tree, pass)
      modifies this
      ensures Valid() && View() == PassDoneStep(old(View())) && OnlyWiped(old(View()), View())
    {
      ghost var before := View();
      PassDoneIsQuiet(before);
      unsynced := Swept(unsynced, pass);
      pc := NextPc(pass, pc.marks, |trace|);
      match pass {
        case LibPass => trace := trace + [PrepareDone];
        case FinalPass => trace := trace + [FinishDone];
        case _ =>
      }
      assert View() == PassDoneStep(before);
      Stepped(before, Action.PassDone);
    }

    /** validateDataDir at the head of prepareDataWipe. */
    method EnterPrepare() returns (fate: Fate)
      requires Valid() && pc.Preparing?
      modifies this
      ensures Valid() && (fate == Works <==> Recognised(inst, tree)) && fate != PowerCut
      ensures View() == StartPrepareStep(inst, old(View())) && OnlyVolume(old(View()), View())
      ensures fate == Works ==> BasisOf(trace) == Found(tree)
    {
      PrepareIsQuiet(inst, View());
      var err := ValidateDataDir();
      fate := if err.None? then Works else Fails;
      if err.None? { BeginSweep(); } else { RefuseVolume(); }
    }

    method BeginSweep()
      requires Valid() && pc.Preparing? && Recognised(inst, tree)
      modifies this
      ensures Valid() && View() == StartPrepareStep(inst, old(View()))
    {
      ghost var before := View();
      assert Next(inst, before, Action.StartPrepare) == Some(StartPrepareStep(inst, before));
      trace := trace + [PrepareStarted(tree)];
      pc := Sweeping(BootPass, NO_MARKS);
      Stepped(before, Action.StartPrepare);
    }

    method RefuseVolume()
      requires Valid() && pc.Preparing? && !Recognised(inst, tree)
      modifies this
      ensures Valid() && View() == StartPrepareStep(inst, old(View()))
    {
      ghost var before := View();
      assert Next(inst, before, Action.StartPrepare) == Some(StartPrepareStep(inst, before));
      pc := Idle;
      Stepped(before, Action.StartPrepare);
    }

    /** ... and of finishDataWipe, where it cannot fail: neither prepare nor the custody erase nor the host can have
        spoiled the volume. */
    method EnterFinish() returns (fate: Fate)
      requires Valid() && pc.Finishing?
      modifies this
      ensures Valid() && fate == Works && View() == old(View()).At(Sweeping(FinalPass, old(pc).marks))
    {
      ghost var before := View();
      FinishFindsVolume();
      assert Next(inst, before, Action.StartFinish) == Some(before.At(Sweeping(FinalPass, pc.marks)));
      var err := ValidateDataDir();
      fate := if err.None? then Works else Fails;
      pc := if err.None? then Sweeping(FinalPass, pc.marks) else Idle;
      Stepped(before, Action.StartFinish);
    }

    /** scrubBootArtifacts. */
    method ScrubBootArtifacts(steady: bool) returns (fate: Fate)
      requires Valid() && pc == Sweeping(BootPass, NO_MARKS)
      modifies this
      ensures Valid() && (steady ==> fate == Works)
      ensures fate == Works ==> OnlyWiped(old(View()), View()) && pc == Sweeping(TopPass, NO_MARKS)
      ensures fate == Works ==> tree == Swept(Swept(old(tree), BootPass), RootfsPass)
      ensures fate != Works ==> pc == Idle && locked == old(locked)
      ensures fate != PowerCut ==> mode == old(mode)
    {
      fate := RemoveChildrenExcept(BootPass, steady);
      if fate != Works { return; }
      fate := RemoveChildrenExcept(RootfsPass, steady);
    }

    /** The part of prepareDataWipe that keeps key custody and clears the rest of lib. */
    method KeepOnlyCustody(steady: bool) returns (fate: Fate)
      requires Valid() && pc.MakingCustody?
      modifies this
      ensures Valid() && (steady ==> fate == Works)
      ensures fate == Works ==> OnlyWiped(old(View()), View()) && pc.Erasing?
      ensures fate == Works ==> tree == Swept(MakeCustody(old(tree), 2), LibPass)
      ensures fate != Works ==> pc == Idle && locked == old(locked)
      ensures fate != PowerCut ==> mode == old(mode)
    {
      fate := MakeCustodyDirs(steady);
      if fate != Works { return; }
      fate := RemoveChildrenExcept(LibPass, steady);
    }

    /** Everything prepareDataWipe removes before it turns to lib. */
    method ClearAllButLib(steady: bool) returns (fate: Fate)
      requires Valid() && pc == Sweeping(BootPass, NO_MARKS)
      modifies this
      ensures Valid() && (steady ==> fate == Works)
      ensures fate == Works ==> OnlyWiped(old(View()), View()) && pc.MakingCustody?
      ensures fate == Works ==> tree == Swept(Swept(Swept(old(tree), BootPass), RootfsPass), TopPass)
      ensures fate != Works ==> pc == Idle && locked == old(locked)
      ensures fate != PowerCut ==> mode == old(mode)
    {
      fate := ScrubBootArtifacts(steady);
      if fate != Works { return; }
      fate := RemoveChildrenExcept(TopPass, steady);
    }

    /** prepareDataWipe. */
    method PrepareDataWipe(steady: bool) returns (fate: Fate)
      requires Valid() && pc.Preparing?
      modifies this
      ensures Valid() && (steady && Recognised(inst, old(tree)) ==> fate == Works)
      ensures fate == Works ==> OnlyVolume(old(View()), View()) && pc.Erasing? && tree == Prepared(old(tree))
      ensures fate == Works ==> Recognised(inst, old(tree)) && BasisOf(trace) == Found(old(tree))
      ensures fate != Works ==> pc == Idle && locked == old(locked)
      ensures fate != PowerCut ==> mode == old(mode)
    {
      fate := EnterPrepare();
      if fate != Works { return; }
      fate := ClearAllButLib(steady);
      if fate != Works { return; }
      fate := KeepOnlyCustody(steady);
    }

    /** os.MkdirAll(lib/sinty). */
    method MakeCustodyDirs(steady: bool) returns (fate: Fate)
      requires Valid() && pc.MakingCustody?
      modifies this
      ensures Valid() && (steady ==> fate == Works)
      ensures fate == Works ==> View() == MakeDirsStep(old(View()), 2, true)
      ensures fate != Works ==> pc == Idle && locked == old(locked)
      ensures fate != PowerCut ==> mode == old(mode)
    {
      fate := Proceed(steady);
      if fate != Works { return; }
      ghost var before := View();
      var done: nat := *;
      if done >= 2 || steady { done := 2; }
      var ok: bool := *;
      ok := done == 2 && (ok || steady);
      assert Next(inst, before, Action.MakeDirs(done, ok)) == Some(MakeDirsStep(before, done, ok));
      tree := MakeCustody(tree, done);
      pc := if ok then Sweeping(LibPass, NO_MARKS) else Idle;
      Stepped(before, Action.MakeDirs(done, ok));
      fate := if ok then Works else Fails;
    }

    /** Neither prepare nor the custody erase can have spoiled the volume. */
    lemma FinishFindsVolume()
      requires Valid() && pc.Finishing?
      ensures Recognised(inst, tree)
    {
      Holds();
    }

    /** finishDataWipe. Everything recreated at the top level since prepare goes; below boot nothing does. */
    method FinishDataWipe(steady: bool) returns (fate: Fate)
      requires Valid() && pc.Finishing?
      modifies this
      ensures Valid() && (steady ==> fate == Works)
      ensures fate == Works ==> OnlyWiped(old(View()), View()) && pc.Flipping? && tree == Finished(old(tree))
      ensures fate != Works ==> pc == Idle && locked == old(locked)
      ensures fate != PowerCut ==> mode == old(mode)
    {
      fate := EnterFinish();
      fate := RemoveChildrenExcept(FinalPass, steady);
    }

    // ---- UnlockBootloader ----

    /** The arm handler's PIN check succeeded: the request may now go on to Core. */
    method NoteArmPin(uid: int, pin: string) returns (grant: nat)
      requires Valid() && mode == Runtime && uid >= FIRST_OWNER_UID && PinFormat(pin)
      modifies this
      ensures Valid() && HoldsGrant(View(), uid, grant) && grant == |old(trace)|
      ensures View() == old(View()).Log(ArmPin(uid)).(grants := old(grants) + {grant})
    {
      ghost var before := View();
      assert Next(inst, before, Action.CheckArmPin(uid, pin, Says(true)))
             == Some(before.Log(ArmPin(uid)).(grants := before.grants + {|before.trace|}));
      grant := |trace|;
      grants := grants + {grant};
      trace := trace + [ArmPin(uid)];
      Stepped(before, Action.CheckArmPin(uid, pin, Says(true)));
    }

    /** A call with no phase pending: check the owner's PIN. */
    method AskOwner(confirm: string, pin: string, f: Flag, verdict: Answer) returns (fate: Fate)
      requires Quiet() && mode == Recovery && confirm == CONFIRM_WORD
      requires f == View().Flag() && f.armed && f.owner >= FIRST_OWNER_UID && f.phase == "" && PinFormat(pin)
      modifies this
      ensures Valid() && tree == old(tree) && flag == old(flag) && locked == old(locked) && mode == old(mode)
      ensures trace == old(trace) + [UnlockCall] + [UnlockPin(f.owner, verdict)]
      ensures fate == if verdict == Says(true) then Works else Fails
      ensures if fate == Works then pc.PinAccepted? && pc.f == f else pc == Idle
    {
      ghost var before := View();
      assert Next(inst, before, Action.Unlock(confirm, pin, NoAnswer, verdict))
             == Some(UnlockStep(before, confirm, pin, NoAnswer, verdict));
      pc := if verdict == Says(true) then PinAccepted(f, |trace| + 1) else Idle;
      trace := trace + [UnlockCall] + [UnlockPin(f.owner, verdict)];
      Stepped(before, Action.Unlock(confirm, pin, NoAnswer, verdict));
      fate := if verdict == Says(true) then Works else Fails;
    }

    /** Read the consent again and look at the volume before anything is changed. */
    method CheckAgain(f: Flag) returns (fate: Fate)
      requires Valid() && pc.PinAccepted? && pc.f == f
      modifies this
      ensures Valid() && tree == old(tree) && locked == old(locked) && flag == old(flag)
      ensures fate == Works <==>
                View().Flag().armed && View().Flag().owner == f.owner && View().Flag().phase == "" && Recognised(inst, tree)
      ensures fate != PowerCut
      ensures if fate == Works then pc.Validated? && pc.f == f else pc == Idle
      ensures mode == old(mode) && PinsAsked(trace) == PinsAsked(old(trace))
    {
      ghost var before := View();
      assert Next(inst, before, Action.Validate) == Some(ValidateStep(inst, before));
      var current := ReadFlag();
      var err := ValidateDataDir();
      fate := if ConsentUnchanged(current, f) && err.None? then Works else Fails;
      pc := if fate == Works then Validated(f, pc.pinAt) else Idle;
      Stepped(before, Action.Validate);
    }

    method DisableVerity(steady: bool) returns (fate: Fate)
      requires Valid() && pc.Validated?
      modifies this
      ensures Valid() && tree == old(tree) && locked == old(locked) && flag == old(flag)
      ensures (steady ==> fate == Works) && fate != PowerCut
      ensures fate == Works ==> pc.VerityDisabled? && pc.f == old(pc).f && verityOff
      ensures fate != Works ==> pc == Idle
      ensures mode == old(mode) && PinsAsked(trace) == PinsAsked(old(trace))
    {
      var ok: bool := *;
      var tookEffect: bool := *;
      ok := ok || steady;
      PinsAskedGrows(trace, VerityRequested);
      RequestVerityOff(ok, tookEffect);
      fate := if ok then Works else Fails;
    }

    method RequestVerityOff(ok: bool, tookEffect: bool)
      requires Valid() && pc.Validated?
      modifies this
      ensures Valid() && View() == DisableVerityStep(old(View()), ok, tookEffect)
    {
      ghost var before := View();
      assert Next(inst, before, Action.DisableVerity(ok, tookEffect)) == Some(DisableVerityStep(before, ok, tookEffect));
      verityOff := verityOff || ok || tookEffect;
      trace := trace + [VerityRequested];
      pc := if ok then VerityDisabled(pc.f, pc.pinAt) else Idle;
      Stepped(before, Action.DisableVerity(ok, tookEffect));
    }

    /** The TPM must confirm, and the consent must still stand, before the phase is recorded. */
    method ConfirmVerity(f: Flag, steady: bool) returns (fate: Fate, current: Flag)
      requires Valid() && pc.VerityDisabled? && pc.f == f
      modifies this
      ensures Valid() && tree == old(tree) && locked == old(locked) && flag == old(flag) && current == View().Flag()
      ensures steady && old(verityOff) && ConsentUnchanged(current, f) ==> fate == Works
      ensures fate == Works ==> pc.Recording? && pc.f == current && ConsentUnchanged(current, f)
      ensures fate != Works ==> pc == Idle
      ensures fate != PowerCut && mode == old(mode) && PinsAsked(trace) == PinsAsked(old(trace))
    {
      ghost var before := View();
      var verity := ReadVerityOff(steady);
      assert Next(inst, before, Action.ConfirmVerity(verity)) == Some(ConfirmVerityStep(before, verity));
      PinsAskedGrows(trace, VerityConfirmed);
      current := ReadFlag();
      fate := if verity == Says(true) && ConsentUnchanged(current, f) then Works else Fails;
      pc := if fate == Works then Recording(current, pc.pinAt, |trace|) else Idle;
      if verity == Says(true) { trace := trace + [VerityConfirmed]; }
      Stepped(before, Action.ConfirmVerity(verity));
    }

    method RecordPhase(current: Flag, steady: bool) returns (fate: Fate)
      requires Valid() && pc.Recording? && pc.f == current
      modifies this
      ensures Valid() && tree == old(tree) && locked == old(locked)
      ensures (steady ==> fate == Works) && fate != PowerCut
      ensures fate == Works ==> pc.Preparing? && View().Flag() == current.(phase := VERITY_OFF) && flag.Settled()
      ensures fate != Works ==> pc == Idle
      ensures mode == old(mode) && PinsAsked(trace) == PinsAsked(old(trace))
    {
      var end := WriteOutcome(steady);
      RecordIsQuiet(View(), end);
      WriteRecord(current, end);
      fate := if end == Durable then Works else Fails;
    }

    method WriteRecord(current: Flag, end: WriteEnd)
      requires Valid() && pc.Recording? && pc.f == current
      modifies this
      ensures Valid() && View() == RecordStep(old(View()), end)
    {
      ghost var before := View();
      assert Next(inst, before, Action.Record(end)) == Some(RecordStep(before, end));
      var e := Recorded(current.owner, flag.log[|flag.log| - 1].at, pc.pinAt, pc.verityAt, end);
      WriteFlag(current.(phase := VERITY_OFF), e, end);
      pc := if end == Durable then Preparing else Idle;
      Stepped(before, Action.Record(end));
    }

    /** The owner's PIN, the consent and the volume, before anything is changed. */
    method Authorize(confirm: string, pin: string, f: Flag, verdict: Answer, steady: bool) returns (fate: Fate)
      requires Quiet() && mode == Recovery && confirm == CONFIRM_WORD
      requires f == View().Flag() && f.armed && f.owner >= FIRST_OWNER_UID && f.phase == ""
      modifies this
      ensures Valid() && Grew(old(tree), tree) && (fate != PowerCut ==> tree == old(tree)) && locked == old(locked)
      ensures !(PinFormat(pin) && verdict == Says(true)) ==> fate == Fails
      ensures steady ==> (fate == Works <==> PinFormat(pin) && verdict == Says(true) && Recognised(inst, old(tree)))
      ensures fate == Works ==> pc.Validated? && pc.f == f == View().Flag() && PinFormat(pin) && verdict == Says(true)
      ensures fate == Works ==> PinsAsked(trace) == PinsAsked(old(trace)) + 1 && Recognised(inst, tree)
      ensures fate != Works ==> pc == Idle
      ensures fate != PowerCut ==> mode == old(mode)
    {
      if !PinFormat(pin) { return Fails; }
      PinsAskedGrows(trace, UnlockCall);
      PinsAskedGrows(trace + [UnlockCall], UnlockPin(f.owner, verdict));
      fate := AskOwner(confirm, pin, f, verdict);
      if fate != Works { return; }
      fate := Proceed(steady);
      if fate != Works { return; }
      fate := CheckAgain(f);
      if fate != Works { return; }
      fate := Proceed(steady);
    }

    /** Verity off, confirmed by the TPM, and the phase recorded durably. */
    method Commit(f: Flag, steady: bool) returns (fate: Fate)
      requires Valid() && pc.Validated? && pc.f == f == View().Flag() && f.armed && f.phase == ""
      modifies this
      ensures Valid() && Grew(old(tree), tree) && (fate != PowerCut ==> tree == old(tree)) && locked == old(locked)
      ensures steady ==> fate == Works
      ensures fate == Works ==> pc.Preparing? && flag.Settled() && View().Flag() == f.(phase := VERITY_OFF)
      ensures fate == Works ==> PinsAsked(trace) == PinsAsked(old(trace))
      ensures fate != Works ==> pc == Idle
      ensures fate != PowerCut ==> mode == old(mode)
    {
      fate := DisableVerity(steady);
      if fate != Works { return; }
      fate := Proceed(steady);
      if fate != Works { return; }
      var current;
      fate, current := ConfirmVerity(f, steady);
      if fate != Works { return; }
      fate := Proceed(steady);
      if fate != Works { return; }
      fate := RecordPhase(current, steady);
    }

    /** The first half of UnlockBootloader when no phase is pending: nothing is wiped before the phase record is
        durable. A steady call gets there exactly when the PIN is well formed, the verifier accepts it and
        the volume is recognised. */
    method StartTransaction(confirm: string, pin: string, f: Flag, verdict: Answer, steady: bool) returns (fate: Fate)
      requires Quiet() && mode == Recovery && confirm == CONFIRM_WORD
      requires f == View().Flag() && f.armed && f.owner >= FIRST_OWNER_UID && f.phase == ""
      modifies this
      ensures Valid() && Grew(old(tree), tree) && (fate != PowerCut ==> tree == old(tree)) && locked == old(locked)
      ensures !(PinFormat(pin) && verdict == Says(true)) ==> fate == Fails
      ensures steady ==> (fate == Works <==> PinFormat(pin) && verdict == Says(true) && Recognised(inst, old(tree)))
      ensures fate == Works ==> pc.Preparing? && flag.Settled() && View().Flag() == f.(phase := VERITY_OFF)
      ensures fate == Works ==> PinFormat(pin) && verdict == Says(true)
      ensures fate == Works ==> PinsAsked(trace) == PinsAsked(old(trace)) + 1 && Recognised(inst, tree)
      ensures fate != Works ==> pc == Idle
      ensures fate != PowerCut ==> mode == old(mode)
    {
      fate := Authorize(confirm, pin, f, verdict, steady);
      if fate != Works { return; }
      fate := Commit(f, steady);
    }

    /** A call that finds the phase pending and the TPM agreeing: no PIN is asked. */
    method ResumeTransaction(confirm: string, pin: string, verity: Answer)
      requires Quiet() && mode == Recovery && confirm == CONFIRM_WORD && verity == Says(true) && verityOff
      requires View().Flag().armed && View().Flag().owner >= FIRST_OWNER_UID && View().Flag().phase == VERITY_OFF
      modifies this
      ensures Valid() && OnlyWiped(old(View()), View()) && pc.Preparing? && tree == old(tree)
    {
      ghost var before := View();
      assert Next(inst, before, Action.Unlock(confirm, pin, verity, NoAnswer))
             == Some(UnlockStep(before, confirm, pin, verity, NoAnswer));
      QuietEvent(trace, ResumeCall(flag.Newest().at, flag.Settled()));
      trace := trace + [ResumeCall(flag.Newest().at, flag.Settled())];
      pc := Preparing;
      Stepped(before, Action.Unlock(confirm, pin, verity, NoAnswer));
    }

    /** cryptoWipeVar: whatever it does stays at or below lib/sinty, whether or not it reports success. */
    method EraseCustody(steady: bool) returns (fate: Fate)
      requires Valid() && pc.Erasing?
      modifies this
      ensures Valid() && (steady ==> fate == Works)
      ensures fate == Works ==> OnlyWiped(old(View()), View()) && pc.Finishing? && CustodyChange(old(tree), tree)
      ensures fate != Works ==> pc == Idle && locked == old(locked)
      ensures fate != PowerCut ==> mode == old(mode)
    {
      fate := Proceed(steady);
      if fate != Works { return; }
      var after := AfterErase();
      var ok: bool := *;
      ok := ok || steady;
      ErasedTo(after, ok);
      fate := if ok then Works else Fails;
    }

    method ErasedTo(after: Tree, ok: bool)
      requires Valid() && pc.Erasing? && CustodyChange(tree, after)
      modifies this
      ensures Valid() && OnlyWiped(old(View()), View()) && tree == after
      ensures if ok then pc.Finishing? else pc == Idle
    {
      ghost var before := View();
      assert Next(inst, before, Action.EraseCustody(ok, after)) == Some(EraseStep(before, ok, after));
      var f := ReadFlag();
      var e := CustodyErased(f.owner, flag.log[|flag.log| - 1].at, ok);
      QuietEvent(trace, e);
      pc := if ok then Finishing(pc.marks.(eraseAt := |trace|)) else Idle;
      trace := trace + [e];
      tree := after;
      Stepped(before, Action.EraseCustody(ok, after));
    }

    /** Some tree the custody erase may leave. */
    method AfterErase() returns (after: Tree)
      requires Valid() && pc.Erasing?
      ensures CustodyChange(tree, after)
    {
      assert CustodyChange(tree, tree) by { Holds(); }
      after := *;
      var possible := CustodyChange(tree, after);
      if !possible { after := tree; }
    }

    /** cryptoSetUnlockBit. */
    method SetUnlockBit(steady: bool) returns (fate: Fate)
      requires Valid() && pc.Flipping?
      modifies this
      ensures Valid() && (steady ==> fate == Works) && tree == old(tree)
      ensures fate == Works ==> !locked && pc.Finalizing? && flag == old(flag)
      ensures fate == Works ==> PinsAsked(trace) == PinsAsked(old(trace)) && BasisOf(trace) == BasisOf(old(trace))
      ensures fate != Works ==> pc == Idle
      ensures fate != PowerCut ==> mode == old(mode)
    {
      NothingUnsynced();
      fate := Proceed(steady);
      if fate != Works { return; }
      var ok: bool := *;
      var tookEffect: bool := *;
      ok := ok || steady;
      RequestFlip(ok, tookEffect);
      fate := if ok then Works else Fails;
    }

    method RequestFlip(ok: bool, tookEffect: bool)
      requires Valid() && pc.Flipping?
      modifies this
      ensures Valid() && View() == FlipStep(old(View()), ok, tookEffect)
      ensures PinsAsked(trace) == PinsAsked(old(trace)) && BasisOf(trace) == BasisOf(old(trace))
    {
      ghost var before := View();
      assert Next(inst, before, Action.Flip(ok, tookEffect)) == Some(FlipStep(before, ok, tookEffect));
      var m := pc.marks;
      var e := FlipRequested(flag.log[|flag.log| - 1].at, m.prepareAt, m.eraseAt, m.finishAt);
      QuietEvent(trace, e);
      locked := locked && !ok && !tookEffect;
      trace := trace + [e];
      pc := if ok then Finalizing else Idle;
      Stepped(before, Action.Flip(ok, tookEffect));
    }

    /** When the flip is due, every deletion is synced. */
    lemma NothingUnsynced()
      requires Valid() && (pc.Flipping? || pc.Finalizing?)
      ensures unsynced == map[]
    {
      Holds();
    }

    lemma FlipHasHappened()
      requires Valid() && pc.Finalizing?
      ensures !locked
    {
      Holds();
    }

    /** finalizeUnlockFlag at the end of the call. Its failure is not the caller's problem; the power may go before
        it, and then the next LockState cleans up. */
    method FinalizeFlag(steady: bool) returns (fate: Fate)
      requires Valid() && pc.Finalizing?
      modifies this
      ensures Quiet() && !locked && tree == old(tree) && fate != Fails && (steady ==> fate == Works)
      ensures fate == Works ==> mode == old(mode) && unsynced == map[]
      ensures fate == Works ==> PinsAsked(trace) == PinsAsked(old(trace)) && BasisOf(trace) == BasisOf(old(trace))
      ensures steady ==> View().Flag() == FinalizedFlag(old(View()).Flag())
    {
      FlipHasHappened();
      NothingUnsynced();
      var cut: bool := *;
      if cut && !steady {
        LosePower();
        return PowerCut;
      }
      var end := WriteFinal(steady);
      QuietEvent(old(trace), Finalized(end));
      fate := Works;
    }

    method WriteFinal(steady: bool) returns (end: WriteEnd)
      requires Valid() && pc.Finalizing?
      modifies this
      ensures Valid() && (steady ==> end == Durable)
      ensures View() == old(View()).Write(FinalizedFlag(old(View()).Flag()), Finalized(end), end).At(Idle)
    {
      ghost var before := View();
      var f := ReadFlag();
      end := WriteOutcome(steady);
      WriteFlag(Flag(false, if f.phase != "" then f.count + 1 else f.count, 0, ""), Finalized(end), end);
      pc := Idle;
      Stepped(before, Action.Finalize(end));
    }

    /** What the final pass has left when the flip is due. */
    lemma WipeIsComplete()
      requires Valid() && pc.Flipping?
      ensures LeftOf(BasisOf(trace), tree)
    {
      Holds();
      WholeBasis(pc, BasisOf(trace), tree);
    }

    /** prepareDataWipe, cryptoWipeVar, finishDataWipe. The host may write between them. */
    method Wipe(steady: bool) returns (fate: Fate)
      requires Valid() && pc.Preparing?
      modifies this
      ensures Valid() && (steady && Recognised(inst, old(tree)) ==> fate == Works)
      ensures fate == Works ==> OnlyVolume(old(View()), View()) && pc.Flipping? && Completed(old(tree), trace, tree)
      ensures fate != Works ==> pc == Idle && locked == old(locked)
      ensures fate != PowerCut ==> mode == old(mode)
    {
      fate := PrepareDataWipe(steady);
      if fate != Works { return; }
      LetHostWrite();
      fate := EraseCustody(steady);
      if fate != Works { return; }
      LetHostWrite();
      fate := FinishDataWipe(steady);
      if fate == Works { WipeIsComplete(); }
    }

    /** UnlockBootloader. Granted only on an unlocked device after a complete wipe that no power loss can undo, and for
        a new transaction only with an accepted PIN. A steady call with the right word finishes a resumable transaction without
        asking for a PIN, and an armed one on a recognised volume if the verifier accepts the PIN; either
        way the transaction is counted once. Every other effect is bounded by the theorems about runs. */
    method UnlockBootloader(confirm: string, pin: string, verdict: Answer, steady: bool) returns (reply: Reply)
      requires Quiet() && mode == Recovery
      modifies this
      ensures Quiet()
      ensures reply != Dead ==> mode == Recovery
      ensures reply == Granted ==> confirm == CONFIRM_WORD && !locked && Completed(old(tree), trace, tree) && unsynced == map[]
      ensures reply == Granted && old(View()).Flag().phase == "" ==> PinFormat(pin) && verdict == Says(true)
      ensures confirm != CONFIRM_WORD || !old(View()).Flag().armed ==> reply == Refused && View() == old(View())
      ensures old(View()).Flag().phase == "" && !(PinFormat(pin) && verdict == Says(true)) ==>
                locked == old(locked) && tree == old(tree)
      ensures steady && confirm == CONFIRM_WORD && Resumable(inst, old(View())) ==>
                && reply == Granted && PinsAsked(trace) == PinsAsked(old(trace))
                && View().Flag() == Flag(false, old(View()).Flag().count + 1, 0, "")
      ensures steady && confirm == CONFIRM_WORD && PinFormat(pin) && verdict == Says(true)
              && Startable(inst, old(View())) ==>
                && reply == Granted && PinsAsked(trace) == PinsAsked(old(trace)) + 1
                && View().Flag() == Flag(false, old(View()).Flag().count + 1, 0, "")
    {
      if confirm != CONFIRM_WORD { return Refused; }
      var f := ReadFlag();
      if !f.armed || f.owner < FIRST_OWNER_UID { return Refused; }
      var fate := EnterTransaction(confirm, pin, f, verdict, steady);
      if fate != Works { return if fate == PowerCut then Dead else Refused; }
      reply := WipeAndUnlock(steady);
    }

    /** The first half of UnlockBootloader: resume a pending transaction that the TPM confirms, or start one. */
    method EnterTransaction(confirm: string, pin: string, f: Flag, verdict: Answer, steady: bool) returns (fate: Fate)
      requires Quiet() && mode == Recovery && confirm == CONFIRM_WORD
      requires f == View().Flag() && f.armed && f.owner >= FIRST_OWNER_UID
      modifies this
      ensures Valid() && Grew(old(tree), tree) && (fate != PowerCut ==> tree == old(tree)) && locked == old(locked)
      ensures f.phase == "" && !(PinFormat(pin) && verdict == Says(true)) ==> fate == Fails
      ensures fate == Works ==> pc.Preparing? && View().Flag() == f.(phase := VERITY_OFF)
      ensures fate == Works ==> PinsAsked(trace) == PinsAsked(old(trace)) + if f.phase == "" then 1 else 0
      ensures fate == Works && f.phase == "" ==> PinFormat(pin) && verdict == Says(true)
      ensures steady && f.phase == VERITY_OFF && old(verityOff) ==> fate == Works
      ensures steady && f.phase == "" ==> (fate == Works <==> PinFormat(pin) && verdict == Says(true) && Recognised(inst, old(tree)))
      ensures fate != Works ==> pc == Idle
      ensures fate != PowerCut ==> mode == old(mode)
    {
      if f.phase == VERITY_OFF {
        var verity := ReadVerityOff(steady);
        if verity != Says(true) { return Fails; }
        ResumeTransaction(confirm, pin, verity);
        fate := Works;
      } else if f.phase != "" {
        fate := Fails;
      } else {
        fate := StartTransaction(confirm, pin, f, verdict, steady);
      }
    }

    /** The second half of UnlockBootloader: wipe, flip the lock bit, clean up. */
    method WipeAndUnlock(steady: bool) returns (reply: Reply)
      requires Valid() && pc.Preparing?
      modifies this
      ensures Quiet() && (reply != Dead ==> mode == old(mode))
      ensures reply == Granted ==> !locked && Completed(old(tree), trace, tree) && unsynced == map[]
      ensures steady && Recognised(inst, old(tree)) ==>
                && reply == Granted && PinsAsked(trace) == PinsAsked(old(trace))
                && View().Flag() == FinalizedFlag(old(View()).Flag())
    {
      var fate := Wipe(steady);
      if fate != Works { return if fate == PowerCut then Dead else Refused; }
      fate := SetUnlockBit(steady);
      if fate != Works { return if fate == PowerCut then Dead else Refused; }
      fate := FinalizeFlag(steady);
      reply := if fate == Works then Granted else Dead;
    }
  }
}
