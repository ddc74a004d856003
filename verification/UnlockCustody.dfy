/**
 Key custody during a wipe: prepare must leave it alone, because the cryptographic erase needs it.
 */
module UnlockCustody {
  import opened Wrappers
  import opened DataVolume
  import opened UnlockMachine
  import opened UnlockInvariant
  import opened UnlockSteps

  /** A wipe that has not yet come to the cryptographic erase. */
  predicate BeforeErase(pc: Pc) {
    (pc.Sweeping? && pc.pass != FinalPass) || pc.MakingCustody? || pc.Erasing?
  }

  /** Everything at or below lib/sinty in `t` is as in `t0`, but for the directory itself, which may be new. */
  predicate CustodyAsIn(t0: Tree, t: Tree) {
    && (forall p | p in t0 && CUSTODY_DIR <= p :: p in t && t[p] == t0[p])
    && (forall p | p in t && CUSTODY_DIR <= p :: p in t0 || (p == CUSTODY_DIR && t[p] == Dir))
  }

  predicate CustodyOk(s: State) {
    BeforeErase(s.pc) ==>
      var b := BasisOf(s.trace);
      && !b.NoBasis? && CustodyAsIn(b.tree, s.tree)
      && (b.Found? && (s.pc.Erasing? || (s.pc.Sweeping? && s.pc.pass == LibPass)) ==> CUSTODY_DIR in s.tree)
  }

  /** No pass before the last one dooms anything of key custody. */
  lemma PassSparesCustody(pass: Pass, p: Path)
    requires pass != FinalPass
    ensures CUSTODY_DIR <= p ==> !pass.Dooms(p)
  {
    NamesDiffer();
    assert CUSTODY_DIR <= p ==> p[0] == LIB && p[1] == SINTY;
  }

  lemma RemoveSparesCustody(s: State, p: Path)
    requires s.flag.Valid() && CustodyOk(s) && s.pc.Sweeping? && s.pc.pass.Dooms(p) && p in s.tree
    ensures CustodyOk(RemoveStep(s, p))
  {
    BasisGrows(s.trace, Removed(s.Flag().owner, s.flag.Newest().at, p));
    if s.pc.pass != FinalPass { PassSparesCustody(s.pc.pass, p); }
  }

  lemma MakeDirsSpareCustody(s: State, done: nat, ok: bool)
    requires CustodyOk(s) && s.pc.MakingCustody? && (ok ==> done >= 2)
    ensures CustodyOk(MakeDirsStep(s, done, ok))
  {
    assert !(CUSTODY_DIR <= LIB_DIR);
  }

  lemma PassDoneSparesCustody(s: State)
    requires CustodyOk(s) && s.pc.Sweeping?
    ensures CustodyOk(PassDoneStep(s))
  {
    BasisGrows(s.trace, PrepareDone);
    BasisGrows(s.trace, FinishDone);
  }

  predicate TouchesWipe(a: Action) {
    a.CheckArmPin? || a.StartPrepare? || a.RemoveOne? || a.PassDone? || a.MakeDirs? || a.HostWrites?
  }

  /** All other steps begin before or lead away from that part of a wipe. */
  lemma OthersLeave(inst: Install, s: State, a: Action)
    requires s.flag.Valid() && Next(inst, s, a).Some? && !TouchesWipe(a)
    ensures !BeforeErase(Next(inst, s, a).value.pc)
  {
  }

  lemma CustodyStep(inst: Install, s: State, a: Action)
    requires s.flag.Valid() && CustodyOk(s) && Next(inst, s, a).Some?
    ensures CustodyOk(Next(inst, s, a).value)
  {
    if !TouchesWipe(a) {
      OthersLeave(inst, s, a);
    } else if a.RemoveOne? {
      RemoveSparesCustody(s, a.path);
    } else if a.MakeDirs? {
      MakeDirsSpareCustody(s, a.done, a.ok);
    } else if a.PassDone? {
      PassDoneSparesCustody(s);
    } else {
      ArrivalSparesCustody(inst, s, a);
    }
  }

  lemma ArrivalSparesCustody(inst: Install, s: State, a: Action)
    requires s.flag.Valid() && CustodyOk(s) && Next(inst, s, a).Some? && (a.CheckArmPin? || a.StartPrepare? || a.HostWrites?)
    ensures CustodyOk(Next(inst, s, a).value)
  {
    match a {
      case CheckArmPin(uid, _, _) => BasisGrows(s.trace, ArmPin(uid));
      case StartPrepare => BasisGrows(s.trace, PrepareStarted(s.tree));
      case HostWrites(after) => BasisGrows(s.trace, HostWrote(after));
    }
  }

  lemma {:induction false} RunSparesCustody(inst: Install, s: State, actions: seq<Action>)
    requires s.flag.Valid() && CustodyOk(s) && Run(inst, s, actions).Some?
    ensures CustodyOk(Run(inst, s, actions).value)
    decreases |actions|
  {
    if actions != [] {
      CustodyStep(inst, s, actions[0]);
      RunSparesCustody(inst, Next(inst, s, actions[0]).value, actions[1..]);
    }
  }

  /** In every run, the cryptographic erase finds key custody exactly as it was in the tree that prepare found or that
      the host wrote last; and unless the host removed it, the directory is there. */
  lemma EraseFindsCustody(inst: Install, s: State, ok: bool, after: Tree)
    requires Reachable(inst, s) && Next(inst, s, EraseCustody(ok, after)).Some?
    ensures !BasisOf(s.trace).NoBasis? && CustodyAsIn(BasisOf(s.trace).tree, s.tree)
    ensures BasisOf(s.trace).Found? ==> CUSTODY_DIR in s.tree
  {
    var s0: State, actions: seq<Action> :| Fresh(s0) && Run(inst, s0, actions) == Some(s);
    RunSparesCustody(inst, s0, actions);
  }
}
