/**
 The HTTP handlers that reach the consent flag and the unlock transaction, in their two policies:
 the running system's policy socket and the recovery server.
 */
module Server {
  import opened Wrappers
  import opened FlagRegister
  import opened DataVolume
  import opened UnlockMachine
  import opened UnlockTheorems
  import opened Agent
  import Bytes
  import JsonText
  import UiModel

  datatype Policy = Policy(runtime: bool, ownerUid: int)

  /** A decoded JSON body; absent fields have their zero value. */
  datatype Body = Malformed | Fields(armed: bool, pin: string, confirm: string)

  datatype Request = Request(verb: string, path: string, body: Body, peerUid: Option<int>)

  datatype Response =
    | NotFound
    | BadRequest
    | LockInfoIs(info: LockInfo)
    | Outcome(ok: bool)
    | NoResponse            // the power went
    | OtherRoute            // a route of the full server that this model does not cover

  const ARM_PATH := "/arm-unlock"
  const UNLOCK_PATH := "/unlock-bootloader"
  const LOCK_STATE_PATH := "/lock-state"

  /** The route filter of runtime mode. */
  predicate RuntimeServes(verb: string, path: string) {
    (verb == "GET" && path == LOCK_STATE_PATH) || (verb == "POST" && path == ARM_PATH)
  }

  /** Between `s` and `s'` a runtime server has touched nothing but the flag. */
  predicate FlagOnly(s: State, s': State) {
    s' == s.(flag := s'.flag, trace := s'.trace, grants := s'.grants)
  }

  /** The transaction was counted, and the consent is used up. */
  predicate Counted(s: State, s': State)
    requires s.flag.Valid() && s'.flag.Valid()
  {
    s'.Flag() == Flag(false, s.Flag().count + 1, 0, "")
  }

  /** No consent was added or changed. */
  predicate Withheld(s: State, s': State)
    requires s.flag.Valid() && s'.flag.Valid()
  {
    s'.Flag().armed ==> s'.Flag() == s.Flag()
  }

  /** What POST /arm-unlock does for account `owner`: it arms in runtime mode and with an accepted PIN only, and without
      failures exactly then (and while the device is locked and no transaction is pending). */
  ghost predicate ArmServed(runtime: bool, s: State, s': State, body: Body, owner: int, verdict: Answer, steady: bool, r: Response)
    requires s.flag.Valid() && s'.flag.Valid()
  {
    && FlagOnly(s, s')
    && (body.Malformed? ==> r == BadRequest && s' == s)
    && (body.Fields? ==> r.Outcome?)
    && (!runtime && s'.Flag().armed ==> s.Flag().armed && s'.Flag().owner == s.Flag().owner)
    && (!runtime && body.Fields? && body.armed ==> r == Outcome(false) && s'.flag == s.flag)
    && (r == Outcome(true) && body.armed ==>
          && runtime && PinFormat(body.pin) && verdict == Says(true) && owner >= 1000
          && s'.Flag() == s.Flag().(armed := true, owner := owner) && s'.flag.Settled()
          && exists i :: |s.trace| <= i < |s'.trace| && s'.trace[i] == ArmPin(owner))
    && (steady && body.Fields? && body.armed ==>
          (r == Outcome(true) <==> && runtime && s.locked && owner >= 1000 && PinFormat(body.pin)
                                   && verdict == Says(true) && s.Flag().phase == ""))
    && (r == Outcome(true) && !body.armed ==> s'.Flag() == FinalizedFlag(s.Flag()) && s'.flag.Settled())
    && (steady && body.Fields? && !body.armed ==> (r == Outcome(true) <==> s.Flag().phase == "" || !s.locked))
    && (steady && r == Outcome(false) ==> Withheld(s, s'))
  }

  /** What POST /unlock-bootloader does: refuse without effect, or finish a resumable transaction without a PIN and an
      armed one with an accepted PIN. */
  ghost predicate UnlockServed(inst: Install, s: State, s': State, body: Body, verdict: Answer, steady: bool, r: Response)
    requires s.flag.Valid() && s'.flag.Valid()
  {
    && (body.Malformed? ==> r == BadRequest && s' == s)
    && (body.Fields? ==> r.Outcome? || r == NoResponse)
    && (body.Fields? && (body.confirm != "UNLOCK" || !s.Flag().armed) ==> r == Outcome(false) && s' == s)
    && (body.Fields? && s.Flag().phase == "" && !(PinFormat(body.pin) && verdict == Says(true)) ==>
          r != Outcome(true) && s'.locked == s.locked && s'.tree == s.tree)
    && (r == Outcome(true) ==> !s'.locked && Completed(s.tree, s'.trace, s'.tree) && s'.unsynced == map[])
    && (steady && body.Fields? && body.confirm == "UNLOCK" && Resumable(inst, s) ==>
          r == Outcome(true) && Counted(s, s') && PinsAsked(s'.trace) == PinsAsked(s.trace))
    && (steady && body.Fields? && body.confirm == "UNLOCK" && Startable(inst, s)
        && PinFormat(body.pin) && verdict == Says(true) ==>
          r == Outcome(true) && Counted(s, s') && PinsAsked(s'.trace) == PinsAsked(s.trace) + 1)
  }

  /** An unlock whose transaction has not been counted yet. */
  predicate Uncounted(s: State)
    requires s.flag.Valid()
  {
    !s.locked && s.Flag().armed && s.Flag().phase == "verity-off"
  }

  /** What GET /lock-state reports: the TPM's word when it can be read and locked otherwise, and the flag. It counts
      an uncounted unlock and changes nothing else. */
  ghost predicate LockStateServed(s: State, s': State, steady: bool, r: Response)
    requires s.flag.Valid() && s'.flag.Valid()
  {
    && r.LockInfoIs?
    && (if Uncounted(s) then steady ==> Counted(s, s') && s'.flag.Settled() else s' == s)
    && (s.locked ==> r.info.locked) && (steady ==> r.info.locked == s.locked)
    && r.info.unlockArmed == (s'.Flag().armed && s'.Flag().owner >= 1000)
    && r.info.unlockCount == s'.Flag().count
  }

  // ---- the client's idea of a request ----

  /** A text of the client, byte by byte. */
  function TextOf(b: Bytes.bytes): (s: string)
    ensures |s| == |b| && forall i | 0 <= i < |b| :: s[i] == b[i] as char
  {
    seq(|b|, i requires 0 <= i < |b| => b[i] as char)
  }

  /** The server accepts PINs of 4 to 256 bytes without line breaks, and the client exactly those of them that have
      no control byte. */
  lemma ClientAndServerAgreeOnPins(pin: Bytes.bytes)
    ensures PinFormat(TextOf(pin)) <==> 4 <= |pin| <= 256 && 10 !in pin && 13 !in pin
    ensures JsonText.PinAccepted(pin) <==> PinFormat(TextOf(pin)) && forall c | c in pin :: c >= 0x20
  {
    var s := TextOf(pin);
    forall i | 0 <= i < |s| ensures (s[i] == '\r' <==> pin[i] == 13) && (s[i] == '\n' <==> pin[i] == 10) { }
    if 13 in pin { var i :| 0 <= i < |pin| && pin[i] == 13; assert s[i] in s; }
    if 10 in pin { var i :| 0 <= i < |pin| && pin[i] == 10; assert s[i] in s; }
  }

  /** The word that the client has the owner type is the word that the server wants. */
  lemma ClientAndServerAgreeOnTheWord()
    ensures TextOf(UiModel.UNLOCK_WORD) == CONFIRM_WORD && JsonText.ConfirmAccepted(UiModel.UNLOCK_WORD)
  {
    assert TextOf(UiModel.UNLOCK_WORD) == "UNLOCK";
  }

  class Handler {
    const core: Core
    const policy: Policy

    constructor (core: Core, policy: Policy)
      ensures this.core == core && this.policy == policy
    {
      this.core, this.policy := core, policy;
    }

    /** The policy is that of the running server. */
    ghost predicate Ready()
      reads this, core
    {
      core.Quiet() && (policy.runtime <==> core.mode == Runtime)
    }

    /** The account an arm request speaks for: the configured owner, else the socket peer. */
    function Owner(peerUid: Option<int>): (uid: int)
    {
      if policy.ownerUid >= FIRST_OWNER_UID then policy.ownerUid
      else if peerUid.Some? then peerUid.value else 0
    }

    /** The checks of an arm request in runtime mode. `granted` means the crypto agent accepted the PIN of `uid`
        just now; `verdict` is its answer if it is asked. */
    method CheckOwner(pin: string, peerUid: Option<int>, verdict: Answer, steady: bool)
      returns (granted: bool, uid: int, grant: nat)
      requires Ready() && policy.runtime
      modifies core
      ensures Ready() && FlagOnly(old(core.View()), core.View())
      ensures granted ==> uid == Owner(peerUid) && uid >= FIRST_OWNER_UID && HoldsGrant(core.View(), uid, grant)
      ensures granted ==> grant >= |old(core.trace)| && PinFormat(pin) && verdict == Says(true)
      ensures granted ==> core.flag == old(core.flag)
      ensures Withheld(old(core.View()), core.View())
      ensures steady ==>
                (granted <==> old(core.locked) && Owner(peerUid) >= FIRST_OWNER_UID && PinFormat(pin) && verdict == Says(true))
    {
      granted, uid, grant := false, 0, 0;
      var info, _, _ := core.LockState(steady);
      if !info.locked { return; }
      uid := policy.ownerUid;
      if uid < FIRST_OWNER_UID {
        if peerUid.None? || peerUid.value < FIRST_OWNER_UID { return; }
        uid := peerUid.value;
      }
      if !PinFormat(pin) { return; }
      if verdict != Says(true) { return; }
      grant := core.NoteArmPin(uid, pin);
      granted := true;
    }

    /** An arm request in runtime mode. */
    method ArmAsOwner(pin: string, peerUid: Option<int>, verdict: Answer, steady: bool) returns (ok: bool)
      requires Ready() && policy.runtime
      modifies core
      ensures Ready() && FlagOnly(old(core.View()), core.View())
      ensures ok ==>
                && PinFormat(pin) && verdict == Says(true) && Owner(peerUid) >= FIRST_OWNER_UID
                && core.View().Flag() == old(core.View()).Flag().(armed := true, owner := Owner(peerUid)) && core.flag.Settled()
                && exists i :: |old(core.trace)| <= i < |core.trace| && core.trace[i] == ArmPin(Owner(peerUid))
      ensures steady && !ok ==> Withheld(old(core.View()), core.View())
      ensures steady ==>
                (ok <==> && old(core.locked) && Owner(peerUid) >= FIRST_OWNER_UID && PinFormat(pin)
                         && verdict == Says(true) && old(core.View()).Flag().phase == "")
    {
      var granted, uid, grant := CheckOwner(pin, peerUid, verdict, steady);
      if !granted { return false; }
      ghost var end;
      ok, end := core.ArmForOwner(uid, grant, steady);
      assert core.trace[grant] == ArmPin(uid);
    }

    /** POST /arm-unlock. */
    method PostArmUnlock(body: Body, peerUid: Option<int>, verdict: Answer, steady: bool) returns (r: Response)
      requires Ready()
      modifies core
      ensures Ready()
      ensures ArmServed(policy.runtime, old(core.View()), core.View(), body, Owner(peerUid), verdict, steady, r)
    {
      if body.Malformed? { return BadRequest; }
      var ok: bool;
      ghost var bit: Answer, end: WriteEnd;
      if policy.runtime && body.armed {
        ok := ArmAsOwner(body.pin, peerUid, verdict, steady);
      } else if body.armed {
        ok, end := core.ArmForOwner(0, 0, steady);
      } else {
        ok, bit, end := core.Disarm(steady);
      }
      r := Outcome(ok);
    }

    /** One request. In runtime mode only the two policy routes exist; outside it no request can arm. */
    method Serve(req: Request, verdict: Answer, steady: bool) returns (r: Response)
      requires Ready()
      modifies core
      ensures core.Quiet()
      ensures r != NoResponse ==> Ready()
      ensures policy.runtime ==> FlagOnly(old(core.View()), core.View())
      ensures policy.runtime && !RuntimeServes(req.verb, req.path) ==> r == NotFound && core.View() == old(core.View())
      ensures !policy.runtime && !old(core.View()).Flag().armed ==> !core.View().Flag().armed || r == NoResponse
      ensures req.verb == "POST" && req.path == "/arm-unlock" ==>
                ArmServed(policy.runtime, old(core.View()), core.View(), req.body, Owner(req.peerUid), verdict, steady, r)
      ensures req.verb == "POST" && req.path == "/unlock-bootloader" && !policy.runtime ==>
                UnlockServed(core.inst, old(core.View()), core.View(), req.body, verdict, steady, r)
      ensures req.verb == "GET" && req.path == "/lock-state" ==>
                LockStateServed(old(core.View()), core.View(), steady, r)
    {
      if policy.runtime && !RuntimeServes(req.verb, req.path) { return NotFound; }
      if req.verb == "POST" && req.path == ARM_PATH {
        r := PostArmUnlock(req.body, req.peerUid, verdict, steady);
      } else if req.verb in {"GET", "HEAD"} && req.path == LOCK_STATE_PATH {
        r := GetLockState(steady);
      } else if req.verb == "POST" && req.path == UNLOCK_PATH {
        r := PostUnlock(req.body, verdict, steady);
      } else {
        r := OtherRoute;
      }
    }

    /** GET /lock-state. */
    method GetLockState(steady: bool) returns (r: Response)
      requires Ready()
      modifies core
      ensures Ready() && FlagOnly(old(core.View()), core.View())
      ensures core.View().Flag().armed ==> old(core.View()).Flag().armed
      ensures LockStateServed(old(core.View()), core.View(), steady, r)
    {
      var info, _, _ := core.LockState(steady);
      r := LockInfoIs(info);
    }

    /** POST /unlock-bootloader. */
    method PostUnlock(body: Body, verdict: Answer, steady: bool) returns (r: Response)
      requires Ready() && !policy.runtime
      modifies core
      ensures core.Quiet() && (r != NoResponse ==> Ready())
      ensures UnlockServed(core.inst, old(core.View()), core.View(), body, verdict, steady, r)
    {
      if body.Malformed? { return BadRequest; }
      var reply := core.UnlockBootloader(body.confirm, body.pin, verdict, steady);
      r := if reply == Dead then NoResponse else Outcome(reply == Granted);
    }
  }
}
