/**
 The event handling of the recovery UI in its own form: global variables, fixed buffers for the entries,
 and a handler that updates them in place. Every handler is proved to do what `UiModel` says.
 */
module UiFlow {
  import opened Wrappers
  import opened Bytes
  import opened UiModel

  /** std.mem.sliceTo(&buf, 0). */
  function SliceTo(b: bytes): (r: bytes)
    ensures |r| <= |b|
  {
    if b == [] || b[0] == 0 then [] else [b[0]] + SliceTo(b[1..])
  }

  lemma {:induction false} SliceToIs(b: bytes, len: nat)
    requires len < |b| && b[len] == 0 && forall k | 0 <= k < len :: b[k] != 0
    ensures SliceTo(b) == b[..len]
    decreases len
  {
    if len > 0 {
      SliceToIs(b[1..], len - 1);
      assert b[..len] == [b[0]] + b[1..][..len - 1];
    }
  }

  /** A zero-terminated entry of `len` non-zero bytes. */
  predicate EntryOk(buf: array<byte>, len: nat)
    reads buf
  {
    len < buf.Length && buf[len] == 0 && forall k | 0 <= k < len :: buf[k] != 0
  }

  predicate ZeroFrom(buf: array<byte>, from: nat)
    reads buf
  {
    forall k | from <= k < buf.Length :: buf[k] == 0
  }

  /** entryPut on the chosen buffer: nothing happens when it is full. */
  method Put(buf: array<byte>, len: nat, ch: byte) returns (n: nat)
    requires EntryOk(buf, len) && ch != 0
    modifies buf
    ensures EntryOk(buf, n)
    ensures buf[..n] == if len < buf.Length - 1 then old(buf[..len]) + [ch] else old(buf[..len])
    ensures old(ZeroFrom(buf, len)) ==> ZeroFrom(buf, n)
  {
    n := len;
    if len < buf.Length - 1 {
      buf[n] := ch;
      n := n + 1;
      buf[n] := 0;
      assert buf[..n] == old(buf[..len]) + [ch];
    }
  }

  /** entryDel on the chosen buffer. */
  method Delete(buf: array<byte>, len: nat) returns (n: nat)
    requires EntryOk(buf, len)
    modifies buf
    ensures EntryOk(buf, n)
    ensures buf[..n] == Shorter(old(buf[..len]))
    ensures old(ZeroFrom(buf, len)) ==> ZeroFrom(buf, n)
  {
    n := len;
    if n > 0 {
      n := n - 1;
      buf[n] := 0;
      assert buf[..n] == old(buf[..len])[..len - 1];
    }
  }

  /** secureZero. */
  method Wipe(buf: array<byte>)
    modifies buf
    ensures ZeroFrom(buf, 0)
  {
    for k := 0 to buf.Length
      invariant forall j | 0 <= j < k :: buf[j] == 0
    {
      buf[k] := 0;
    }
  }

  /** Where an event moves the keyboard cursor. */
  method CursorAfter(row: nat, col: nat, e: Event) returns (r: nat, c: nat)
    requires row < 4 && col < RowLength(row)
    ensures r < 4 && c < RowLength(r)
    ensures r == if e == Up then (if row == 0 then 3 else row - 1) else if e == Down then (if row == 3 then 0 else row + 1) else row
    ensures e == Right ==> c == if col == RowLength(row) - 1 then 0 else col + 1
    ensures e == Left ==> c == if col == 0 then RowLength(row) - 1 else col - 1
    ensures e != Left && e != Right ==> c == if col < RowLength(r) then col else RowLength(r) - 1
  {
    r, c := row, col;
    if e == Up { r := (r + 3) % 4; }
    if e == Down { r := (r + 1) % 4; }
    if e == Left { c := (c + RowLength(r) - 1) % RowLength(r); }
    if e == Right { c := (c + 1) % RowLength(r); }
    if c >= RowLength(r) { c := RowLength(r) - 1; }
  }

  /** The byte that oskType types. */
  method KeyByte(r: nat, c: nat, shift: bool) returns (ch: byte)
    requires r < 4 && c < RowLength(r)
    ensures ch == Key(r, c, shift)
  {
    ghost var plain := Key(r, c, false);
    ch := OSK_KEYS[r][c] as int % 256;
    if shift && 97 <= ch <= 122 { ch := ch - 32; }
  }

  /** The selection among `n` networks after an event. */
  method NetAfter(sel: nat, n: nat, e: Event) returns (r: nat)
    requires sel < n || sel == 0
    ensures r == NextNet(sel, n, e)
  {
    var m := if n > 0 then n else 1;
    Wraps(sel, m);
    r := sel;
    if e == Up { r := (r + m - 1) % m; }
    if e == Down { r := (r + 1) % m; }
  }

  lemma Wraps(i: nat, m: nat)
    requires i < m
    ensures (i + m - 1) % m == if i == 0 then m - 1 else i - 1
    ensures (i + 1) % m == if i == m - 1 then 0 else i + 1
  {
    if i == 0 {
      InRange(m - 1, m);
    } else {
      OneTurn(i - 1, m);
      assert i + m - 1 == (i - 1) + m;
    }
    if i == m - 1 {
      OneTurn(0, m);
      assert i + 1 == 0 + m;
    } else {
      InRange(i + 1, m);
    }
  }

  lemma InRange(i: nat, m: nat)
    requires i < m
    ensures i % m == i
  {
  }

  lemma OneTurn(i: nat, m: nat)
    requires i < m
    ensures (i + m) % m == i
  {
    var q, r := (i + m) / m, (i + m) % m;
    assert i + m == q * m + r;
    if q != 1 { TurnsDiffer(q, m); }
  }

  lemma TurnsDiffer(q: int, m: nat)
    requires m > 0 && q != 1
    ensures q * m <= 0 || q * m >= 2 * m
  {
    if q >= 2 { assert (q - 2) * m >= 0; } else { assert q * m <= 0; }
  }

  class Ui {
    var screen: Screen
    var menuSel: nat
    var secure: seq<bool>          // nets[..net_n]
    var netSel: nat
    var chosen: nat                // whose SSID sel_ssid holds
    const psk: array<byte>
    var pskLen: nat
    const word: array<byte>        // unlock_txt
    var wordLen: nat
    const pin: array<byte>         // unlock_pin
    var pinLen: nat
    var lock: LockState
    var oskRow: nat
    var oskCol: nat
    var oskShift: bool
    var online: bool
    var job: JobState

    // bookkeeping
    var events: nat                // events handled so far
    var lockReadIn: nat            // the event in which `lock` was last read
    var calls: seq<UnlockCall>     // calls of the unlock API
    var requests: seq<Request>     // other calls

    /** The buffers are apart and hold entries, and nothing is left of the PIN beyond its entry. */
    ghost predicate Laid()
      reads this, psk, word, pin
    {
      && psk.Length == 128 && word.Length == 32 && pin.Length == 257
      && psk != word && psk != pin && word != pin
      && EntryOk(psk, pskLen) && EntryOk(word, wordLen) && EntryOk(pin, pinLen)
      && ZeroFrom(pin, pinLen)
    }

    ghost function View(): (m: Model)
      requires Laid()
      reads this, psk, word, pin
    {
      Model(screen, menuSel, secure, netSel, chosen, psk[..pskLen], word[..wordLen], pin[..pinLen], lock, lockReadIn,
            oskRow, oskCol, oskShift, online, job, events, calls, requests)
    }

    ghost predicate Valid()
      reads this, psk, word, pin
    {
      Laid() && ModelOk(View())
    }

    /** On every screen but those two the whole PIN buffer is zero. */
    lemma PinIsGone()
      requires Valid() && screen != UnlockPin && screen != UnlockConfirm
      ensures forall k | 0 <= k < pin.Length :: pin[k] == 0
    {
      assert View().pin == [];
    }

    constructor ()
      ensures Valid() && fresh(psk) && fresh(word) && fresh(pin) && View() == INITIAL
    {
      psk, word, pin := new byte[128](_ => 0), new byte[32](_ => 0), new byte[257](_ => 0);
      screen, menuSel, secure, netSel, chosen := Menu, 0, [], 0, 0;
      pskLen, wordLen, pinLen := 0, 0, 0;
      lock, oskRow, oskCol, oskShift := FAIL_CLOSED, 0, 0, false;
      online, job := false, Idle;
      events, lockReadIn, calls, requests := 0, 0, [], [];
      new;
      assert psk[..0] == [] && word[..0] == [] && pin[..0] == [];
    }

    // ---- the agent, as the UI sees it ----

    /** api.getLockState: an unreadable state is held as locked and not armed. */
    method ReadLockState(w: World) returns (ok: bool)
      requires Laid()
      modifies this`lock, this`lockReadIn
      ensures Laid() && View() == ReadLock(old(View()), w) && ok == w.lock.Some?
    {
      ok := w.lock.Some?;
      lock := if ok then w.lock.value else FAIL_CLOSED;
      lockReadIn := events;
    }

    /** api.unlockBootloader with the two entries. */
    method CallUnlock(w: World) returns (ok: bool)
      requires Laid()
      modifies this`calls
      ensures Laid() && ok == w.unlocks
      ensures View() == old(View()).(calls := old(calls) + [UnlockCall(word[..wordLen], pin[..pinLen], events, lock, lockReadIn)])
    {
      SliceToIs(word[..], wordLen);
      SliceToIs(pin[..], pinLen);
      assert word[..][..wordLen] == word[..wordLen] && pin[..][..pinLen] == pin[..pinLen];
      calls := calls + [UnlockCall(SliceTo(word[..]), SliceTo(pin[..]), events, lock, lockReadIn)];
      ok := w.unlocks;
    }

    // ---- entry and keyboard ----

    /** entryPut: one more byte, unless the entry of the screen is full. */
    method EntryPut(ch: byte)
      requires Laid() && ch != 0
      modifies this`pskLen, this`wordLen, this`pinLen, psk, word, pin
      ensures Laid() && View() == Typed(old(View()), ch)
    {
      if screen == UnlockConfirm {
        var n := Put(word, wordLen, ch);
        wordLen := n;
        assert View() == old(View()).(word := word[..n]);
      } else if screen == UnlockPin {
        var n := Put(pin, pinLen, ch);
        pinLen := n;
        assert View() == old(View()).(pin := pin[..n]);
      } else {
        var n := Put(psk, pskLen, ch);
        pskLen := n;
        assert View() == old(View()).(psk := psk[..n]);
      }
    }

    /** entryDel: the last byte of the entry of the screen goes. */
    method EntryDel()
      requires Laid()
      modifies this`pskLen, this`wordLen, this`pinLen, psk, word, pin
      ensures Laid() && View() == Deleted(old(View()))
    {
      if screen == UnlockConfirm {
        DelWord();
      } else if screen == UnlockPin {
        DelPin();
      } else {
        DelPsk();
      }
    }

    method DelWord()
      requires Laid()
      modifies this`wordLen, word
      ensures Laid() && View() == old(View()).(word := Shorter(old(View()).word))
    {
      var n := Delete(word, wordLen);
      wordLen := n;
    }

    method DelPin()
      requires Laid()
      modifies this`pinLen, pin
      ensures Laid() && View() == old(View()).(pin := Shorter(old(View()).pin))
    {
      var n := Delete(pin, pinLen);
      pinLen := n;
    }

    method DelPsk()
      requires Laid()
      modifies this`pskLen, psk
      ensures Laid() && View() == old(View()).(psk := Shorter(old(View()).psk))
    {
      var n := Delete(psk, pskLen);
      pskLen := n;
    }

    /** oskType: the selected key. */
    method OskType()
      requires Laid() && oskRow < 4 && oskCol < RowLength(oskRow)
      modifies this`pskLen, this`wordLen, this`pinLen, psk, word, pin
      ensures Laid() && View() == Typed(old(View()), Key(oskRow, oskCol, oskShift))
    {
      var ch := KeyByte(oskRow, oskCol, oskShift);
      EntryPut(ch);
    }

    /** oskMove. */
    method OskMove(e: Event)
      requires Laid() && ValidEvent(e) && oskRow < 4 && oskCol < RowLength(oskRow)
      modifies this`oskRow, this`oskCol, this`oskShift, this`pskLen, this`wordLen, this`pinLen, psk, word, pin
      ensures Laid() && View() == Keyed(old(View()), e)
    {
      MoveCursor(e);
      TypeFor(e);
    }

    method MoveCursor(e: Event)
      requires Laid() && oskRow < 4 && oskCol < RowLength(oskRow)
      modifies this`oskRow, this`oskCol
      ensures Laid() && View() == if IsArrow(e) then Keyed(old(View()), e) else old(View())
    {
      var r, c := CursorAfter(oskRow, oskCol, e);
      oskRow, oskCol := r, c;
    }

    method TypeFor(e: Event)
      requires Laid() && ValidEvent(e) && oskRow < 4 && oskCol < RowLength(oskRow)
      modifies this`oskShift, this`pskLen, this`wordLen, this`pinLen, psk, word, pin
      ensures Laid() && View() == if IsArrow(e) then old(View()) else Keyed(old(View()), e)
    {
      if e == Enter {
        OskType();
      } else if e == Shift {
        oskShift := !oskShift;
      } else if e == Del {
        EntryDel();
      } else if e.Char? {
        EntryPut(e.ch);
      }
    }

    /** unlockMatches. */
    method UnlockMatches() returns (b: bool)
      requires Laid()
      ensures b <==> View().word == UNLOCK_WORD
    {
      SliceToIs(word[..], wordLen);
      assert word[..][..wordLen] == word[..wordLen];
      b := SliceTo(word[..]) == UNLOCK_WORD;
    }

    // ---- the flow ----

    method ClearWord()
      requires Laid()
      modifies this`wordLen, word
      ensures Laid() && View() == old(View()).(word := [])
    {
      wordLen := 0;
      word[0] := 0;
    }

    method ClearPin()
      requires Laid()
      modifies this`pinLen, pin
      ensures Laid() && View() == old(View()).(pin := [])
    {
      Wipe(pin);
      pinLen := 0;
    }

    /** Both entries are dropped. */
    method Forget()
      requires Laid()
      modifies this`wordLen, this`pinLen, word, pin
      ensures Laid() && View() == old(View()).(word := [], pin := [])
    {
      ClearWord();
      ClearPin();
    }

    method Ask(q: Request)
      requires Laid()
      modifies this`requests
      ensures Laid() && View() == Asked(old(View()), q)
    {
      requests := requests + [q];
    }

    /** goWifi. */
    method GoWifi(w: World)
      requires Laid()
      modifies this`screen, this`secure, this`netSel, this`requests
      ensures Laid() && View() == Scanned(old(View()), w.nets)
    {
      screen := Wifi;
      Ask(Scan);
      secure := if |w.nets| <= MAX_NETS then w.nets else w.nets[..MAX_NETS];
      netSel := 0;
    }

    /** A menu item that starts a job. */
    method StartJob(q: Request, w: World)
      requires Laid()
      modifies this`screen, this`requests
      ensures Laid() && View() == Started(old(View()), q, w)
    {
      Ask(q);
      if w.starts { screen := Progress; }
    }

    /** Choosing "Unlock bootloader": the warning is shown only for a device read as locked and armed. */
    method ChooseUnlock(w: World)
      requires Laid() && menuSel == 3
      modifies this`screen, this`wordLen, this`pinLen, this`lock, this`lockReadIn, word, pin
      ensures Laid() && View() == MenuEntered(old(View()), w)
    {
      Forget();
      var ok := ReadLockState(w);
      if !ok { screen := UnlockBlocked; }
      else if !lock.locked { }
      else if !lock.unlockArmed { screen := UnlockBlocked; }
      else { screen := UnlockWarn; }
    }

    method HandleMenu(e: Event, w: World)
      requires Laid() && menuSel < 4
      modifies this, psk, word, pin
      ensures Laid() && View() == MenuDoes(old(View()), e, w)
    {
      if e == Up { menuSel := (menuSel + 4 - 1) % 4; }
      if e == Down { menuSel := (menuSel + 1) % 4; }
      if e == Enter { EnterMenu(w); }
    }

    method EnterMenu(w: World)
      requires Laid() && menuSel < 4
      modifies this, psk, word, pin
      ensures Laid() && View() == MenuEntered(old(View()), w)
    {
      if menuSel == 0 {
        if online { StartJob(Reinstall, w); } else { GoWifi(w); }
      } else if menuSel == 1 {
        StartJob(Repair, w);
      } else if menuSel == 2 {
        StartJob(RepairLoader, w);
      } else {
        ChooseUnlock(w);
      }
    }

    method HandleWifi(e: Event)
      requires Laid() && (netSel < |secure| || netSel == 0)
      modifies this, psk, word, pin
      ensures Laid() && View() == WifiDoes(old(View()), e)
    {
      var sel := NetAfter(netSel, |secure|, e);
      netSel := sel;
      if e == Back { screen := Menu; }
      if e == Enter && |secure| > 0 { EnterNetwork(); }
    }

    method EnterNetwork()
      requires Laid() && netSel < |secure|
      modifies this, psk, word, pin
      ensures Laid() && View() == NetEntered(old(View()))
    {
      chosen := netSel;
      if secure[netSel] {
        EnterPasswordScreen();
      } else {
        Ask(Join(chosen, []));
        screen := Menu;
      }
    }

    method EnterPasswordScreen()
      requires Laid()
      modifies this, psk
      ensures Laid() && View() == old(View()).(screen := Password, psk := [], oskRow := 0, oskCol := 0)
    {
      ClearPsk();
      screen := Password;
      oskRow, oskCol := 0, 0;
    }

    method ClearPsk()
      requires Laid()
      modifies this`pskLen, psk
      ensures Laid() && View() == old(View()).(psk := [])
    {
      pskLen := 0;
      psk[0] := 0;
    }

    method HandlePassword(e: Event)
      requires Laid() && screen == Password && ValidEvent(e) && oskRow < 4 && oskCol < RowLength(oskRow)
      modifies this, psk, word, pin
      ensures Laid() && View() == PasswordDoes(old(View()), e)
    {
      if e == Back { screen := Wifi; }
      OskMove(e);
      if e == ConnectKey {
        SliceToIs(psk[..], pskLen);
        assert psk[..][..pskLen] == psk[..pskLen];
        Ask(Join(chosen, SliceTo(psk[..])));
        screen := Menu;
      }
    }

    method HandleWarn(e: Event, w: World)
      requires Laid()
      modifies this, psk, word, pin
      ensures Laid() && View() == WarnDoes(old(View()), e, w)
    {
      if e == Back {
        Ask(Disarm);
        if w.disarms { screen := Menu; }
      }
      if e == Enter {
        EnterPinScreen();
      }
    }

    method EnterPinScreen()
      requires Laid()
      modifies this, psk, word, pin
      ensures Laid() && View() == old(View()).(screen := UnlockPin, word := [], oskRow := 0, oskCol := 0, oskShift := false)
    {
      ClearWord();
      oskRow, oskCol, oskShift := 0, 0, false;
      screen := UnlockPin;
    }

    /** Leaving backwards clears the PIN; going on needs four bytes. */
    method HandlePin(e: Event)
      requires Laid() && screen == UnlockPin && ValidEvent(e) && oskRow < 4 && oskCol < RowLength(oskRow)
      modifies this, psk, word, pin
      ensures Laid() && View() == PinDoes(old(View()), e)
    {
      if e == Back {
        ClearPin();
        screen := UnlockWarn;
        return;
      }
      OskMove(e);
      if e == ConnectKey {
        if pinLen < 4 { return; }
        EnterConfirmScreen();
      }
    }

    method EnterConfirmScreen()
      requires Laid()
      modifies this, psk, word, pin
      ensures Laid() && View() == old(View()).(screen := UnlockConfirm, word := [], oskShift := true)
    {
      ClearWord();
      oskShift := true;
      screen := UnlockConfirm;
    }

    /** The only place the unlock API is called from. */
    method HandleConfirm(e: Event, w: World)
      requires Laid() && screen == UnlockConfirm && ValidEvent(e) && oskRow < 4 && oskCol < RowLength(oskRow)
      modifies this, psk, word, pin
      ensures Laid() && View() == ConfirmDoes(old(View()), e, w)
    {
      if e == Back {
        ClearWord();
        screen := UnlockPin;
        return;
      }
      OskMove(e);
      if e == ConnectKey { Submit(w); }
    }

    /** Submitting on the confirm screen. */
    method Submit(w: World)
      requires Laid()
      modifies this, psk, word, pin
      ensures Laid() && View() == Submitted(old(View()), w)
    {
      var matches := UnlockMatches();
      if !matches { return; }
      var ok := ReadLockState(w);
      if !ok || !lock.locked || !lock.unlockArmed {
        Forget();
        screen := UnlockBlocked;
        return;
      }
      UnlockNow(w);
    }

    method UnlockNow(w: World)
      requires Laid()
      modifies this, psk, word, pin
      ensures Laid()
      ensures View() == old(View()).(
                calls := old(calls) + [UnlockCall(old(View()).word, old(View()).pin, events, lock, lockReadIn)],
                word := [], pin := [], screen := if w.unlocks then Progress else UnlockPin)
    {
      var done := CallUnlock(w);
      Forget();
      screen := if done then Progress else UnlockPin;
    }

    /** handle. */
    method Handle(e: Event, w: World)
      requires Valid() && ValidEvent(e)
      modifies this, psk, word, pin
      ensures Valid() && View() == Handled(old(View()), e, w)
    {
      HandledIsOk(View(), e, w);
      events := events + 1;
      assert View() == Tick(old(View()));
      if screen == UnlockWarn || screen == UnlockPin || screen == UnlockConfirm {
        HandleUnlock(e, w);
      } else {
        HandleOther(e, w);
      }
    }

    method HandleUnlock(e: Event, w: World)
      requires Valid() && ValidEvent(e) && (screen == UnlockWarn || screen == UnlockPin || screen == UnlockConfirm)
      modifies this, psk, word, pin
      ensures Laid() && View() == Does(old(View()), e, w)
    {
      match screen {
        case UnlockWarn => HandleWarn(e, w);
        case UnlockPin => HandlePin(e);
        case UnlockConfirm => HandleConfirm(e, w);
      }
    }

    method HandleOther(e: Event, w: World)
      requires Valid() && ValidEvent(e) && screen != UnlockWarn && screen != UnlockPin && screen != UnlockConfirm
      modifies this, psk, word, pin
      ensures Laid() && View() == Does(old(View()), e, w)
    {
      match screen {
        case Menu => HandleMenu(e, w);
        case SdbPair =>
          if e == Back {
            Ask(CancelPairing);
            screen := Menu;
          }
        case Wifi => HandleWifi(e);
        case Password => HandlePassword(e);
        case Progress => if e == Back && (job == Failed || job == Done) { screen := Menu; }
        case UnlockBlocked => if e == Back || e == Enter { screen := Menu; }
      }
    }

    /** Between events the main loop refreshes the status, and on the menu the lock state. */
    method Poll(isOnline: bool, state: JobState, read: Option<LockState>)
      requires Valid()
      modifies this, psk, word, pin
      ensures Valid() && View() == After(old(View()), Refresh(isOnline, state, read))
    {
      AfterIsOk(View(), Refresh(isOnline, state, read));
      online := isOnline;
      job := state;
      if screen == Menu { var _ := ReadLockState(World(read, false, false, [], false)); }
    }
  }

  /** The main loop over any events, answers and refreshes: the state is what `Ran` says. So every call of the unlock API
      has the exact word, a PIN of 4 to 256 non-zero bytes and a lock state read as locked and armed in the
      same event; outside the PIN and confirm screens the PIN buffer is all zeros; and every index the next
      event can use is in range. */
  method Session(script: seq<Step>) returns (ui: Ui)
    requires forall step | step in script :: ValidStep(step)
    ensures ui.Valid() && Ran(INITIAL, script) == Some(ui.View())
    ensures forall c | c in ui.calls :: Proper(c)
    ensures ui.screen != UnlockPin && ui.screen != UnlockConfirm ==> forall k | 0 <= k < ui.pin.Length :: ui.pin[k] == 0
    ensures ui.menuSel < 4 && ui.oskRow < 4 && ui.oskCol < |OSK_KEYS[ui.oskRow]|
    ensures |ui.secure| > 0 ==> ui.netSel < |ui.secure| <= 64
  {
    ui := new Ui();
    for k := 0 to |script|
      invariant fresh(ui) && fresh(ui.psk) && fresh(ui.word) && fresh(ui.pin)
      invariant ui.Valid() && Ran(ui.View(), script[k..]) == Ran(INITIAL, script)
    {
      assert script[k] in script && script[k..] == [script[k]] + script[k + 1..];
      OneStep(ui.View(), script[k], script[k + 1..]);
      match script[k] {
        case Press(e, w) => ui.Handle(e, w);
        case Refresh(online, job, lock) => ui.Poll(online, job, lock);
      }
    }
    assert script[|script|..] == [];
    if ui.screen != UnlockPin && ui.screen != UnlockConfirm { ui.PinIsGone(); }
  }
}
