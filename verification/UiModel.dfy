/**
 What the recovery UI does with events, as a function on its state: screens, selections, the text of the
 entries, the on-screen keyboard, and the calls it makes to the agent. Drawing and messages are not part
 of it; what the agent answers during an event is a `World`.
 */
module UiModel {
  import opened Wrappers
  import opened Bytes

  datatype Screen = Menu | Wifi | Password | Progress | UnlockWarn | UnlockPin | UnlockConfirm | UnlockBlocked | SdbPair

  datatype Event = Up | Down | Left | Right | Enter | Back | Char(ch: byte) | Del | ConnectKey | Shift

  /** keyChar never produces a zero byte. */
  predicate ValidEvent(e: Event) {
    e.Char? ==> e.ch != 0
  }

  datatype LockState = LockState(locked: bool, unlockArmed: bool)

  /** What an unreadable lock state is held as. */
  const FAIL_CLOSED := LockState(true, false)

  datatype JobState = Idle | Connecting | Working | Done | Failed

  /** A call of the unlock API: its arguments, the number of the event it was made in, the lock state the UI then
      held, and the number of the event that state was read in. */
  datatype UnlockCall = UnlockCall(confirm: bytes, pin: bytes, event: nat, lock: LockState, readIn: nat)

  /** The other calls that change something. */
  datatype Request = Reinstall | Repair | RepairLoader | Scan | Join(net: nat, psk: bytes) | Disarm | CancelPairing

  /** What the agent answers during one event: the lock state, whether a job starts, whether the disarm succeeds, which
      of the networks found need a password, and whether the unlock succeeds. */
  datatype World = World(lock: Option<LockState>, starts: bool, disarms: bool, nets: seq<bool>, unlocks: bool)

  const UNLOCK_WORD: bytes := [85, 78, 76, 79, 67, 75]   // UNLOCK

  /** What every call of the unlock API must look like. */
  predicate Proper(c: UnlockCall) {
    && c.confirm == UNLOCK_WORD
    && 4 <= |c.pin| <= 256 && NonZero(c.pin)
    && c.lock == LockState(true, true) && c.readIn == c.event
  }

  predicate NonZero(t: bytes) {
    forall i | 0 <= i < |t| :: t[i] != 0
  }

  const MAX_NETS := 64

  const OSK_KEYS: seq<string> := ["1234567890", "qwertyuiop", "asdfghjkl", "zxcvbnm"]

  function RowLength(r: nat): (n: nat)
    requires r < 4
    ensures n == |OSK_KEYS[r]| && n > 0
  {
    if r < 2 then 10 else if r == 2 then 9 else 7
  }

  /** The byte a key types: digits and lower-case letters, and with shift upper-case letters. */
  function Key(r: nat, c: nat, shift: bool): (ch: byte)
    requires r < 4 && c < RowLength(r)
    ensures ch != 0 && (48 <= ch <= 57 || (if shift then 65 <= ch <= 90 else 97 <= ch <= 122))
  {
    var ch := OSK_KEYS[r][c];
    if 'a' <= ch <= 'z' && shift then ch as int - 'a' as int + 'A' as int else ch as int
  }

  /** The word can be typed on the on-screen keyboard, with shift. */
  lemma WordIsOnTheKeyboard()
    ensures [Key(1, 6, true), Key(3, 5, true), Key(2, 8, true), Key(1, 8, true), Key(3, 2, true), Key(2, 7, true)] == UNLOCK_WORD
  {
  }

  /** Every digit and every letter, in either case, is on the keyboard. */
  lemma EveryKeyIsThere(ch: byte) returns (r: nat, c: nat)
    requires 48 <= ch <= 57 || 65 <= ch <= 90 || 97 <= ch <= 122
    ensures r < 4 && c < RowLength(r) && Key(r, c, 65 <= ch <= 90) == ch
  {
    r, c := KeyPlace(if 65 <= ch <= 90 then (ch + 32) as char else ch as char);
  }

  lemma KeyPlace(ch: char) returns (r: nat, c: nat)
    requires '0' <= ch <= '9' || 'a' <= ch <= 'z'
    ensures r < 4 && c < RowLength(r) && OSK_KEYS[r][c] == ch
  {
    assert ch in OSK_KEYS[0] || ch in OSK_KEYS[1] || ch in OSK_KEYS[2] || ch in OSK_KEYS[3];
    r :| 0 <= r < 4 && ch in OSK_KEYS[r];
    c :| 0 <= c < |OSK_KEYS[r]| && OSK_KEYS[r][c] == ch;
  }

  datatype Model = Model(
    screen: Screen, menuSel: nat,
    secure: seq<bool>,              // the networks found: whether each needs a password
    netSel: nat, chosen: nat,       // the network selected, and the one that was chosen
    psk: bytes, word: bytes, pin: bytes,
    lock: LockState, lockReadIn: nat,
    oskRow: nat, oskCol: nat, oskShift: bool,
    online: bool, job: JobState,
    events: nat, calls: seq<UnlockCall>, requests: seq<Request>)

  const INITIAL := Model(Menu, 0, [], 0, 0, [], [], [], FAIL_CLOSED, 0, 0, 0, false, false, Idle, 0, [], [])

  /** What holds after every event: indices in range, no zero byte in an entry, no PIN outside the two screens that
      need it, and only proper unlock calls. */
  predicate ModelOk(m: Model) {
    && m.menuSel < 4
    && |m.secure| <= 64 && (m.netSel < |m.secure| || m.netSel == 0)
    && m.oskRow < 4 && m.oskCol < RowLength(m.oskRow)
    && |m.psk| <= 127 && |m.word| <= 31 && |m.pin| <= 256 && NonZero(m.psk) && NonZero(m.word) && NonZero(m.pin)
    && (m.screen != UnlockPin && m.screen != UnlockConfirm ==> m.pin == [])
    && (m.screen == UnlockConfirm ==> |m.pin| >= 4)
    && (forall c | c in m.calls :: Proper(c))
  }

  // ---- entries and keyboard ----

  /** The entry a screen edits, and its room. */
  function Entry(m: Model): (t: bytes) {
    if m.screen == UnlockConfirm then m.word else if m.screen == UnlockPin then m.pin else m.psk
  }

  function WithEntry(m: Model, t: bytes): (r: Model) {
    if m.screen == UnlockConfirm then m.(word := t) else if m.screen == UnlockPin then m.(pin := t) else m.(psk := t)
  }

  function Room(screen: Screen): (n: nat) {
    if screen == UnlockConfirm then 31 else if screen == UnlockPin then 256 else 127
  }

  function Typed(m: Model, ch: byte): (r: Model) {
    if |Entry(m)| < Room(m.screen) then WithEntry(m, Entry(m) + [ch]) else m
  }

  /** A text without its last byte. */
  function Shorter(t: bytes): (r: bytes) {
    if t == [] then [] else t[..|t| - 1]
  }

  function Deleted(m: Model): (r: Model) {
    WithEntry(m, Shorter(Entry(m)))
  }

  function OnRow(m: Model, row: nat): (r: Model)
    requires row < 4
  {
    m.(oskRow := row, oskCol := if m.oskCol < RowLength(row) then m.oskCol else RowLength(row) - 1)
  }

  /** The keyboard: arrows move and wrap around, a shorter row pulls the cursor in, Enter types the selected key. */
  function Keyed(m: Model, e: Event): (r: Model)
    requires m.oskRow < 4 && m.oskCol < RowLength(m.oskRow)
  {
    var last := RowLength(m.oskRow) - 1;
    match e
    case Up => OnRow(m, if m.oskRow == 0 then 3 else m.oskRow - 1)
    case Down => OnRow(m, if m.oskRow == 3 then 0 else m.oskRow + 1)
    case Left => m.(oskCol := if m.oskCol == 0 then last else m.oskCol - 1)
    case Right => m.(oskCol := if m.oskCol == last then 0 else m.oskCol + 1)
    case Enter => Typed(m, Key(m.oskRow, m.oskCol, m.oskShift))
    case Shift => m.(oskShift := !m.oskShift)
    case Del => Deleted(m)
    case Char(ch) => Typed(m, ch)
    case _ => m
  }

  predicate IsArrow(e: Event) {
    e in {Up, Down, Left, Right}
  }

  // ---- the screens ----

  function ReadLock(m: Model, w: World): (r: Model) {
    m.(lock := if w.lock.Some? then w.lock.value else FAIL_CLOSED, lockReadIn := m.events)
  }

  function Asked(m: Model, q: Request): (r: Model) {
    m.(requests := m.requests + [q])
  }

  function Started(m: Model, q: Request, w: World): (r: Model) {
    Asked(m, q).(screen := if w.starts then Progress else m.screen)
  }

  /** Asks for a scan and shows the first 64 networks it finds. */
  function Scanned(m: Model, nets: seq<bool>): (r: Model)
    ensures r.screen == Wifi && r.secure <= nets && (r.secure == nets || |r.secure| == 64)
    ensures |r.secure| <= 64
  {
    Asked(m, Scan).(screen := Wifi, secure := if |nets| <= MAX_NETS then nets else nets[..MAX_NETS], netSel := 0)
  }

  /** The first item reinstalls, over Wi-Fi if the device is offline; the others repair, repair the loader, unlock. */
  function MenuEntered(m: Model, w: World): (r: Model) {
    if m.menuSel == 0 && !m.online then Scanned(m, w.nets)
    else if m.menuSel == 0 then Started(m, Reinstall, w)
    else if m.menuSel == 1 then Started(m, Repair, w)
    else if m.menuSel == 2 then Started(m, RepairLoader, w)
    else
      var read := ReadLock(m, w).(word := [], pin := []);
      match w.lock
      case None => read.(screen := UnlockBlocked)
      case Some(LockState(false, _)) => read
      case Some(LockState(true, false)) => read.(screen := UnlockBlocked)
      case Some(LockState(true, true)) => read.(screen := UnlockWarn)
  }

  function MenuDoes(m: Model, e: Event, w: World): (r: Model) {
    match e
    case Up => m.(menuSel := if m.menuSel == 0 then 3 else m.menuSel - 1)
    case Down => m.(menuSel := if m.menuSel == 3 then 0 else m.menuSel + 1)
    case Enter => MenuEntered(m, w)
    case _ => m
  }

  /** The selection in a list of `n` networks after an arrow; it wraps around. */
  function NextNet(sel: nat, n: nat, e: Event): (r: nat)
    requires sel < n || sel == 0
  {
    if n == 0 then 0
    else if e == Up then (if sel == 0 then n - 1 else sel - 1)
    else if e == Down then (if sel == n - 1 then 0 else sel + 1)
    else sel
  }

  /** A secured network asks for its password, an open one is joined at once. */
  function NetEntered(m: Model): (r: Model)
    requires m.netSel < |m.secure|
  {
    if m.secure[m.netSel] then m.(chosen := m.netSel, screen := Password, psk := [], oskRow := 0, oskCol := 0)
    else Asked(m, Join(m.netSel, [])).(chosen := m.netSel, screen := Menu)
  }

  function WifiDoes(m: Model, e: Event): (r: Model)
    requires m.netSel < |m.secure| || m.netSel == 0
  {
    if e == Back then m.(screen := Menu)
    else if e == Enter && m.secure != [] then NetEntered(m)
    else m.(netSel := NextNet(m.netSel, |m.secure|, e))
  }

  function PasswordDoes(m: Model, e: Event): (r: Model)
    requires m.oskRow < 4 && m.oskCol < RowLength(m.oskRow)
  {
    match e
    case Back => m.(screen := Wifi)
    case ConnectKey => Asked(m, Join(m.chosen, m.psk)).(screen := Menu)
    case _ => Keyed(m, e)
  }

  function WarnDoes(m: Model, e: Event, w: World): (r: Model) {
    match e
    case Back => Asked(m, Disarm).(screen := if w.disarms then Menu else m.screen)
    case Enter => m.(screen := UnlockPin, word := [], oskRow := 0, oskCol := 0, oskShift := false)
    case _ => m
  }

  function PinDoes(m: Model, e: Event): (r: Model)
    requires m.oskRow < 4 && m.oskCol < RowLength(m.oskRow)
  {
    match e
    case Back => m.(screen := UnlockWarn, pin := [])
    case ConnectKey => if |m.pin| < 4 then m else m.(screen := UnlockConfirm, word := [], oskShift := true)
    case _ => Keyed(m, e)
  }

  /** Submitting: with the word typed, the lock state is read again; a device locked and armed is asked to unlock, and
      either way both entries are forgotten. */
  function Submitted(m: Model, w: World): (r: Model) {
    if m.word != UNLOCK_WORD then m
    else
      var read := ReadLock(m, w).(word := [], pin := []);
      if w.lock != Some(LockState(true, true)) then read.(screen := UnlockBlocked)
      else read.(calls := m.calls + [UnlockCall(UNLOCK_WORD, m.pin, m.events, LockState(true, true), m.events)],
                 screen := if w.unlocks then Progress else UnlockPin)
  }

  function ConfirmDoes(m: Model, e: Event, w: World): (r: Model)
    requires m.oskRow < 4 && m.oskCol < RowLength(m.oskRow)
  {
    match e
    case Back => m.(screen := UnlockPin, word := [])
    case ConnectKey => Submitted(m, w)
    case _ => Keyed(m, e)
  }

  function Does(m: Model, e: Event, w: World): (r: Model)
    requires ModelOk(m)
  {
    match m.screen
    case Menu => MenuDoes(m, e, w)
    case Wifi => WifiDoes(m, e)
    case Password => PasswordDoes(m, e)
    case Progress => if e == Back && (m.job == Failed || m.job == Done) then m.(screen := Menu) else m
    case UnlockWarn => WarnDoes(m, e, w)
    case UnlockPin => PinDoes(m, e)
    case UnlockConfirm => ConfirmDoes(m, e, w)
    case UnlockBlocked => if e == Back || e == Enter then m.(screen := Menu) else m
    case SdbPair => if e == Back then Asked(m, CancelPairing).(screen := Menu) else m
  }

  /** One event. */
  function Handled(m: Model, e: Event, w: World): (r: Model)
    requires ModelOk(m)
  {
    Does(Tick(m), e, w)
  }

  function Tick(m: Model): (n: Model)
    requires ModelOk(m)
    ensures ModelOk(n)
  {
    m.(events := m.events + 1)
  }

  // ---- safety ----

  predicate Typing(screen: Screen) {
    screen == UnlockPin || screen == UnlockConfirm || screen == Password
  }

  lemma TypedIsOk(m: Model, ch: byte)
    requires ModelOk(m) && ch != 0 && Typing(m.screen)
    ensures ModelOk(Typed(m, ch)) && Typed(m, ch).screen == m.screen && Typed(m, ch).calls == m.calls
  {
  }

  lemma DeletedIsOk(m: Model)
    requires ModelOk(m) && m.screen in {Password, UnlockPin, UnlockConfirm}
    ensures ModelOk(Deleted(m)) && Deleted(m).screen == m.screen && Deleted(m).calls == m.calls
  {
  }

  lemma KeyedIsOk(m: Model, e: Event)
    requires ModelOk(m) && ValidEvent(e) && Typing(m.screen)
    ensures ModelOk(Keyed(m, e)) && Keyed(m, e).screen == m.screen && Keyed(m, e).calls == m.calls
  {
    if e == Enter {
      TypedIsOk(m, Key(m.oskRow, m.oskCol, m.oskShift));
    } else if e.Char? {
      TypedIsOk(m, e.ch);
    } else if e == Del {
      DeletedIsOk(m);
    }
  }

  lemma MenuIsOk(m: Model, e: Event, w: World)
    requires ModelOk(m) && m.screen == Menu
    ensures ModelOk(MenuDoes(m, e, w)) && MenuDoes(m, e, w).calls == m.calls
    ensures MenuDoes(m, e, w).screen in {Menu, Wifi, Progress, UnlockBlocked, UnlockWarn}
  {
    if e == Enter {
      if m.menuSel < 3 { MenuJobIsOk(m, w); } else { UnlockItemIsOk(m, w); }
    }
  }

  lemma MenuJobIsOk(m: Model, w: World)
    requires ModelOk(m) && m.screen == Menu && m.menuSel < 3
    ensures ModelOk(MenuEntered(m, w)) && MenuEntered(m, w).calls == m.calls
    ensures MenuEntered(m, w).screen in {Menu, Wifi, Progress}
  {
    StartedIsOk(m, if m.menuSel == 0 then Reinstall else if m.menuSel == 1 then Repair else RepairLoader, w);
    ScannedIsOk(m, w.nets);
  }

  lemma StartedIsOk(m: Model, q: Request, w: World)
    requires ModelOk(m) && m.screen == Menu
    ensures ModelOk(Started(m, q, w)) && Started(m, q, w).calls == m.calls && Started(m, q, w).screen in {Menu, Progress}
  {
  }

  lemma ScannedIsOk(m: Model, nets: seq<bool>)
    requires ModelOk(m) && m.screen == Menu
    ensures ModelOk(Scanned(m, nets)) && Scanned(m, nets).calls == m.calls && Scanned(m, nets).screen == Wifi
  {
  }

  lemma UnlockItemIsOk(m: Model, w: World)
    requires ModelOk(m) && m.screen == Menu && m.menuSel == 3
    ensures ModelOk(MenuEntered(m, w)) && MenuEntered(m, w).calls == m.calls
    ensures MenuEntered(m, w).screen in {Menu, UnlockBlocked, UnlockWarn}
  {
  }

  lemma WifiIsOk(m: Model, e: Event)
    requires ModelOk(m) && m.screen == Wifi
    ensures ModelOk(WifiDoes(m, e)) && WifiDoes(m, e).calls == m.calls && WifiDoes(m, e).screen in {Menu, Wifi, Password}
  {
    if e == Enter && m.secure != [] { NetEnteredIsOk(m); }
  }

  lemma NetEnteredIsOk(m: Model)
    requires ModelOk(m) && m.screen == Wifi && m.secure != []
    ensures ModelOk(NetEntered(m)) && NetEntered(m).calls == m.calls && NetEntered(m).screen in {Menu, Password}
  {
  }

  lemma PasswordIsOk(m: Model, e: Event)
    requires ModelOk(m) && m.screen == Password && ValidEvent(e)
    ensures ModelOk(PasswordDoes(m, e)) && PasswordDoes(m, e).calls == m.calls
    ensures PasswordDoes(m, e).screen in {Menu, Wifi, Password}
  {
    if e != Back && e != ConnectKey { KeyedIsOk(m, e); }
  }

  lemma WarnIsOk(m: Model, e: Event, w: World)
    requires ModelOk(m) && m.screen == UnlockWarn
    ensures ModelOk(WarnDoes(m, e, w)) && WarnDoes(m, e, w).calls == m.calls
    ensures WarnDoes(m, e, w).screen in {Menu, UnlockWarn, UnlockPin}
  {
  }

  lemma PinIsOk(m: Model, e: Event)
    requires ModelOk(m) && m.screen == UnlockPin && ValidEvent(e)
    ensures ModelOk(PinDoes(m, e)) && PinDoes(m, e).calls == m.calls
    ensures PinDoes(m, e).screen in {UnlockWarn, UnlockPin, UnlockConfirm}
  {
    if e != Back && e != ConnectKey { KeyedIsOk(m, e); }
  }

  lemma SubmittedIsOk(m: Model, w: World)
    requires ModelOk(m) && m.screen == UnlockConfirm
    ensures ModelOk(Submitted(m, w)) && Submitted(m, w).screen in {UnlockConfirm, UnlockBlocked, Progress, UnlockPin}
  {
    var c := UnlockCall(UNLOCK_WORD, m.pin, m.events, LockState(true, true), m.events);
    assert Proper(c) && forall d | d in m.calls + [c] :: d in m.calls || d == c;
  }

  lemma ConfirmIsOk(m: Model, e: Event, w: World)
    requires ModelOk(m) && m.screen == UnlockConfirm && ValidEvent(e)
    ensures ModelOk(ConfirmDoes(m, e, w)) && (e != ConnectKey ==> ConfirmDoes(m, e, w).calls == m.calls)
    ensures ConfirmDoes(m, e, w).screen in {UnlockConfirm, UnlockBlocked, Progress, UnlockPin}
  {
    if e == ConnectKey { SubmittedIsOk(m, w); } else if e != Back { KeyedIsOk(m, e); }
  }

  /** What every event on `m` may lead to. */
  predicate InOrder(m: Model, e: Event, r: Model) {
    && ModelOk(r)
    && (r.calls != m.calls ==> m.screen == UnlockConfirm && e == ConnectKey)
    && (r.screen == UnlockWarn ==> m.screen in {Menu, UnlockWarn, UnlockPin})
    && (r.screen == UnlockPin ==> m.screen in {UnlockWarn, UnlockPin, UnlockConfirm})
    && (r.screen == UnlockConfirm ==> m.screen in {UnlockPin, UnlockConfirm})
  }

  /** Every event keeps the state in order; in particular it makes only proper unlock calls. Calls come from the confirm
      screen only, and the way there leads through the warning and the PIN. */
  lemma HandledIsOk(m: Model, e: Event, w: World)
    requires ModelOk(m) && ValidEvent(e)
    ensures InOrder(Tick(m), e, Handled(m, e, w))
  {
    DoesIsOk(Tick(m), e, w);
  }

  lemma DoesIsOk(m: Model, e: Event, w: World)
    requires ModelOk(m) && ValidEvent(e)
    ensures InOrder(m, e, Does(m, e, w))
  {
    if m.screen in {UnlockWarn, UnlockPin, UnlockConfirm} {
      UnlockScreensAreOk(m, e, w);
    } else {
      OtherScreensAreOk(m, e, w);
    }
  }

  lemma UnlockScreensAreOk(m: Model, e: Event, w: World)
    requires ModelOk(m) && ValidEvent(e) && m.screen in {UnlockWarn, UnlockPin, UnlockConfirm}
    ensures InOrder(m, e, Does(m, e, w))
  {
    if m.screen == UnlockWarn {
      WarnIsOk(m, e, w);
    } else if m.screen == UnlockPin {
      PinIsOk(m, e);
    } else {
      ConfirmIsOk(m, e, w);
    }
  }

  lemma OtherScreensAreOk(m: Model, e: Event, w: World)
    requires ModelOk(m) && ValidEvent(e) && m.screen !in {UnlockWarn, UnlockPin, UnlockConfirm}
    ensures InOrder(m, e, Does(m, e, w))
  {
    if m.screen == Menu {
      MenuIsOk(m, e, w);
    } else if m.screen == Wifi {
      WifiIsOk(m, e);
    } else if m.screen == Password {
      PasswordIsOk(m, e);
    }
  }

  /** A submission makes one call if the word matches and the lock state read now is locked and armed, with the PIN
      typed, and none otherwise. */
  lemma SubmissionCalls(m: Model, w: World)
    requires ModelOk(m) && m.screen == UnlockConfirm
    ensures var r := Handled(m, ConnectKey, w);
            r.calls == m.calls + if m.word == UNLOCK_WORD && w.lock == Some(LockState(true, true))
                                 then [UnlockCall(UNLOCK_WORD, m.pin, r.events, LockState(true, true), r.events)] else []
  {
    assert m.calls + [] == m.calls;
  }

  /** A lock state that cannot be read is held as locked and not armed, and leads to no warning and no call. */
  lemma UnreadableFailsClosed(m: Model, w: World)
    requires ModelOk(m) && w.lock == None
    ensures m.screen == Menu && m.menuSel == 3 ==> FailedClosed(m, Handled(m, Enter, w))
    ensures m.screen == UnlockConfirm && m.word == UNLOCK_WORD ==> FailedClosed(m, Handled(m, ConnectKey, w))
  {
  }

  predicate FailedClosed(m: Model, r: Model) {
    r.lock == LockState(true, false) && r.screen == UnlockBlocked && r.calls == m.calls && r.pin == [] && r.word == []
  }

  /** The warning is shown only for a device read as locked and armed in that event. */
  lemma WarningNeedsReading(m: Model, e: Event, w: World)
    requires ModelOk(m) && m.screen == Menu && Handled(m, e, w).screen == UnlockWarn
    ensures var r := Handled(m, e, w); w.lock == Some(LockState(true, true)) && r.lock == w.lock.value && r.lockReadIn == r.events
  {
  }

  // ---- runs ----

  /** An event, or a refresh of the status (and on the menu of the lock state) between events. */
  datatype Step = Press(e: Event, w: World) | Refresh(online: bool, job: JobState, lock: Option<LockState>)

  function After(m: Model, step: Step): (r: Model)
    requires ModelOk(m)
  {
    match step
    case Press(e, w) => Handled(m, e, w)
    case Refresh(online, job, lock) =>
      var n := m.(online := online, job := job);
      if m.screen == Menu then ReadLock(n, World(lock, false, false, [], false)) else n
  }

  predicate ValidStep(step: Step) {
    step.Press? ==> ValidEvent(step.e)
  }

  lemma AfterIsOk(m: Model, step: Step)
    requires ModelOk(m) && ValidStep(step)
    ensures ModelOk(After(m, step))
  {
    if step.Press? { HandledIsOk(m, step.e, step.w); }
  }

  /** The state after a list of steps, or None if one of them is no step a keyboard can produce. */
  function Ran(m: Model, steps: seq<Step>): (r: Option<Model>)
    requires ModelOk(m)
    ensures r.Some? ==> ModelOk(r.value)
    decreases |steps|
  {
    if steps == [] then Some(m)
    else if !ValidStep(steps[0]) then None
    else
      AfterIsOk(m, steps[0]);
      Ran(After(m, steps[0]), steps[1..])
  }

  lemma {:induction false} RanConcat(m: Model, xs: seq<Step>, ys: seq<Step>)
    requires ModelOk(m) && Ran(m, xs).Some?
    ensures Ran(m, xs + ys) == Ran(Ran(m, xs).value, ys)
    decreases |xs|
  {
    if xs == [] {
      assert xs + ys == ys;
    } else {
      AfterIsOk(m, xs[0]);
      assert (xs + ys)[0] == xs[0] && (xs + ys)[1..] == xs[1..] + ys;
      RanConcat(After(m, xs[0]), xs[1..], ys);
    }
  }

  // ---- the owner's way to an unlock ----

  /** Typing a text key by key. */
  function Keys(t: bytes, w: World): (steps: seq<Step>) {
    if t == [] then [] else [Press(Char(t[0]), w)] + Keys(t[1..], w)
  }

  /** What typing does on a screen with an entry: the text is appended, and nothing else changes. */
  lemma {:induction false} TypingAppends(m: Model, t: bytes, w: World)
    requires ModelOk(m) && (m.screen == UnlockPin || m.screen == UnlockConfirm) && NonZero(t)
    requires |Entry(m)| + |t| <= Room(m.screen)
    ensures Ran(m, Keys(t, w)) == Some(WithEntry(m, Entry(m) + t).(events := m.events + |t|))
    decreases |t|
  {
    if t == [] {
      assert Entry(m) + t == Entry(m);
    } else {
      var n := TypeOne(m, t[0], w);
      TypingAppends(n, t[1..], w);
      OneStep(m, Press(Char(t[0]), w), Keys(t[1..], w));
      TypeMore(m, n, t);
    }
  }

  lemma TypeMore(m: Model, n: Model, t: bytes)
    requires t != [] && n == WithEntry(m, Entry(m) + [t[0]]).(events := m.events + 1) && Entry(n) == Entry(m) + [t[0]]
    ensures WithEntry(n, Entry(n) + t[1..]).(events := n.events + |t[1..]|) == WithEntry(m, Entry(m) + t).(events := m.events + |t|)
  {
    assert Entry(m) + t == Entry(n) + t[1..];
    EntryTwice(m, Entry(n), Entry(m) + t, n.events, m.events + |t|);
  }

  lemma EntryTwice(m: Model, x: bytes, y: bytes, a: nat, b: nat)
    ensures WithEntry(WithEntry(m, x).(events := a), y).(events := b) == WithEntry(m, y).(events := b)
  {
  }

  lemma TypeOne(m: Model, ch: byte, w: World) returns (n: Model)
    requires ModelOk(m) && (m.screen == UnlockPin || m.screen == UnlockConfirm) && ch != 0 && |Entry(m)| < Room(m.screen)
    ensures n == After(m, Press(Char(ch), w)) && ModelOk(n) && n.screen == m.screen
    ensures n == WithEntry(m, Entry(m) + [ch]).(events := m.events + 1) && Entry(n) == Entry(m) + [ch]
  {
    n := After(m, Press(Char(ch), w));
    AfterIsOk(m, Press(Char(ch), w));
  }

  /** On the menu with the unlock item selected: Enter twice, the PIN, Connect, the word, Connect. */
  function UnlockScript(pin: bytes, w: World): (steps: seq<Step>) {
    [Press(Enter, w), Press(Enter, w)] + (Keys(pin, w) + ([Press(ConnectKey, w)] + (Keys(UNLOCK_WORD, w) + [Press(ConnectKey, w)])))
  }

  lemma OneStep(m: Model, step: Step, rest: seq<Step>)
    requires ModelOk(m) && ValidStep(step)
    ensures ModelOk(After(m, step)) && Ran(m, [step] + rest) == Ran(After(m, step), rest)
  {
    AfterIsOk(m, step);
    assert ([step] + rest)[1..] == rest;
  }

  /** An owner can unlock: on a device that reads as locked and armed, the script for any PIN of 4 to 256 bytes makes
      exactly one unlock call, with that PIN and the word, and shows the progress or asks again. */
  lemma OwnerCanUnlock(m: Model, pin: bytes, w: World)
    requires ModelOk(m) && m.screen == Menu && m.menuSel == 3
    requires 4 <= |pin| <= 256 && NonZero(pin) && w.lock == Some(LockState(true, true))
    ensures var r := Ran(m, UnlockScript(pin, w));
            && r.Some?
            && |r.value.calls| == |m.calls| + 1 && r.value.calls[..|m.calls|] == m.calls
            && r.value.calls[|m.calls|].pin == pin && r.value.calls[|m.calls|].confirm == UNLOCK_WORD
            && r.value.requests == m.requests
            && r.value.screen == if w.unlocks then Progress else UnlockPin
  {
    var body := Keys(pin, w) + ([Press(ConnectKey, w)] + (Keys(UNLOCK_WORD, w) + [Press(ConnectKey, w)]));
    var n := EnterTwice(m, body, w);
    PinThenWord(n, pin, w);
  }

  lemma EnterTwice(m: Model, rest: seq<Step>, w: World) returns (n: Model)
    requires ModelOk(m) && m.screen == Menu && m.menuSel == 3 && w.lock == Some(LockState(true, true))
    ensures ModelOk(n) && n.screen == UnlockPin && n.pin == [] && n.calls == m.calls && n.requests == m.requests
    ensures Ran(m, [Press(Enter, w), Press(Enter, w)] + rest) == Ran(n, rest)
  {
    assert [Press(Enter, w), Press(Enter, w)] + rest == [Press(Enter, w)] + ([Press(Enter, w)] + rest);
    var m1 := EnterOnMenu(m, w);
    n := EnterOnWarn(m1, w);
    OneStep(m, Press(Enter, w), [Press(Enter, w)] + rest);
    OneStep(m1, Press(Enter, w), rest);
  }

  lemma EnterOnMenu(m: Model, w: World) returns (n: Model)
    requires ModelOk(m) && m.screen == Menu && m.menuSel == 3 && w.lock == Some(LockState(true, true))
    ensures n == After(m, Press(Enter, w)) && ModelOk(n)
    ensures n.screen == UnlockWarn && n.calls == m.calls && n.requests == m.requests
  {
    n := After(m, Press(Enter, w));
    AfterIsOk(m, Press(Enter, w));
  }

  lemma EnterOnWarn(m: Model, w: World) returns (n: Model)
    requires ModelOk(m) && m.screen == UnlockWarn
    ensures n == After(m, Press(Enter, w)) && ModelOk(n)
    ensures n.screen == UnlockPin && n.pin == [] && n.calls == m.calls && n.requests == m.requests
  {
    n := After(m, Press(Enter, w));
    AfterIsOk(m, Press(Enter, w));
  }

  lemma PinThenWord(m: Model, pin: bytes, w: World)
    requires ModelOk(m) && m.screen == UnlockPin && m.pin == []
    requires 4 <= |pin| <= 256 && NonZero(pin) && w.lock == Some(LockState(true, true))
    ensures var r := Ran(m, Keys(pin, w) + ([Press(ConnectKey, w)] + (Keys(UNLOCK_WORD, w) + [Press(ConnectKey, w)])));
            && r.Some? && r.value.requests == m.requests
            && r.value.calls == m.calls + [UnlockCall(UNLOCK_WORD, pin, r.value.events, LockState(true, true), r.value.events)]
            && r.value.screen == if w.unlocks then Progress else UnlockPin
  {
    var last := Keys(UNLOCK_WORD, w) + [Press(ConnectKey, w)];
    TypingAppends(m, pin, w);
    assert [] + pin == pin;
    var m1 := m.(pin := pin, events := m.events + |pin|);
    RanConcat(m, Keys(pin, w), [Press(ConnectKey, w)] + last);
    OneStep(m1, Press(ConnectKey, w), last);
    var m2 := ConnectOnPin(m1, w);
    WordThenSubmit(m2, w);
  }

  lemma ConnectOnPin(m: Model, w: World) returns (n: Model)
    requires ModelOk(m) && m.screen == UnlockPin && |m.pin| >= 4
    ensures n == After(m, Press(ConnectKey, w)) && ModelOk(n)
    ensures n.screen == UnlockConfirm && n.word == [] && n.pin == m.pin && n.calls == m.calls && n.requests == m.requests
  {
    n := After(m, Press(ConnectKey, w));
    AfterIsOk(m, Press(ConnectKey, w));
  }

  lemma WordThenSubmit(m: Model, w: World)
    requires ModelOk(m) && m.screen == UnlockConfirm && m.word == [] && w.lock == Some(LockState(true, true))
    ensures var r := Ran(m, Keys(UNLOCK_WORD, w) + [Press(ConnectKey, w)]);
            && r.Some? && r.value.requests == m.requests
            && r.value.calls == m.calls + [UnlockCall(UNLOCK_WORD, m.pin, r.value.events, LockState(true, true), r.value.events)]
            && r.value.screen == if w.unlocks then Progress else UnlockPin
  {
    var m1 := TypeWord(m, w);
    RanConcat(m, Keys(UNLOCK_WORD, w), [Press(ConnectKey, w)]);
    LastStep(m1, Press(ConnectKey, w));
    SubmitOnConfirm(m1, w);
  }

  lemma TypeWord(m: Model, w: World) returns (n: Model)
    requires ModelOk(m) && m.screen == UnlockConfirm && m.word == []
    ensures ModelOk(n) && n.screen == UnlockConfirm && n.word == UNLOCK_WORD && n.pin == m.pin
    ensures n.calls == m.calls && n.requests == m.requests
    ensures Ran(m, Keys(UNLOCK_WORD, w)) == Some(n)
  {
    assert NonZero(UNLOCK_WORD);
    TypingAppends(m, UNLOCK_WORD, w);
    assert [] + UNLOCK_WORD == UNLOCK_WORD;
    n := m.(word := UNLOCK_WORD, events := m.events + 6);
  }

  lemma LastStep(m: Model, step: Step)
    requires ModelOk(m) && ValidStep(step)
    ensures Ran(m, [step]) == Some(After(m, step))
  {
    OneStep(m, step, []);
    assert [step] + [] == [step];
  }

  lemma SubmitOnConfirm(m: Model, w: World)
    requires ModelOk(m) && m.screen == UnlockConfirm && m.word == UNLOCK_WORD && w.lock == Some(LockState(true, true))
    ensures var r := After(m, Press(ConnectKey, w));
            && r.requests == m.requests && r.screen == (if w.unlocks then Progress else UnlockPin)
            && r.calls == m.calls + [UnlockCall(UNLOCK_WORD, m.pin, r.events, LockState(true, true), r.events)]
  {
  }
}
