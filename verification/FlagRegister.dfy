/**
 The consent flag on the ESP and how it is stored.

 `Register` is the abstract view used by the unlock protocol: the values the flag file has held,
 oldest first, and how many of them are known to have reached the medium. A read returns the
 newest value; a power loss may take back the values that were not yet synced.

 `FlagFile` is the write-temp, sync, rename, sync-directory sequence on a volatile page cache,
 and is proved to implement `Register`.
 */
module FlagRegister {
  import opened Wrappers

  const VERITY_OFF := "verity-off"

  datatype Flag = Flag(armed: bool, count: int, owner: int, phase: string)

  const UNARMED := Flag(false, 0, 0, "")

  /** What the flag path holds. */
  datatype Stored = Missing | Corrupt | Saved(flag: Flag)

  /** A missing or undecodable flag reads as not armed. */
  function Load(s: Stored): (f: Flag)
    ensures !s.Saved? ==> !f.armed && f.count == 0 && f.owner == 0 && f.phase == ""
  {
    if s.Saved? then s.flag else UNARMED
  }

  /** How a write can end: nil return, error after the rename, error before it. */
  datatype WriteEnd = Durable | Unsynced | Unchanged

  datatype Register<T> = Register(log: seq<T>, synced: nat) {
    predicate Valid() {
      1 <= synced <= |log|
    }

    function Newest(): (v: T)
      requires Valid()
    {
      log[|log| - 1]
    }

    predicate Settled() {
      synced == |log|
    }

    function Put(v: T, end: WriteEnd): (r: Register<T>)
      requires Valid()
      ensures r.Valid()
    {
      match end
      case Durable => Register(log + [v], |log| + 1)
      case Unsynced => Register(log + [v], synced)
      case Unchanged => this
    }

    /** The register after a power loss that kept the first `k` values. */
    function Lose(k: nat): (r: Register<T>)
      requires Valid() && synced <= k <= |log|
      ensures r.Valid() && r.Settled()
    {
      Register(log[..k], k)
    }
  }

  /** A settled register is crash-proof, and a write to it is atomic: whatever a power loss during or
      after it keeps, the next read returns the whole old or the whole new value; after a nil return,
      only the new one. */
  lemma WriteIsAtomic<T>(r: Register<T>, v: T, end: WriteEnd, k: nat)
    requires r.Valid() && r.Settled()
    requires r.Put(v, end).synced <= k <= |r.Put(v, end).log|
    ensures r.Put(v, end).Lose(k).Newest() in {r.Newest(), v}
    ensures end == Durable ==> r.Put(v, end).Lose(k).Newest() == v
    ensures end == Unchanged ==> r.Put(v, end).Lose(k).Newest() == r.Newest()
  {
  }

  /** File contents: a complete JSON document, or a prefix of one. */
  datatype Content = Whole(flag: Flag) | Torn

  datatype Fate = Works | Fails | PowerCut

  class FlagFile {
    var contents: map<nat, Content>     // inode -> bytes as the page cache shows them
    var flushed: set<nat>               // inodes whose bytes are on the medium
    var names: seq<Option<nat>>         // inodes the flag name has pointed to, newest last
    var namesSynced: nat                // how many of those updates are on the medium

    predicate Valid()
      reads this
    {
      && 1 <= namesSynced <= |names|
      && forall j | 0 <= j < |names| && names[j].Some? ::
           names[j].value in contents && names[j].value in flushed
    }

    function StoredAt(j: nat): (s: Stored)
      requires Valid() && j < |names|
      reads this
    {
      match names[j]
      case None => Missing
      case Some(inode) =>
        match contents[inode]
        case Whole(f) => Saved(f)
        case Torn => Corrupt
    }

    ghost function View(): (r: Register<Stored>)
      requires Valid()
      reads this
      ensures r.Valid()
    {
      Register(seq(|names|, j requires 0 <= j < |names| reads this requires Valid() => StoredAt(j)), namesSynced)
    }

    constructor (initial: Stored)
      ensures Valid() && View() == Register([initial], 1)
    {
      contents := match initial
        case Missing => map[]
        case Corrupt => map[0 := Torn]
        case Saved(f) => map[0 := Whole(f)];
      flushed := {0};
      names := [if initial == Missing then None else Some(0)];
      namesSynced := 1;
    }

    /** readUnlockFlag. The file system may also fail to read it. */
    method Read() returns (f: Flag, readable: bool)
      requires Valid()
      ensures readable ==> f == Load(View().Newest())
      ensures !readable ==> !f.armed && f.count == 0 && f.owner == 0 && f.phase == ""
    {
      readable := *;
      if !readable { return UNARMED, false; }
      match names[|names| - 1]
      case None => f := UNARMED;
      case Some(inode) =>
        match contents[inode]
        case Whole(saved) => f := saved;
        case Torn => f := UNARMED;
    }

    /** A power loss: bytes never flushed may come back torn, directory updates never synced may be
        undone from any point on. */
    method LosePower(survivors: set<nat>, keep: nat)
      requires Valid() && namesSynced <= keep <= |names|
      modifies this
      ensures Valid() && View() == old(View()).Lose(keep)
    {
      contents := map i | i in contents :: if i in flushed || i in survivors then contents[i] else Torn;
      names := names[..keep];
      namesSynced := keep;
    }

    /** What a step of a write comes to; in a steady write every step works. */
    method StepFate(steady: bool) returns (fate: Fate)
      ensures steady ==> fate == Works
    {
      fate := *;
      if steady { fate := Works; }
    }

    /** writeUnlockFlag: any step may fail, and power may go at any step. */
    method Write(f: Flag, steady: bool) returns (ok: bool, cut: bool)
      requires Valid()
      modifies this
      ensures Valid() && (steady ==> ok)
      ensures ok ==> !cut && View() == old(View()).Put(Saved(f), Durable)
      ensures !ok && !cut ==> View() == old(View()) || View() == old(View()).Put(Saved(f), Unsynced)
      ensures cut ==> !ok && exists end: WriteEnd, k: nat ::
                        && old(View()).Put(Saved(f), end).synced <= k <= |old(View()).Put(Saved(f), end).log|
                        && View() == old(View()).Put(Saved(f), end).Lose(k)
    {
      ok := false;
      var inode;
      ghost var before := View();
      inode, cut := WriteTemp(f, steady);
      if inode.Some? {
        ok, cut := Publish(inode.value, f, steady);
      } else if cut {
        ghost var k: nat :| before.synced <= k <= |before.log| && View() == before.Lose(k);
        assert View() == before.Put(Saved(f), Unchanged).Lose(k);
      }
    }

    /** The temporary file: created, written and synced. None means that a step failed. */
    method WriteTemp(f: Flag, steady: bool) returns (inode: Option<nat>, cut: bool)
      requires Valid()
      modifies this
      ensures Valid() && (steady ==> inode.Some?)
      ensures inode.Some? ==> !cut && inode.value in contents && contents[inode.value] == Whole(f) && inode.value in flushed
      ensures !cut ==> View() == old(View())
      ensures cut ==> exists k: nat :: old(View()).synced <= k <= |old(View()).log| && View() == old(View()).Lose(k)
    {
      ghost var before := View();
      inode, cut := None, false;
      var i := FreshInode();
      // CreateTemp
      contents := contents[i := Torn];
      assert View() == before;
      var fate := StepFate(steady);
      if fate != Works { cut := StopUnless(fate, before, Missing, Unchanged); return; }
      // Write: the bytes sit in the cache only
      contents := contents[i := Whole(f)];
      assert View() == before;
      fate := StepFate(steady);
      if fate != Works { cut := StopUnless(fate, before, Missing, Unchanged); return; }
      // Sync
      flushed := flushed + {i};
      assert View() == before;
      fate := StepFate(steady);
      if fate != Works { cut := StopUnless(fate, before, Missing, Unchanged); return; }
      inode := Some(i);
    }

    /** Rename over the flag, and sync of the directory. */
    method Publish(inode: nat, f: Flag, steady: bool) returns (ok: bool, cut: bool)
      requires Valid() && inode in contents && contents[inode] == Whole(f) && inode in flushed
      modifies this
      ensures Valid() && (steady ==> ok)
      ensures ok ==> !cut && View() == old(View()).Put(Saved(f), Durable)
      ensures !ok && !cut ==> View() == old(View()).Put(Saved(f), Unsynced)
      ensures cut ==> !ok && exists k: nat ::
                        && old(View()).Put(Saved(f), Unsynced).synced <= k <= |old(View()).Put(Saved(f), Unsynced).log|
                        && View() == old(View()).Put(Saved(f), Unsynced).Lose(k)
    {
      ghost var before := View();
      ok, cut := false, false;
      names := names + [Some(inode)];
      assert View() == before.Put(Saved(f), Unsynced);
      var fate := StepFate(steady);
      if fate != Works { cut := StopUnless(fate, before, Saved(f), Unsynced); return; }
      namesSynced := |names|;
      ok := true;
      assert View() == before.Put(Saved(f), Durable);
    }

    /** An error return changes nothing more; a power cut keeps an arbitrary part of what was cached. */
    method StopUnless(fate: Fate, ghost before: Register<Stored>, ghost v: Stored, ghost end: WriteEnd)
      returns (cut: bool)
      requires Valid() && before.Valid() && View() == before.Put(v, end)
      modifies this
      ensures Valid() && cut == (fate == PowerCut)
      ensures !cut ==> View() == before.Put(v, end)
      ensures cut ==> exists k: nat ::
                        && before.Put(v, end).synced <= k <= |before.Put(v, end).log|
                        && View() == before.Put(v, end).Lose(k)
    {
      cut := fate == PowerCut;
      if cut {
        var keep: nat := *;
        if keep < namesSynced { keep := namesSynced; }
        if keep > |names| { keep := |names|; }
        var survivors: set<nat> := *;
        LosePower(survivors, keep);
      }
    }

    method FreshInode() returns (inode: nat)
      requires Valid()
      ensures inode !in contents && forall j | 0 <= j < |names| && names[j].Some? :: names[j].value != inode
    {
      inode := 0;
      var seen := contents.Keys;
      while inode in contents
        invariant seen <= contents.Keys
        invariant forall i: nat | i in contents && i >= inode :: i in seen
        decreases seen
      {
        seen := seen - {inode};
        inode := inode + 1;
      }
    }
  }
}
