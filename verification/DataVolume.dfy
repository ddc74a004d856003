/**
 The atom-data volume as recovery sees it: a tree of named nodes below the data
 directory, the test that recognises an installed volume, and the two wipe passes.

 Paths are lists of names relative to the data directory, which is the empty path.
 A wipe is broken into single unlink/rmdir/mkdir operations, so that a power loss
 can fall between any two of them.
 */
module DataVolume {
  import opened Wrappers

  type Path = seq<string>

  /** What Lstat can report. Links are never followed by the wipe, so no target is kept. */
  datatype Node = Dir | File(content: string) | Link | Special

  type Tree = map<Path, Node>

  const MARKER := ".atom-var"
  const INSTALL_ID := ".atom-install-id"
  const BOOT := "boot"
  const EFI := "efi"
  const ROOTFS := "rootfs"
  const LIB := "lib"
  const SINTY := "sinty"

  const SLOT_FILES: set<string> := {
    "deployment.json", "deployment.json.bak",
    "rootfs-active.erofs", "rootfs-active.hash",
    "rootfs-next.erofs", "rootfs-next.hash",
    "rootfs-prev.erofs", "rootfs-prev.hash"
  }

  const REQUIRED_SLOTS: set<string> := {"deployment.json", "rootfs-active.erofs", "rootfs-active.hash"}

  const BOOT_DIR: Path := [BOOT]
  const ROOTFS_DIR: Path := [BOOT, ROOTFS]
  const LIB_DIR: Path := [LIB]
  const CUSTODY_DIR: Path := [LIB, SINTY]

  /** The literal names above are pairwise different; stated once because the solver needs it often. */
  lemma NamesDiffer()
    ensures BOOT != LIB && BOOT != MARKER && BOOT != INSTALL_ID
    ensures LIB != MARKER && LIB != INSTALL_ID && MARKER != INSTALL_ID
    ensures EFI != ROOTFS
  {
    assert |BOOT| == 4 && |LIB| == 3 && |MARKER| == 9 && |INSTALL_ID| == 16 && |EFI| == 3 && |ROOTFS| == 6;
  }

  /** Every entry sits in a real directory of the same tree. */
  predicate WellFormed(t: Tree) {
    forall p {:trigger Parent(p)} | p in t :: |p| > 0 ==> Parent(p) in t && t[Parent(p)].Dir?
  }

  function Parent(p: Path): (r: Path) {
    if p == [] then [] else p[..|p| - 1]
  }

  /** Nothing in the tree lies below `p`: only such a node can be unlinked or rmdir'ed. */
  predicate Leaf(t: Tree, p: Path) {
    p in t && forall q | q in t :: !(p < q)
  }

  lemma {:induction false} AncestorsAreDirs(t: Tree, p: Path, k: nat)
    requires WellFormed(t) && p in t && k < |p|
    ensures p[..k] in t && t[p[..k]].Dir?
    decreases |p|
  {
    var up := Parent(p);
    if k < |up| {
      AncestorsAreDirs(t, up, k);
      assert up[..k] == p[..k];
    }
  }

  // ---- recognising an installed volume (validateDataDir) ----

  predicate IsSpace(c: char) {
    c in {'\t', '\n', '\U{000B}', '\U{000C}', '\r', ' ', '\U{0085}', '\U{00A0}', '\U{1680}',
          '\U{2028}', '\U{2029}', '\U{202F}', '\U{205F}', '\U{3000}'}
    || '\U{2000}' <= c <= '\U{200A}'
  }

  predicate IsLowerHex(c: char) {
    '0' <= c <= '9' || 'a' <= c <= 'f'
  }

  function TrimLeft(s: string): (r: string) {
    if |s| > 0 && IsSpace(s[0]) then TrimLeft(s[1..]) else s
  }

  function TrimRight(s: string): (r: string) {
    if |s| > 0 && IsSpace(s[|s| - 1]) then TrimRight(s[..|s| - 1]) else s
  }

  function TrimSpace(s: string): (r: string) {
    TrimRight(TrimLeft(s))
  }

  /** The identity stored in an install-id file, if the node is a regular file that holds one. */
  function InstallIdOf(n: Option<Node>): (id: Option<string>)
    ensures id.Some? ==> IsInstallId(id.value)
  {
    if n.Some? && n.value.File? then
      var id := TrimSpace(n.value.content);
      if IsInstallId(id) then Some(id) else None
    else None
  }

  predicate Blank(s: string) {
    forall c | c in s :: IsSpace(c)
  }

  predicate IsInstallId(id: string) {
    |id| == 32 && forall c | c in id :: IsLowerHex(c)
  }

  lemma {:induction false} TrimLeftIs(s: string) returns (pre: string)
    ensures Blank(pre) && s == pre + TrimLeft(s)
    ensures TrimLeft(s) == [] || !IsSpace(TrimLeft(s)[0])
    decreases |s|
  {
    if |s| > 0 && IsSpace(s[0]) {
      var more := TrimLeftIs(s[1..]);
      pre := [s[0]] + more;
    } else {
      pre := [];
    }
  }

  lemma {:induction false} TrimRightIs(s: string) returns (post: string)
    ensures Blank(post) && s == TrimRight(s) + post
    decreases |s|
  {
    if |s| > 0 && IsSpace(s[|s| - 1]) {
      var more := TrimRightIs(s[..|s| - 1]);
      post := more + [s[|s| - 1]];
    } else {
      post := [];
    }
  }

  lemma {:induction false} TrimLeftDrops(pre: string, s: string)
    requires Blank(pre) && |s| > 0 && !IsSpace(s[0])
    ensures TrimLeft(pre + s) == s
    decreases |pre|
  {
    if pre == [] {
      assert pre + s == s;
    } else {
      assert pre[0] in pre && (pre + s)[1..] == pre[1..] + s;
      TrimLeftDrops(pre[1..], s);
    }
  }

  lemma {:induction false} TrimRightDrops(s: string, post: string)
    requires Blank(post) && |s| > 0 && !IsSpace(s[|s| - 1])
    ensures TrimRight(s + post) == s
    decreases |post|
  {
    if post == [] {
      assert s + post == s;
    } else {
      var n := |post| - 1;
      assert post[n] in post && (s + post)[..|s| + n] == s + post[..n];
      TrimRightDrops(s, post[..n]);
    }
  }

  lemma HexDigits(c: char)
    ensures IsLowerHex(c) <==> c in "0123456789abcdef"
  {
    var digits := "0123456789abcdef";
    if '0' <= c <= '9' { assert digits[c as int - '0' as int] == c; }
    if 'a' <= c <= 'f' { assert digits[c as int - 'a' as int + 10] == c; }
  }

  lemma HexIsNoSpace(c: char)
    requires IsLowerHex(c)
    ensures !IsSpace(c)
  {
  }

  lemma TrimSpaceDrops(pre: string, id: string, post: string)
    requires Blank(pre) && Blank(post) && IsInstallId(id)
    ensures TrimSpace(pre + id + post) == id
  {
    assert id[0] in id && id[31] in id;
    HexIsNoSpace(id[0]);
    HexIsNoSpace(id[31]);
    assert pre + id + post == pre + (id + post);
    TrimLeftDrops(pre, id + post);
    TrimRightDrops(id, post);
  }

  lemma TrimSpaceSplits(s: string) returns (pre: string, post: string)
    ensures Blank(pre) && Blank(post) && s == pre + TrimSpace(s) + post
  {
    pre := TrimLeftIs(s);
    post := TrimRightIs(TrimLeft(s));
  }

  /** A regular file holds an install id exactly when its content is 32 lower-case hex digits between blanks;
      nothing but a regular file holds one. */
  lemma InstallIdIff(n: Option<Node>, id: string)
    ensures InstallIdOf(n) == Some(id) <==>
            && n.Some? && n.value.File? && Surrounds(n.value.content, id)
            && |id| == 32 && forall c | c in id :: c in "0123456789abcdef"
  {
    forall c ensures IsLowerHex(c) <==> c in "0123456789abcdef" { HexDigits(c); }
    if n.Some? && n.value.File? {
      var content := n.value.content;
      var pre, post := TrimSpaceSplits(content);
      if IsInstallId(id) && Surrounds(content, id) {
        var pre', post' :| Blank(pre') && Blank(post') && content == pre' + id + post';
        TrimSpaceDrops(pre', id, post');
      }
    }
  }

  /** `s` is `id` with nothing but blanks around it. */
  ghost predicate Surrounds(s: string, id: string) {
    exists pre, post :: Blank(pre) && Blank(post) && s == pre + id + post
  }

  /** What the checks need to know besides the tree: how the data directory is configured
      and mounted, and the install-id file on the ESP. None of it changes during a run. */
  datatype Install = Install(safePath: bool, requireMount: bool, distinctMount: bool, espId: Option<Node>)

  function NodeAt(t: Tree, p: Path): (n: Option<Node>) {
    if p in t then Some(t[p]) else None
  }

  predicate RealDir(t: Tree, p: Path) {
    p in t && t[p].Dir?
  }

  predicate AbsentOrRealDir(t: Tree, p: Path) {
    p in t ==> t[p].Dir?
  }

  predicate RegularFile(t: Tree, p: Path) {
    p in t && t[p].File?
  }

  predicate Recognised(inst: Install, t: Tree) {
    && inst.safePath
    && RealDir(t, [])
    && RegularFile(t, [MARKER])
    && InstallIdOf(NodeAt(t, [INSTALL_ID])).Some?
    && InstallIdOf(NodeAt(t, [INSTALL_ID])) == InstallIdOf(inst.espId)
    && RealDir(t, BOOT_DIR)
    && RealDir(t, ROOTFS_DIR)
    && AbsentOrRealDir(t, LIB_DIR)
    && AbsentOrRealDir(t, CUSTODY_DIR)
    && (forall name | name in REQUIRED_SLOTS :: RegularFile(t, ROOTFS_DIR + [name]))
    && (inst.requireMount ==> inst.distinctMount)
  }

  // ---- the passes (removeChildrenExcept over one directory) ----

  datatype Pass = BootPass | RootfsPass | TopPass | LibPass | FinalPass {
    function Directory(): (d: Path) {
      match this
      case BootPass => BOOT_DIR
      case RootfsPass => ROOTFS_DIR
      case TopPass => []
      case LibPass => LIB_DIR
      case FinalPass => []
    }

    function Keep(): (names: set<string>) {
      match this
      case BootPass => {EFI, ROOTFS}
      case RootfsPass => SLOT_FILES
      case TopPass => {BOOT, MARKER, INSTALL_ID, LIB}
      case LibPass => {SINTY}
      case FinalPass => {BOOT, MARKER, INSTALL_ID}
    }

    /** `p` lies in or below a child of the pass directory that the pass does not keep. */
    predicate Dooms(p: Path) {
      var d := Directory();
      |d| < |p| && d <= p && p[|d|] !in Keep()
    }
  }

  /** The tree a completed pass leaves. */
  function Swept(t: Tree, pass: Pass): (r: Tree)
    ensures forall p :: p in r <==> p in t && !pass.Dooms(p)
    ensures forall p | p in r :: r[p] == t[p]
  {
    map p | p in t && !pass.Dooms(p) :: t[p]
  }

  predicate Clean(t: Tree, pass: Pass) {
    forall p | p in t :: !pass.Dooms(p)
  }

  function Unlink(t: Tree, p: Path): (r: Tree) {
    t - {p}
  }

  /** MkdirAll(lib/sinty) after `done` of its two directories. */
  function MakeCustody(t: Tree, done: nat): (r: Tree) {
    var t1 := if done >= 1 && LIB_DIR !in t then t[LIB_DIR := Dir] else t;
    if done >= 2 && CUSTODY_DIR !in t1 then t1[CUSTODY_DIR := Dir] else t1
  }

  /** The custody erase may change anything at or below lib/sinty, but leaves lib/sinty itself a
      real directory or absent, and touches nothing else. */
  predicate CustodyChange(t: Tree, t': Tree) {
    && WellFormed(t')
    && AbsentOrRealDir(t', CUSTODY_DIR)
    && (forall p | p in t :: CUSTODY_DIR <= p || (p in t' && t'[p] == t[p]))
    && (forall p | p in t' :: CUSTODY_DIR <= p || p in t)
  }

  /** An erase that removes custody altogether. */
  function WithoutCustody(t: Tree): (r: Tree)
    ensures forall p :: p in r <==> p in t && !(CUSTODY_DIR <= p)
    ensures forall p | p in r :: r[p] == t[p]
  {
    map p | p in t && !(CUSTODY_DIR <= p) :: t[p]
  }

  lemma WithoutCustodyIsErase(t: Tree)
    requires WellFormed(t)
    ensures CustodyChange(t, WithoutCustody(t))
  {
    var r := WithoutCustody(t);
    forall p | p in r && |p| > 0 ensures Parent(p) in r && r[Parent(p)].Dir? {
      assert CUSTODY_DIR <= Parent(p) ==> CUSTODY_DIR <= p;
    }
  }

  function Prepared(t: Tree): (r: Tree) {
    var scrubbed := Swept(Swept(t, BootPass), RootfsPass);
    Swept(MakeCustody(Swept(scrubbed, TopPass), 2), LibPass)
  }

  function Finished(t: Tree): (r: Tree) {
    Swept(t, FinalPass)
  }

  /** The paths an unlock preserves, written out independently of the passes. */
  predicate Kept(p: Path) {
    || p == []
    || p[0] in {MARKER, INSTALL_ID}
    || (p[0] == BOOT &&
        (|p| == 1 || p[1] == EFI || (p[1] == ROOTFS && (|p| == 2 || p[2] in SLOT_FILES))))
  }

  function Survivors(t: Tree): (r: Tree)
    ensures forall p :: p in r <==> p in t && Kept(p)
    ensures forall p | p in r :: r[p] == t[p]
  {
    map p | p in t && Kept(p) :: t[p]
  }

  /** A path in or below boot that the boot scrub removes, and nothing after it does. */
  predicate Stray(p: Path) {
    BootPass.Dooms(p) || RootfsPass.Dooms(p)
  }

  predicate Scrubbed(t: Tree) {
    forall p | p in t :: !Stray(p)
  }

  /** One indivisible change a wipe can make to the volume. */
  datatype WipeOp =
    | Remove(pass: Pass, path: Path)
    | Make(done: nat)
    | Erase(after: Tree)
    | Revive(nodes: Tree)     // a power loss undoes deletions

  predicate Allowed(t: Tree, op: WipeOp) {
    match op
    case Remove(pass, p) => pass.Dooms(p) && Leaf(t, p)
    case Make(done) => true
    case Erase(t') => CustodyChange(t, t')
    case Revive(nodes) => WellFormed(t + nodes) && nodes.Keys !! t.Keys && Expendable(nodes)
  }

  /** Nodes that no recognised volume needs and that do no harm in one. */
  predicate Expendable(nodes: Tree) {
    forall p | p in nodes :: !Kept(p) && (p == LIB_DIR || p == CUSTODY_DIR ==> nodes[p].Dir?)
  }

  /** What is left of `lost` nodes after a power loss that brings back those in `back`. */
  function Revived(t: Tree, lost: Tree, back: set<Path>): (r: Tree)
    ensures r.Keys !! t.Keys && forall p | p in r :: p in lost && p in back && r[p] == lost[p]
  {
    map p | p in lost && p in back && p !in t :: lost[p]
  }

  function Apply(t: Tree, op: WipeOp): (r: Tree) {
    match op
    case Remove(_, p) => Unlink(t, p)
    case Make(done) => MakeCustody(t, done)
    case Erase(t') => t'
    case Revive(nodes) => t + nodes
  }

  /** The tree after a list of operations, or None if one of them was not possible. */
  function ApplyAll(t: Tree, ops: seq<WipeOp>): (r: Option<Tree>)
    decreases |ops|
  {
    if ops == [] then Some(t)
    else if Allowed(t, ops[0]) then ApplyAll(Apply(t, ops[0]), ops[1..])
    else None
  }

  // ---- properties ----

  /** A doomed path is never one the unlock preserves. */
  lemma DoomedIsNotKept(pass: Pass, p: Path)
    requires pass.Dooms(p)
    ensures !Kept(p) && p != []
  {
    NamesDiffer();
    match pass {
      case BootPass => assert p[0] == BOOT && p[1] !in {EFI, ROOTFS};
      case RootfsPass => assert p[0] == BOOT && p[1] == ROOTFS && p[2] !in SLOT_FILES;
      case TopPass =>
      case LibPass => assert p[0] == LIB;
      case FinalPass =>
    }
  }

  lemma UnlinkKeepsShape(t: Tree, p: Path)
    requires WellFormed(t) && Leaf(t, p)
    ensures WellFormed(Unlink(t, p))
  {
    forall q | q in Unlink(t, p) && |q| > 0
      ensures Parent(q) in Unlink(t, p)
    {
      assert Parent(q) < q;
    }
  }

  /** Confinement of one deletion: it is strictly inside the data directory, every directory on the
      way to it is a real directory of the volume (so no link is followed), and the volume is still
      recognised afterwards. */
  lemma RemoveIsConfined(inst: Install, t: Tree, pass: Pass, p: Path)
    requires WellFormed(t) && Recognised(inst, t)
    requires pass.Dooms(p) && Leaf(t, p)
    ensures |p| > 0
    ensures forall k | 0 <= k < |p| :: RealDir(t, p[..k])
    ensures WellFormed(Unlink(t, p)) && Recognised(inst, Unlink(t, p))
    ensures Survivors(Unlink(t, p)) == Survivors(t)
  {
    forall k | 0 <= k < |p| ensures RealDir(t, p[..k]) { AncestorsAreDirs(t, p, k); }
    UnlinkKeepsShape(t, p);
    DoomedIsNotKept(pass, p);
    UnlinkKeepsRecognised(inst, t, p);
  }

  lemma UnlinkKeepsRecognised(inst: Install, t: Tree, p: Path)
    requires Recognised(inst, t) && !Kept(p)
    ensures Recognised(inst, Unlink(t, p))
    ensures Survivors(Unlink(t, p)) == Survivors(t)
  {
    RequiredPathsAreKept();
  }

  /** The paths Recognised insists on are all preserved paths. */
  lemma RequiredPathsAreKept()
    ensures Kept([]) && Kept([MARKER]) && Kept([INSTALL_ID]) && Kept(BOOT_DIR) && Kept(ROOTFS_DIR)
    ensures forall name | name in REQUIRED_SLOTS :: Kept(ROOTFS_DIR + [name])
  {
  }

  /** Every single operation of a wipe, of whichever pass, keeps the volume recognised and keeps
      exactly the preserved paths. */
  lemma OpKeepsVolume(inst: Install, t: Tree, op: WipeOp)
    requires WellFormed(t) && Recognised(inst, t) && Allowed(t, op)
    ensures WellFormed(Apply(t, op)) && Recognised(inst, Apply(t, op))
    ensures Survivors(Apply(t, op)) == Survivors(t)
  {
    match op {
      case Remove(pass, p) =>
        RemoveIsConfined(inst, t, pass, p);
      case Make(done) =>
        MakeKeepsVolume(inst, t, done);
      case Erase(t') =>
        NamesDiffer();
        RequiredPathsAreKept();
        forall p | p in t || p in t' ensures Kept(p) ==> p in t && p in t' && t[p] == t'[p] {
          assert CUSTODY_DIR <= p ==> p[0] == LIB;
        }
        assert !(CUSTODY_DIR <= LIB_DIR);
        assert Survivors(t') == Survivors(t);
      case Revive(nodes) =>
        ReviveKeepsVolume(inst, t, nodes);
    }
  }

  lemma ReviveKeepsVolume(inst: Install, t: Tree, nodes: Tree)
    requires Recognised(inst, t) && Allowed(t, Revive(nodes))
    ensures Recognised(inst, t + nodes) && Survivors(t + nodes) == Survivors(t)
  {
    RequiredPathsAreKept();
    forall p | Kept(p) ensures p in t + nodes <==> p in t { assert p !in nodes; }
    assert Survivors(t + nodes).Keys == Survivors(t).Keys;
  }

  /** Adding one node that the unlock does not preserve. */
  lemma CreateKeepsVolume(inst: Install, t: Tree, p: Path, n: Node)
    requires WellFormed(t) && Recognised(inst, t)
    requires p !in t && |p| > 0 && RealDir(t, Parent(p)) && !Kept(p)
    requires n.Dir? || (p != LIB_DIR && p != CUSTODY_DIR)
    ensures WellFormed(t[p := n]) && Recognised(inst, t[p := n])
    ensures Survivors(t[p := n]) == Survivors(t)
  {
    RequiredPathsAreKept();
  }

  lemma MakeKeepsVolume(inst: Install, t: Tree, done: nat)
    requires WellFormed(t) && Recognised(inst, t)
    ensures WellFormed(MakeCustody(t, done)) && Recognised(inst, MakeCustody(t, done))
    ensures Survivors(MakeCustody(t, done)) == Survivors(t)
  {
    NamesDiffer();
    assert Parent(LIB_DIR) == [] && Parent(CUSTODY_DIR) == LIB_DIR;
    if done >= 1 && LIB_DIR !in t { CreateKeepsVolume(inst, t, LIB_DIR, Dir); }
    var t1 := MakeCustody(t, if done >= 1 then 1 else 0);
    if done >= 2 && CUSTODY_DIR !in t1 { CreateKeepsVolume(inst, t1, CUSTODY_DIR, Dir); }
  }

  lemma {:induction false} OpsKeepVolume(inst: Install, t: Tree, ops: seq<WipeOp>)
    requires WellFormed(t) && Recognised(inst, t) && ApplyAll(t, ops).Some?
    ensures WellFormed(ApplyAll(t, ops).value) && Recognised(inst, ApplyAll(t, ops).value)
    ensures Survivors(ApplyAll(t, ops).value) == Survivors(t)
    decreases |ops|
  {
    if ops == [] {
    } else {
      OpKeepsVolume(inst, t, ops[0]);
      OpsKeepVolume(inst, Apply(t, ops[0]), ops[1..]);
    }
  }

  /** A path survives the boot scrub, the rootfs scrub and the final pass exactly when it is preserved. */
  lemma KeptMeansSpared(p: Path)
    ensures Kept(p) <==> !BootPass.Dooms(p) && !RootfsPass.Dooms(p) && !FinalPass.Dooms(p)
  {
    NamesDiffer();
    if |p| >= 2 && p[0] == BOOT {
      assert BOOT_DIR <= p;
      assert p[1] == ROOTFS ==> ROOTFS_DIR <= p;
    }
  }

  /** The slot files: the deployment record with its backup, and the image and hash of each of the three slots. */
  lemma SlotFilesAre(name: string)
    ensures name in SLOT_FILES <==>
            || name in {"deployment.json", "deployment.json.bak"}
            || exists slot, kind :: slot in {"active", "next", "prev"} && kind in {".erofs", ".hash"}
                                    && name == "rootfs-" + slot + kind
  {
    assert "rootfs-" + "active" + ".erofs" == "rootfs-active.erofs" && "rootfs-" + "active" + ".hash" == "rootfs-active.hash";
    assert "rootfs-" + "next" + ".erofs" == "rootfs-next.erofs" && "rootfs-" + "next" + ".hash" == "rootfs-next.hash";
    assert "rootfs-" + "prev" + ".erofs" == "rootfs-prev.erofs" && "rootfs-" + "prev" + ".hash" == "rootfs-prev.hash";
  }

  /** What prepare leaves, path by path and independently of the passes: the preserved paths, the key custody that the
      cryptographic erase needs, and the two directories it lies in, which prepare makes where they are
      missing. Everything else is gone. */
  lemma PreparedIs(t: Tree, p: Path)
    ensures p in Prepared(t) <==> (p in t && (Kept(p) || CUSTODY_DIR <= p)) || (p == LIB_DIR || p == CUSTODY_DIR)
    ensures p in Prepared(t) ==> Prepared(t)[p] == if p in t then t[p] else Dir
  {
    if p == LIB_DIR || p == CUSTODY_DIR {
      CustodyDirsPrepared(t, p);
    } else {
      SparedByPrepare(p);
      PreparedAt(t, p);
    }
  }

  lemma CustodyDirsPrepared(t: Tree, p: Path)
    requires p == LIB_DIR || p == CUSTODY_DIR
    ensures p in Prepared(t) && Prepared(t)[p] == if p in t then t[p] else Dir
  {
    NamesDiffer();
    assert p[0] == LIB && !BootPass.Dooms(p) && !RootfsPass.Dooms(p) && !TopPass.Dooms(p) && !LibPass.Dooms(p);
  }

  /** The four passes of prepare spare exactly the preserved paths, key custody, and lib itself. */
  lemma SparedByPrepare(p: Path)
    ensures !BootPass.Dooms(p) && !RootfsPass.Dooms(p) && !TopPass.Dooms(p) && !LibPass.Dooms(p) <==>
            Kept(p) || CUSTODY_DIR <= p || p == LIB_DIR
  {
    NamesDiffer();
    KeptMeansSpared(p);
    if |p| > 0 && p[0] == LIB { assert CUSTODY_DIR <= p <==> |p| >= 2 && p[1] == SINTY; }
  }

  /** What prepare does to one path other than the two directories it recreates. */
  lemma PreparedAt(t: Tree, p: Path)
    requires p != LIB_DIR && p != CUSTODY_DIR
    ensures p in Prepared(t) <==>
            p in t && !BootPass.Dooms(p) && !RootfsPass.Dooms(p) && !TopPass.Dooms(p) && !LibPass.Dooms(p)
    ensures p in Prepared(t) ==> Prepared(t)[p] == t[p]
  {
  }

  /** One uninterrupted prepare, custody erase and finish leaves exactly the preserved paths. */
  lemma FullWipe(t: Tree, erased: Tree)
    requires CustodyChange(Prepared(t), erased)
    ensures Finished(erased) == Survivors(t)
  {
    var a, b := Finished(erased), Survivors(t);
    forall p | p in a ensures p in b && a[p] == b[p] { FullWipeAt(t, erased, p); }
    forall p | p in b ensures p in a { FullWipeAt(t, erased, p); }
    assert a.Keys == b.Keys;
  }

  lemma FullWipeAt(t: Tree, erased: Tree, p: Path)
    requires CustodyChange(Prepared(t), erased)
    ensures p in Finished(erased) <==> p in t && Kept(p)
    ensures p in Finished(erased) ==> Finished(erased)[p] == t[p]
  {
    NamesDiffer();
    KeptMeansSpared(p);
    if |p| > 0 && p[0] == LIB {
    } else {
      assert p != LIB_DIR && p != CUSTODY_DIR && !(CUSTODY_DIR <= p);
      PreparedAt(t, p);
    }
  }

  /** What the final pass leaves of any tree: its preserved paths and its strays. */
  lemma FinishedIs(t: Tree)
    ensures forall p | p in Finished(t) :: Kept(p) || Stray(p)
    ensures (forall p | p in Finished(t) :: Kept(p)) <==> Scrubbed(t)
    ensures Scrubbed(t) ==> Finished(t) == Survivors(t)
  {
    forall p ensures Kept(p) <==> !Stray(p) && !FinalPass.Dooms(p)
             ensures Stray(p) ==> !FinalPass.Dooms(p)
    {
      KeptMeansSpared(p);
      StrayIsBelowBoot(p);
    }
    assert Scrubbed(t) ==> Finished(t).Keys == Survivors(t).Keys;
  }

  lemma StrayIsBelowBoot(p: Path)
    ensures Stray(p) ==> |p| > 1 && p[0] == BOOT
  {
  }

  /** What the final pass leaves is not affected by the passes over the top level and lib, nor by making or
      erasing custody: all of them touch only what the final pass removes. */
  lemma OpKeepsFinished(t: Tree, op: WipeOp)
    requires Allowed(t, op) && !op.Revive? && (op.Remove? ==> op.pass in {TopPass, LibPass, FinalPass})
    ensures Finished(Apply(t, op)) == Finished(t)
  {
    NamesDiffer();
    var t' := Apply(t, op);
    forall p | !FinalPass.Dooms(p) ensures p in t' <==> p in t
                                   ensures p in t ==> t'[p] == t[p]
    {
      if LIB_DIR <= p || CUSTODY_DIR <= p { LibIsDoomed(p); }
    }
    assert Finished(t').Keys == Finished(t).Keys;
  }

  lemma LibIsDoomed(p: Path)
    requires LIB_DIR <= p || CUSTODY_DIR <= p
    ensures FinalPass.Dooms(p)
  {
    NamesDiffer();
    assert p[0] == LIB;
  }

  /** Wipe confluence: whatever single operations earlier, interrupted wipes managed to perform, in whatever
      order, and whichever of their deletions power losses undid in between, one complete wipe afterwards leaves exactly what one uninterrupted wipe of the
      original volume would have left, namely its preserved paths. */
  lemma WipeConfluence(inst: Install, original: Tree, interrupted: seq<WipeOp>, erased: Tree)
    requires WellFormed(original) && Recognised(inst, original)
    requires ApplyAll(original, interrupted).Some?
    requires CustodyChange(Prepared(ApplyAll(original, interrupted).value), erased)
    ensures Recognised(inst, ApplyAll(original, interrupted).value)
    ensures Finished(erased) == Survivors(original)
    ensures forall direct :: CustodyChange(Prepared(original), direct) ==> Finished(erased) == Finished(direct)
  {
    OpsKeepVolume(inst, original, interrupted);
    FullWipe(ApplyAll(original, interrupted).value, erased);
    forall direct | CustodyChange(Prepared(original), direct) ensures Finished(erased) == Finished(direct) {
      FullWipe(original, direct);
    }
  }

  function Below(t: Tree, p: Path): (r: set<Path>) {
    set q | q in t && p < q
  }

  /** A pass that is not done can always take another step: some doomed path has nothing below it. */
  lemma {:induction false} DoomedLeafBelow(t: Tree, pass: Pass, p: Path) returns (leaf: Path)
    requires p in t && pass.Dooms(p)
    ensures pass.Dooms(leaf) && Leaf(t, leaf) && p <= leaf
    decreases Below(t, p)
  {
    if q :| q in t && p < q {
      assert Below(t, q) < Below(t, p) by {
        assert q in Below(t, p) && q !in Below(t, q);
      }
      leaf := DoomedLeafBelow(t, pass, q);
    } else {
      leaf := p;
    }
  }

  /** Unlinking doomed leaves until none is left is the same as dropping them all at once. */
  lemma RemoveTowardsSwept(t: Tree, pass: Pass, p: Path)
    requires p in t && pass.Dooms(p)
    ensures Swept(Unlink(t, p), pass) == Swept(t, pass)
    ensures |Unlink(t, p)| == |t| - 1
  {
    assert t.Keys == Unlink(t, p).Keys + {p};
  }
}
