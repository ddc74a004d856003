# Verification of sinty-recovery

A Dafny model of the parts of sinty-recovery where a mistake cannot be taken back, with proofs of what they promise. `dafny verify dfyconfig.toml` checks the whole project.

## What is modelled

**The bootloader-unlock transaction** (`internal/recovery/lock.go`, `data_wipe.go`, the consent handlers of `serve.go`).

- `UnlockMachine` is a transition system. Its steps are API calls, each destructive primitive, each single deletion inside a wipe, writes by the host, errors and power losses. Its state holds the consent flag, the two TPM bits, the directory tree and a trace of primitive calls.
- `UnlockInvariant` and `UnlockSteps` prove what every step keeps, `UnlockLedger` what the trace tells about the flag. `UnlockTheorems`, `UnlockCount` and `UnlockCustody` state the promises over every run.
- `Agent` and `Server` are the same code in its own imperative form. Every method is proved to move along the transition system only, so the theorems hold of every execution. A steady call is one during which no primitive fails and the power stays.
- `DataVolume` is the directory tree and the wipe. `FlagRegister` is the flag file on a write-back cache.

**The DHCP client** (`internal/dhcp`): `DhcpCodec`, `IpUdp`, `DhcpRun`, `Netlink`.

**The UI client** (`ui/cairo/src`): `Calendar`, `Rfc3339`, `JsonText`; `UiModel`, the event handling as a function on states, and `UiFlow`, the handler over global variables and fixed buffers that is proved to compute it.

`Bytes` and `Wrappers` are shared definitions.

### Assumptions of the unlock model

- TPM bits stay as set. A lock-bit or verity read that succeeds reports the true value. A primitive that returns an error may or may not have taken effect; one that succeeds did.
- A failed flag write may leave the old value or the new one. After the rename a read sees the new value, but until the directory sync (or a reboot) succeeds a power loss may bring the old one back. `FlagRegister.FlagFile` derives this from the write, sync, rename, directory-sync sequence.
- The flag file is written only by this code and a read of it never fails for a passing reason, so it returns the newest value. (`readUnlockFlag` reads an unreadable file as a flag that grants nothing; a read error while a transaction is pending would let a disarm or the final clean-up write a flag without its phase and count. `FlagFile.Read` shows both cases, the protocol theorems assume the first.) `lockMu` makes each Core call one critical section. PIN checks of arm requests happen outside it and interleave freely.
- The custody erase touches only `lib/sinty` and leaves that path a real directory or absent. The ESP lies outside the wiped area or below `boot/efi`.
- The host may write to the volume between calls and during a call, in any way that keeps an installed volume recognisable, but not while a pass is reading and clearing its directory, nor between the last pass and the flip. In the imperative form it writes before and after the custody erase.
- A power loss may bring back any nodes whose deletion is not synced yet; the directory sync at the end of a pass settles the deletions of that pass. What mkdir, the custody erase and the host wrote stays.

### Where the code and its documentation differ

- `lock.go:167-168` says a retry never needs the deleted key custody again. This fails in one family of runs, and `UnlockTheorems` proves both sides. If the directory sync of the phase record fails (`lock.go:101-104`), the call reports an error, but a retry in the same boot reads the phase from the cache, resumes without a PIN, deletes and erases key custody. A power loss can then undo the rename. `UnsyncedRetryCanStrand` builds that run for every recognised volume: it ends locked, with custody gone and without its phase. `StrandedUntilPin` shows that no continuation gets any further until the verifier accepts a PIN, and `StrandedDeviceExists` gives a concrete device. `ResumableIff` is the exact condition over every run, in what a caller can see: the flag carries the phase, and the write that put it there returned nil or was followed by a reboot. `CrashThenResume` shows that every run free of such a retry keeps the promise.
- `lock.go:15` says the count is monotonic across unlocks. `CountGoesDownIff` shows the one way in which the visible count goes down: a power loss takes back a finalizing write whose directory sync had failed. `UnlockCanGoUncounted` is a run, for every recognised volume, at the end of which the device is unlocked and nothing is counted or pending: it is the unsynced retry above, run to its end. `CountConservation` accounts for every transaction ever begun, and `FlipIsCounted` shows that in a run free of such a retry every transaction that came to a flip is counted exactly once or still pending.
- `data_wipe.go:185-186` says the second pass removes any state recreated between the two phases. It removes what was recreated at the top level; below `boot` nothing is scrubbed again. `FlipFindsOnlyKept` is the exact condition and `RecreatedStraySurvives` a run, for every recognised volume, that unlocks with a recreated file left in `boot`.
- The timestamp parser accepts more than section 5.6 of RFC 3339 defines: day 31 in any month, a point without digits and offsets up to 99:99 (`LooseTextIsAccepted`), a sign in a number (`SignedHourIsAccepted`), an underscore in the year (`UnderscoreYearIsAccepted`, as Zig's `parseInt` does) and anything after the zone (`TrailingBytesAreIgnored`). `AcceptedIsRfcText` says of every string exactly when an accepted text is one of the RFC's.
- A netmask that is not contiguous is used as prefix length 0.

## Model

| member | source | states |
|---|---|---|
| `UnlockTheorems.CrashThenResume` | internal/recovery/lock.go:169-242 | After any run with a wipe step and a locked TPM (no unsettled resume), and after any power loss, whatever deletions it undoes, one UNLOCK call with any PIN and non-failing primitives unlocks, leaves exactly the preserved paths, counts once and asks no PIN |
| `UnlockTheorems.ResumableAfterCrash` | internal/recovery/lock.go:179-190 | In every such run, after every power loss, the durable flag is armed with phase verity-off, verity is off and the volume still validates |
| `UnlockTheorems.StandingThenResume` | internal/recovery/lock.go:169-242 | The same completion under the exact condition of `ResumableIff`, whatever retries came before |
| `UnlockTheorems.ResumableIff` | internal/recovery/lock.go:177-190 | Over every run that has wiped on a locked device: every power loss leaves the transaction resumable if and only if the flag carries the phase and its write returned nil or was followed by a reboot; between calls it is resumable if and only if the flag carries the phase, that is, no power loss has taken the record back |
| `UnlockTheorems.CarefulMeans` | internal/recovery/lock.go:177-190 | A history has no unsettled resume exactly when every resumed record had returned nil or been through a reboot |
| `UnlockLedger.LedgerStep` | internal/recovery/lock.go:71-105 | Every step keeps the ledger: the newest value is synced exactly when its write returned nil or a reboot followed, transactions begun are those logged plus those dropped, and what a careful run wipes or flips rests on a durable record |
| `UnlockTheorems.UnsyncedRetryCanStrand` | internal/recovery/lock.go:163-168 | The counterexample run on every recognised volume: failed directory sync, retry in the same boot, prepare and custody erase, power loss; the device is locked, custody is gone and the phase too |
| `UnlockTheorems.StrandedUntilPin` | internal/recovery/lock.go:191-201 | From there, no run of calls, arms, reboots and host writes resumes, unlocks or wipes anything until the verifier accepts a PIN; every call past its gates asks for one |
| `UnlockTheorems.StrandedDeviceExists` | internal/recovery/lock.go:163-168 | A concrete device with a key in custody that ends locked with neither key nor phase |
| `UnlockTheorems.ResumeCompletes` | internal/recovery/lock.go:226-241 | A resumable transaction is completed by one successful call, whatever the custody erase leaves, without the PIN verifier |
| `UnlockTheorems.FlipComesLast` | internal/recovery/lock.go:209-237 | Every flip request in every trace follows, within its own call, a full prepare, a successful erase and a full finish, and earlier a phase record that took effect after a confirmed verity-off; in a careful run that record was durable by then and cannot be lost |
| `UnlockTheorems.FlipFinds` | internal/recovery/lock.go:232-235 | When the flip is requested the volume is exactly the preserved paths of the tree prepare found or, if the host wrote meanwhile, exactly what the final pass leaves of what it wrote last; no deletion is unsynced, verity is off, and the phase record is durable if and only if it returned nil or was followed by a reboot |
| `UnlockTheorems.NothingComesBack` | internal/recovery/data_wipe.go:122-136 | When the flip is due and from then on, no power loss brings back anything the wipe removed |
| `UnlockTheorems.UnsyncedDeletionCanComeBack` | internal/recovery/data_wipe.go:127-136 | Before the pass syncs its directory, a power loss can undo any single deletion exactly |
| `UnlockTheorems.FlipFindsOnlyKept` | internal/recovery/data_wipe.go:185-194 | At the flip every path is preserved or a stray below boot, and only preserved paths are left if and only if the host, should it have written, left no stray |
| `UnlockTheorems.RecreatedStraySurvives` | internal/recovery/data_wipe.go:185-186 | On every recognised volume a run unlocks the device with a recreated file in boot that no keep list names |
| `UnlockTheorems.ConsentChain` | internal/recovery/serve.go:185-241 | Behind every wipe step: the flag owner's PIN accepted by the arm handler, the arm it paid for, the same owner's PIN accepted by the unlock call that recorded the phase, no flag write asked for between that check and the record, and none made durable between the arm and the record |
| `UnlockTheorems.OwnerUnchanged` | internal/recovery/lock.go:202-231 | At every wipe step the flag value before the phase record is the one the owner's arm wrote, the record changed only the phase, and the step is that owner's |
| `UnlockTheorems.ArmPinPaysOnce` | internal/recovery/serve.go:219-236 | One accepted PIN check of an arm request never pays for two arms |
| `UnlockTheorems.ModesAreSeparate` | internal/recovery/serve.go:261-271 | Outside runtime mode no step arms the flag or changes the owner of an armed one; in runtime mode no step starts, continues or finishes an unlock |
| `UnlockCount.CountConservation` | internal/recovery/lock.go:153-161 | Over every run, the phase records that took effect are the count gained, plus the one pending, plus those power losses took back |
| `UnlockCount.FlipIsCounted` | internal/recovery/lock.go:235-238 | In a careful run every transaction with a flip request is in the flag history for good, once, and was finalized by the very next write or is still pending |
| `UnlockCount.CountGoesDownIff` | internal/recovery/lock.go:15-18 | The visible count goes down in a step if and only if the step is a power loss that takes back an unsynced finalizing write |
| `UnlockCount.UnlockCanGoUncounted` | internal/recovery/lock.go:15-18 | On every recognised volume a run ends unlocked with nothing counted and nothing pending |
| `UnlockCount.LogConserves` | internal/recovery/lock.go:153-161 | The starts in a well-formed flag history are its count gained plus the one pending, by induction over its writes |
| `UnlockCount.PendingIsIrrevocable` | internal/recovery/lock.go:123-139 | A pending phase is cleared only on an unlocked device, counting it once, whichever call does it; a power loss clears it only if it was never synced |
| `UnlockTheorems.DeletionsAreConfined` | internal/recovery/data_wipe.go:122-136 | In every run each deletion is strictly below the data directory, reached through real directories only, spares preserved paths and leaves a volume that validates |
| `UnlockTheorems.SweepLeads` | internal/recovery/data_wipe.go:122-136 | A pass can always be run to its end by single deletions, reaching exactly the swept tree |
| `UnlockSteps.StepKeeps` | internal/recovery/lock.go:56-242 | Every step of every call, and every power loss, keeps the invariant of flag history, trace, TPM bits, volume and running call |
| `UnlockSteps.RunKeeps` | internal/recovery/lock.go:56-242 | The invariant holds after every run |
| `UnlockSteps.RecordKeeps` | internal/recovery/lock.go:216-224 | Recording the phase keeps the invariant, whichever way the write ends |
| `UnlockSteps.PowerLossKeeps` | internal/recovery/lock.go:71-105 | Losing any unsynced suffix of the flag writes and any unsynced deletions keeps the invariant |
| `UnlockSteps.FlipKeeps` | internal/recovery/lock.go:235-237 | The flip keeps the invariant whether it reports success, failure or a failure that took effect |
| `UnlockInvariant.NewestOk` | internal/recovery/lock.go:33-43 | What the current flag value says about the events that wrote it |
| `FlagRegister.FlagFile.Write` | internal/recovery/lock.go:71-105 | Temp write, sync, rename and directory sync on a volatile cache implement the register: nil return means durable, an error means old or new, a power cut at any step leaves a whole old or new value, and a write whose steps all work returns nil |
| `FlagRegister.FlagFile.Read` | internal/recovery/lock.go:33-43 | Missing, corrupt or unreadable reads as not armed, otherwise the newest value |
| `FlagRegister.FlagFile.LosePower` | internal/recovery/lock.go:94-104 | Unflushed bytes may be torn and unsynced names undone, yet the register only loses unsynced values |
| `FlagRegister.WriteIsAtomic` | internal/recovery/lock.go:101-104 | On a settled register any crash gives the whole old or whole new value, and after a nil return the new one |
| `Agent.Core.UnlockBootloader` | internal/recovery/lock.go:169-242 | Granted only with the word, an unlocked TPM and a complete wipe with nothing left unsynced, and for a new transaction only with an accepted PIN; refused calls change nothing; a steady call finishes a resumable transaction without a PIN and an armed one with an accepted PIN, counting it once; every path is a run of the transition system |
| `Agent.Core.EnterTransaction` | internal/recovery/lock.go:177-225 | A steady call gets to the wipe exactly when the pending phase is confirmed by the TPM, or the PIN is well formed and accepted and the volume recognised |
| `Agent.Core.LockState` | internal/recovery/lock.go:56-69 | Fails closed, finalizes a pending transaction found on an unlocked device, reports the resulting flag |
| `Agent.Core.ArmForOwner` | internal/recovery/lock.go:115-151 | Arms for a real account only, never over a pending transaction, keeping the count |
| `Agent.Core.Disarm` | internal/recovery/lock.go:129-150 | Clears consent, or finalizes a pending transaction on an unlocked device; refuses on a locked one |
| `Agent.Core.StartTransaction` | internal/recovery/lock.go:191-225 | Nothing is wiped or unlocked before the phase record is durable; a steady call succeeds exactly with a well-formed, accepted PIN and a recognised volume |
| `Agent.Core.PrepareDataWipe` | internal/recovery/data_wipe.go:166-183 | On success the tree is exactly the prepared tree (`DataVolume.PreparedIs`); on failure or power loss the TPM is untouched |
| `DataVolume.PreparedIs` | internal/recovery/data_wipe.go:163-183 | Prepare leaves, path by path, exactly the preserved paths, everything of key custody, and lib and lib/sinty, made where missing |
| `DataVolume.SlotFilesAre` | internal/recovery/data_wipe.go:147-156 | The rootfs keep list is the deployment record, its backup, and image and hash of the active, next and previous slot |
| `UnlockCustody.EraseFindsCustody` | internal/recovery/data_wipe.go:163-165 | In every run the cryptographic erase finds key custody exactly as in the tree prepare found, or as the host wrote it last |
| `UnlockCustody.CustodyStep` | internal/recovery/data_wipe.go:166-183 | Every step up to the erase keeps key custody as it was found |
| `Agent.Core.FinishDataWipe` | internal/recovery/data_wipe.go:187-194 | On success the tree is exactly what the final pass leaves of the tree it met, recreated state included; its validation cannot fail after a prepare |
| `Agent.Core.Wipe` | internal/recovery/lock.go:226-234 | Prepare, erase and finish leave exactly the preserved paths of the tree they started from or, if the host wrote in between, what the final pass leaves of what it wrote |
| `Agent.Core.RemoveChildrenExcept` | internal/recovery/data_wipe.go:122-136 | The two nested loops leave the directory swept: unkept children gone with everything below them, the rest untouched |
| `Agent.Core.RemoveAll` | internal/recovery/data_wipe.go:127-134 | Deletes node by node, children first; afterwards exactly the nodes at or below its target are gone and all others are untouched |
| `Agent.Core.ValidateDataDir` | internal/recovery/data_wipe.go:49-111 | Succeeds exactly on recognised volumes |
| `Agent.Core.FinalizeFlag` | internal/recovery/lock.go:153-161 | Runs only on an unlocked device and counts the transaction; a power loss before it leaves the device unlocked |
| `Agent.Core.Holds` | internal/recovery/lock.go:169-242 | Every state the imperative agent can be in is reachable in the transition system |
| `Agent.HistoryIsReachable` | internal/recovery/lock.go:169-242 | A history of steps from a fresh device ends in a reachable state |
| `Server.Handler.PostArmUnlock` | internal/recovery/serve.go:185-241 | Arms only in runtime mode, for the configured owner or the socket peer, with that account's PIN accepted during the request, and without failures exactly then on a locked device with nothing pending; disarms exactly when nothing is pending or the device is unlocked; a refusal adds no consent; outside runtime mode every arm request is refused and the owner of an armed flag stays |
| `Server.Handler.CheckOwner` | internal/recovery/serve.go:195-232 | Grants only after an accepted PIN of well-formed length for an account of at least 1000, and without failures exactly then on a locked device |
| `Server.Handler.PostUnlock` | internal/recovery/serve.go:245-259 | Malformed bodies, another word and unarmed flags change nothing; success means unlocked after a complete wipe; without failures a resumable transaction succeeds with no PIN asked, and an armed one with a well-formed accepted PIN, counted once |
| `Server.Handler.Serve` | internal/recovery/serve.go:261-271 | In runtime mode only the two policy routes exist and only the flag can change; otherwise no request arms; each route does what its handler promises, the lock state included |
| `Server.Handler.GetLockState` | internal/recovery/serve.go:175-182 | Reports the TPM's word when it can be read and locked otherwise, and the flag; counts an unlock that was not counted yet and changes nothing else |
| `Server.ClientAndServerAgreeOnPins` | internal/recovery/serve.go:206-211 | The server accepts PINs of 4 to 256 bytes without line breaks; the UI client accepts exactly those of them without control bytes |
| `Server.ClientAndServerAgreeOnTheWord` | internal/recovery/lock.go:172-174 | The word the client has the owner type is the word the server wants |
| `DataVolume.WipeConfluence` | internal/recovery/data_wipe.go:166-194 | Whatever single operations interrupted wipes performed, and whichever deletions power losses undid, one complete wipe leaves what one uninterrupted wipe of the original would have: its preserved paths |
| `DataVolume.FullWipe` | internal/recovery/data_wipe.go:138-194 | Prepare, erase and finish leave exactly the two markers, boot, boot/efi with all below, boot/rootfs and its eight named entries |
| `DataVolume.OpsKeepVolume` | internal/recovery/data_wipe.go:122-194 | Every list of single wipe operations keeps the volume recognised and its preserved paths intact |
| `DataVolume.OpKeepsVolume` | internal/recovery/data_wipe.go:49-111 | Each single wipe operation keeps the volume recognised and its preserved paths intact |
| `DataVolume.RemoveIsConfined` | internal/recovery/data_wipe.go:122-136 | One deletion is strictly inside, follows no link, spares preserved paths and keeps the volume valid |
| `DataVolume.KeptMeansSpared` | internal/recovery/data_wipe.go:138-161 | The keep lists of the passes spare exactly the preserved paths |
| `DataVolume.DoomedLeafBelow` | internal/recovery/data_wipe.go:127-134 | A pass that is not done always has something it can delete |
| `DataVolume.InstallIdIff` | internal/recovery/data_wipe.go:16-33 | A node holds an install id exactly when it is a regular file whose content is 32 lower-case hex digits between blanks |
| `DataVolume.FinishedIs` | internal/recovery/data_wipe.go:187-194 | The final pass leaves preserved paths and strays below boot, and only preserved paths if and only if there was no stray |
| `DataVolume.OpKeepsFinished` | internal/recovery/data_wipe.go:166-194 | Nothing a wipe does after the boot scrub changes what the final pass will leave |
| `DhcpCodec.EncodeRoundTrips` | internal/dhcp/dhcp.go:64-128 | decode inverts encode for every encodable packet and distinct order, whatever follows the message |
| `DhcpCodec.DecodeAccepts` | internal/dhcp/dhcp.go:94-128 | decode accepts exactly good headers whose options do not break off, and returns their per-code concatenation; each of the three errors is given exactly for its own fault |
| `DhcpCodec.DecodeWire` | internal/dhcp/dhcp.go:111-127 | Any well-formed message decodes to the per-code concatenation of its options; bytes after End do not matter |
| `DhcpCodec.DecodeDependsOnValues` | internal/dhcp/dhcp.go:111-127 | Messages with equal per-code values decode alike |
| `DhcpCodec.SplitIsHarmless` | internal/dhcp/dhcp.go:123-125 | Splitting an option into two instances changes nothing |
| `DhcpCodec.PadIsHarmless` | internal/dhcp/dhcp.go:116-119 | Pads change nothing |
| `DhcpCodec.ReorderIsHarmless` | internal/dhcp/dhcp.go:123-125 | Exchanging options of different codes changes nothing |
| `DhcpCodec.DecodeLoop` | internal/dhcp/dhcp.go:94-128 | The index loop computes that decoding and reads in range on every input |
| `DhcpCodec.EncodeLoop` | internal/dhcp/dhcp.go:64-92 | Filling the buffer, appending and padding produce the wire format |
| `DhcpCodec.EncodeHeader` | internal/dhcp/dhcp.go:65-78 | The fixed fields are written at their offsets, everything else zero |
| `DhcpCodec.ScanWire` | internal/dhcp/dhcp.go:111-126 | The option loop reads any run of elements and goes on after it |
| `IpUdp.MessageRoundTrips` | internal/dhcp/raw.go:50-116 | Framing, link padding, extraction and decoding return the same packet |
| `IpUdp.FrameRoundTrips` | internal/dhcp/raw.go:95-116 | Extraction inverts framing under any padding for payloads up to 65507 bytes |
| `IpUdp.OversizedFrameFails` | internal/dhcp/raw.go:50-57 | A longer payload never comes back: the 16-bit length fields cannot express it, so the bound is exact |
| `IpUdp.FrameHeaderVerifies` | internal/dhcp/raw.go:54-58 | The IP header checksum of every frame verifies to zero |
| `IpUdp.FrameIsBroadcast` | internal/dhcp/raw.go:50-64 | A frame goes from 0.0.0.0 to 255.255.255.255 with 64 hops to live, between its ports, and carries its payload |
| `IpUdp.UdpPayloadIff` | internal/dhcp/raw.go:95-116 | For every byte string, extraction returns exactly the payload of an unfragmented IPv4 packet, with or without header options, that carries a UDP datagram to the port |
| `IpUdp.UdpPacket` | internal/dhcp/raw.go:50-64 | The in-place buffer is that frame |
| `IpUdp.ChecksumIsRfc1071` | internal/dhcp/raw.go:36-48 | Up to 131074 bytes: no 32-bit overflow, and the complement of the one's-complement sum |
| `IpUdp.ChecksumExact` | internal/dhcp/raw.go:36-48 | For every input, when the wrapping accumulator still gives the RFC 1071 checksum; below 8 GiB exactly when the sum of the words fits 32 bits |
| `IpUdp.ChecksumBoundIsTight` | internal/dhcp/raw.go:36-40 | One byte more than the bound and the result can be wrong |
| `IpUdp.StoredChecksumVerifies` | internal/dhcp/raw.go:58 | Storing the checksum into a zeroed aligned field makes the checksum of the whole zero |
| `IpUdp.Checksum` | internal/dhcp/raw.go:36-48 | The loop with its wrapping accumulator computes it in at most two folds |
| `DhcpRun.Acquire` | internal/dhcp/dhcp.go:172-208 | Against every network: DISCOVER only, then REQUEST exactly after the first reply that matters is an OFFER of this xid, at most 5 sends and 30 seconds per phase, the lease of the ACK exactly when that is then the first reply that matters, refused exactly by a NAK, given up exactly after five silent attempts |
| `DhcpRun.AcquireGetsGrant` | internal/dhcp/dhcp.go:172-208 | End to end: a lease granted on the wire, after silent attempts and among other traffic, is returned exactly |
| `DhcpRun.DiscoverOnTheWire` | internal/dhcp/dhcp.go:186-193 | The DISCOVER decodes to a broadcast BOOTREQUEST of type 1 with the four requested parameters and nothing else |
| `DhcpRun.RequestOnTheWire` | internal/dhcp/dhcp.go:194-203 | The REQUEST decodes to type 3 with the offered address, the parameters and, when offered, the server id, and nothing else |
| `DhcpRun.FirstReplyDecides` | internal/dhcp/dhcp.go:222-237 | Over the attempts made so far the first reply of this transaction decides, whatever the later attempts would bring; everything else is ignored |
| `DhcpRun.ExchangeIs` | internal/dhcp/dhcp.go:210-240 | An exchange is answered, refused or given up exactly as the first received packet that matters says: a reply of this xid with the wanted message type, or a NAK |
| `DhcpRun.JudgeIs` | internal/dhcp/dhcp.go:226-236 | Every packet: taken, refused or ignored exactly by its op, xid and option 53 |
| `DhcpRun.JudgeOnTheWire` | internal/dhcp/dhcp.go:226-236 | Every message a server can send, with any padding: taken if of the wanted type, refused if of type 6, else ignored |
| `DhcpRun.SendsUntilDecided` | internal/dhcp/dhcp.go:211-217 | One send for every attempt up to the deciding packet |
| `DhcpRun.AnswerIsGenuine` | internal/dhcp/dhcp.go:227-233 | Every answer is a received reply with this xid and the wanted type |
| `DhcpRun.ExchangeIsBounded` | internal/dhcp/dhcp.go:211-221 | At most 5 sends of the one message and a bounded total wait |
| `DhcpRun.Exchange` | internal/dhcp/dhcp.go:210-240 | The retry loop computes that outcome and log |
| `DhcpRun.Recv` | internal/dhcp/raw.go:73-93 | The receive loop returns the first verdict |
| `DhcpRun.IpList` | internal/dhcp/dhcp.go:137-143 | Whole addresses in order, a partial one dropped |
| `DhcpRun.IpListLoop` | internal/dhcp/dhcp.go:137-143 | The loop computes that list |
| `DhcpRun.LeaseRoundTrips` | internal/dhcp/dhcp.go:145-166 | The lease read from the ACK that grants a lease is that lease, in every field |
| `DhcpRun.LeaseIff` | internal/dhcp/dhcp.go:146-149 | A decoded reply gives a lease exactly when its address is not 0.0.0.0 |
| `DhcpRun.MaskOfClass` | internal/dhcp/dhcp.go:150-154 | Without a subnet option the mask is that of the address class |
| `Netlink.AddressStep` | internal/dhcp/dhcp.go:249-250 | For every address and contiguous mask, the prefix is the mask's and the broadcast address is the last of the block; otherwise prefix 0 |
| `Netlink.BroadcastIsLastOfBlock` | internal/dhcp/netlink.go:88-92 | OR-ing bytewise with the inverted mask gives the numerically last address of the block |
| `Netlink.LastOfBlockIs` | internal/dhcp/netlink.go:88-92 | The last address of the block is (ip / 2^(32-p)) * 2^(32-p) + 2^(32-p) - 1 |
| `Netlink.Broadcast` | internal/dhcp/netlink.go:88-92 | The byte loop computes it |
| `Netlink.MaskSize` | internal/dhcp/dhcp.go:249 | The prefix of a contiguous mask, 0 for any other |
| `Netlink.AttrsRoundTrip` | internal/dhcp/netlink.go:33-40 | A run of attributes is read back as exactly those attributes |
| `Netlink.Attr` | internal/dhcp/netlink.go:33-40 | The in-place buffer is the aligned, zero-padded attribute, its length cut to 16 bits |
| `Calendar.ClosedFormIsDayCount` | ui/cairo/src/api.zig:154-162 | For every integer year and valid date the closed form equals the day-by-day count |
| `Calendar.CountsDays` | ui/cairo/src/api.zig:154-162 | 0 at 1970-01-01 and exactly one more on the next calendar day |
| `Calendar.StrictlyMonotone` | ui/cairo/src/api.zig:154-162 | Orders valid dates exactly as the calendar does, and is equal only for equal dates |
| `Rfc3339.TextParses` | ui/cairo/src/api.zig:169-195 | Every valid timestamp text, with any fraction and any offset or Z, parses to its epoch second |
| `Rfc3339.SameInstantSameParse` | ui/cairo/src/api.zig:169-195 | Two texts parse equal exactly when they name one instant |
| `Rfc3339.AcceptedIsRfcText` | ui/cairo/src/api.zig:169-195 | Every string: it is accepted and plain (digits only, a day of its month, digits after a point, an offset in range, nothing after the zone) if and only if it is a text of section 5.6 of RFC 3339 |
| `Rfc3339.LooseTextIsAccepted` | ui/cairo/src/api.zig:179-193 | Texts with any day up to 31, a bare point or an offset up to 99:99 are accepted, and are RFC texts exactly when date, fraction and offset are |
| `Rfc3339.LooseTextsExist` | ui/cairo/src/api.zig:179-193 | 2023-02-31, a bare point and +99:99 as accepted texts outside the RFC |
| `Rfc3339.SignedHourIsAccepted` | ui/cairo/src/api.zig:164-167 | A signed hour is accepted with its sign, so that it can be negative, and is no RFC text |
| `Rfc3339.UnderscoreYearIsAccepted` | ui/cairo/src/api.zig:164-167 | A year with an underscore is accepted as the number of its other digits and is no RFC text |
| `Rfc3339.TrailingBytesAreIgnored` | ui/cairo/src/api.zig:187-194 | Bytes after the zone change nothing, and make it no RFC text |
| `Rfc3339.Parse` | ui/cairo/src/api.zig:169-195 | The index loops compute that parse, in range on every input |
| `Rfc3339.ResultFits` | ui/cairo/src/api.zig:194 | Every accepted text gives a value that fits an i64 |
| `Rfc3339.ParseFour` | ui/cairo/src/api.zig:164-167 | Four digits parse to their number |
| `JsonText.PinRoundTrips` | ui/cairo/src/api.zig:454-474 | Every accepted PIN is read back unchanged from the body |
| `JsonText.UnescapedInvertsEscaped` | ui/cairo/src/api.zig:97-108 | Reading inverts escaping, cut to the room there is |
| `JsonText.UnlockRequest` | ui/cairo/src/api.zig:454-476 | Built exactly for accepted confirm and PIN: a POST to the route with the true Content-Length, within 1024 bytes, whose body a JSON reader decodes to exactly those two fields |
| `JsonText.BodyIsRead` | ui/cairo/src/api.zig:472-474 | The body is a JSON object with exactly the fields confirm and pin |
| `JsonText.EscapePin` | ui/cairo/src/api.zig:458-471 | The escaping loop refuses exactly the unacceptable PINs; its overflow checks never fire |
| `JsonText.SizesFit` | ui/cairo/src/api.zig:135-137 | Body within 768 bytes and request within 1024 for all accepted lengths |
| `JsonText.ReadString` | ui/cairo/src/api.zig:97-108 | The loop stores that string, a zero, and nothing else |
| `UiModel.HandledIsOk` | ui/cairo/src/main.zig:535-695 | Every event keeps indices in range, zero bytes out of the entries, the PIN empty outside its two screens and unlock calls proper; calls come only from the confirm screen, which is reached only through warning and PIN |
| `UiModel.SubmissionCalls` | ui/cairo/src/main.zig:660-689 | A submission makes exactly one call, with the typed PIN, if the word matches and the lock state read in that event is locked and armed, and none otherwise |
| `UiModel.WarningNeedsReading` | ui/cairo/src/main.zig:549-567 | The warning is shown only for a device read as locked and armed in that event |
| `UiModel.UnreadableFailsClosed` | ui/cairo/src/main.zig:555-559 | An unreadable lock state is held as locked and not armed and blocks, on the menu and on confirm |
| `UiModel.TypingAppends` | ui/cairo/src/main.zig:503-510 | Typing a text that fits appends it to the entry of the screen and changes nothing else |
| `UiModel.EveryKeyIsThere` | ui/cairo/src/main.zig:105 | Every digit, and every letter in either case, is on the on-screen keyboard |
| `UiModel.OwnerCanUnlock` | ui/cairo/src/main.zig:535-695 | On a device that reads as locked and armed, the keys Enter, Enter, any PIN of 4 to 256 bytes, Connect, UNLOCK, Connect make exactly one unlock call with that PIN |
| `UiFlow.Session` | ui/cairo/src/main.zig:1161-1173 | Over every sequence of events, answers and refreshes the state is the one of the model; only proper unlock calls, the PIN buffer zero outside its two screens, all indices in range |
| `UiFlow.Ui.Handle` | ui/cairo/src/main.zig:535-695 | The whole state after an event, every entry buffer and call included, is what the model says |
| `UiFlow.Ui.HandleMenu` | ui/cairo/src/main.zig:537-568 | The selection wraps around and Enter does what the item says |
| `UiFlow.Ui.ChooseUnlock` | ui/cairo/src/main.zig:549-567 | Clears both entries, reads the lock state, and warns, blocks or stays accordingly |
| `UiFlow.Ui.HandleWifi` | ui/cairo/src/main.zig:580-599 | The selection wraps around; Enter asks for the password of a secured network and joins an open one |
| `UiFlow.Ui.HandlePassword` | ui/cairo/src/main.zig:600-608 | Connect joins the chosen network with the typed password |
| `UiFlow.Ui.HandleWarn` | ui/cairo/src/main.zig:612-631 | Back disarms and leaves if that succeeds; Enter goes on to an empty PIN |
| `UiFlow.Ui.HandlePin` | ui/cairo/src/main.zig:632-651 | Leaving backwards clears the PIN; going on needs four bytes |
| `UiFlow.Ui.HandleConfirm` | ui/cairo/src/main.zig:652-691 | Connect submits, Back returns to the PIN, other events type |
| `UiFlow.Ui.Submit` | ui/cairo/src/main.zig:660-689 | Calls the API exactly when the word matches and the lock state read now is locked and armed, with the typed PIN, and forgets both entries |
| `UiFlow.Ui.EntryPut` | ui/cairo/src/main.zig:503-510 | Appends to the entry of the screen unless full, in its buffer |
| `UiFlow.Ui.EntryDel` | ui/cairo/src/main.zig:511-517 | Removes the last byte of the entry of the screen |
| `UiFlow.Ui.OskMove` | ui/cairo/src/main.zig:523-533 | The cursor wraps around and stays on a key; Enter types it, Del deletes, Shift toggles |
| `UiFlow.Ui.OskType` | ui/cairo/src/main.zig:518-522 | Types the selected key, shifted letters in upper case |
| `UiFlow.Ui.UnlockMatches` | ui/cairo/src/main.zig:101-103 | True exactly for the word UNLOCK |

## Left out

- Process launching and output scraping of the crypto CLI (`crypto_sintykey.go`, `cmd/sinty-pind`): the six primitives of `crypto_seam.go` are arbitrary replies and effects under the assumptions above.
- The atom library calls (stage, rollback, loader repair), reinstall, and the wifi control socket: wrappers over code that is not part of this model.
- The background job tracker and the scan, connect and status routes: they report progress and touch neither the flag, the TPM nor the volume, and mutual exclusion of jobs does not hold there.
- JSON encoding of the flag: the file holds a whole flag, a torn prefix, or nothing.
- Path syntax of the data directory (`filepath.Clean`, `IsAbs`) and the mount check: fixed facts of the installation. A regular file's content is a string; its mode bits are not modelled.
- Wrap-around of the unlock count at 64 bits: counts are unbounded.
- The messages shown to users: replies are granted, refused, or none because the power went.
- Sockets, deadlines and real time in the DHCP client: an attempt is a list of received packets; the budget counts the configured waits.
- Writing `resolv.conf` and sending netlink messages.
- Drawing, DRM, input devices, the mock backend and the preview of the UI; `findVal` and `scan`, which search text loosely: reading a JSON string starts at its value. `goPairing` has no caller outside the tests; only its screen's way back is modelled.
- The text menu: its unlock path makes the Core calls modelled here.
