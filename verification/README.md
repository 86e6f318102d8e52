# pinpam, verified

pinpam logs users in with a short PIN that a TPM keeps and counts guesses against. This project models its logic in Dafny and
proves what that logic promises. `dafny verify dfyconfig.toml` checks all of it.

**The TPM and the manager.** `Tpm` is the part of a TPM 2.0 that pinpam relies on: a store of NV indexes changed by one
atomic command at a time. A PinFail index has an authorization value and two counters; a matching guess with attempts left
clears the count, another guess adds one, and at the limit the value is no longer looked at (TPM 2.0 Library, revision 01.38: Part 1,
PIN Fail indexes; section 13.3 of Part 2; sections 23.20, 31.3, 31.4, 31.7 and 31.13 of Part 3). `PinManagement.PinManager` is
the manager as a class whose methods send such commands through a `Device`. The device follows a *schedule*, an arbitrary
function of time: before each of our commands other processes may send any commands at all, and ours may work, never arrive, or
be executed with its answer lost. A process that is stopped is one whose later commands never arrive (`StopsAfter`). Contracts therefore
come in tiers: for every schedule; for schedules where nobody else interferes but anything of ours may fail in any way (`Solo`), where the
*stages* say which accounts an operation can leave; and for undisturbed ones (`Quiet`), where `Accounts`, a machine with one atomic step per operation and one account per user, says exactly what
happens. The device records a ghost history of the commands executed, from which the history theorems of `Tpm`, `PinHistories` and
`PinRuns` follow.

**On top of it.** `Pinutil` is the helper's commands over a console and the manager; `PamAuth` is the PAM module over helper processes;
their outcome modules state end-to-end results, from PAM code to TPM counter. `MasterKey` is the life of the wallet key, sealed in a file
and held by the TPM. `PamStack` is the rewriting the NixOS module performs on a PAM stack, with a small interpreter of
PAM control values (Linux-PAM's `required`, `requisite`, `sufficient`, `optional` and `substack`). `Policy`, `Text`, `PinCodec` and
`PinIndex` are the pure parts underneath.

## What the proofs found

Where code and documentation disagree, the model follows the code. Each property that turned out not to hold everywhere comes with the exact condition under
which it does.

- The comment on `setup_pin` says it overwrites (pinpam-core/src/pinmanager.rs:54); the code refuses an occupied slot (:60-62). `PinManager.SetupPin`.
- A missing slot makes `verify_pin` fail with a TPM error, not `NotProvisioned` (:177-180). `PinManager.VerifyPin`, `PinOutcomes.VerifyAnswers`.
- `LockedOut` is never the answer to a spent counter. It means that a *matching* PIN met a slot whose limit reads as negative. `PinOutcomes.LockedOutMeansHugeLimit`.
- The manager's, the helper's and the TPM's lock tests agree for every count exactly when the limit lies in 1..2^31-1; `limit - used` cannot
  underflow exactly when it is below 2^31. The policy file accepts limits outside both. `PinCodec.LockTestsAgree`, `PinCodec.RemainingNeverUnderflows`.
- A fault that looks like an absent version tag makes a tagged account pass for a legacy one. Its secret behind superfluous leading zeros is then accepted, and becomes the only
  right PIN, if the slot's limit is below 2^31 (a larger one is answered `LockedOut`, without a migration). This is the only way in which a faulty verification makes a PIN right that was not. `PinOutcomes.FaultsWidenAccessExactly`, with a run in `PinOutcomes.MisreadTagAcceptsAnotherPin`.
- A guess with the stacked token that a fault keeps from the TPM, or whose accepting answer is lost, is counted by the PAM module if the fault reads as a refusal. The prompt then shows fewer attempts than the
  TPM grants; it never shows more. `PamAuth.AuthenticateUser`, with a run in `PamOutcomes.GhostRejectionIsMiscounted`.
- A PIN longer than 32 bytes cannot be an authorization value. A verification that migrates such a PIN from a legacy slot reports success and leaves no
  account. `PinOutcomes.MigrationKeepsMeaning`, `PinOutcomes.MigrationCanLoseThePin`. An owner who changes to such a PIN loses the old one. `PinutilOutcomes.ChangeOwnPinDecides`.
- Which account a stopped setup leaves depends on how many of its commands arrived: none before the third, a half-defined slot before the sixth, then a slot without its tag, and all of it
  after the ninth, or the eleventh if the user had no tag index. `PinManager.SetupPin`, `PinOutcomes.StoppedSetupStrands`, with a run in `PinOutcomes.StoppedBetweenSlotAndTag`.
- A setup makes up for a single failing command, or is taken back, from its eighth command on. The seventh, the reconnection between slot and tag, is the exception: if it fails the error is reported and
  the slot stays without its tag. `PinManager.SetupPin`.
- A setup stopped between slot and tag is healed by the next verification of its PIN exactly when that PIN has no superfluous leading zeros. Otherwise
  no string verifies until an administrator deletes the slot. Until it is healed, such a slot takes the PIN behind leading zeros as well. `PinOutcomes.InterruptedSetupHeals`, `PinOutcomes.StrandedUntilDeleted`.
- A setup stopped between defining the slot and writing it leaves a slot that no `pinutil` command repairs, root's included: `delete` and `change` look for a readable
  slot first. `PinutilOutcomes.HalfDefinedSlotIsStuck`.
- The README says that after a rejected stacked token the user is prompted for the remaining attempts, and that tokens with non-digits are skipped (README.md:131-137). The code
  prompts once, and a token is skipped only if it fails the length policy. `PamAuth.AuthenticateUser`, `PamAuth.FirstPassFlags`.
- The policy the flake prints parses back to what was configured exactly when the attempts fit 32 bits and a maximum length was given: `maxLength = null` comes back as 8. `Policy.FlakePolicyRoundTrip`.
- A PIN crosses the pipe to the helper unchanged exactly when it has no interior newline. `Policy.PipeRoundTrip`.
- The sealed file and the TPM can get out of step in one way only: the existence check of `init` overlooks a file that is there (a failing check reads as absent), and the eviction that should
  take the new key back fails as well. `MasterKey.Vault.Init`.
- The generated PAM layout decides as the inline stack does, whatever the modules do, exactly when no listed method has been switched off: a rule named in `successRules` is copied even
  if it is disabled. `PamStack.DecisionIsKept`, with an example in `PamStack.ListedButSwitchedOff`.
- What makes the lockout hold against root is the slot's write policy: with an owner-writable index the same history would unlock it. `Tpm.OwnerWritableSlotCanBeUnlocked`.

## Model

| member | source | states |
|---|---|---|
| Text.TrimSplits | pinpam-core/src/pin.rs:22-26 | trimming removes white space from both ends, only there, and all of it |
| Text.TrimIsUnique | pinpam-core/src/pin.rs:22-26 | a trimmed text comes back whatever white space is put around it |
| Text.NormalFormIsCanonical | pinpam-core/src/util.rs:5-12 | the legacy form is idempotent, never empty, never longer than a non-empty PIN, and starts with '0' only as "0" |
| Text.NormalFormsAgree | pinpam-core/src/util.rs:5-12 | two texts have the same legacy form iff they differ only in leading zeros |
| Text.NormalFormIsTheNumber | pinpam-core/src/util.rs:5-12 | two digit strings have the same legacy form iff they denote the same number |
| Text.BytesAreUnique | pinpam-core/src/pin.rs:29-31 | two texts have the same UTF-8 bytes only if they are the same text, and as many bytes as the length that policies and the TPM measure |
| Text.WhiteSpaceIsListed | pinpam-core/src/pin.rs:22-26 | what trimming takes for white space: the 25 code points of the Unicode property, no others |
| PinCodec.ToBe | pinpam-core/src/pindata.rs:32-39 | big-endian bytes have the asked width and decode to the number they were made from |
| PinCodec.ToBeInverts | pinpam-core/src/pindata.rs:22-29 | every byte string is the encoding of the number it decodes to |
| PinCodec.FirstByteIsMostSignificant | pinpam-core/src/pindata.rs:22-29 | the value of four bytes, the most significant one first |
| PinCodec.FirstEightBytesCount | pinpam-core/src/pindata.rs:22-29 | a payload is a slot iff it has eight bytes, and the slot is written back as the first eight |
| PinCodec.CodecIsFaithful | pinpam-core/src/pindata.rs:20-39 | writing a slot and reading it gives it back through both codecs and both sign casts; every 8 bytes are a pair of counters |
| PinCodec.LockTestsAgree | pinpam-core/src/pindata.rs:48-63 | the lock tests of manager, helper and TPM agree for every count iff 1 <= limit < 2^31 |
| PinCodec.RemainingNeverUnderflows | pinutil/src/main.rs:550-579 | `limit - used` is safe for every count up to the limit iff limit < 2^31 |
| PinIndex.UsersHaveTheirOwnIndexes | pinpam-core/src/pinindex.rs:8-34 | the two index functions: their values, the uids they refuse, no overflow, within the 0x01 range, injective and disjoint |
| Tpm.CounterIsConserved | pinpam-core/src/pinmanager.rs:432-446 | between undefines and acceptances, under any commands of anybody, the counter grows by exactly the rejected guesses; secret and limit stay |
| Tpm.SpentSlotStaysLocked | SECURITY.md:7-11 | while nobody undefines a spent slot no guess is accepted, none is even compared, and the slot stays as it is |
| Tpm.AcceptanceNeedsUndefine | SECURITY.md:11 | a guess accepted on a slot that was spent earlier comes after an undefine of it |
| Tpm.OwnerWritableSlotCanBeUnlocked | pinpam-core/src/pinmanager.rs:432-438 | without the write-once policy a spent slot could be unlocked and guessed again |
| PinContracts.ExecIsOneStep | pinpam-core/src/pinmanager.rs:182-193 | a command stays within its user's repertoire, and an answered guess is a guess the TPM accepted |
| PinContracts.PinAcceptanceWidens | pinpam-core/src/pinmanager.rs:143-173 | a PIN accepted during part of a run was accepted during the run |
| Accounts.GuessIsAfter | pinpam-core/src/pinmanager.rs:187-192 | a guess that reaches the TPM is one step of the simple machine on that user's account and touches neither the tag nor any other index |
| Accounts.SetupStores | pinpam-core/src/pinmanager.rs:64-66 | the stores between the steps of a setup, and the account the last of them shows |
| Accounts.SetupOutcomeIsAStage | pinpam-core/src/pinmanager.rs:55-89 | the stores a failing setup can leave, read as accounts |
| Accounts.SetupIsAMigrationStage | pinpam-core/src/pinmanager.rs:231-235 | every store from a migration's deletion to the end of its setup shows one of the listed accounts, for tagged accounts too |
| Accounts.DefinedAndTagged | pinpam-core/src/pinmanager.rs:64-86 | what defining and tagging a slot comes to, from its two halves: every outcome alone, the answer when undisturbed, the store when stopped after any number of commands, and what a single fault leads to |
| Accounts.TaggingRecovers | pinpam-core/src/pinmanager.rs:66-85 | a single fault while the tag is written leaves a working setup, or none and the error that says so |
| Accounts.LegacyGuessIsVerification | pinpam-core/src/pinmanager.rs:157-171 | a guess of the normal form with whatever its migration left is a stage of a verification that saw no tag |
| PinHistories.ReachableStoresAreShaped | pinpam-core/src/pinmanager.rs:389-508 | in every history of pinpam's own commands a slot is absent, half defined, or sealed with its count at most its limit |
| PinHistories.LastReset | pinpam-core/src/pinmanager.rs:494-501 | the last point at which a slot's counter started afresh: its first write or an accepted guess |
| PinHistories.SealComesFromReset | pinpam-core/src/pinmanager.rs:436-502 | only a first write or an accepted guess seals a slot, and the count is then zero |
| PinHistories.QuietSinceReset | pinpam-core/src/pinmanager.rs:436-502 | since that point the slot has been sealed, and nobody undefined it or was accepted |
| PinHistories.ExactAccounting | pinpam-core/src/pinmanager.rs:182-221 | at every instant of every history the count equals the guesses compared and rejected since the later of setup and last success, at most the limit, with limit and secret unchanged since |
| PinManagement.GuessCases | pinpam-core/src/pinmanager.rs:187-192 | answer and new store of a guess, by what the TPM finds in the slot |
| PinManagement.GuessIsAnswered | pinpam-core/src/pinmanager.rs:194-221 | the result read from the TPM's answer is the one the simple machine gives |
| PinManagement.GuessSettles | pinpam-core/src/pinmanager.rs:194-221 | what a result says of the account before and after, by the fate of the guess |
| PinManagement.ReadThenVerified | pinpam-core/src/pinmanager.rs:143-173 | what a verification comes to, from the tag that was read and the rest that followed, for every fate of the read |
| PinManagement.Device.Execute | pinpam-core/src/pinmanager.rs:111-118 | one turn: the others' commands, ours unless dropped, the answer unless lost |
| PinManagement.PinManager.RestartContext | pinpam-core/src/pinmanager.rs:348-352 | reconnecting changes nothing in the TPM and may fail, with the error of its fault |
| PinManagement.PinManager.ReadPinSlotOwner | pinpam-core/src/pinmanager.rs:510-528 | what is found is what the slot holds at that moment; absent and unwritten both read as none, and so does a fault that looks like them; any other fault is that error |
| PinManagement.PinManager.ReadPinVersionTag | pinpam-core/src/pinmanager.rs:238-262 | without interference the read reports the byte that was written, none for an absent or unwritten index, or an error for another size; a fault that looks like an absent or unwritten index reads as none, any other fault is that error |
| PinManagement.PinManager.WritePinVersionTagExisting | pinpam-core/src/pinmanager.rs:280-299 | alone, the tag ends as before or written; success means written |
| PinManagement.PinManager.WritePinVersionTag | pinpam-core/src/pinmanager.rs:264-278 | alone, the tag ends as before, defined or written; success means written; it succeeds whenever the commands it sends work |
| PinManagement.PinManager.DeletePinVersionTag | pinpam-core/src/pinmanager.rs:325-344 | alone, at most the tag is removed; a missing tag is fine, and when the commands sent work the tag is gone |
| PinManagement.PinManager.DeletePinAdmin | pinpam-core/src/pinmanager.rs:108-139 | alone, success means the slot was there and is gone, and otherwise the account is as before or gone; undisturbed, slot and tag go, or `NotProvisioned` and nothing changes |
| PinManagement.PinManager.WritePinSlot | pinpam-core/src/pinmanager.rs:456-505 | a half-defined slot ends written with (0, max_attempts) or unchanged, and written when its three commands work |
| PinManagement.PinManager.DefineHalf | pinpam-core/src/pinmanager.rs:394-454 | an index that is absent ends defined with this PIN and unwritten, or stays absent; any other stays as it is |
| PinManagement.PinManager.DefinePinSlot | pinpam-core/src/pinmanager.rs:389-508 | an occupied slot is never changed; success means a fresh slot with this PIN; undisturbed it succeeds iff the slot is free and the PIN fits |
| PinManagement.PinManager.RollbackSetup | pinpam-core/src/pinmanager.rs:71-85 | alone, only this user's indexes are removed, and the error that reports a successful rollback means the slot is gone; when its commands work slot and tag go and that error is given |
| PinManagement.PinManager.FinishSetup | pinpam-core/src/pinmanager.rs:65-88 | success means slot and tag are in place; after a single fault in the tagging either that or no slot and the error that says so; a failing reconnection is reported and changes nothing |
| PinManagement.PinManager.ProvisionSlot | pinpam-core/src/pinmanager.rs:64-88 | defining and tagging in every tier, single faults included |
| PinManagement.LookedThenProvisioned | pinpam-core/src/pinmanager.rs:55-89 | what a setup comes to, from its look at the slot and the rest |
| PinManagement.PinManager.SetupPin | pinpam-core/src/pinmanager.rs:55-89 | whatever fails, an existing slot is unchanged, success means slot (0, max_attempts), this PIN and tag, a rolled-back error means no slot, and the account is at a stage of the setup; if a single command fails, from the eighth on the setup works or is taken back with the error that says so, and if it is the seventh the slot stays without its tag; stopped after any number of its commands, exactly which store is left; undisturbed, one step of the simple machine |
| PinManagement.PinManager.ReportInvalid | pinpam-core/src/pinmanager.rs:206-213 | `locked: true` is never wrong, and false is right when the owner read worked |
| PinManagement.PinManager.TryAuth | pinpam-core/src/pinmanager.rs:182-221 | at most one guess is spent and success means the TPM accepted this value; alone, at most one step of the simple machine, exactly which by the fate of the command; a fault that reads as a refusal is reported as a wrong PIN |
| PinManagement.PinManager.VerifyPinExact | pinpam-core/src/pinmanager.rs:175-222 | the same from the handle lookup on |
| PinManagement.PinManager.MigrateLegacyPinFormat | pinpam-core/src/pinmanager.rs:224-236 | whatever fails, a matched account, tagged or not, ends at a stage of the migration, and success means migrated; undisturbed, it is migrated |
| PinManagement.PinManager.UpgradeMatchedSlot | pinpam-core/src/pinmanager.rs:160-169 | a failing migration is not reported; a failing last reconnection is, with its error, and nothing else |
| PinManagement.PinManager.VerifyLegacyPin | pinpam-core/src/pinmanager.rs:157-171 | no tag seen: guess the normal form, migrate on success, on tagged accounts too |
| PinManagement.PinManager.VerifySeeing | pinpam-core/src/pinmanager.rs:147-172 | the rest of a verification by the tag that was seen: legacy form, PIN as typed, or an unsupported version, which is an error before any command is sent |
| PinManagement.PinManager.VerifyPin | pinpam-core/src/pinmanager.rs:143-173 | under every schedule success means the TPM accepted the PIN or its normal form, at most one guess is spent, and `locked` is true to the counter; under any faults of its own the account ends at a stage of verification of the format that was seen, which is legacy if a fault hid the tag; with the tag hidden and nothing else wrong, exactly a legacy verification; a tag that is no version, or names another version than 2, is an error before any guess; undisturbed, one step of the simple machine, and for a missing slot the TPM's handle error; a success is never reported over a failing last command |
| PinManagement.PinManager.DeletePinWithAuth | pinpam-core/src/pinmanager.rs:95-104 | success means the TPM accepted the PIN; under any faults of its own the account ends at a stage of verification, or gone if the PIN matched; undisturbed, verify and delete as one step, decided by `PinOutcomes.DeleteDecides` |
| PinManagement.PinManager.GetPinSlot | pinpam-core/src/pinmanager.rs:378-381 | returns what the slot holds; a fault that looks like an absent slot reads as none, any other is that error |
| PinManagement.PinManager.IsLockedOut | pinpam-core/src/pinmanager.rs:354-366 | true only for a spent counter, and exactly then if the read works; a fault is reported unless it looks like an absent slot |
| PinManagement.PinManager.GetAttemptCount | pinpam-core/src/pinmanager.rs:369-375 | the failures of the account, or none; a fault is reported unless it looks like an absent slot |
| PinRuns.OnlyOwnOperationsMatter | pinpam-core/src/pinindex.rs:9-14 | a user's account and tag after a run depend only on that user's operations in it |
| PinRuns.InterleavingsAgree | pinpam-core/src/pinindex.rs:9-14 | two interleavings of the same per-user sequences end in the same account and tag for each user |
| PinRuns.InterleavingsEndAlike | pinpam-core/src/pinindex.rs:9-14 | two undisturbed runs that interleave the same per-user sequences differently end in the same store, leftover tags included |
| PinRuns.AnswersAgree | pinpam-core/src/pinindex.rs:9-14 | and an operation gives the same answer in both |
| PinRuns.ElsewhereKeepsView | pinpam-core/src/pinindex.rs:8-34 | a change to one user's two indexes cannot be seen from another account |
| PinRuns.LockoutSafety | SECURITY.md:11 | a PIN accepted after the slot was spent was accepted after an undefine, across any commands of anybody |
| PinRuns.LockoutOverRuns | pinpam-core/src/pinmanager.rs:95-222 | over every run, no verification or authenticated deletion succeeds on a slot seen spent unless the slot was undefined in between |
| PinRuns.AccountingOverRuns | pinpam-core/src/pinmanager.rs:182-221 | over every run among pinpam processes, at every point every user's slot is in shape and its count is the rejected guesses since its last reset, at most its limit |
| PinRuns.LockedUntilDeleted | SECURITY.md:7-11 | over every run without other processes, whatever fails, a locked account keeps secret, counter and limit until an administrator deletes it |
| PinRuns.SimulationStep | pinpam-core/src/pinmanager.rs:55-173 | one undisturbed operation keeps every user's account and tag where the simple machine says, every other index as it was, and answers as the machine does |
| PinRuns.Perform | pinpam-core/src/pinmanager.rs:55-381 | any operation of the manager, in every tier: its commands are pinpam's for this user, a success needs an accepted PIN, under any faults of its own the account ends at a stage of the operation, undisturbed it is one step of the simple machine |
| PinRuns.Run | pinpam-core/src/pinmanager.rs:55-381 | a whole run: under every schedule the lockout holds, and if whoever interferes is pinpam every counter is accounted for at every point; alone, every operation ends at one of its stages, whatever fails; undisturbed, every answer, account and tag is the simple machine's |
| PinOutcomes.VerifyDecides | pinpam-core/src/pinmanager.rs:143-173 | an account accepts exactly the PINs whose key is its secret while unlocked; a wrong one costs one attempt; a locked account does not change |
| PinOutcomes.VerifyAnswers | pinpam-core/src/pinmanager.rs:143-222 | answer and new account of a verification for every account, PIN and refusal code, error cases included |
| PinOutcomes.SetupDecides | pinpam-core/src/pinmanager.rs:55-89 | answer and new account of a setup for every account and PIN: an occupied slot, a half-defined one, a PIN of at most 32 bytes, of 33 to 64, or longer |
| PinOutcomes.DeleteDecides | pinpam-core/src/pinmanager.rs:95-104 | a deletion with authorization on any written slot: the right PIN deletes, a wrong one is reported and costs an attempt, a locked account is untouched |
| PinOutcomes.SensibleDeletion | pinpam-core/src/pinmanager.rs:95-104 | on a sensible account, success iff unlocked, the right PIN and an account that survives its verification; `locked` iff the last attempt is gone |
| PinOutcomes.DeleteLockedOutMeansHugeLimit | pinpam-core/src/pinmanager.rs:98-103 | `LockedOut` is the answer of a deletion iff the PIN matches an unspent slot whose limit is at least 2^31 |
| PinOutcomes.MigrationKeepsMeaning | pinpam-core/src/pinmanager.rs:157-171 | after a legacy success exactly the typed PIN verifies, the count is 0, and the limit changes only if the PIN was not in normal form; too long a PIN loses the account |
| PinOutcomes.InterruptedVerifyLeaves | pinpam-core/src/pinmanager.rs:143-173 | wherever a verification fails or stops, a PIN that does not match costs at most one attempt, a locked account is untouched, and one that matches leaves an account it opens, one with the secret it had, one nothing opens, or none |
| PinOutcomes.FaultsWidenAccessExactly | pinpam-core/src/pinmanager.rs:147-202 | faults can make a PIN right that was not iff a fault hides the tag of an unlocked tagged account whose limit is below 2^31 and the PIN is its secret behind superfluous leading zeros and fits the TPM |
| PinOutcomes.MisreadVerifyWidens | pinpam-core/src/pinmanager.rs:255-258 | in that case the wrong PIN is accepted and becomes the only right one |
| PinOutcomes.MisreadTagAcceptsAnotherPin | pinpam-core/src/pinmanager.rs:255-258 | a concrete run of it: the slot holds 123, one answer is lost, 0123 is accepted and stored |
| PinOutcomes.MigrationCanLoseThePin | pinpam-core/src/pinmanager.rs:231-235 | a concrete verification that succeeds and leaves no account |
| PinOutcomes.InterruptedSetup | pinpam-core/src/pinmanager.rs:55-89 | the accounts a setup can leave where there was none |
| PinOutcomes.StoppedSetupLeaves | pinpam-core/src/pinmanager.rs:55-89 | the account left by a setup that is stopped after any number of its commands |
| PinOutcomes.StoppedSetupStrands | pinpam-core/src/pinmanager.rs:389-505 | by that number exactly when there is no slot, a half-defined one, one that nothing opens, or the whole account |
| PinOutcomes.StoppedBetweenSlotAndTag | pinpam-core/src/pinmanager.rs:64-66 | a concrete setup stopped between slot and tag, whose account nothing opens |
| PinOutcomes.InterruptedSetupHeals | pinpam-core/src/pinmanager.rs:157-171 | a setup stopped before its tag is healed by the next verification iff the PIN is its own normal form |
| PinOutcomes.StrandedUntilDeleted | pinpam-core/src/pinmanager.rs:157-159 | otherwise no sequence of operations but an administrator's deletion opens or replaces the account |
| PinOutcomes.LockedOutMeansHugeLimit | pinpam-core/src/pinmanager.rs:198-202 | `LockedOut` is the answer iff the PIN matches an unspent slot whose limit is at least 2^31 |
| Policy.NewPinIsIdempotent | pinpam-core/src/pin.rs:22-26 | an accepted PIN is trimmed, non-empty, and accepted again unchanged |
| Policy.NewPinDecides | pinpam-core/src/pinpolicy.rs:76-102 | a PIN is accepted iff it is not empty when trimmed and its bytes are within the policy's lengths; it is then the trimmed text, and otherwise the error says which bound was missed |
| Policy.PipeRoundTrip | pinpam-pam/src/lib.rs:165 | the helper's first line gives back the PIN that was sent iff it has no newline inside |
| Policy.ParseConfig | pinpam-core/src/pinpolicy.rs:105-132 | the loop yields what the text declares: it fails iff some token has no '=' or a bad value for a known key, otherwise each field is its last binding or the default |
| Policy.AssignIsLastBinding | pinpam-core/src/pinpolicy.rs:111-128 | using one more token moves from the last bindings of a prefix to those of the next, or fails iff the token is unusable |
| Policy.ParsingIsDeclaring | pinpam-core/src/pinpolicy.rs:105-132 | token by token, parsing is taking the last bindings so far, or failing at the first unusable token |
| Policy.LastBindingIsLast | pinpam-core/src/pinpolicy.rs:111-128 | the last binding of a key is one, and no later token binds the key |
| Policy.OneSettingDeclares | pinpam-core/src/pinpolicy.rs:111-128 | what each setting declares on its own, by its name; unknown names declare nothing, a word without '=' is an error |
| Policy.DeclaredPoliciesAreSound | pinpam-core/src/pinpolicy.rs:166-202 | a parsed policy's helper is the default one or an absolute path to a file, its TCTI one that is known, its numbers within their types |
| Policy.UnsignedParses | pinpam-core/src/pinpolicy.rs:113-121 | digits, perhaps behind one '+', parse to their number iff the type holds it, and nothing else parses |
| Policy.SplitOnceIsFirst | pinpam-core/src/pinpolicy.rs:109 | a token is split at its first '=' |
| Policy.WordsAreTokens | pinpam-core/src/pinpolicy.rs:108 | splitting takes one word at a time, whatever white space surrounds it |
| Policy.EveryDeclaredPolicyHasAMaximum | pinpam-core/src/pinpolicy.rs:29-39 | no text declares an unlimited PIN length |
| Policy.DecimalParses | flake.nix:503-510 | a printed number parses back iff it is below the type's limit |
| Policy.LinesAreTokens | flake.nix:513 | the words of the generated text are its lines |
| Policy.FlakePolicyRoundTrip | flake.nix:501-513 | the generated file parses iff the attempts fit 32 bits, and to what was configured iff also a maximum length was given |
| Pinutil.PromptPin | pinutil/src/main.rs:588-609 | one line of input, as a PIN or an error; past the end of the input, an empty PIN |
| Pinutil.PromptNewPin | pinutil/src/main.rs:333-340 | two equal PINs, or one from a program |
| Pinutil.GetAttemptInfo | pinutil/src/main.rs:568-570 | the counters of the account, spending nothing |
| Pinutil.ShowStatus | pinutil/src/main.rs:534-566 | status changes nothing and spends nothing; a fault that hides the counters is reported |
| Pinutil.AskAndVerify | pinutil/src/main.rs:510-531 | ask, verify, report: at most one guess, success for a program means the TPM accepted what was typed, and by what the schedule does a stage of the verification, a phantom refusal reported as a wrong PIN, or exactly the account's step |
| Pinutil.TestPermitted | pinutil/src/main.rs:491-531 | the same for a caller with permission: connect, look at the counters, ask and verify |
| Pinutil.TestPin | pinutil/src/main.rs:478-532 | at most one guess, none without permission or without a PIN; for a program success means the TPM accepted what was typed; under any faults the account stays or ends at a stage of its verification, and a wrong PIN is reported only for a refused guess; undisturbed, exactly the account's step; a fault before the counters are seen is reported and changes nothing |
| Pinutil.OpenFree | pinutil/src/main.rs:315-331 | an existing PIN stops a setup, and so does a fault, which is reported; nothing changes |
| Pinutil.SetupPin | pinutil/src/main.rs:308-347 | spends nothing, refuses without permission; under any faults the account is at a stage of the setup and success means it is set up; undisturbed, exactly the account's step; a fault before the counters are seen is reported and changes nothing, and a single fault while the tag is written ends in a working setup or in none and the error that says so |
| Pinutil.ReplaceOwnPin | pinutil/src/main.rs:379-398 | choose, delete with the current PIN, set up: success means the TPM accepted the current PIN and the new one is in place; under any faults the account is at a listed stage |
| Pinutil.ChangeOwnPin | pinutil/src/main.rs:365-398 | at most two guesses, success means the TPM accepted the current PIN and the new one is in place; under any faults the account is at a stage of verification, deletion or setup, and past the first only if the current PIN matched |
| Pinutil.VerifyAndReplace | pinutil/src/main.rs:370-398 | the same once the current PIN has been typed |
| Pinutil.ChangePinAsRoot | pinutil/src/main.rs:399-414 | spends no guess; under any faults the account is as before, gone, or at a stage of the new setup; undisturbed, exactly the account's step, decided by `PinutilOutcomes.RootChangeDecides` |
| Pinutil.DeletePinAsRoot | pinutil/src/main.rs:438-457 | asks unless a program does, spends no guess; under any faults the account is as before or gone |
| Pinutil.DeleteOwnPin | pinutil/src/main.rs:458-475 | at most one guess; under any faults the account is at a stage of a verification, or gone if the PIN matched |
| Pinutil.ChangePin | pinutil/src/main.rs:349-416 | both, with permissions: an owner's success needs an accepted current PIN, and under any faults the account is at a stage of the change; undisturbed, exactly the account's steps; a fault before the counters are seen is reported and changes nothing |
| Pinutil.DeletePin | pinutil/src/main.rs:418-476 | permissions, and both halves: under any faults the account stays, ends at a stage of a verification, or is gone, for an owner only if the PIN matched; undisturbed, exactly the account's step; a fault before the counters are seen is reported and changes nothing |
| PinutilOutcomes.ChosenDecides | pinutil/src/main.rs:333-340 | a new PIN is chosen iff the first line is one and, for a person, the second line is the same one; different ones are refused |
| PinutilOutcomes.SaysYesDecides | pinutil/src/main.rs:448 | the answers that confirm a deletion: those beginning with a 'y', large or small, within any white space |
| PinutilOutcomes.StatusDecides | pinutil/src/main.rs:534-570 | the counters of a sensible account, and none without a PIN |
| PinutilOutcomes.SetupCommandDecides | pinutil/src/main.rs:308-347 | `setup` by account and choice: an existing PIN stays, a free slot takes the chosen one |
| PinutilOutcomes.TestCommandDecides | pinutil/src/main.rs:478-532 | `test` by account and input: no attempts, no PIN, a wrong PIN for a program and for a person, the right PIN |
| PinutilOutcomes.RootChangeDecides | pinutil/src/main.rs:399-414 | root's `change` by account and choice, locked accounts included: the chosen PIN is in place, or if the TPM cannot hold it no PIN is |
| PinutilOutcomes.RootDeletionDecides | pinutil/src/main.rs:438-457 | root's `delete` by account and answer |
| PinutilOutcomes.OwnDeletionDecides | pinutil/src/main.rs:458-475 | an owner's `delete` by account and PIN: the right one deletes, a wrong one costs an attempt, and neither is an error |
| PinutilOutcomes.RightPinLeaves | pinutil/src/main.rs:372-378 | an account after its owner has typed the right PIN |
| PinutilOutcomes.ReplaceOwnPinDecides | pinutil/src/main.rs:389-398 | the new PIN with count 0 and the current limit, or, if it does not fit, no account |
| PinutilOutcomes.ReplacementIsRefused | pinutil/src/main.rs:389-395 | a current PIN that has ceased to match is not replaced: one attempt is spent, and the error says whether it was the last |
| PinutilOutcomes.HugeLimitDecides | pinutil/src/main.rs:349-532 | on a slot whose limit is at least 2^31 the right PIN only clears the failures: `test` by a program and `change` answer that the slot is locked, and an owner's `delete` deletes nothing and reports no error |
| PinutilOutcomes.ChangeOwnPinDecides | pinutil/src/main.rs:349-398 | an owner's change end to end, by what is typed: a locked slot and an answer that is no PIN cost nothing, a wrong PIN one attempt, the right one ends with the new PIN exact, count 0 and the policy's limit |
| PinutilOutcomes.InterruptedChangeLeaves | pinutil/src/main.rs:365-398 | wherever a change fails or stops, a current PIN that does not match costs at most one attempt, and what opens the account afterwards opened it before, or is the matched current PIN or the chosen one |
| PinutilOutcomes.HalfDefinedSlotIsStuck | pinutil/src/main.rs:429-434 | no sequence of commands by anybody repairs a half-defined slot |
| PamAuth.FromStrs | pinpam-pam/src/lib.rs:215-228 | each flag is set iff it occurs among the arguments |
| PamAuth.FirstPassFlags | pinpam-pam/src/lib.rs:277-291 | a stacked token is tried iff wanted and a PIN under the policy; denied iff `use_first_pass` and not one |
| PamAuth.RunPinutilStatus | pinpam-pam/src/lib.rs:92-140 | asking for the status spends nothing |
| PamAuth.RunPinutilTest | pinpam-pam/src/lib.rs:142-195 | at most one guess; success means the TPM accepted what the helper read from the pipe; a wrong PIN is reported only for a refused guess |
| PamAuth.HelperDecides | pinpam-pam/src/lib.rs:73-86 | the code of a login, by what the helper's test answers |
| PamAuth.FirstPhase | pinpam-pam/src/lib.rs:624-677 | the stacked token: `use_first_pass` always decides, an unusable token spends nothing, success means the TPM accepted what the helper read of the token; undisturbed, exactly the account's first phase, decided by `PamOutcomes.FirstPassLoginDecides` and `PamOutcomes.RejectedTokenDecides` |
| PamAuth.SecondPhase | pinpam-pam/src/lib.rs:679-706 | the prompt: only while used < limit, at most one guess, success means the TPM accepted what the helper read of the answer |
| PamAuth.CountersAtPrompt | pinpam-pam/src/lib.rs:658-687 | the counters at the prompt against the TPM's, with the exact condition under which they differ |
| PamAuth.AuthenticateUser | pinpam-pam/src/lib.rs:579-707 | under every schedule and helper failure: success means the TPM accepted, during this call, what the helper read of the token or of the answer; at most two guesses, none on an unusable token, no prompt under `use_first_pass`. With no other process using the TPM, whatever fails: the prompt never shows more attempts than the TPM grants, and shows fewer iff the token was miscounted, which takes a fault that reads as a refusal. A status helper that cannot run is AUTHINFO_UNAVAIL; at the prompt, a failing conversation gives its own code, an answer that is no PIN AUTH_ERR, and a helper that cannot run AUTHINFO_UNAVAIL. Undisturbed, exactly the account's steps |
| PamOutcomes.GhostRejectionIsMiscounted | pinpam-pam/src/lib.rs:658-666 | a concrete run in which they differ: a guess that never reached the TPM is counted |
| PamOutcomes.LockoutOverLogins | SECURITY.md:11 | over every run of logins, SUCCESS on a slot seen spent earlier means an acceptance after somebody undefined that slot |
| PamOutcomes.RunLogins | pinpam-pam/src/lib.rs:579-707 | the same for the module itself, over any sequence of logins with any policies, helpers and answers, under every schedule |
| PamOutcomes.RejectionIsCounted | pinpam-pam/src/lib.rs:658-667 | on the simple machine a rejected test costs exactly one attempt of the account |
| PamOutcomes.FirstPassIsCounted | pinpam-pam/src/lib.rs:658-667 | on the simple machine the module's own counter follows the TPM's through a rejected first pass |
| PamOutcomes.PromptShowsRemainingAttempts | pinpam-pam/src/lib.rs:500-509 | on the simple machine, at the prompt used < limit, and limit - used is what the TPM still grants |
| PamOutcomes.TestDecides | pinpam-pam/src/lib.rs:73-86 | a test succeeds iff the slot is unlocked and what the helper reads of the PIN is the right one |
| PamOutcomes.LoginDecides | pinpam-pam/src/lib.rs:579-707 | every login on a sensible account, case by case: code, account and counters shown, by stacked token and answer |
| PamOutcomes.FirstPassLoginDecides | pinpam-pam/src/lib.rs:628-654 | a stacked token that is tried logs in without a prompt iff the slot is unlocked and the token is right |
| PamOutcomes.RejectedTokenDecides | pinpam-pam/src/lib.rs:658-707 | a wrong token under `try_first_pass` costs one attempt; the prompt then shows it as used, and the login succeeds iff the answer is right, or if it was the last attempt nobody is prompted |
| PamOutcomes.PromptedLoginDecides | pinpam-pam/src/lib.rs:579-707 | a prompted login succeeds iff the slot is unlocked and what the helper reads of the answer is the right PIN |
| PamOutcomes.NoPromptWithoutAttempts | pinpam-pam/src/lib.rs:599-622 | without a PIN AUTHINFO_UNAVAIL, on a locked slot MAXTRIES, both without a prompt and without a guess |
| PamOutcomes.WrongPinCosts | pinpam-pam/src/lib.rs:689-707 | an answer read as a wrong PIN costs exactly one attempt and yields AUTH_ERR, or MAXTRIES if it was the last |
| PamOutcomes.UnreadableAnswerCostsNothing | pinpam-pam/src/lib.rs:689-707 | an answer that the helper cannot read as a PIN, because of a newline inside, costs nothing |
| PamOutcomes.StackedLoginDecides | pinpam-pam/src/lib.rs:627-657 | a `use_first_pass` login never prompts and succeeds iff the slot is unlocked and what the helper reads of the token is the right PIN |
| MasterKey.Vault.ProvisionTpmObjects | pinpam-core/src/master_key.rs:224-239 | an existing key is never replaced; success means this key under a parent |
| MasterKey.Vault.CreateAndPersistRsaParent | pinpam-core/src/master_key.rs:241-271 | success means the parent is persistent; it is never taken back |
| MasterKey.Vault.CreateAndPersistHmacKey | pinpam-core/src/master_key.rs:273-333 | the TPM ends with the key it had, or with this one where it had none |
| MasterKey.Vault.SealKeyBytes | pinpam-core/src/master_key.rs:368-408 | an existing file is never touched; success means a file that opens to this key |
| MasterKey.Vault.UnsealKeyBytes | pinpam-core/src/master_key.rs:410-443 | success means the file opens under this phrase to this key |
| MasterKey.Vault.GetStatus | pinpam-core/src/master_key.rs:65-76 | what it reports as present is; when all steps work, what it reports as absent is too; a status is given only if it could be read |
| MasterKey.Vault.Init | pinpam-core/src/master_key.rs:78-111 | file and TPM stay in step when the check is truthful, and also when it overlooks a file, as long as the rollback's own commands and evictions reach the TPM; otherwise they can part; success means both hold the new key; only root changes anything, and each refusal has its error; success is reported only after a status that could be read |
| MasterKey.Vault.ImportToTpm | pinpam-core/src/master_key.rs:113-143 | the file is kept, a phrase that does not open it changes nothing, success means the TPM holds what the file seals; only root changes anything, and each refusal has its error |
| MasterKey.Vault.ClearFromTpm | pinpam-core/src/master_key.rs:145-153 | objects only disappear, nothing else changes, failures to evict go unreported; the key is gone if every command and eviction reaches the TPM |
| MasterKey.Vault.ClearFromDisk | pinpam-core/src/master_key.rs:155-162 | the file is kept or gone; success means gone |
| MasterKey.Vault.DeriveUserToken | pinpam-core/src/master_key.rs:164-179 | a token is the MAC of the name under the key the TPM holds; a name longer than a TPM buffer is refused |
| MasterKey.SecretsStayInStep | pinpam-core/src/master_key.rs:78-162 | over every run, failing and stopping anywhere, a file that opens and a key in the TPM agree |
| MasterKey.SealedKeyIsKept | pinpam-core/src/master_key.rs:78-162 | until the file is cleared the TPM never holds another key than the one it seals |
| MasterKey.RunOperations | pinpam-core/src/master_key.rs:78-179 | both, for the methods: over any sequence of operations all tokens handed out come from the sealed key |
| MasterKey.Recover | pinpam-core/src/master_key.rs:113-179 | clearing the TPM and importing with the phrase gives every user the token they had, or the refusal of a name that is too long |
| PamStack.RunAppend | flake.nix:156-160 | running a stack is running its parts in turn, until one stops it |
| PamStack.ControlsDecide | flake.nix:156-180 | what each control value makes of a module's status, for the verdict and for whether the stack goes on |
| PamStack.BystandersAreSkipped | flake.nix:182-258 | optional rules between methods change neither which methods are tried nor the decision |
| PamStack.SubstackDecides | flake.nix:156-180 | the generated substack succeeds iff one of its methods does, whatever came before |
| PamStack.SortSorts | flake.nix:147 | the substack's methods are in the order of their rules |
| PamStack.MethodsAreInOrder | flake.nix:138-147 | the substack's methods are the listed rules that exist, by ascending order, and as listed where the orders are the same |
| PamStack.GeneratedRewrites | flake.nix:182-258 | what becomes of each rule: methods and deny disabled, keyring rules moved behind the master-key stage in the listed order, stubs disabled |
| PamStack.GeneratedIsRewriting | flake.nix:182-258 | every rule of the generated service, by name: methods and deny switched off and otherwise kept, keyring rules or stubs at their places, the two new stages, and every other rule as it was |
| PamStack.UnlistedRulesAreRendered | flake.nix:241-258 | every enabled rule outside the lists is in the generated stack as it was |
| PamStack.UnlistedRulesRun | flake.nix:204-206 | and it runs, whatever the modules do |
| PamStack.InlineGrants | flake.nix:200-216 | the inline stack grants iff an enabled method succeeds, and then runs nothing from the deny on |
| PamStack.LayoutGrants | flake.nix:156-180 | the generated layout grants iff a copied method succeeds, and every stage of the parent runs |
| PamStack.DecisionIsKept | README.md:355-359 | the two decide alike for every behaviour of the modules iff no listed rule is a switched-off method |
| PamStack.ListedButSwitchedOff | flake.nix:404-409 | a concrete service whose decision the rewriting changes |
| PamStack.InlineSkipsKeyrings | README.md:325-329 | in the inline stack a success skips the keyring rules behind the deny |
| PamStack.StagesRunInOrder | README.md:353-357 | in the layout every run passes the decision, then the master-key stage, then every keyring rule that was switched on |
| PamStack.KeyringsRunAsListed | flake.nix:213-231 | keyring rules run in the order in which they are listed |
| PamStack.SameMethodsAreTried | flake.nix:138-147 | with distinct orders the layout tries the methods the inline stack tries, in the same order, and stops at the same one |

## Left out

- The TPM transport, sessions, session encryption and ESYS handles: a connection is a step that may fail. The owner's multi-part read counts as one atomic command.
- Cryptography: sealing opens under one phrase only, HMAC is any function; random draws are parameters.
- PAM's C interface, memory management, process spawning, the conversation function and reading the user name and token from PAM: their results are inputs.
- JSON between helper and PAM module: values cross as they are; text that does not decode is an input.
- User lookup, real and effective uid, file checks of the policy file, the helper path and the TCTI spec: inputs or unknown predicates.
- Texts shown to users, logging, terminal echo, landlock, translations, interactive confirmations of the master-key commands.
- PINs are compared as texts, which `Text.BytesAreUnique` justifies; PINs with NUL bytes, whose trailing ones a TPM ignores, are not modelled.
- Panics of the sources (`expect` on a session handle) are not modelled.
- Atomicity of migration, change and deletion between concurrent processes: the code provides none. Under interference only lockout, accounting, acceptance and spending are claimed.
- Other ways of using an index's authorization value (policies on it, other commands than reading): the model's guesses are authorized reads.
- The test hook that removes a version tag.
- PinManagement.PinManager.RestartContext: modelled as a command without effect that may fail.
- PamStack.Run: `new_authtok_reqd`, bracketed control values, jumps and includes are not modelled, and statuses are success, ignore or failure.
- PamStack.Generated: rules are those other modules define; how NixOS reports a listed name that no module defines is not modelled. A keyring rule whose `enable` was left at its default counts as not switched on, since the module's filler outranks the default.
- PamStack.DecisionIsKept: stated for services whose enabled rules are the listed `sufficient` methods, optional rules outside the list and a last, required deny, which is what the option documentation asks for.
