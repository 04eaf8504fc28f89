# Filecoin storage power core, modelled in Dafny

This project models the storage-power core of the Filecoin design sketch, in four parts.

- **Storage miner actor** (`StorageMining`, `storage_miner_actor.dfy`). This is the per-miner sector state machine. It holds:
  - the seal commitments (`Sectors`);
  - the sector states with their fault counts (`SectorStates`);
  - the `ProvingSet`;
  - an expiration queue ordered by epoch.

  Its operations are `CommitSector`, `SubmitPoSt`, `RecoverFaults`, `DeclareFaults` and `CronAction`, built on the helpers `clearSector`, `activateSector`, `failSector` and `checkMFC`. The class `StorageMinerActor` keeps the four structures as fields and runs the source's loops over them. Each of its methods is proved to reach the state that a pure function of the old state describes (`CommitSectorOutcome`, `SubmitPoStOutcome`, and so on). Separate lemmas state what those functions promise.
  - The invariant `Consistent` says four things: `Sectors` and `SectorStates` have the same keys; a sector is in the proving set exactly when it is Committed, Active or Recovering; an Active sector has no faults; and the queue is sorted and holds an entry for every live sector and for no other. Every operation preserves it.
  - `clearSector` is modelled as it must be for that invariant to hold: it also drops the sector's queue entry. The source leaves the entry behind, which makes a later `SubmitPoSt` abort (see "## Findings").
  - An actor abort reverts the actor. The class saves its state on entry and restores it on `Fail`.
- **Storage power actor** (`StoragePowerActor`, `storage_power_actor.dfy`). This is the power and collateral ledger. It covers balance add and withdraw, miner create and remove, total power, pledge-collateral admission, the fault-slash amount and the power report.
- **Storage power consensus** (`StoragePowerConsensus`, `storage_power_consensus.dfy`). It covers the ordered checks of `ValidateBlock`, the liveness bound on election proofs, the winning inequality, the lookback offsets of the four seeds, and the consensus power table.
- **Chain helpers** (`Block`, `block.dfy`). They cover `sliceEqual`, `SmallerBytes`, the parent walk of `TipsetAtEpoch`, and the hash input of `RandomnessAtEpoch`.

Supporting modules:
- `Util`: bytes, addresses, epochs, `Option` / `Outcome` / `Result`.
- `MapSum`: sums over map values. This is the meaning of every "range over the table and add up" loop.
- `Sector`: sector numbers, seal commitments, and the `StorageFaultType` codes 1..3.

Collaborators the core calls but does not define are parameters:
- the seal and PoSt verifiers (booleans);
- the VRF `Verify`, `computeTipsetWeight`, the chain's tickets and the clock (`ConsensusEnv`);
- `CompareBytesStrict`, `DrawRandomness` and `SHA256`;
- `_getPledgeCollateralReq`;
- the current epoch and the last deal expiration.

The miner id and the message value, which the Go code declares but never assigns, are also parameters.

Power changes (`powerUpdate`) are signed integers here; in Go they are `uint64`.

## Model

| member | source | states |
|---|---|---|
| StorageMining.Enqueue | src/systems/filecoin_mining/storage_mining/storage_miner_actor.go:334-338 | `SectorExpirationQueue.Add` adds exactly the one item: the queue's multiset grows by it |
| StorageMining.EnqueueKeepsSorted | src/systems/filecoin_mining/storage_mining/storage_miner_actor.go:334-338 | adding to a queue ordered by epoch keeps it ordered |
| StorageMining.EnqueueQueues | src/systems/filecoin_mining/storage_mining/storage_miner_actor.go:334-338 | after the add, the queued sector numbers are the old ones plus the new sector |
| StorageMining.Without | src/systems/filecoin_mining/storage_mining/storage_miner_actor.go:72-76 | clearing sectors from the queue keeps exactly the entries of the other sectors and never lengthens it |
| StorageMining.WithoutQueued | src/systems/filecoin_mining/storage_mining/storage_miner_actor.go:72-76 | after clearing, the queued sectors are the old ones minus the cleared ones |
| StorageMining.WithoutSorted | src/systems/filecoin_mining/storage_mining/storage_miner_actor.go:72-76 | clearing entries keeps the queue ordered by epoch |
| StorageMining.DueNone | src/systems/filecoin_mining/storage_mining/storage_miner_actor.go:184-185 | in an ordered queue whose head is not due, no entry is due, so the pop loop may stop at the head |
| StorageMining.ClearedKeepsConsistent | src/systems/filecoin_mining/storage_mining/storage_miner_actor.go:72-76 | `clearSector` removes the sector from all three maps and its entry from the queue, keeps every other entry and every other sector, and keeps the invariant |
| StorageMining.ClearedAsWrittenBreaksQueue | src/systems/filecoin_mining/storage_mining/storage_miner_actor.go:72-76 | `clearSector` as written leaves a queue entry for a sector that no longer exists, so the invariant fails after it |
| StorageMining.ActivatedKeepsConsistent | src/systems/filecoin_mining/storage_mining/storage_miner_actor.go:80-82 | `activateSector` on a proving sector makes it Active with fault count 0; the proving set, `Sectors` and other sectors are unchanged; the invariant holds |
| StorageMining.FailedKeepsConsistent | src/systems/filecoin_mining/storage_mining/storage_miner_actor.go:86-90 | `failSector` sets Failing with old count + 1 and removes the sector from the proving set; `Sectors`, the queue and other sectors are unchanged; the invariant holds |
| StorageMining.MFCCheckedKeepsConsistent | src/systems/filecoin_mining/storage_mining/storage_miner_actor.go:94-105 | `checkMFC` on a Failing sector removes it from all maps and its queue entry exactly when count + 1 exceeds the maximum, else it stays Failing with count + 1 and the queue is unchanged; the proving set is untouched; the invariant holds |
| StorageMining.RecoveredKeepsConsistent | src/systems/filecoin_mining/storage_mining/storage_miner_actor.go:245-248 | recovering a Failing sector makes it Recovering with the same count and adds it to the proving set; the invariant holds |
| StorageMining.ApplyNothing | src/systems/filecoin_mining/storage_mining/storage_miner_actor.go:14-43 | a loop that has processed no sector has left the state unchanged |
| StorageMining.ApplyUntouched | src/systems/filecoin_mining/storage_mining/storage_miner_actor.go:14-43 | a sector the loop has not reached is as it was |
| StorageMining.ApplyStep | src/systems/filecoin_mining/storage_mining/storage_miner_actor.go:14-43 | processing one more sector of a set is exactly one run of the loop body on the current state, so the visiting order does not matter |
| StorageMining.ApplyPreservesConsistent | src/systems/filecoin_mining/storage_mining/storage_miner_actor.go:72-105 | any of the five loops, run over sectors in states it accepts, keeps the invariant |
| StorageMining.CommitSectorOutcome | src/systems/filecoin_mining/storage_mining/storage_miner_actor.go:313-352 | aborts `SealNotVerified` if the seal oracle fails and `SectorAlreadyExists` if the number is taken, and succeeds exactly otherwise. On success: the commitment is stored, the state is Committed, the sector joins the proving set, exactly one queue entry is added, and power is unchanged |
| StorageMining.CommitSectorKeepsConsistent | src/systems/filecoin_mining/storage_mining/storage_miner_actor.go:313-352 | a successful commit keeps the invariant |
| StorageMining.RecoverFaultsOutcome | src/systems/filecoin_mining/storage_mining/storage_miner_actor.go:236-254 | succeeds exactly when every listed sector is Failing, else aborts `InvalidStateInRecoverFaults`. On success each listed sector is Recovering with the same count and back in the proving set; nothing else changes |
| StorageMining.RecoverFaultsKeepsConsistent | src/systems/filecoin_mining/storage_mining/storage_miner_actor.go:236-254 | a successful `RecoverFaults` keeps the invariant |
| StorageMining.DeclareFaultsOutcome | src/systems/filecoin_mining/storage_mining/storage_miner_actor.go:262-293 | succeeds exactly when no listed sector is Failing or absent, else aborts `InvalidStateInDeclareFaults`. On success each listed sector is Failing with count + 1 and out of the proving set, others are unchanged, and power falls by one sector size per listed Active sector |
| StorageMining.DeclareFaultsKeepsConsistent | src/systems/filecoin_mining/storage_mining/storage_miner_actor.go:262-293 | a successful `DeclareFaults` keeps the invariant |
| StorageMining.RecoverThenDeclare | src/systems/filecoin_mining/storage_mining/storage_miner_actor.go:236-293 | declaring the sectors just recovered succeeds, makes each Failing with its original count + 1, restores the original proving set and `Sectors`, and moves no power |
| StorageMining.CronActionKeepsConsistent | src/systems/filecoin_mining/storage_mining/storage_miner_actor.go:10-48 | `CronAction` keeps the invariant |
| StorageMining.CronActionEffects | src/systems/filecoin_mining/storage_mining/storage_miner_actor.go:10-48 | after `CronAction` the proving set is empty and every surviving sector is Failing with count + 1. A sector is gone exactly when it was Recovering or Failing and count + 1 exceeds the maximum, and the queue loses exactly the gone sectors' entries. Power falls by sector size times the number of Active sectors |
| StorageMining.CronActionOutcome | src/systems/filecoin_mining/storage_mining/storage_miner_actor.go:10-48 | `CronAction` never gains power and never adds a sector |
| StorageMining.ScaledIsProduct | src/systems/filecoin_mining/storage_mining/storage_miner_actor.go:36 | adding `SectorSize` once per sector totals sector size times the count |
| StorageMining.PowerOfAdd | src/systems/filecoin_mining/storage_mining/storage_miner_actor.go:147-156 | one more processed sector adds one sector size to the power sum exactly when its state is one of the counted ones |
| StorageMining.ExpireFromFacts | src/systems/filecoin_mining/storage_mining/storage_miner_actor.go:182-220 | a successful expiry phase keeps the invariant and leaves no due entry. The sectors that are gone are exactly those with a due entry, all of them Active or Failing, and the queue lost exactly their entries. Every other sector is unchanged, and power falls by one sector size per expired Active sector |
| StorageMining.ExpireFrom | src/systems/filecoin_mining/storage_mining/storage_miner_actor.go:182-220 | the expiry phase can only abort with `InvalidStateInExpirationQueue`; on success no sector is added and power does not rise |
| StorageMining.ExpireFromSucceeds | src/systems/filecoin_mining/storage_mining/storage_miner_actor.go:182-220 | on a consistent state whose sectors are all Active or Failing, the expiry phase does not abort |
| StorageMining.ExpiredFromPop | src/systems/filecoin_mining/storage_mining/storage_miner_actor.go:184-216 | popping an Active or Failing head and clearing it extends the expiry guarantee by one step |
| StorageMining.PopClearedConsistent | src/systems/filecoin_mining/storage_mining/storage_miner_actor.go:185-214 | popping the head entry and clearing its sector keeps the invariant |
| StorageMining.SubmitPoStOutcome | src/systems/filecoin_mining/storage_mining/storage_miner_actor.go:129-137 | aborts with `PoStNotVerified` exactly when the PoSt oracle fails; when it can abort otherwise is `SubmitPoStSucceeds` |
| StorageMining.SubmitPoStSucceeds | src/systems/filecoin_mining/storage_mining/storage_miner_actor.go:129-228 | on a consistent state, `SubmitPoSt` succeeds exactly when the proof is verified: the expiry phase never pops the entry of a missing sector |
| StorageMining.StaleHeadAborts | src/systems/filecoin_mining/storage_mining/storage_miner_actor.go:184-215 | as written, once the sector of a due head entry has been cleared, the expiry phase aborts with `InvalidStateInExpirationQueue` |
| StorageMining.StaleEntryAbortsPoSt | src/systems/filecoin_mining/storage_mining/storage_miner_actor.go:169-215 | one Failing sector at the maximum with its entry due: as written the second phase clears it and the third aborts on its stale entry; with the entry dropped, the same verified proof succeeds |
| StorageMining.ActivatePhase | src/systems/filecoin_mining/storage_mining/storage_miner_actor.go:143-162 | after the first phase every proving-set sector is Active and every other sector is unchanged |
| StorageMining.CheckPhase | src/systems/filecoin_mining/storage_mining/storage_miner_actor.go:169-178 | after the second phase, sectors outside the proving set are Failing with count + 1, or gone when that passes the maximum; proved sectors are untouched |
| StorageMining.PoStFirstPhases | src/systems/filecoin_mining/storage_mining/storage_miner_actor.go:143-178 | the first two phases keep the invariant and leave what the two phase lemmas describe |
| StorageMining.PoStPhases | src/systems/filecoin_mining/storage_mining/storage_miner_actor.go:143-220 | composing the three phases: the invariant holds, nothing due is left, the queue lost exactly the entries of the sectors that are gone, surviving proved sectors are Active with count 0, and surviving unproved ones are Failing with count + 1, at most the maximum |
| StorageMining.PoStSurvivorsHold | src/systems/filecoin_mining/storage_mining/storage_miner_actor.go:169-220 | a sector survives `SubmitPoSt` exactly when it has no due entry and was proved or has count + 1 within the maximum |
| StorageMining.ExpiredWereProven | src/systems/filecoin_mining/storage_mining/storage_miner_actor.go:169-220 | the Active sectors that expired are exactly the proved sectors that are gone |
| StorageMining.PoStPhasesPower | src/systems/filecoin_mining/storage_mining/storage_miner_actor.go:147-156 | the power change is credit minus debit, both as sector size times a count |
| StorageMining.PoStChain | src/systems/filecoin_mining/storage_mining/storage_miner_actor.go:143-220 | from what the three phases leave, the states, the survivors and the power change of a successful `SubmitPoSt` follow |
| StorageMining.SubmitPoStEffects | src/systems/filecoin_mining/storage_mining/storage_miner_actor.go:129-220 | a successful `SubmitPoSt` keeps the invariant and leaves nothing due in the queue. A sector survives exactly when it has no due entry and was proved or has count + 1 within the maximum; the queue loses exactly the entries of the others. Every surviving proved sector is Active with count 0 and in the proving set; every surviving unproved sector is Failing with count + 1. Power change = sector size × (proved Committed or Recovering sectors) − sector size × (proved sectors that expired) |
| StorageMining.StorageMinerActor.constructor | src/systems/filecoin_blockchain/storage_power_consensus/storage_power_actor_code.go:127-129 | the miner actor that `CreateStorageMiner` leaves to be constructed starts with empty maps and queue, which satisfies the invariant |
| StorageMining.StorageMinerActor.Restore | src/systems/filecoin_mining/storage_mining/storage_miner_actor.go:134-136 | an abort puts every field back as it was |
| StorageMining.StorageMinerActor.ClearSector | src/systems/filecoin_mining/storage_mining/storage_miner_actor.go:72-76 | the fields become `Cleared` of the old state, the sector's queue entry dropped as well (see `ClearedKeepsConsistent`) |
| StorageMining.StorageMinerActor.ActivateSector | src/systems/filecoin_mining/storage_mining/storage_miner_actor.go:80-82 | the fields become `Activated` of the old state (see `ActivatedKeepsConsistent`) |
| StorageMining.StorageMinerActor.FailSector | src/systems/filecoin_mining/storage_mining/storage_miner_actor.go:86-90 | the fields become `Failed` of the old state (see `FailedKeepsConsistent`) |
| StorageMining.StorageMinerActor.CheckMFC | src/systems/filecoin_mining/storage_mining/storage_miner_actor.go:94-105 | the fields become `MFCChecked` of the old state (see `MFCCheckedKeepsConsistent`) |
| StorageMining.StorageMinerActor.CheckIfSectorExists | src/systems/filecoin_mining/storage_mining/storage_miner_actor.go:303-309 | true exactly when the sector number has a commitment |
| StorageMining.StorageMinerActor.DeclareSector | src/systems/filecoin_mining/storage_mining/storage_miner_actor.go:270-287 | one pass of the `DeclareFaults` loop body takes the state one sector further along `DeclareFaultsOutcome`; it debits a sector size only for an Active sector |
| StorageMining.StorageMinerActor.CronSector | src/systems/filecoin_mining/storage_mining/storage_miner_actor.go:15-42 | one pass of the `CronAction` loop body takes the state one sector further along `CronActionOutcome`; it debits a sector size only for an Active sector |
| StorageMining.StorageMinerActor.ProveSector | src/systems/filecoin_mining/storage_mining/storage_miner_actor.go:144-161 | one pass of the first `SubmitPoSt` loop activates a Committed or Recovering sector, credits a sector size for it, and leaves an Active one as it is |
| StorageMining.StorageMinerActor.CheckUnprovenSector | src/systems/filecoin_mining/storage_mining/storage_miner_actor.go:169-178 | one pass of the second `SubmitPoSt` loop runs `checkMFC` on a Failing sector |
| StorageMining.StorageMinerActor.CommitSector | src/systems/filecoin_mining/storage_mining/storage_miner_actor.go:313-352 | reaches `CommitSectorOutcome`'s state, or aborts with its error and no change; keeps the invariant |
| StorageMining.StorageMinerActor.RecoverFaultsLoop | src/systems/filecoin_mining/storage_mining/storage_miner_actor.go:238-253 | the loop reaches `RecoverFaultsOutcome`'s state, or reports its error |
| StorageMining.StorageMinerActor.RecoverFaults | src/systems/filecoin_mining/storage_mining/storage_miner_actor.go:236-254 | reaches `RecoverFaultsOutcome`'s state, or aborts with no change; keeps the invariant |
| StorageMining.StorageMinerActor.DeclareFaultsLoop | src/systems/filecoin_mining/storage_mining/storage_miner_actor.go:264-288 | the loop reaches `DeclareFaultsOutcome`'s state and power change, or reports its error |
| StorageMining.StorageMinerActor.DeclareFaults | src/systems/filecoin_mining/storage_mining/storage_miner_actor.go:262-293 | reaches `DeclareFaultsOutcome`'s state and power change, or aborts with no change and no power change; keeps the invariant |
| StorageMining.StorageMinerActor.CronActionLoop | src/systems/filecoin_mining/storage_mining/storage_miner_actor.go:13-43 | the loop over `Sectors` reaches `CronActionOutcome`'s state and power change |
| StorageMining.StorageMinerActor.CronAction | src/systems/filecoin_mining/storage_mining/storage_miner_actor.go:10-48 | reaches `CronActionOutcome`'s state and power change; keeps the invariant |
| StorageMining.StorageMinerActor.ActivateProvingSet | src/systems/filecoin_mining/storage_mining/storage_miner_actor.go:141-162 | the first loop activates the proving set and returns one sector size per Committed or Recovering sector in it |
| StorageMining.StorageMinerActor.CheckUnprovenSectors | src/systems/filecoin_mining/storage_mining/storage_miner_actor.go:169-178 | the second loop applies `checkMFC` to every sector outside the proving set |
| StorageMining.StorageMinerActor.ExpireSectors | src/systems/filecoin_mining/storage_mining/storage_miner_actor.go:182-220 | the pop loop reaches the state and power change of `ExpireFrom`, or reports `InvalidStateInExpirationQueue` |
| StorageMining.StorageMinerActor.SubmitPoSt | src/systems/filecoin_mining/storage_mining/storage_miner_actor.go:129-228 | reaches `SubmitPoStOutcome`'s state and power change, or aborts with no change and no power change; keeps the invariant |
| StoragePowerActor.SlashPledgeForStorageFaults | src/systems/filecoin_blockchain/storage_power_consensus/storage_power_actor_code.go:199-223 | the slash amount is 1×, 5× or 10× the affected power for Declared, Detected or Terminated (codes 1, 2, 3), and nothing for any other code |
| StoragePowerActor.SlashIncreasesWithSeverity | src/systems/filecoin_blockchain/storage_power_consensus/storage_power_actor_code.go:204-219 | for positive affected power, a Declared fault slashes less than a Detected one, which slashes less than a Terminated one |
| StoragePowerActor.StoragePowerActorState.AddBalance | src/systems/filecoin_blockchain/storage_power_consensus/storage_power_actor_code.go:58-82 | aborts on a negative value or an unknown miner and succeeds exactly otherwise. On success only the available balance grows by the value; on abort nothing changes; total power is unchanged |
| StoragePowerActor.StoragePowerActorState.WithdrawBalance | src/systems/filecoin_blockchain/storage_power_consensus/storage_power_actor_code.go:84-110 | aborts on a negative amount, an unknown miner or a balance below the amount, and succeeds exactly otherwise (withdrawing the whole balance leaves 0). Only the available balance changes |
| StoragePowerActor.StoragePowerActorState.CreateStorageMiner | src/systems/filecoin_blockchain/storage_power_consensus/storage_power_actor_code.go:112-143 | stores an all-zero entry under the miner id, replacing any entry there, and returns the id; balances stay non-negative, and total power becomes the total of the other miners |
| StoragePowerActor.StoragePowerActorState.RemoveStorageMiner | src/systems/filecoin_blockchain/storage_power_consensus/storage_power_actor_code.go:145-159 | an unknown miner aborts with `MinerNotFound` (the source dereferences a nil entry); a miner with active + inactive power > 0 aborts with `PowerStillRemains`; both with no change. Otherwise the entry is deleted and total power is unchanged |
| StoragePowerActor.StoragePowerActorState.GetTotalPower | src/systems/filecoin_blockchain/storage_power_consensus/storage_power_actor_code.go:161-174 | returns the sum of active + inactive power over all entries, which is non-negative, and changes nothing |
| StoragePowerActor.StoragePowerActorState.EnsurePledgeCollateralSatisfied | src/systems/filecoin_blockchain/storage_power_consensus/storage_power_actor_code.go:176-196 | with strict comparisons: satisfied exactly when required < locked; locks exactly required − locked when locked ≤ required < locked + available; otherwise fails `InsufficientPledgeCollateral` |
| StoragePowerActor.StoragePowerActorState.ProcessPowerReport | src/systems/filecoin_blockchain/storage_power_consensus/storage_power_actor_code.go:227-240 | overwrites the two power fields with the report and keeps both balances; total power moves by the difference; an unknown miner aborts with no change |
| MapSum.SumByRemove | src/systems/filecoin_blockchain/storage_power_consensus/storage_power_actor_code.go:167-169 | the sum over a map may start with any entry, so the unordered `range` loop's result does not depend on order |
| MapSum.SumByUpdate | src/systems/filecoin_blockchain/storage_power_consensus/storage_power_actor_code.go:78-79 | writing an entry back changes the sum by new minus old value |
| Sector.FaultTypeOfCode | src/systems/filecoin_mining/sector/sector.go:20-24 | exactly the codes 1, 2, 3 name a fault type |
| Sector.FaultTypeCodeRoundTrip | src/systems/filecoin_mining/sector/sector.go:20-24 | decoding inverts `1 + iota` encoding, and only the encoding names a type |
| StoragePowerConsensus.GetMinerPower | src/systems/filecoin_blockchain/storage_power_consensus/storage_power_consensus_subsystem.go:129-131 | a miner's power, or 0 for an unknown miner |
| StoragePowerConsensus.GetMinerPublicKey | src/systems/filecoin_blockchain/storage_power_consensus/storage_power_consensus_subsystem.go:140-142 | a miner's public key, or the empty key for an unknown miner |
| StoragePowerConsensus.GetTotalPower | src/systems/filecoin_blockchain/storage_power_consensus/storage_power_consensus_subsystem.go:132-138 | the loop returns the sum of `minerStoragePower` over all miners |
| StoragePowerConsensus.SeedsReadOneEpoch | src/systems/filecoin_blockchain/storage_power_consensus/storage_power_consensus_subsystem.go:76-98 | the four seed getters: the ticket seed depends only on the ticket at epoch − 1, the election seed at epoch − 300, and the seal seed and PoSt challenge at epoch + 1 |
| StoragePowerConsensus.ValidateTicket | src/systems/filecoin_blockchain/storage_power_consensus/storage_power_consensus_subsystem.go:61-66 | valid exactly when the VRF accepts the ticket over the ticket tag followed by the ticket seed |
| StoragePowerConsensus.ValidateElectionProof | src/systems/filecoin_blockchain/storage_power_consensus/storage_power_consensus_subsystem.go:100-114 | valid exactly when height + nonce ≤ round time + 1 and the VRF accepts the output over the election tag, the election seed and the nonce |
| StoragePowerConsensus.LivenessBoundIgnoresVRF | src/systems/filecoin_blockchain/storage_power_consensus/storage_power_consensus_subsystem.go:101-104 | a proof past the liveness bound is rejected whatever the VRF would say |
| StoragePowerConsensus.BytesToNatBound | src/systems/filecoin_blockchain/storage_power_consensus/storage_power_consensus_subsystem.go:121-123 | an L-byte output read as a number lies below 2^(8L) |
| StoragePowerConsensus.IsWinningElectionProof | src/systems/filecoin_blockchain/storage_power_consensus/storage_power_consensus_subsystem.go:116-125 | wins exactly when minerPower · 2^(8·len(output)) < output value · totalPower |
| StoragePowerConsensus.WinsMonotoneInOutput | src/systems/filecoin_blockchain/storage_power_consensus/storage_power_consensus_subsystem.go:124 | with non-negative total power, raising the output value never turns a win into a loss |
| StoragePowerConsensus.MorePowerNeverWinsMore | src/systems/filecoin_blockchain/storage_power_consensus/storage_power_consensus_subsystem.go:124 | raising miner power never turns a loss into a win |
| StoragePowerConsensus.WinsDependsOnlyOnPowerShare | src/systems/filecoin_blockchain/storage_power_consensus/storage_power_consensus_subsystem.go:121-124 | scaling miner and total power by the same positive factor does not change the outcome |
| StoragePowerConsensus.FullPowerNeverWins | src/systems/filecoin_blockchain/storage_power_consensus/storage_power_consensus_subsystem.go:124 | a miner with at least the total power never wins |
| StoragePowerConsensus.TenPercentMinerBoundary | src/systems/filecoin_blockchain/storage_power_consensus/storage_power_consensus_subsystem.go:124 | a miner with 100 of 1000 power and a one-byte output wins exactly from output value 26 |
| StoragePowerConsensus.MorePowerKeepsShareWin | src/systems/filecoin_blockchain/storage_power_consensus/storage_power_consensus_subsystem.go:121-123 | under the comparison the comment describes, more miner power never turns a win into a loss |
| StoragePowerConsensus.ShareWinsAtTheExtremes | src/systems/filecoin_blockchain/storage_power_consensus/storage_power_consensus_subsystem.go:121-123 | under the described comparison a miner with all of a positive total power wins with every output, and a miner without power never wins |
| StoragePowerConsensus.WinsExcludesShareWin | src/systems/filecoin_blockchain/storage_power_consensus/storage_power_consensus_subsystem.go:121-124 | no output wins under both the coded and the described comparison |
| StoragePowerConsensus.WinsAsWrittenDisagrees | src/systems/filecoin_blockchain/storage_power_consensus/storage_power_consensus_subsystem.go:124 | with `^` read as Go's exclusive or, one input wins that the exponent reading rejects |
| StoragePowerConsensus.ValidateBlock | src/systems/filecoin_blockchain/storage_power_consensus/storage_power_consensus_subsystem.go:29-59 | passes exactly when all five checks hold; fails with each reason exactly when every earlier check holds and that one does not (`NotAValidMiner` exactly when power ≤ 0) |
| StoragePowerConsensus.PowerlessMinerRejectedFirst | src/systems/filecoin_blockchain/storage_power_consensus/storage_power_consensus_subsystem.go:33-36 | a block whose miner has power ≤ 0 is rejected with `NotAValidMiner`, whatever the weight function and VRF are |
| StoragePowerConsensus.AcceptedMinerHoldsPower | src/systems/filecoin_blockchain/storage_power_consensus/storage_power_consensus_subsystem.go:29-59 | with non-negative powers, an accepted block's miner holds positive power strictly below the total |
| Block.SmallerBytes | src/systems/filecoin_blockchain/struct/block/block.go:8-13 | returns `b` exactly when `a` compares greater under `compare`, and `a` otherwise (ties included) |
| Block.SmallerBytesIsMinimum | src/systems/filecoin_blockchain/struct/block/block.go:8-13 | under a strict total order the result ignores argument order and is no greater than either argument |
| Block.SliceEqual | src/systems/filecoin_blockchain/struct/block/block.go:22-32 | false when the lengths differ; true exactly when the lengths agree and every index agrees |
| Block.AncestorAdd | src/systems/filecoin_blockchain/struct/block/block.go:41-44 | walking m parent links then n more is walking m + n |
| Block.TipsetAtEpoch | src/systems/filecoin_blockchain/struct/block/block.go:36-47 | returns the ancestor HeadEpoch − epoch links back, or the head when epoch ≥ HeadEpoch |
| Block.LowByte | src/systems/filecoin_blockchain/struct/block/block.go:59 | `byte(epoch)` agrees with the epoch modulo 256 |
| Block.RandomnessInput | src/systems/filecoin_blockchain/struct/block/block.go:56-59 | the hash input is priorRand, then the delimiter, then the epoch's low byte: length len(priorRand) + 2 |
| Block.RandomnessInputInjective | src/systems/filecoin_blockchain/struct/block/block.go:56-59 | the hash input determines the prior randomness and the epoch modulo 256 |
| Block.RandomnessInputWraps | src/systems/filecoin_blockchain/struct/block/block.go:59 | epochs 256 apart give the same hash input |
| Block.RandomnessAtEpoch | src/systems/filecoin_blockchain/struct/block/block.go:49-61 | hashes the input built from the randomness drawn at the tipset `TipsetAtEpoch` returns |

## Left out

- `Surprise`, `ReportConsensusFault` and `InvokeMethod` of the power actor: the first uses floating point, chain randomness and an unseen sampler, and only sends messages; the other two are `panic("TODO")`.
- `sealer.go`, the miner actor boilerplate, and the `State` / `Release` / `UpdateRelease` / `DeserializeState` plumbing: IPLD storage and state handles. Each method is modelled as one atomic update.
- Every commented-out `SendMessage` effect (deal payment and settlement, collateral slashing, `UpdatePower`, depledging): cross-actor messaging. The miner operations return the net power change instead.
- `_safeGetPowerEntry`, `_lockPledgeCollateral` and `_slashPledgeCollateral` are not part of this model. An unknown miner is taken to abort with `MinerNotFound`. The amounts handed to the other two are returned, not applied.
- The VRF, `computeTipsetWeight`, `StoragePowerConsensusError`, `SHA256`, `DrawRandomness`, `CompareBytesStrict`, `verifySeal` and `verifyPoStSubmission` are parameters with no assumed behaviour.
- StorageMining.StorageMinerActor.SubmitPoSt: the power change is a signed integer; the Go `uint64` would wrap below zero. The same holds for `DeclareFaults` and `CronAction`.
- StorageMining.SubmitPoStOutcome: the `default: panic` branches of the first two loops are not represented. The invariant rules them out, and the class methods require it. The queue-pop branch for Committed or Recovering sectors (commented out in the source) is modelled as the abort it falls into.
- A sector number missing from `SectorStates` reads as the Go zero value. Here it takes the `default: panic` branch of `RecoverFaults`, `DeclareFaults` and the expiry loop.
- Popping past the end of the expiration queue: the source's `Peek()` on an empty queue is unspecified. The expiry loop stops when the queue is empty.
- `GetZeros()` is read as the sectors that have a state but are not in the proving set.
- `MAX_CONSECUTIVE_FAULT_COUNT` and the sector size are fixed when the miner actor is constructed; their values are not in the source files.
- Consensus code that does not compile as Go: the `VRFPersonalization` block, the missing brace in check 5, `input.appent`, `GetMinerPublicKey()` declared without the address its callers pass (it takes an `Address` here), and `validateTicket(...)` called without its receiver at line 44. These are modelled by their evident intent. How the election nonce is encoded is a parameter.
- StoragePowerConsensus.IsWinningElectionProof: the output is read as an unsigned big-endian integer; the Go multiplies the byte slice directly.
- StoragePowerActor.StoragePowerActorState.CreateStorageMiner: the owner and worker addresses and the peer id are not stored (the source drops them too). An existing entry under the same id is overwritten.
- StoragePowerActor.StoragePowerActorState.EnsurePledgeCollateralSatisfied: the lock's effect on the table is not applied, because `_lockPledgeCollateral` is not part of this model.
- StoragePowerActor.StoragePowerActorState.GetTotalPower: the sum is an unbounded integer; the Go `uint64` accumulator would wrap past 2^64. The consensus `GetTotalPower` is the same.
- StoragePowerActor.SlashPledgeForStorageFaults: `unit * affectedPower` is an unbounded product; in Go it is a `uint64` product that would wrap past 2^64.
- StorageMining.Consistent: says that the queue holds an entry for every live sector and for no other, not that each sector has only one entry.
- StoragePowerConsensus.GetMinerPower, StoragePowerConsensus.GetMinerPublicKey: the element type of the consensus power table is not in the source files; the table is read as a map of values, so an unknown miner reads as the zero entry (power 0, empty key) and `ValidateBlock` rejects it with `NotAValidMiner`. If it held pointers, as the actor's table does, these reads would abort instead.
- Both constructors (`StorageMining.StorageMinerActor.constructor`, `StoragePowerActor.StoragePowerActorState.constructor`) build the empty starting state; neither source file defines one, so they have no counterpart beyond the pending miner constructor noted at storage_power_actor_code.go:127-129.
- StoragePowerConsensus.ValidateBlock: keeps the winning comparison as coded (`minerPower * 2^L < output * totalPower`); `TenPercentMinerBoundary` states where a miner with 10% of the power starts to win under it. The comparison the code comment describes is in "## Findings", with its properties proved on `WinsByShare`.

## Findings

| source | as written | input that shows it | evidently intended | confidence | as-written member | corrected member |
|---|---|---|---|---|---|---|
| src/systems/filecoin_blockchain/storage_power_consensus/storage_power_consensus_subsystem.go:124 | `minerPower * 2^(len(Output)*8)`: Go's `^` is exclusive or and binds looser than `*`, so this is `(minerPower*2) XOR (len*8)` | one-byte output 0xFF, miner power 1, total power 1: as written 2 XOR 8 = 10 < 255 wins; intended 256 < 255 loses | `minerPower * 2^(8*len(Output))` with `^` as a power of two, as the comment describes | not executed | StoragePowerConsensus.WinsAsWrittenDisagrees | StoragePowerConsensus.IsWinningElectionProof |
| src/systems/filecoin_mining/storage_mining/storage_miner_actor.go:72-76 | `clearSector` deletes the sector from `Sectors`, `SectorStates` and `ProvingSet` but leaves its expiration-queue entry. When `checkMFC` (phase two of `SubmitPoSt`) or `CronAction` clears a sector, its entry stays, and the expiry loop at lines 184-215 later pops it, finds no state and panics | sector 5 Failing with 0 faults, outside the proving set, entry (5, epoch 10), maximum 0 faults: `SubmitPoSt` at epoch 10 with a verified proof clears 5 in phase two, then pops (5, 10) and aborts with `InvalidStateInExpirationQueue`, so the verified proof is reverted | clearing a sector also drops its queue entry, so the queue holds one entry per live sector and a verified proof never aborts | not executed; medium (the state numbers and the element type of `SectorStates` are outside the source files) | StorageMining.StaleEntryAbortsPoSt | StorageMining.SubmitPoStSucceeds |
| src/systems/filecoin_blockchain/storage_power_consensus/storage_power_consensus_subsystem.go:124 | the winning comparison `minerPower * 2^L < output * totalPower` holds with probability about one minus the miner's share, so a miner with all the power never wins and more power never helps | miner power 1 of total 1, one-byte output 255: 256 < 255 is false, so the only miner never wins | the comment at lines 121-123: the output read as a fraction of 2^L lies below the miner's share, `output * totalPower < minerPower * 2^L` | not executed; low (the model keeps the coded comparison in `ValidateBlock`; `TenPercentMinerBoundary` gives its boundary for a miner with 10% of the power) | StoragePowerConsensus.FullPowerNeverWins | StoragePowerConsensus.MorePowerKeepsShareWin |
