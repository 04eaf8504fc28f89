/** The storage power actor: the per-miner power and collateral ledger and
    its mutators.  Each method is one atomic state update; an abort leaves
    the table as it was.  The caller's miner id, the message value and the
    pledge requirement (`_getPledgeCollateralReq`) arrive as parameters. */
module StoragePowerActor {
  import opened Util
  import opened MapSum
  import opened Sector

  /** `block.StoragePower`, an unsigned quantity. */
  type StoragePower = nat

  /** `actor.TokenAmount`, signed in Go. */
  type TokenAmount = int

  datatype PowerTableEntry = PowerTableEntry(
    activePower: StoragePower,
    inactivePower: StoragePower,
    availableBalance: TokenAmount,
    lockedPledgeCollateral: TokenAmount)

  datatype PowerReport = PowerReport(activePower: StoragePower, inactivePower: StoragePower)

  /** The reasons an operation aborts, after the messages of `rt.Abort`. */
  datatype PowerActorError =
    | NegativeValue                 // "negative message value." / "negative amount."
    | MinerNotFound                 // "minerID not found."
    | InsufficientBalance           // "insufficient balance."
    | PowerStillRemains             // "power still remains."
    | InsufficientPledgeCollateral  // exitcode.InsufficientPledgeCollateral

  /** What `EnsurePledgeCollateralSatisfied` decides. */
  datatype PledgeDecision =
    | PledgeSatisfied                       // already covered, nothing to do
    | PledgeLocked(amount: TokenAmount)     // `_lockPledgeCollateral` is asked to lock `amount`
    | PledgeFailed(error: PowerActorError)

  /** A miner's power, active and inactive. */
  function EntryPower(e: PowerTableEntry): int
  {
    e.activePower + e.inactivePower
  }

  function ZeroEntry(): PowerTableEntry
  {
    PowerTableEntry(0, 0, 0, 0)
  }

  /** Slashing rate per unit of affected power (placeholder values of the source). */
  function SlashRate(t: StorageFaultType): (rate: nat)
    ensures rate > 0
  {
    match t
    case DeclaredFault => 1
    case DetectedFault => 5
    case TerminatedFault => 10
  }

  /** `SlashPledgeForStorageFaults`: the amount handed to `_slashPledgeCollateral`
      for a fault type code; a code naming no fault type slashes nothing. */
  function SlashPledgeForStorageFaults(affectedPower: StoragePower, faultType: int): (r: Option<TokenAmount>)
    ensures r.Some? <==> FaultTypeOfCode(faultType).Some?
    ensures faultType == FaultTypeCode(DeclaredFault) ==> r == Some(affectedPower)
    ensures faultType == FaultTypeCode(DetectedFault) ==> r == Some(5 * affectedPower)
    ensures faultType == FaultTypeCode(TerminatedFault) ==> r == Some(10 * affectedPower)
  {
    match FaultTypeOfCode(faultType)
    case None => None
    case Some(t) => Some(SlashRate(t) * affectedPower)
  }

  /** More severe faults slash strictly more of any positive affected power. */
  lemma SlashIncreasesWithSeverity(affectedPower: StoragePower)
    requires affectedPower > 0
    ensures SlashPledgeForStorageFaults(affectedPower, 1).value
            < SlashPledgeForStorageFaults(affectedPower, 2).value
            < SlashPledgeForStorageFaults(affectedPower, 3).value
  {
  }

  ghost predicate BalancesNonNegative(table: map<Address, PowerTableEntry>)
  {
    forall a :: a in table ==> table[a].availableBalance >= 0 && table[a].lockedPledgeCollateral >= 0
  }

  /** Registering a miner keeps every balance non-negative, and the table's
      total is then the total of the other miners: the new entry adds nothing. */
  lemma RegisterZeroEntry(table: map<Address, PowerTableEntry>, minerID: Address)
    requires BalancesNonNegative(table)
    ensures BalancesNonNegative(table[minerID := ZeroEntry()])
    ensures SumBy(table[minerID := ZeroEntry()], EntryPower) == SumBy(table - {minerID}, EntryPower)
  {
    SumByPut(table, EntryPower, minerID, ZeroEntry());
  }

  class StoragePowerActorState {
    var powerTable: map<Address, PowerTableEntry>

    /** Balances are never negative (the power fields are naturals by type). */
    ghost predicate Valid()
      reads this
    {
      BalancesNonNegative(powerTable)
    }

    constructor ()
      ensures Valid() && powerTable == map[]
    {
      powerTable := map[];
    }

    /** `AddBalance`: credits the message value to a registered miner. */
    method AddBalance(minerID: Address, msgValue: TokenAmount) returns (r: Outcome<PowerActorError>)
      requires Valid()
      modifies this
      ensures Valid()
      ensures msgValue < 0 ==> r == Fail(NegativeValue)
      ensures msgValue >= 0 && minerID !in old(powerTable) ==> r == Fail(MinerNotFound)
      ensures r.Pass? <==> msgValue >= 0 && minerID in old(powerTable)
      ensures r.Fail? ==> powerTable == old(powerTable)
      ensures r.Pass? ==>
        var e := old(powerTable)[minerID];
        powerTable == old(powerTable)[minerID := e.(availableBalance := e.availableBalance + msgValue)]
      ensures SumBy(powerTable, EntryPower) == SumBy(old(powerTable), EntryPower)
    {
      if msgValue < 0 {
        return Fail(NegativeValue);
      }
      if minerID !in powerTable {
        return Fail(MinerNotFound);
      }
      var currEntry := powerTable[minerID];
      currEntry := currEntry.(availableBalance := currEntry.availableBalance + msgValue);
      SumByUpdate(powerTable, EntryPower, minerID, currEntry);
      powerTable := powerTable[minerID := currEntry];
      r := Pass;
    }

    /** `WithdrawBalance`: debits a registered miner's available balance,
        which may reach zero but not go below. */
    method WithdrawBalance(minerID: Address, amount: TokenAmount) returns (r: Outcome<PowerActorError>)
      requires Valid()
      modifies this
      ensures Valid()
      ensures amount < 0 ==> r == Fail(NegativeValue)
      ensures amount >= 0 && minerID !in old(powerTable) ==> r == Fail(MinerNotFound)
      ensures amount >= 0 && minerID in old(powerTable) && old(powerTable)[minerID].availableBalance < amount
              ==> r == Fail(InsufficientBalance)
      ensures r.Pass? <==> 0 <= amount && minerID in old(powerTable) && amount <= old(powerTable)[minerID].availableBalance
      ensures r.Fail? ==> powerTable == old(powerTable)
      ensures r.Pass? ==>
        var e := old(powerTable)[minerID];
        powerTable == old(powerTable)[minerID := e.(availableBalance := e.availableBalance - amount)]
      ensures SumBy(powerTable, EntryPower) == SumBy(old(powerTable), EntryPower)
    {
      if amount < 0 {
        return Fail(NegativeValue);
      }
      if minerID !in powerTable {
        return Fail(MinerNotFound);
      }
      var currEntry := powerTable[minerID];
      if currEntry.availableBalance < amount {
        return Fail(InsufficientBalance);
      }
      currEntry := currEntry.(availableBalance := currEntry.availableBalance - amount);
      SumByUpdate(powerTable, EntryPower, minerID, currEntry);
      powerTable := powerTable[minerID := currEntry];
      r := Pass;
    }

    /** `CreateStorageMiner`: stores an all-zero entry under the new miner's id,
        replacing any entry already there, and returns the id. */
    method CreateStorageMiner(minerID: Address) returns (id: Address)
      requires Valid()
      modifies this
      ensures Valid()
      ensures id == minerID
      ensures powerTable == old(powerTable)[minerID := ZeroEntry()]
      ensures SumBy(powerTable, EntryPower) == SumBy(old(powerTable) - {minerID}, EntryPower)
    {
      RegisterZeroEntry(powerTable, minerID);
      powerTable := powerTable[minerID := ZeroEntry()];
      id := minerID;
    }

    /** `RemoveStorageMiner`: refuses while the miner still has power, and
        otherwise deletes the entry.  The table holds pointers, so an unknown
        miner is a nil dereference, an abort that changes nothing. */
    method RemoveStorageMiner(minerID: Address) returns (r: Outcome<PowerActorError>)
      requires Valid()
      modifies this
      ensures Valid()
      ensures r.Fail? <==> minerID !in old(powerTable) || EntryPower(old(powerTable)[minerID]) > 0
      ensures r.Fail? ==> powerTable == old(powerTable)
      ensures minerID !in old(powerTable) ==> r == Fail(MinerNotFound)
      ensures minerID in old(powerTable) && r.Fail? ==> r.error == PowerStillRemains
      ensures r.Pass? ==> powerTable == old(powerTable) - {minerID}
      ensures SumBy(powerTable, EntryPower) == SumBy(old(powerTable), EntryPower)
    {
      if minerID !in powerTable {
        return Fail(MinerNotFound);
      }
      if powerTable[minerID].activePower + powerTable[minerID].inactivePower > 0 {
        return Fail(PowerStillRemains);
      }
      SumByRemove(powerTable, EntryPower, minerID);
      powerTable := powerTable - {minerID};
      r := Pass;
    }

    /** `GetTotalPower`: accumulates active plus inactive power over the table. */
    method GetTotalPower() returns (totalPower: int)
      ensures totalPower == SumBy(powerTable, EntryPower)
      ensures totalPower >= 0
    {
      totalPower := 0;
      var rest := powerTable;
      while rest != map[]
        invariant totalPower + SumBy(rest, EntryPower) == SumBy(powerTable, EntryPower)
        invariant totalPower >= 0
        decreases |rest|
      {
        var a :| a in rest;
        SumByRemove(rest, EntryPower, a);
        RemoveShrinks(rest, a);
        totalPower := totalPower + rest[a].activePower + rest[a].inactivePower;
        rest := rest - {a};
      }
      SumByNonNegative(powerTable, EntryPower);
    }

    /** `EnsurePledgeCollateralSatisfied` for the miner `minerID`, with the
        requirement `pledgeCollateralReq(active + inactive)`.  Both comparisons
        are strict: a requirement equal to locked + available fails. */
    method EnsurePledgeCollateralSatisfied(minerID: Address, pledgeCollateralReq: StoragePower -> TokenAmount)
      returns (r: PledgeDecision)
      ensures minerID !in powerTable ==> r == PledgeFailed(MinerNotFound)
      ensures minerID in powerTable ==>
        var e := powerTable[minerID];
        var required := pledgeCollateralReq(e.activePower + e.inactivePower);
        && (r == PledgeSatisfied <==> required < e.lockedPledgeCollateral)
        && (r.PledgeLocked? <==> e.lockedPledgeCollateral <= required < e.lockedPledgeCollateral + e.availableBalance)
        && (r == PledgeFailed(InsufficientPledgeCollateral) <==>
              e.lockedPledgeCollateral <= required && e.lockedPledgeCollateral + e.availableBalance <= required)
        && (r.PledgeLocked? ==>
              && 0 <= r.amount < e.availableBalance
              && e.lockedPledgeCollateral + r.amount == required)
    {
      if minerID !in powerTable {
        return PledgeFailed(MinerNotFound);
      }
      var powerEntry := powerTable[minerID];
      var pledgeCollateralRequired := pledgeCollateralReq(powerEntry.activePower + powerEntry.inactivePower);
      if pledgeCollateralRequired < powerEntry.lockedPledgeCollateral {
        return PledgeSatisfied;
      } else if pledgeCollateralRequired < powerEntry.lockedPledgeCollateral + powerEntry.availableBalance {
        return PledgeLocked(pledgeCollateralRequired - powerEntry.lockedPledgeCollateral);
      }
      return PledgeFailed(InsufficientPledgeCollateral);
    }

    /** `ProcessPowerReport`: overwrites the two power fields of a registered
        miner with the report; the balances stay, and total power moves by
        the difference. */
    method ProcessPowerReport(minerID: Address, report: PowerReport) returns (r: Outcome<PowerActorError>)
      requires Valid()
      modifies this
      ensures Valid()
      ensures r.Fail? <==> minerID !in old(powerTable)
      ensures r.Fail? ==> r.error == MinerNotFound && powerTable == old(powerTable)
      ensures r.Pass? ==>
        var e := old(powerTable)[minerID];
        && powerTable == old(powerTable)[minerID := e.(activePower := report.activePower, inactivePower := report.inactivePower)]
        && SumBy(powerTable, EntryPower) == SumBy(old(powerTable), EntryPower) - EntryPower(e) + report.activePower + report.inactivePower
    {
      if minerID !in powerTable {
        return Fail(MinerNotFound);
      }
      var powerEntry := powerTable[minerID];
      powerEntry := powerEntry.(activePower := report.activePower, inactivePower := report.inactivePower);
      SumByUpdate(powerTable, EntryPower, minerID, powerEntry);
      powerTable := powerTable[minerID := powerEntry];
      r := Pass;
    }
  }
}
