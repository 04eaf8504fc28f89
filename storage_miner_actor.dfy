/** The storage miner actor's sector state machine
    (storage_mining/storage_miner_actor.go).

    The actor keeps three maps that must agree — the seal commitments
    (`Sectors`), the per-sector state and fault count (`SectorStates`) and the
    `ProvingSet` — and an expiration queue ordered by epoch.  The pure part of
    this module describes every operation as a function of the whole state
    (`MinerState`); the class `StorageMinerActor` runs the loops of the source
    over its fields and is proved to reach exactly that state.  An actor abort
    reverts everything: the class puts back the state it started from.  The
    seal and PoSt verifiers, the current epoch and the last deal expiration
    are parameters. */
module StorageMining {
  import opened Util
  import opened Sector

  datatype StateNumber = SectorCommitted | SectorActive | SectorRecovering | SectorFailing

  datatype SectorState = SectorState(stateNumber: StateNumber, faultCount: nat)

  /** `SectorCommitted()` and `SectorActive()` start with no faults. */
  function CommittedState(): SectorState { SectorState(SectorCommitted, 0) }
  function ActiveState(): SectorState { SectorState(SectorActive, 0) }

  /** The states whose sectors owe a proof this period. */
  predicate IsProving(s: StateNumber)
  {
    s == SectorCommitted || s == SectorActive || s == SectorRecovering
  }

  datatype ExpirationItem = ExpirationItem(sectorNumber: SectorNumber, expiration: ChainEpoch)

  datatype MinerState = MinerState(
    sectors: map<SectorNumber, SealCommitment>,
    sectorStates: map<SectorNumber, SectorState>,
    provingSet: set<SectorNumber>,
    expirationQueue: seq<ExpirationItem>)

  /** A successful operation's new state and its net power change
      (`powerUpdate`, a `uint64` in Go that wraps below zero). */
  datatype Transition = Transition(state: MinerState, powerDelta: int)

  /** The reasons an operation panics, after the source's messages. */
  datatype MinerAbort =
    | SealNotVerified                  // "Seal is not verified"
    | SectorAlreadyExists              // "Sector already exists"
    | PoStNotVerified                  // PoSt verification failed
    | InvalidStateInRecoverFaults      // "Invalid sector state in RecoverFaults"
    | InvalidStateInDeclareFaults      // "Invalid sector state in DeclareFaults"
    | InvalidStateInExpirationQueue    // "Invalid sector state in SectorExpirationQueue"

  // ---------------------------------------------------------------------------
  // The expiration queue

  ghost predicate Sorted(q: seq<ExpirationItem>)
  {
    forall i, j :: 0 <= i < j < |q| ==> q[i].expiration <= q[j].expiration
  }

  /** The sector numbers that have an entry in the queue. */
  function QueuedSectors(q: seq<ExpirationItem>): set<SectorNumber>
    decreases |q|
  {
    if q == [] then {} else {q[0].sectorNumber} + QueuedSectors(q[1..])
  }

  /** `SectorExpirationQueue.Add`: inserts the item after every entry that
      expires no later, keeping the queue ordered by epoch. */
  function Enqueue(q: seq<ExpirationItem>, item: ExpirationItem): (r: seq<ExpirationItem>)
    ensures multiset(r) == multiset(q) + multiset{item}
    decreases |q|
  {
    if q == [] || item.expiration < q[0].expiration then [item] + q
    else
      assert q == [q[0]] + q[1..];
      [q[0]] + Enqueue(q[1..], item)
  }

  lemma {:induction false} EnqueueKeepsSorted(q: seq<ExpirationItem>, item: ExpirationItem)
    requires Sorted(q)
    ensures Sorted(Enqueue(q, item))
    decreases |q|
  {
    if !(q == [] || item.expiration < q[0].expiration) {
      EnqueueKeepsSorted(q[1..], item);
      var rest := Enqueue(q[1..], item);
      forall x | x in rest
        ensures q[0].expiration <= x.expiration
      {
        assert x in multiset(rest);
      }
    }
  }

  lemma {:induction false} EnqueueQueues(q: seq<ExpirationItem>, item: ExpirationItem)
    ensures QueuedSectors(Enqueue(q, item)) == QueuedSectors(q) + {item.sectorNumber}
    decreases |q|
  {
    var r := Enqueue(q, item);
    if q == [] || item.expiration < q[0].expiration {
      assert r[1..] == q;
    } else {
      EnqueueQueues(q[1..], item);
      assert r[1..] == Enqueue(q[1..], item);
    }
  }

  /** The queue with every entry of a sector in `gone` dropped, the others
      kept in order: what clearing those sectors does to the queue. */
  function Without(q: seq<ExpirationItem>, gone: set<SectorNumber>): (r: seq<ExpirationItem>)
    ensures |r| <= |q|
    ensures forall x :: x in r <==> x in q && x.sectorNumber !in gone
    decreases |q|
  {
    if q == [] then []
    else
      assert q == [q[0]] + q[1..];
      if q[0].sectorNumber in gone then Without(q[1..], gone) else [q[0]] + Without(q[1..], gone)
  }

  /** Dropping sectors that have no entry leaves the queue as it was. */
  lemma {:induction false} WithoutNothing(q: seq<ExpirationItem>, gone: set<SectorNumber>)
    requires gone !! QueuedSectors(q)
    ensures Without(q, gone) == q
    decreases |q|
  {
    if q != [] {
      WithoutNothing(q[1..], gone);
      assert q == [q[0]] + q[1..];
    }
  }

  /** Exactly the dropped sectors leave the queue. */
  lemma {:induction false} WithoutQueued(q: seq<ExpirationItem>, gone: set<SectorNumber>)
    ensures QueuedSectors(Without(q, gone)) == QueuedSectors(q) - gone
    decreases |q|
  {
    if q != [] {
      WithoutQueued(q[1..], gone);
      if q[0].sectorNumber !in gone {
        assert ([q[0]] + Without(q[1..], gone))[1..] == Without(q[1..], gone);
      }
    }
  }

  /** Dropping entries keeps the queue ordered. */
  lemma {:induction false} WithoutSorted(q: seq<ExpirationItem>, gone: set<SectorNumber>)
    requires Sorted(q)
    ensures Sorted(Without(q, gone))
    decreases |q|
  {
    if q != [] {
      WithoutSorted(q[1..], gone);
      var rest := Without(q[1..], gone);
      forall x | x in rest
        ensures q[0].expiration <= x.expiration
      {
        var i :| 0 <= i < |q[1..]| && q[1..][i] == x;
        assert q[i + 1] == x;
      }
    }
  }

  /** Dropping in two rounds is dropping the union once. */
  lemma {:induction false} WithoutWithout(q: seq<ExpirationItem>, a: set<SectorNumber>, b: set<SectorNumber>)
    ensures Without(Without(q, a), b) == Without(q, a + b)
    decreases |q|
  {
    if q != [] {
      WithoutWithout(q[1..], a, b);
      var w := Without(q[1..], a);
      if q[0].sectorNumber !in a {
        assert ([q[0]] + w)[0] == q[0] && ([q[0]] + w)[1..] == w;
      }
    }
  }

  /** The sectors with an entry due at `epoch`: expiring at or before it. */
  function DueSectors(q: seq<ExpirationItem>, epoch: ChainEpoch): (r: set<SectorNumber>)
    ensures r <= QueuedSectors(q)
    decreases |q|
  {
    if q == [] then {}
    else (if q[0].expiration <= epoch then {q[0].sectorNumber} else {}) + DueSectors(q[1..], epoch)
  }

  /** In an ordered queue whose head is not due, nothing is due. */
  lemma {:induction false} DueNone(q: seq<ExpirationItem>, epoch: ChainEpoch)
    requires Sorted(q)
    requires q == [] || q[0].expiration > epoch
    ensures DueSectors(q, epoch) == {}
    decreases |q|
  {
    if q != [] {
      DueNone(q[1..], epoch);
    }
  }

  /** Dropping sectors from the queue drops them from the due set and no other. */
  lemma {:induction false} DueWithout(q: seq<ExpirationItem>, gone: set<SectorNumber>, epoch: ChainEpoch)
    ensures DueSectors(Without(q, gone), epoch) == DueSectors(q, epoch) - gone
    decreases |q|
  {
    if q != [] {
      DueWithout(q[1..], gone, epoch);
      if q[0].sectorNumber !in gone {
        assert ([q[0]] + Without(q[1..], gone))[1..] == Without(q[1..], gone);
      }
    }
  }

  // ---------------------------------------------------------------------------
  // The invariant

  /** A sector is in the proving set exactly when it is Committed, Active or Recovering. */
  ghost predicate ProvingSetMatches(st: MinerState)
  {
    forall n :: n in st.provingSet <==> n in st.sectorStates && IsProving(st.sectorStates[n].stateNumber)
  }

  /** Only a failure counts a fault, so an Active sector has none. */
  ghost predicate ActiveHasNoFaults(st: MinerState)
  {
    forall n :: n in st.sectorStates && st.sectorStates[n].stateNumber == SectorActive ==> st.sectorStates[n].faultCount == 0
  }

  /** The three maps agree: `Sectors` and `SectorStates` have the same keys, a
      sector is in the proving set exactly when it is Committed, Active or
      Recovering, an Active sector has no faults, the queue is ordered, and
      the queue holds an entry for every live sector and for no other. */
  ghost predicate Consistent(st: MinerState)
  {
    && st.sectors.Keys == st.sectorStates.Keys
    && ProvingSetMatches(st)
    && ActiveHasNoFaults(st)
    && Sorted(st.expirationQueue)
    && st.sectorStates.Keys == QueuedSectors(st.expirationQueue)
  }

  // ---------------------------------------------------------------------------
  // One sector at a time: the helpers of the source on the whole state

  /** `clearSector` as written: the sector leaves all three maps, but its
      queue entry stays behind (see `StaleEntryAbortsPoSt`). */
  function ClearedAsWritten(st: MinerState, n: SectorNumber): MinerState
  {
    MinerState(st.sectors - {n}, st.sectorStates - {n}, st.provingSet - {n}, st.expirationQueue)
  }

  /** `clearSector` as the queue invariant needs it: the sector leaves all
      three maps and its queue entry is dropped too.  The rest of the model
      clears sectors this way. */
  function Cleared(st: MinerState, n: SectorNumber): MinerState
  {
    MinerState(st.sectors - {n}, st.sectorStates - {n}, st.provingSet - {n}, Without(st.expirationQueue, {n}))
  }

  /** `activateSector`. */
  function Activated(st: MinerState, n: SectorNumber): MinerState
  {
    st.(sectorStates := st.sectorStates[n := ActiveState()])
  }

  function FailingAfter(s: SectorState): SectorState
  {
    SectorState(SectorFailing, s.faultCount + 1)
  }

  /** `failSector`. */
  function Failed(st: MinerState, n: SectorNumber): MinerState
    requires n in st.sectorStates
  {
    st.(sectorStates := st.sectorStates[n := FailingAfter(st.sectorStates[n])],
        provingSet := st.provingSet - {n})
  }

  /** `checkMFC`. */
  function MFCChecked(st: MinerState, n: SectorNumber, max: nat): MinerState
    requires n in st.sectorStates
  {
    if st.sectorStates[n].faultCount + 1 > max then Cleared(st, n)
    else st.(sectorStates := st.sectorStates[n := FailingAfter(st.sectorStates[n])])
  }

  /** The body of `RecoverFaults` for one sector. */
  function Recovered(st: MinerState, n: SectorNumber): MinerState
    requires n in st.sectorStates
  {
    st.(sectorStates := st.sectorStates[n := SectorState(SectorRecovering, st.sectorStates[n].faultCount)],
        provingSet := st.provingSet + {n})
  }

  /** Which per-sector step a loop applies. */
  datatype Rule = Declare | Recover | Activate | MaxFaultCheck(max: nat) | Cron(max: nat)

  /** The states a loop handles; any other state is its `default: panic`. */
  predicate Accepts(rule: Rule, s: SectorState)
  {
    match rule
    case Declare => s.stateNumber != SectorFailing
    case Recover => s.stateNumber == SectorFailing
    case Activate => s.stateNumber != SectorFailing
    case MaxFaultCheck(_) => s.stateNumber == SectorFailing
    case Cron(_) => true
  }

  /** The state a sector has after the step, or `None` when it is cleared. */
  function Next(rule: Rule, s: SectorState): Option<SectorState>
  {
    match rule
    case Declare => Some(FailingAfter(s))
    case Recover => Some(SectorState(SectorRecovering, s.faultCount))
    case Activate =>
      if s.stateNumber == SectorCommitted || s.stateNumber == SectorRecovering then Some(ActiveState()) else Some(s)
    case MaxFaultCheck(max) => if s.faultCount + 1 > max then None else Some(FailingAfter(s))
    case Cron(max) =>
      if s.stateNumber == SectorCommitted || s.stateNumber == SectorActive then Some(FailingAfter(s))
      else if s.faultCount + 1 > max then None
      else Some(FailingAfter(s))
  }

  /** The step on the whole state, as the source's loop body performs it. */
  function StepOne(st: MinerState, n: SectorNumber, rule: Rule): MinerState
    requires n in st.sectorStates
  {
    match rule
    case Declare => Failed(st, n)
    case Recover => Recovered(st, n)
    case Activate =>
      var s := st.sectorStates[n].stateNumber;
      if s == SectorCommitted || s == SectorRecovering then Activated(st, n) else st
    case MaxFaultCheck(max) => MFCChecked(st, n, max)
    case Cron(max) =>
      match st.sectorStates[n].stateNumber
      case SectorCommitted => Failed(st, n)
      case SectorActive => Failed(st, n)
      case SectorRecovering =>
        var f := Failed(st, n);
        if f.sectorStates[n].faultCount > max then Cleared(f, n) else f
      case SectorFailing => MFCChecked(st, n, max)
  }

  predicate AllAccepted(states: map<SectorNumber, SectorState>, s: set<SectorNumber>, rule: Rule)
  {
    forall n :: n in s ==> n in states && Accepts(rule, states[n])
  }

  /** The sectors of `s` whose state is one of `kinds`. */
  function WithStateIn(states: map<SectorNumber, SectorState>, s: set<SectorNumber>, kinds: set<StateNumber>)
    : set<SectorNumber>
  {
    set n | n in s && n in states && states[n].stateNumber in kinds
  }

  /** The sector states after the step has run on every sector of `done`. */
  function ApplyStates(states: map<SectorNumber, SectorState>, done: set<SectorNumber>, rule: Rule)
    : map<SectorNumber, SectorState>
  {
    map n | n in states && (n !in done || Next(rule, states[n]).Some?) ::
      if n in done then Next(rule, states[n]).value else states[n]
  }

  function ProvingAfter(rule: Rule, ps: set<SectorNumber>, done: set<SectorNumber>, live: set<SectorNumber>)
    : set<SectorNumber>
  {
    match rule
    case Declare => ps - done
    case Recover => ps + done
    case Activate => ps
    case MaxFaultCheck(_) => ps - (done - live)
    case Cron(_) => ps - done
  }

  /** The whole state after the step has run on every sector of `done`, in any order. */
  function ApplyToState(st: MinerState, done: set<SectorNumber>, rule: Rule): MinerState
  {
    var states := ApplyStates(st.sectorStates, done, rule);
    var gone := st.sectorStates.Keys - states.Keys;
    MinerState(st.sectors - gone, states, ProvingAfter(rule, st.provingSet, done, states.Keys),
               Without(st.expirationQueue, gone))
  }

  /** Before the loop has processed any sector the state is as it was. */
  lemma ApplyNothing(st: MinerState, rule: Rule)
    ensures ApplyToState(st, {}, rule) == st
  {
    assert ApplyStates(st.sectorStates, {}, rule) == st.sectorStates;
    assert st.sectorStates.Keys - st.sectorStates.Keys == {};
    WithoutNothing(st.expirationQueue, {});
  }

  /** A sector the loop has not reached yet is as it was. */
  lemma ApplyUntouched(st: MinerState, done: set<SectorNumber>, n: SectorNumber, rule: Rule)
    requires n !in done
    ensures n in ApplyToState(st, done, rule).sectorStates <==> n in st.sectorStates
    ensures n in st.sectorStates ==> ApplyToState(st, done, rule).sectorStates[n] == st.sectorStates[n]
  {
  }

  /** Processing one more sector is one call of the loop body: this is why the
      order in which the source visits a set or map does not matter. */
  lemma ApplyStep(st: MinerState, done: set<SectorNumber>, n: SectorNumber, rule: Rule)
    requires n in st.sectorStates && n !in done
    requires n in st.provingSet <==> IsProving(st.sectorStates[n].stateNumber)
    ensures n in ApplyToState(st, done, rule).sectorStates
    ensures ApplyToState(st, done, rule).sectorStates[n] == st.sectorStates[n]
    ensures ApplyToState(st, done + {n}, rule) == StepOne(ApplyToState(st, done, rule), n, rule)
  {
    ApplyStepMaps(st, done, n, rule);
    ApplyStepProving(st, done, n, rule);
    ApplyStepQueue(st, done, n, rule);
  }

  lemma ApplyStepQueue(st: MinerState, done: set<SectorNumber>, n: SectorNumber, rule: Rule)
    requires n in st.sectorStates && n !in done
    ensures n in ApplyToState(st, done, rule).sectorStates
    ensures ApplyToState(st, done + {n}, rule).expirationQueue
            == StepOne(ApplyToState(st, done, rule), n, rule).expirationQueue
  {
    var cur := ApplyToState(st, done, rule);
    var live := ApplyStates(st.sectorStates, done, rule).Keys;
    var live' := ApplyStates(st.sectorStates, done + {n}, rule).Keys;
    assert cur.sectorStates[n] == st.sectorStates[n];
    if Next(rule, st.sectorStates[n]).None? {
      assert live' == live - {n};
      assert st.sectorStates.Keys - live' == (st.sectorStates.Keys - live) + {n};
      WithoutWithout(st.expirationQueue, st.sectorStates.Keys - live, {n});
    } else {
      assert live' == live;
    }
  }

  lemma ApplyStepMaps(st: MinerState, done: set<SectorNumber>, n: SectorNumber, rule: Rule)
    requires n in st.sectorStates && n !in done
    ensures n in ApplyToState(st, done, rule).sectorStates
    ensures ApplyToState(st, done + {n}, rule).sectorStates == StepOne(ApplyToState(st, done, rule), n, rule).sectorStates
    ensures ApplyToState(st, done + {n}, rule).sectors == StepOne(ApplyToState(st, done, rule), n, rule).sectors
  {
    var cur := ApplyToState(st, done, rule);
    assert cur.sectorStates[n] == st.sectorStates[n];
    assert ApplyToState(st, done + {n}, rule).sectorStates == StepOne(cur, n, rule).sectorStates;
  }

  lemma ApplyStepProving(st: MinerState, done: set<SectorNumber>, n: SectorNumber, rule: Rule)
    requires n in st.sectorStates && n !in done
    requires n in st.provingSet <==> IsProving(st.sectorStates[n].stateNumber)
    ensures n in ApplyToState(st, done, rule).sectorStates
    ensures ApplyToState(st, done + {n}, rule).provingSet == StepOne(ApplyToState(st, done, rule), n, rule).provingSet
  {
    var cur := ApplyToState(st, done, rule);
    var nxt := ApplyToState(st, done + {n}, rule);
    var one := StepOne(cur, n, rule);
    assert cur.sectorStates[n] == st.sectorStates[n];
    match rule
    case MaxFaultCheck(max) =>
      var live := ApplyStates(st.sectorStates, done, rule).Keys;
      var live' := ApplyStates(st.sectorStates, done + {n}, rule).Keys;
      if st.sectorStates[n].faultCount + 1 > max {
        assert live' == live - {n};
        assert (done + {n}) - live' == (done - live) + {n};
      } else {
        assert live' == live;
      }
    case Cron(max) =>
      if st.sectorStates[n].stateNumber == SectorFailing {
        assert n !in cur.provingSet;
      }
    case _ =>
  }

  /** Each step keeps the invariant when every processed sector was in an accepted state. */
  lemma ApplyPreservesConsistent(st: MinerState, done: set<SectorNumber>, rule: Rule)
    requires Consistent(st)
    requires AllAccepted(st.sectorStates, done, rule)
    ensures Consistent(ApplyToState(st, done, rule))
  {
    ApplyKeepsProvingSet(st, done, rule);
    ApplyKeepsNoFaults(st, done, rule);
    ApplyKeepsQueue(st, done, rule);
    var r := ApplyToState(st, done, rule);
    assert r.sectors.Keys == r.sectorStates.Keys;
  }

  lemma ApplyKeepsQueue(st: MinerState, done: set<SectorNumber>, rule: Rule)
    requires Sorted(st.expirationQueue) && st.sectorStates.Keys == QueuedSectors(st.expirationQueue)
    ensures var r := ApplyToState(st, done, rule);
      Sorted(r.expirationQueue) && r.sectorStates.Keys == QueuedSectors(r.expirationQueue)
  {
    var gone := st.sectorStates.Keys - ApplyStates(st.sectorStates, done, rule).Keys;
    WithoutSorted(st.expirationQueue, gone);
    WithoutQueued(st.expirationQueue, gone);
  }

  lemma ApplyKeepsProvingSet(st: MinerState, done: set<SectorNumber>, rule: Rule)
    requires ProvingSetMatches(st)
    requires AllAccepted(st.sectorStates, done, rule)
    ensures ProvingSetMatches(ApplyToState(st, done, rule))
  {
    var r := ApplyToState(st, done, rule);
    forall n | n in r.provingSet
      ensures n in r.sectorStates && IsProving(r.sectorStates[n].stateNumber)
    {
    }
    forall n | n in r.sectorStates && IsProving(r.sectorStates[n].stateNumber)
      ensures n in r.provingSet
    {
    }
  }

  lemma ApplyKeepsNoFaults(st: MinerState, done: set<SectorNumber>, rule: Rule)
    requires ActiveHasNoFaults(st)
    ensures ActiveHasNoFaults(ApplyToState(st, done, rule))
  {
  }

  // ---------------------------------------------------------------------------
  // Operations on the whole state

  /** `CommitSector`. */
  function CommitSectorOutcome(st: MinerState, info: OnChainSealVerifyInfo, sealVerified: bool,
                               lastDealExpiration: ChainEpoch): (r: Result<Transition, MinerAbort>)
    ensures !sealVerified ==> r == Failure(SealNotVerified)
    ensures sealVerified && info.sectorNumber in st.sectors ==> r == Failure(SectorAlreadyExists)
    ensures r.Success? <==> sealVerified && info.sectorNumber !in st.sectors
    ensures r.Success? ==>
      var n := info.sectorNumber;
      var s := r.value.state;
      && s.sectors == st.sectors[n := SealCommitment(info.unsealedCID, info.sealedCID, info.dealIDs)]
      && s.sectorStates == st.sectorStates[n := CommittedState()]
      && s.provingSet == st.provingSet + {n}
      && multiset(s.expirationQueue) == multiset(st.expirationQueue) + multiset{ExpirationItem(n, lastDealExpiration)}
      && r.value.powerDelta == 0
  {
    if !sealVerified then Failure(SealNotVerified)
    else if info.sectorNumber in st.sectors then Failure(SectorAlreadyExists)
    else
      var n := info.sectorNumber;
      var sealCommitment := SealCommitment(info.unsealedCID, info.sealedCID, info.dealIDs);
      Success(Transition(
        MinerState(st.sectors[n := sealCommitment], st.sectorStates[n := CommittedState()],
                   st.provingSet + {n}, Enqueue(st.expirationQueue, ExpirationItem(n, lastDealExpiration))),
        0))
  }

  /** `RecoverFaults`. */
  function RecoverFaultsOutcome(st: MinerState, recoveringSet: set<SectorNumber>): (r: Result<MinerState, MinerAbort>)
    ensures r.Success? <==>
      forall n :: n in recoveringSet ==> n in st.sectorStates && st.sectorStates[n].stateNumber == SectorFailing
    ensures r.Failure? ==> r.error == InvalidStateInRecoverFaults
    ensures r.Success? ==>
      && r.value.sectors == st.sectors
      && r.value.sectorStates.Keys == st.sectorStates.Keys
      && r.value.provingSet == st.provingSet + recoveringSet
      && r.value.expirationQueue == st.expirationQueue
      && (forall n :: n in recoveringSet ==>
            r.value.sectorStates[n] == SectorState(SectorRecovering, st.sectorStates[n].faultCount))
      && (forall n :: n in st.sectorStates && n !in recoveringSet ==> r.value.sectorStates[n] == st.sectorStates[n])
  {
    if AllAccepted(st.sectorStates, recoveringSet, Recover) then
      var s := ApplyToState(st, recoveringSet, Recover);
      assert s.sectors == st.sectors;
      assert st.sectorStates.Keys - s.sectorStates.Keys == {};
      WithoutNothing(st.expirationQueue, {});
      Success(s)
    else Failure(InvalidStateInRecoverFaults)
  }

  /** `DeclareFaults`. */
  function DeclareFaultsOutcome(st: MinerState, faultSet: set<SectorNumber>, sectorSize: nat)
    : (r: Result<Transition, MinerAbort>)
    ensures r.Success? <==>
      forall n :: n in faultSet ==> n in st.sectorStates && st.sectorStates[n].stateNumber != SectorFailing
    ensures r.Failure? ==> r.error == InvalidStateInDeclareFaults
    ensures r.Success? ==>
      var s := r.value.state;
      && s.sectors == st.sectors
      && s.sectorStates.Keys == st.sectorStates.Keys
      && s.provingSet == st.provingSet - faultSet
      && s.expirationQueue == st.expirationQueue
      && (forall n :: n in faultSet ==> s.sectorStates[n] == SectorState(SectorFailing, st.sectorStates[n].faultCount + 1))
      && (forall n :: n in st.sectorStates && n !in faultSet ==> s.sectorStates[n] == st.sectorStates[n])
      && r.value.powerDelta == -PowerOf(st.sectorStates, faultSet, {SectorActive}, sectorSize)
  {
    if AllAccepted(st.sectorStates, faultSet, Declare) then
      var s := ApplyToState(st, faultSet, Declare);
      assert s.sectors == st.sectors;
      assert st.sectorStates.Keys - s.sectorStates.Keys == {};
      WithoutNothing(st.expirationQueue, {});
      Success(Transition(s, -PowerOf(st.sectorStates, faultSet, {SectorActive}, sectorSize)))
    else Failure(InvalidStateInDeclareFaults)
  }

  /** `CronAction`: every sector is treated as having missed its proof. */
  function CronActionOutcome(st: MinerState, sectorSize: nat, max: nat): (t: Transition)
    ensures t.powerDelta <= 0
    ensures t.state.sectorStates.Keys <= st.sectorStates.Keys
  {
    Transition(ApplyToState(st, st.sectors.Keys, Cron(max)),
               -PowerOf(st.sectorStates, st.sectors.Keys, {SectorActive}, sectorSize))
  }

  /** The expiration phase of `SubmitPoSt`: pops every entry due at `currEpoch`,
      clearing Active (debiting its power) and Failing sectors; any other
      popped sector aborts.  `acc` is the power change so far. */
  function ExpireFrom(st: MinerState, currEpoch: ChainEpoch, sectorSize: nat, acc: int)
    : (r: Result<Transition, MinerAbort>)
    ensures r.Failure? ==> r.error == InvalidStateInExpirationQueue
    ensures r.Success? ==> r.value.state.sectorStates.Keys <= st.sectorStates.Keys && r.value.powerDelta <= acc
    decreases |st.expirationQueue|
  {
    var q := st.expirationQueue;
    if q == [] || q[0].expiration > currEpoch then Success(Transition(st, acc))
    else
      var n := q[0].sectorNumber;
      var popped := st.(expirationQueue := q[1..]);
      if n !in st.sectorStates then Failure(InvalidStateInExpirationQueue)
      else
        match st.sectorStates[n].stateNumber
        case SectorActive => ExpireFrom(Cleared(popped, n), currEpoch, sectorSize, acc - sectorSize)
        case SectorFailing => ExpireFrom(Cleared(popped, n), currEpoch, sectorSize, acc)
        case _ => Failure(InvalidStateInExpirationQueue)
  }

  /** The sectors that were not owed a proof (`ProvingSet.GetZeros()`). */
  function Zeros(st: MinerState): set<SectorNumber>
  {
    st.sectorStates.Keys - st.provingSet
  }

  /** `SubmitPoSt` once the proof is checked: activate the proving set, check
      the fault count of the rest, then expire. */
  function SubmitPoStOutcome(st: MinerState, postVerified: bool, currEpoch: ChainEpoch, sectorSize: nat, max: nat)
    : (r: Result<Transition, MinerAbort>)
    ensures r == Failure(PoStNotVerified) <==> !postVerified
  {
    if !postVerified then Failure(PoStNotVerified)
    else
      var s1 := ApplyToState(st, st.provingSet, Activate);
      var gained := PowerOf(st.sectorStates, st.provingSet, {SectorCommitted, SectorRecovering}, sectorSize);
      var s2 := ApplyToState(s1, Zeros(s1), MaxFaultCheck(max));
      ExpireFrom(s2, currEpoch, sectorSize, gained)
  }

  /** Adding one sector to a set adds it to the count when its state is one of `kinds`. */
  lemma WithStateInAdd(states: map<SectorNumber, SectorState>, s: set<SectorNumber>, n: SectorNumber,
                       kinds: set<StateNumber>)
    requires n !in s
    ensures |WithStateIn(states, s + {n}, kinds)|
            == |WithStateIn(states, s, kinds)| + (if n in states && states[n].stateNumber in kinds then 1 else 0)
  {
    if n in states && states[n].stateNumber in kinds {
      assert WithStateIn(states, s + {n}, kinds) == WithStateIn(states, s, kinds) + {n};
    } else {
      assert WithStateIn(states, s + {n}, kinds) == WithStateIn(states, s, kinds);
    }
  }

  /** `count` sectors of `size` bytes each, added up one sector at a time. */
  function Scaled(count: nat, size: nat): nat
  {
    if count == 0 then 0 else Scaled(count - 1, size) + size
  }

  lemma {:induction false} ScaledIsProduct(count: nat, size: nat)
    ensures Scaled(count, size) == size * count
  {
    if count > 0 {
      ScaledIsProduct(count - 1, size);
      assert size * (count - 1) + size == size * count;
    }
  }

  /** The power of the sectors of `s` whose state is one of `kinds`, at `size` each. */
  function PowerOf(states: map<SectorNumber, SectorState>, s: set<SectorNumber>, kinds: set<StateNumber>, size: nat): int
  {
    Scaled(|WithStateIn(states, s, kinds)|, size)
  }

  lemma PowerOfNone(states: map<SectorNumber, SectorState>, kinds: set<StateNumber>, size: nat)
    ensures PowerOf(states, {}, kinds, size) == 0
  {
    assert WithStateIn(states, {}, kinds) == {};
  }

  lemma PowerOfAdd(states: map<SectorNumber, SectorState>, s: set<SectorNumber>, n: SectorNumber,
                   kinds: set<StateNumber>, size: nat)
    requires n !in s
    ensures PowerOf(states, s + {n}, kinds, size)
            == PowerOf(states, s, kinds, size) + (if n in states && states[n].stateNumber in kinds then size else 0)
  {
    WithStateInAdd(states, s, n, kinds);
  }

  /** Popping the head entry and clearing its sector keeps the invariant. */
  lemma PopClearedConsistent(st: MinerState)
    requires Consistent(st) && st.expirationQueue != []
    ensures Consistent(Cleared(st.(expirationQueue := st.expirationQueue[1..]), st.expirationQueue[0].sectorNumber))
  {
    var q := st.expirationQueue;
    WithoutSorted(q[1..], {q[0].sectorNumber});
    WithoutQueued(q[1..], {q[0].sectorNumber});
  }

  /** What the expiration phase guarantees about its final state `s` and
      power change `delta` when it starts from `st` with `acc`: the queue
      side and the sector side. */
  ghost predicate ExpiredFrom(st: MinerState, s: MinerState, delta: int, currEpoch: ChainEpoch, sectorSize: nat, acc: int)
  {
    ExpiredQueue(st, s, currEpoch) && ExpiredSectors(st, s, delta, sectorSize, acc)
  }

  /** Nothing due is left, exactly the due sectors are gone, and the queue
      lost exactly their entries. */
  ghost predicate ExpiredQueue(st: MinerState, s: MinerState, currEpoch: ChainEpoch)
  {
    && Consistent(s)
    && (s.expirationQueue == [] || s.expirationQueue[0].expiration > currEpoch)
    && s.sectorStates.Keys == st.sectorStates.Keys - DueSectors(st.expirationQueue, currEpoch)
    && s.expirationQueue == Without(st.expirationQueue, st.sectorStates.Keys - s.sectorStates.Keys)
  }

  /** The surviving sectors are as they were, the expired ones were Active
      or Failing, and each expired Active sector debits `sectorSize`. */
  ghost predicate ExpiredSectors(st: MinerState, s: MinerState, delta: int, sectorSize: nat, acc: int)
  {
    var expired := st.sectorStates.Keys - s.sectorStates.Keys;
    && (forall n :: n in s.sectorStates ==> n in st.sectorStates && s.sectorStates[n] == st.sectorStates[n])
    && (forall n :: n in s.sectors ==> n in st.sectors && s.sectors[n] == st.sectors[n])
    && (forall n :: n in expired ==> st.sectorStates[n].stateNumber in {SectorActive, SectorFailing})
    && delta == acc - PowerOf(st.sectorStates, expired, {SectorActive}, sectorSize)
  }

  /** One pop of an Active or Failing sector extends the guarantee back by one step. */
  lemma ExpiredFromPop(st: MinerState, s: MinerState, delta: int, currEpoch: ChainEpoch, sectorSize: nat, acc: int)
    requires Consistent(st) && st.expirationQueue != [] && st.expirationQueue[0].expiration <= currEpoch
    requires var n := st.expirationQueue[0].sectorNumber;
      n in st.sectorStates && st.sectorStates[n].stateNumber in {SectorActive, SectorFailing}
    requires var n := st.expirationQueue[0].sectorNumber;
      var acc' := if st.sectorStates[n].stateNumber == SectorActive then acc - sectorSize else acc;
      ExpiredFrom(Cleared(st.(expirationQueue := st.expirationQueue[1..]), n), s, delta, currEpoch, sectorSize, acc')
    ensures ExpiredFrom(st, s, delta, currEpoch, sectorSize, acc)
  {
    var n := st.expirationQueue[0].sectorNumber;
    var acc' := if st.sectorStates[n].stateNumber == SectorActive then acc - sectorSize else acc;
    ExpiredQueuePop(st, s, currEpoch);
    ExpiredSectorsPop(st, s, delta, sectorSize, acc, acc');
  }

  lemma ExpiredQueuePop(st: MinerState, s: MinerState, currEpoch: ChainEpoch)
    requires st.expirationQueue != [] && st.expirationQueue[0].expiration <= currEpoch
    requires st.expirationQueue[0].sectorNumber in st.sectorStates
    requires ExpiredQueue(Cleared(st.(expirationQueue := st.expirationQueue[1..]), st.expirationQueue[0].sectorNumber),
                          s, currEpoch)
    ensures ExpiredQueue(st, s, currEpoch)
  {
    var q := st.expirationQueue;
    var n := q[0].sectorNumber;
    var st' := Cleared(st.(expirationQueue := q[1..]), n);
    var expired' := st'.sectorStates.Keys - s.sectorStates.Keys;
    assert st.sectorStates.Keys - s.sectorStates.Keys == expired' + {n};
    ExpiredFromPopQueue(q, expired', currEpoch);
  }

  lemma ExpiredSectorsPop(st: MinerState, s: MinerState, delta: int, sectorSize: nat, acc: int, acc': int)
    requires st.expirationQueue != []
    requires var n := st.expirationQueue[0].sectorNumber;
      n in st.sectorStates && st.sectorStates[n].stateNumber in {SectorActive, SectorFailing}
    requires acc' == if st.sectorStates[st.expirationQueue[0].sectorNumber].stateNumber == SectorActive
                     then acc - sectorSize else acc
    requires ExpiredSectors(Cleared(st.(expirationQueue := st.expirationQueue[1..]), st.expirationQueue[0].sectorNumber),
                            s, delta, sectorSize, acc')
    ensures ExpiredSectors(st, s, delta, sectorSize, acc)
  {
    var n := st.expirationQueue[0].sectorNumber;
    var st' := Cleared(st.(expirationQueue := st.expirationQueue[1..]), n);
    var expired' := st'.sectorStates.Keys - s.sectorStates.Keys;
    assert st.sectorStates.Keys - s.sectorStates.Keys == expired' + {n};
    assert WithStateIn(st'.sectorStates, expired', {SectorActive})
        == WithStateIn(st.sectorStates, expired', {SectorActive});
    PowerOfAdd(st.sectorStates, expired', n, {SectorActive}, sectorSize);
  }

  /** The queue side of one pop: the due set of the whole queue is the head's
      sector and the due set of the rest without it, and dropping the head's
      sector with the rest of `expired` drops the head too. */
  lemma ExpiredFromPopQueue(q: seq<ExpirationItem>, expired': set<SectorNumber>, currEpoch: ChainEpoch)
    requires q != [] && q[0].expiration <= currEpoch
    ensures var n := q[0].sectorNumber;
      && DueSectors(q, currEpoch) == DueSectors(Without(q[1..], {n}), currEpoch) + {n}
      && Without(Without(q[1..], {n}), expired') == Without(q, expired' + {n})
  {
    var n := q[0].sectorNumber;
    DueWithout(q[1..], {n}, currEpoch);
    WithoutWithout(q[1..], {n}, expired');
    assert {n} + expired' == expired' + {n};
  }

  /** The expiration phase keeps the invariant, leaves no due entry behind,
      only removes Active or Failing sectors, leaves the others as they were,
      and debits one `sectorSize` per expired Active sector. */
  lemma {:induction false} ExpireFromFacts(st: MinerState, currEpoch: ChainEpoch, sectorSize: nat, acc: int)
    requires Consistent(st)
    ensures var r := ExpireFrom(st, currEpoch, sectorSize, acc);
      r.Success? ==> ExpiredFrom(st, r.value.state, r.value.powerDelta, currEpoch, sectorSize, acc)
    decreases |st.expirationQueue|
  {
    var q := st.expirationQueue;
    if q == [] || q[0].expiration > currEpoch {
      assert st.sectorStates.Keys - st.sectorStates.Keys == {};
      PowerOfNone(st.sectorStates, {SectorActive}, sectorSize);
      DueNone(q, currEpoch);
      WithoutNothing(q, {});
    } else {
      var n := q[0].sectorNumber;
      var popped := st.(expirationQueue := q[1..]);
      if n in st.sectorStates && st.sectorStates[n].stateNumber in {SectorActive, SectorFailing} {
        var st' := Cleared(popped, n);
        var acc' := if st.sectorStates[n].stateNumber == SectorActive then acc - sectorSize else acc;
        PopClearedConsistent(st);
        ExpireFromFacts(st', currEpoch, sectorSize, acc');
        var r := ExpireFrom(st', currEpoch, sectorSize, acc');
        assert ExpireFrom(st, currEpoch, sectorSize, acc) == r;
        if r.Success? {
          ExpiredFromPop(st, r.value.state, r.value.powerDelta, currEpoch, sectorSize, acc);
        }
      }
    }
  }

  /** A committed sector joins all three maps and the queue, so the invariant holds. */
  lemma CommitSectorKeepsConsistent(st: MinerState, info: OnChainSealVerifyInfo, sealVerified: bool,
                                    lastDealExpiration: ChainEpoch)
    requires Consistent(st)
    ensures var r := CommitSectorOutcome(st, info, sealVerified, lastDealExpiration);
      r.Success? ==> Consistent(r.value.state)
  {
    EnqueueKeepsSorted(st.expirationQueue, ExpirationItem(info.sectorNumber, lastDealExpiration));
    EnqueueQueues(st.expirationQueue, ExpirationItem(info.sectorNumber, lastDealExpiration));
  }

  // ---------------------------------------------------------------------------
  // What the operations promise

  /** `CronAction` treats every sector as unproved: the proving set empties,
      every surviving sector is Failing with one more fault, a Recovering or
      Failing sector whose count would pass the maximum is gone, and every
      Active sector's power is given up. */
  lemma CronActionEffects(st: MinerState, sectorSize: nat, max: nat)
    requires Consistent(st)
    ensures var t := CronActionOutcome(st, sectorSize, max);
      && t.state.provingSet == {}
      && (forall n :: n in t.state.sectorStates ==>
            n in st.sectorStates && t.state.sectorStates[n] == SectorState(SectorFailing, st.sectorStates[n].faultCount + 1))
      && (forall n :: n in st.sectorStates ==>
            (n !in t.state.sectorStates <==>
               st.sectorStates[n].stateNumber in {SectorRecovering, SectorFailing} && st.sectorStates[n].faultCount + 1 > max))
      && t.state.expirationQueue == Without(st.expirationQueue, st.sectorStates.Keys - t.state.sectorStates.Keys)
      && t.powerDelta == -(sectorSize * |WithStateIn(st.sectorStates, st.sectorStates.Keys, {SectorActive})|)
  {
    var t := CronActionOutcome(st, sectorSize, max);
    assert t.state.provingSet == {} by {
      forall n | n in st.provingSet ensures n in st.sectors.Keys { }
    }
    ScaledIsProduct(|WithStateIn(st.sectorStates, st.sectors.Keys, {SectorActive})|, sectorSize);
  }

  /** `clearSector` takes the sector out of all three maps and drops its
      queue entry, keeping every other entry, and keeps the invariant. */
  lemma ClearedKeepsConsistent(st: MinerState, n: SectorNumber)
    requires Consistent(st)
    ensures var r := Cleared(st, n);
      && Consistent(r)
      && n !in r.sectors && n !in r.sectorStates && n !in r.provingSet
      && (forall x :: x in r.expirationQueue <==> x in st.expirationQueue && x.sectorNumber != n)
      && (forall m :: m in st.sectorStates && m != n ==> m in r.sectorStates && r.sectorStates[m] == st.sectorStates[m])
  {
    WithoutSorted(st.expirationQueue, {n});
    WithoutQueued(st.expirationQueue, {n});
  }

  /** `clearSector` as written leaves an entry for a sector that no longer
      exists, so the queue invariant fails after it. */
  lemma ClearedAsWrittenBreaksQueue(st: MinerState, n: SectorNumber)
    requires Consistent(st) && n in st.sectorStates
    ensures !Consistent(ClearedAsWritten(st, n))
  {
    assert n in QueuedSectors(ClearedAsWritten(st, n).expirationQueue);
  }

  /** `activateSector` on a sector of the proving set makes it Active with no
      faults; the proving set and every other sector stay. */
  lemma ActivatedKeepsConsistent(st: MinerState, n: SectorNumber)
    requires Consistent(st) && n in st.provingSet
    ensures var r := Activated(st, n);
      && Consistent(r)
      && r.sectorStates[n] == ActiveState()
      && r.provingSet == st.provingSet && r.sectors == st.sectors
      && (forall m :: m in st.sectorStates && m != n ==> r.sectorStates[m] == st.sectorStates[m])
  {
  }

  /** `failSector` does three things and nothing else: the sector is Failing,
      its fault count is one more, and it leaves the proving set. */
  lemma FailedKeepsConsistent(st: MinerState, n: SectorNumber)
    requires Consistent(st) && n in st.sectorStates
    ensures var r := Failed(st, n);
      && Consistent(r)
      && r.sectorStates[n] == SectorState(SectorFailing, st.sectorStates[n].faultCount + 1)
      && r.provingSet == st.provingSet - {n}
      && r.sectors == st.sectors && r.expirationQueue == st.expirationQueue
      && r.sectorStates.Keys == st.sectorStates.Keys
      && (forall m :: m in st.sectorStates && m != n ==> r.sectorStates[m] == st.sectorStates[m])
  {
  }

  /** `checkMFC` on a Failing sector: past the maximum the sector is gone from
      all three maps, otherwise it stays Failing with one more fault. */
  lemma MFCCheckedKeepsConsistent(st: MinerState, n: SectorNumber, max: nat)
    requires Consistent(st) && n in st.sectorStates && st.sectorStates[n].stateNumber == SectorFailing
    ensures var r := MFCChecked(st, n, max);
      && Consistent(r)
      && r.provingSet == st.provingSet
      && (st.sectorStates[n].faultCount + 1 > max <==> n !in r.sectorStates)
      && (n !in r.sectorStates ==>
            n !in r.sectors
            && (forall x :: x in r.expirationQueue <==> x in st.expirationQueue && x.sectorNumber != n))
      && (n in r.sectorStates ==>
            r.sectorStates[n] == SectorState(SectorFailing, st.sectorStates[n].faultCount + 1)
            && r.sectors == st.sectors && r.expirationQueue == st.expirationQueue)
  {
    if st.sectorStates[n].faultCount + 1 > max {
      ClearedKeepsConsistent(st, n);
    }
  }

  /** The body of `RecoverFaults` on a Failing sector: it is Recovering with
      the same fault count and back in the proving set. */
  lemma RecoveredKeepsConsistent(st: MinerState, n: SectorNumber)
    requires Consistent(st) && n in st.sectorStates && st.sectorStates[n].stateNumber == SectorFailing
    ensures var r := Recovered(st, n);
      && Consistent(r)
      && r.sectorStates[n] == SectorState(SectorRecovering, st.sectorStates[n].faultCount)
      && r.provingSet == st.provingSet + {n}
      && r.sectors == st.sectors && r.expirationQueue == st.expirationQueue
  {
  }

  /** A successful `RecoverFaults` keeps the invariant. */
  lemma RecoverFaultsKeepsConsistent(st: MinerState, recoveringSet: set<SectorNumber>)
    requires Consistent(st)
    ensures var r := RecoverFaultsOutcome(st, recoveringSet);
      r.Success? ==> Consistent(r.value)
  {
    if AllAccepted(st.sectorStates, recoveringSet, Recover) {
      ApplyPreservesConsistent(st, recoveringSet, Recover);
    }
  }

  /** A successful `DeclareFaults` keeps the invariant. */
  lemma DeclareFaultsKeepsConsistent(st: MinerState, faultSet: set<SectorNumber>, sectorSize: nat)
    requires Consistent(st)
    ensures var r := DeclareFaultsOutcome(st, faultSet, sectorSize);
      r.Success? ==> Consistent(r.value.state)
  {
    if AllAccepted(st.sectorStates, faultSet, Declare) {
      ApplyPreservesConsistent(st, faultSet, Declare);
    }
  }

  /** `CronAction` keeps the invariant. */
  lemma CronActionKeepsConsistent(st: MinerState, sectorSize: nat, max: nat)
    requires Consistent(st)
    ensures Consistent(CronActionOutcome(st, sectorSize, max).state)
  {
    ApplyPreservesConsistent(st, st.sectors.Keys, Cron(max));
  }

  /** Declaring as faulty the sectors just recovered puts each back to Failing
      with one more fault, returns the proving set to what it was, and moves
      no power, since none of them was Active. */
  lemma RecoverThenDeclare(st: MinerState, recoveringSet: set<SectorNumber>, sectorSize: nat, s1: MinerState)
    requires Consistent(st)
    requires RecoverFaultsOutcome(st, recoveringSet) == Success(s1)
    ensures var r := DeclareFaultsOutcome(s1, recoveringSet, sectorSize);
      && r.Success?
      && r.value.state.provingSet == st.provingSet
      && r.value.state.sectors == st.sectors
      && (forall n :: n in recoveringSet ==>
            r.value.state.sectorStates[n] == SectorState(SectorFailing, st.sectorStates[n].faultCount + 1))
      && (forall n :: n in st.sectorStates && n !in recoveringSet ==>
            r.value.state.sectorStates[n] == st.sectorStates[n])
      && r.value.powerDelta == 0
  {
    assert forall n :: n in recoveringSet ==> n in s1.sectorStates && s1.sectorStates[n].stateNumber == SectorRecovering;
    var r := DeclareFaultsOutcome(s1, recoveringSet, sectorSize);
    RecoverDeclareCompose(st, recoveringSet, s1, r.value.state);
    assert WithStateIn(s1.sectorStates, recoveringSet, {SectorActive}) == {};
  }

  /** The state side of `RecoverThenDeclare`, from what the two outcomes promise. */
  lemma RecoverDeclareCompose(st: MinerState, recoveringSet: set<SectorNumber>, s1: MinerState, s2: MinerState)
    requires ProvingSetMatches(st)
    requires forall n :: n in recoveringSet ==> n in st.sectorStates && st.sectorStates[n].stateNumber == SectorFailing
    requires s1.sectors == st.sectors && s1.sectorStates.Keys == st.sectorStates.Keys
    requires s1.provingSet == st.provingSet + recoveringSet
    requires forall n :: n in recoveringSet ==>
               s1.sectorStates[n] == SectorState(SectorRecovering, st.sectorStates[n].faultCount)
    requires forall n :: n in st.sectorStates && n !in recoveringSet ==> s1.sectorStates[n] == st.sectorStates[n]
    requires s2.sectors == s1.sectors && s2.sectorStates.Keys == s1.sectorStates.Keys
    requires s2.provingSet == s1.provingSet - recoveringSet
    requires forall n :: n in recoveringSet ==>
               s2.sectorStates[n] == SectorState(SectorFailing, s1.sectorStates[n].faultCount + 1)
    requires forall n :: n in s1.sectorStates && n !in recoveringSet ==> s2.sectorStates[n] == s1.sectorStates[n]
    ensures s2.provingSet == st.provingSet && s2.sectors == st.sectors
    ensures forall n :: n in recoveringSet ==>
              s2.sectorStates[n] == SectorState(SectorFailing, st.sectorStates[n].faultCount + 1)
    ensures forall n :: n in st.sectorStates && n !in recoveringSet ==> s2.sectorStates[n] == st.sectorStates[n]
  {
    assert st.provingSet !! recoveringSet by {
      forall n | n in recoveringSet ensures n !in st.provingSet { }
    }
  }

  /** What the first phase of `SubmitPoSt` leaves: the proving set's sectors
      are Active, the others untouched. */
  ghost predicate ActivatedFrom(st: MinerState, s1: MinerState)
  {
    && s1.sectors == st.sectors
    && s1.sectorStates.Keys == st.sectorStates.Keys
    && s1.provingSet == st.provingSet
    && st.provingSet <= st.sectorStates.Keys
    && s1.expirationQueue == st.expirationQueue
    && (forall n :: n in st.provingSet ==> s1.sectorStates[n].stateNumber == SectorActive)
    && (forall n :: n in st.sectorStates && n !in st.provingSet ==> s1.sectorStates[n] == st.sectorStates[n])
  }

  lemma ActivatePhase(st: MinerState)
    requires Consistent(st)
    ensures ActivatedFrom(st, ApplyToState(st, st.provingSet, Activate))
  {
    assert st.sectorStates.Keys - ApplyToState(st, st.provingSet, Activate).sectorStates.Keys == {};
    WithoutNothing(st.expirationQueue, {});
  }

  /** What the second phase of `SubmitPoSt` leaves: each unproved sector counts
      a fault and is gone when the count passes the maximum; proved sectors are untouched. */
  ghost predicate CheckedFrom(s1: MinerState, s2: MinerState, max: nat)
  {
    && s2.provingSet == s1.provingSet
    && s2.expirationQueue == Without(s1.expirationQueue, s1.sectorStates.Keys - s2.sectorStates.Keys)
    && s2.sectorStates.Keys <= s1.sectorStates.Keys
    && (forall n :: n in s1.provingSet ==> n in s2.sectorStates && s2.sectorStates[n] == s1.sectorStates[n])
    && (forall n :: n in Zeros(s1) ==>
          (n in s2.sectorStates <==> s1.sectorStates[n].faultCount + 1 <= max)
          && (n in s2.sectorStates ==> s2.sectorStates[n] == SectorState(SectorFailing, s1.sectorStates[n].faultCount + 1)))
  }

  lemma CheckPhase(s1: MinerState, max: nat)
    requires Consistent(s1)
    ensures CheckedFrom(s1, ApplyToState(s1, Zeros(s1), MaxFaultCheck(max)), max)
  {
    var s2 := ApplyToState(s1, Zeros(s1), MaxFaultCheck(max));
    assert s2.provingSet == s1.provingSet by {
      forall n | n in s1.provingSet ensures n in s2.sectorStates { }
    }
  }

  /** The sector states a successful `SubmitPoSt` leaves (see `SubmitPoStEffects`). */
  ghost predicate PoStStates(st: MinerState, s: MinerState, currEpoch: ChainEpoch, max: nat)
  {
    PoStQueueState(st, s, currEpoch) && PoStSectorStates(st, s, max)
  }

  /** The invariant holds, nothing due is left, and the queue lost exactly
      the entries of the sectors that are gone. */
  ghost predicate PoStQueueState(st: MinerState, s: MinerState, currEpoch: ChainEpoch)
  {
    && Consistent(s)
    && (s.expirationQueue == [] || s.expirationQueue[0].expiration > currEpoch)
    && s.sectorStates.Keys <= st.sectorStates.Keys
    && s.expirationQueue == Without(st.expirationQueue, st.sectorStates.Keys - s.sectorStates.Keys)
  }

  /** A surviving proved sector is Active with no faults and in the proving
      set; a surviving unproved one is Failing with one more fault, at most the maximum. */
  ghost predicate PoStSectorStates(st: MinerState, s: MinerState, max: nat)
  {
    && (forall n :: n in s.sectorStates && n in st.provingSet ==>
          s.sectorStates[n].stateNumber == SectorActive && s.sectorStates[n].faultCount == 0 && n in s.provingSet)
    && (forall n :: n in s.sectorStates && n !in st.provingSet ==>
          && n in st.sectorStates
          && s.sectorStates[n] == SectorState(SectorFailing, st.sectorStates[n].faultCount + 1)
          && s.sectorStates[n].faultCount <= max)
  }

  /** Which sectors a successful `SubmitPoSt` keeps: exactly those without a
      due queue entry that were proved, or whose fault count stays within the
      maximum. */
  ghost predicate PoStSurvivors(st: MinerState, s: MinerState, currEpoch: ChainEpoch, max: nat)
  {
    forall n :: n in st.sectorStates ==>
      (n in s.sectorStates <==>
         n !in DueSectors(st.expirationQueue, currEpoch)
         && (n in st.provingSet || st.sectorStates[n].faultCount + 1 <= max))
  }

  /** The power change of a successful `SubmitPoSt`: `sectorSize` for each proved
      Committed or Recovering sector, less `sectorSize` for each proved sector that expired. */
  ghost predicate PoStPower(st: MinerState, s: MinerState, delta: int, sectorSize: nat)
  {
    delta == sectorSize * |WithStateIn(st.sectorStates, st.provingSet, {SectorCommitted, SectorRecovering})|
             - sectorSize * |(st.sectorStates.Keys - s.sectorStates.Keys) * st.provingSet|
  }

  /** Chains the three phases of `SubmitPoSt`, each given by what its lemma states. */
  lemma PoStPhases(st: MinerState, s1: MinerState, s2: MinerState, s: MinerState, delta: int,
                   currEpoch: ChainEpoch, sectorSize: nat, max: nat)
    requires Consistent(st)
    requires ActivatedFrom(st, s1)
    requires CheckedFrom(s1, s2, max)
    requires ExpiredFrom(s2, s, delta, currEpoch, sectorSize,
                         PowerOf(st.sectorStates, st.provingSet, {SectorCommitted, SectorRecovering}, sectorSize))
    ensures PoStStates(st, s, currEpoch, max)
  {
    PoStQueue(st.expirationQueue, st.sectorStates.Keys, s2.sectorStates.Keys, s.sectorStates.Keys);
    assert PoStQueueState(st, s, currEpoch);
    PoStPhasesSectors(st, s1, s2, s, max);
  }

  lemma PoStPhasesSectors(st: MinerState, s1: MinerState, s2: MinerState, s: MinerState, max: nat)
    requires ActivatedFrom(st, s1)
    requires CheckedFrom(s1, s2, max)
    requires forall n :: n in s.sectorStates ==> n in s2.sectorStates && s.sectorStates[n] == s2.sectorStates[n]
    requires ProvingSetMatches(s) && ActiveHasNoFaults(s)
    ensures PoStSectorStates(st, s, max)
  {
  }

  /** Dropping the sectors phase two removed and then those phase three
      removed is dropping every sector that is gone. */
  lemma PoStQueue(q: seq<ExpirationItem>, k0: set<SectorNumber>, k2: set<SectorNumber>, k: set<SectorNumber>)
    requires k <= k2 <= k0
    ensures Without(Without(q, k0 - k2), k2 - k) == Without(q, k0 - k)
  {
    WithoutWithout(q, k0 - k2, k2 - k);
    assert (k0 - k2) + (k2 - k) == k0 - k;
  }

  /** The survivors of the three phases: phase two removes the unproved
      sectors past the maximum and their entries, so the due set phase three
      sees is the original one without them. */
  lemma PoStSurvivorsHold(st: MinerState, s1: MinerState, s2: MinerState, s: MinerState,
                          currEpoch: ChainEpoch, max: nat)
    requires ActivatedFrom(st, s1)
    requires CheckedFrom(s1, s2, max)
    requires s.sectorStates.Keys == s2.sectorStates.Keys - DueSectors(s2.expirationQueue, currEpoch)
    ensures PoStSurvivors(st, s, currEpoch, max)
  {
    DueWithout(st.expirationQueue, s1.sectorStates.Keys - s2.sectorStates.Keys, currEpoch);
  }

  /** The Active sectors that expired in the third phase are exactly the
      proved sectors that are gone: the second phase removes no proved sector. */
  lemma ExpiredWereProven(st: MinerState, s1: MinerState, s2: MinerState, s: MinerState, max: nat)
    requires ActivatedFrom(st, s1)
    requires CheckedFrom(s1, s2, max)
    requires s.sectorStates.Keys <= s2.sectorStates.Keys
    ensures WithStateIn(s2.sectorStates, s2.sectorStates.Keys - s.sectorStates.Keys, {SectorActive})
            == (st.sectorStates.Keys - s.sectorStates.Keys) * st.provingSet
  {
  }

  lemma PoStPhasesPower(st: MinerState, s2: MinerState, s: MinerState, delta: int, sectorSize: nat)
    requires delta == PowerOf(st.sectorStates, st.provingSet, {SectorCommitted, SectorRecovering}, sectorSize)
                      - PowerOf(s2.sectorStates, s2.sectorStates.Keys - s.sectorStates.Keys, {SectorActive}, sectorSize)
    requires WithStateIn(s2.sectorStates, s2.sectorStates.Keys - s.sectorStates.Keys, {SectorActive})
             == (st.sectorStates.Keys - s.sectorStates.Keys) * st.provingSet
    ensures PoStPower(st, s, delta, sectorSize)
  {
    var activated := WithStateIn(st.sectorStates, st.provingSet, {SectorCommitted, SectorRecovering});
    var expiredProven := (st.sectorStates.Keys - s.sectorStates.Keys) * st.provingSet;
    ScaledIsProduct(|activated|, sectorSize);
    ScaledIsProduct(|expiredProven|, sectorSize);
  }

  /** The first two phases of `SubmitPoSt` keep the invariant and leave what
      `ActivatedFrom` and `CheckedFrom` describe. */
  lemma PoStFirstPhases(st: MinerState, max: nat)
    requires Consistent(st)
    ensures var s1 := ApplyToState(st, st.provingSet, Activate);
      && ActivatedFrom(st, s1)
      && CheckedFrom(s1, ApplyToState(s1, Zeros(s1), MaxFaultCheck(max)), max)
      && Consistent(ApplyToState(s1, Zeros(s1), MaxFaultCheck(max)))
  {
    var s1 := ApplyToState(st, st.provingSet, Activate);
    ApplyPreservesConsistent(st, st.provingSet, Activate);
    ActivatePhase(st);
    ApplyPreservesConsistent(s1, Zeros(s1), MaxFaultCheck(max));
    CheckPhase(s1, max);
  }

  /** The three phases of `SubmitPoSt` chained, on states given by what the phases leave. */
  lemma PoStChain(st: MinerState, s1: MinerState, s2: MinerState, s: MinerState, delta: int,
                  currEpoch: ChainEpoch, sectorSize: nat, max: nat)
    requires Consistent(st) && Consistent(s2)
    requires ActivatedFrom(st, s1) && CheckedFrom(s1, s2, max)
    requires ExpireFrom(s2, currEpoch, sectorSize,
                        PowerOf(st.sectorStates, st.provingSet, {SectorCommitted, SectorRecovering}, sectorSize))
             == Success(Transition(s, delta))
    ensures PoStStates(st, s, currEpoch, max) && PoStSurvivors(st, s, currEpoch, max)
    ensures PoStPower(st, s, delta, sectorSize)
  {
    ExpireFromFacts(s2, currEpoch, sectorSize,
                    PowerOf(st.sectorStates, st.provingSet, {SectorCommitted, SectorRecovering}, sectorSize));
    PoStPhases(st, s1, s2, s, delta, currEpoch, sectorSize, max);
    PoStSurvivorsHold(st, s1, s2, s, currEpoch, max);
    ExpiredWereProven(st, s1, s2, s, max);
    PoStPhasesPower(st, s2, s, delta, sectorSize);
  }

  /** A successful `SubmitPoSt`: the invariant holds, nothing due is left in the
      queue, every surviving proved sector is Active with no faults and in the
      proving set, every surviving unproved sector is Failing with one more
      fault and at most the maximum, and the power change is the power gained
      by activation less the power of the proved sectors that expired. */
  lemma SubmitPoStEffects(st: MinerState, currEpoch: ChainEpoch, sectorSize: nat, max: nat, s: MinerState, delta: int)
    requires Consistent(st)
    requires SubmitPoStOutcome(st, true, currEpoch, sectorSize, max) == Success(Transition(s, delta))
    ensures PoStStates(st, s, currEpoch, max) && PoStSurvivors(st, s, currEpoch, max)
    ensures PoStPower(st, s, delta, sectorSize)
  {
    var s1 := ApplyToState(st, st.provingSet, Activate);
    var s2 := ApplyToState(s1, Zeros(s1), MaxFaultCheck(max));
    PoStFirstPhases(st, max);
    PoStChain(st, s1, s2, s, delta, currEpoch, sectorSize, max);
  }

  /** On a consistent state whose sectors are all Active or Failing, the
      expiration phase never aborts: every entry it pops names a live sector. */
  lemma {:induction false} ExpireFromSucceeds(st: MinerState, currEpoch: ChainEpoch, sectorSize: nat, acc: int)
    requires Consistent(st)
    requires forall n :: n in st.sectorStates ==> st.sectorStates[n].stateNumber in {SectorActive, SectorFailing}
    ensures ExpireFrom(st, currEpoch, sectorSize, acc).Success?
    decreases |st.expirationQueue|
  {
    var q := st.expirationQueue;
    if q != [] && q[0].expiration <= currEpoch {
      var n := q[0].sectorNumber;
      assert n in QueuedSectors(q);
      PopClearedConsistent(st);
      var acc' := if st.sectorStates[n].stateNumber == SectorActive then acc - sectorSize else acc;
      ExpireFromSucceeds(Cleared(st.(expirationQueue := q[1..]), n), currEpoch, sectorSize, acc');
    }
  }

  /** On a consistent state `SubmitPoSt` aborts exactly when the proof is not
      verified: after the first two phases every sector is Active or Failing. */
  lemma SubmitPoStSucceeds(st: MinerState, postVerified: bool, currEpoch: ChainEpoch, sectorSize: nat, max: nat)
    requires Consistent(st)
    ensures SubmitPoStOutcome(st, postVerified, currEpoch, sectorSize, max).Success? <==> postVerified
  {
    if postVerified {
      var s1 := ApplyToState(st, st.provingSet, Activate);
      var s2 := ApplyToState(s1, Zeros(s1), MaxFaultCheck(max));
      PoStFirstPhases(st, max);
      ExpireFromSucceeds(s2, currEpoch, sectorSize,
                         PowerOf(st.sectorStates, st.provingSet, {SectorCommitted, SectorRecovering}, sectorSize));
    }
  }

  /** As written, clearing a sector whose entry is at the head of the queue
      and due makes the expiration phase abort on that entry. */
  lemma StaleHeadAborts(st: MinerState, currEpoch: ChainEpoch, sectorSize: nat, acc: int)
    requires st.expirationQueue != [] && st.expirationQueue[0].expiration <= currEpoch
    ensures ExpireFrom(ClearedAsWritten(st, st.expirationQueue[0].sectorNumber), currEpoch, sectorSize, acc)
            == Failure(InvalidStateInExpirationQueue)
  {
  }

  /** One Failing sector, not proved, already at the maximum of 0 faults, with
      its entry due at epoch 10.  The second phase of `SubmitPoSt` clears it;
      as written its entry stays, and the third phase aborts on it.  With the
      entry dropped the same verified proof succeeds. */
  lemma StaleEntryAbortsPoSt()
    ensures var st := MinerState(map[5 := SealCommitment([], [], [])], map[5 := SectorState(SectorFailing, 0)],
                                 {}, [ExpirationItem(5, 10)]);
      && Consistent(st)
      && Zeros(st) == {5} && st.sectorStates[5].faultCount + 1 > 0
      && ExpireFrom(ClearedAsWritten(st, 5), 10, 1, 0) == Failure(InvalidStateInExpirationQueue)
      && SubmitPoStOutcome(st, true, 10, 1, 0).Success?
  {
    var st := MinerState(map[5 := SealCommitment([], [], [])], map[5 := SectorState(SectorFailing, 0)],
                         {}, [ExpirationItem(5, 10)]);
    assert QueuedSectors(st.expirationQueue) == {5} by {
      assert st.expirationQueue[1..] == [];
    }
    StaleHeadAborts(st, 10, 1, 0);
    SubmitPoStSucceeds(st, true, 10, 1, 0);
  }

  // ---------------------------------------------------------------------------
  // The actor

  class StorageMinerActor {
    var sectors: map<SectorNumber, SealCommitment>
    var sectorStates: map<SectorNumber, SectorState>
    var provingSet: set<SectorNumber>
    var expirationQueue: seq<ExpirationItem>
    const sectorSize: nat
    const maxConsecutiveFaultCount: nat

    function State(): MinerState
      reads this
    {
      MinerState(sectors, sectorStates, provingSet, expirationQueue)
    }

    ghost predicate Valid()
      reads this
    {
      Consistent(State())
    }

    constructor (sectorSize: nat, maxConsecutiveFaultCount: nat)
      ensures Valid()
      ensures State() == MinerState(map[], map[], {}, [])
      ensures this.sectorSize == sectorSize && this.maxConsecutiveFaultCount == maxConsecutiveFaultCount
    {
      sectors := map[];
      sectorStates := map[];
      provingSet := {};
      expirationQueue := [];
      this.sectorSize := sectorSize;
      this.maxConsecutiveFaultCount := maxConsecutiveFaultCount;
    }

    /** Puts back the fields saved when an operation started: an abort reverts the actor. */
    method Restore(saved: MinerState)
      modifies this
      ensures State() == saved
    {
      sectors := saved.sectors;
      sectorStates := saved.sectorStates;
      provingSet := saved.provingSet;
      expirationQueue := saved.expirationQueue;
    }

    method ClearSector(sectorNo: SectorNumber)
      modifies this
      ensures State() == Cleared(old(State()), sectorNo)
    {
      sectors := sectors - {sectorNo};
      sectorStates := sectorStates - {sectorNo};
      provingSet := provingSet - {sectorNo};
      expirationQueue := Without(expirationQueue, {sectorNo});
    }

    method ActivateSector(sectorNo: SectorNumber)
      modifies this
      ensures State() == Activated(old(State()), sectorNo)
    {
      sectorStates := sectorStates[sectorNo := ActiveState()];
    }

    method FailSector(sectorNo: SectorNumber)
      requires sectorNo in sectorStates
      modifies this
      ensures State() == Failed(old(State()), sectorNo)
    {
      var newFaultCount := sectorStates[sectorNo].faultCount + 1;
      sectorStates := sectorStates[sectorNo := SectorState(SectorFailing, newFaultCount)];
      provingSet := provingSet - {sectorNo};
    }

    method CheckMFC(sectorNo: SectorNumber)
      requires sectorNo in sectorStates
      modifies this
      ensures State() == MFCChecked(old(State()), sectorNo, maxConsecutiveFaultCount)
    {
      var newFaultCount := sectorStates[sectorNo].faultCount + 1;
      if newFaultCount > maxConsecutiveFaultCount {
        ClearSector(sectorNo);
      } else {
        sectorStates := sectorStates[sectorNo := SectorState(SectorFailing, newFaultCount)];
      }
    }

    method CheckIfSectorExists(sectorNo: SectorNumber) returns (b: bool)
      ensures b <==> sectorNo in sectors
    {
      b := sectorNo in sectors;
    }
    /** The body of `DeclareFaults`' loop for a sector that is not Failing:
        it fails, and an Active sector gives up its power.  `s0` and `done`
        say which sectors the loop has already processed. */
    method DeclareSector(sectorNo: SectorNumber, ghost s0: MinerState, ghost done: set<SectorNumber>)
      returns (debit: nat)
      requires sectorNo in s0.sectorStates && sectorNo !in done
      requires sectorNo in s0.provingSet <==> IsProving(s0.sectorStates[sectorNo].stateNumber)
      requires s0.sectorStates[sectorNo].stateNumber != SectorFailing
      requires State() == ApplyToState(s0, done, Declare)
      modifies this
      ensures State() == ApplyToState(s0, done + {sectorNo}, Declare)
      ensures debit == PowerOf(s0.sectorStates, done + {sectorNo}, {SectorActive}, sectorSize)
                       - PowerOf(s0.sectorStates, done, {SectorActive}, sectorSize)
    {
      ApplyStep(s0, done, sectorNo, Declare);
      PowerOfAdd(s0.sectorStates, done, sectorNo, {SectorActive}, sectorSize);
      debit := 0;
      var state := sectorStates[sectorNo];
      match state.stateNumber {
        case SectorCommitted =>
          FailSector(sectorNo);
        case SectorRecovering =>
          FailSector(sectorNo);
        case SectorActive =>
          FailSector(sectorNo);
          debit := sectorSize;
      }
    }

    /** The body of `CronAction`'s loop: the sector missed its proof. */
    method CronSector(sectorNo: SectorNumber, ghost s0: MinerState, ghost done: set<SectorNumber>) returns (debit: nat)
      requires sectorNo in s0.sectorStates && sectorNo !in done
      requires sectorNo in s0.provingSet <==> IsProving(s0.sectorStates[sectorNo].stateNumber)
      requires State() == ApplyToState(s0, done, Cron(maxConsecutiveFaultCount))
      modifies this
      ensures State() == ApplyToState(s0, done + {sectorNo}, Cron(maxConsecutiveFaultCount))
      ensures debit == PowerOf(s0.sectorStates, done + {sectorNo}, {SectorActive}, sectorSize)
                       - PowerOf(s0.sectorStates, done, {SectorActive}, sectorSize)
    {
      ApplyStep(s0, done, sectorNo, Cron(maxConsecutiveFaultCount));
      PowerOfAdd(s0.sectorStates, done, sectorNo, {SectorActive}, sectorSize);
      debit := 0;
      var state := sectorStates[sectorNo];
      match state.stateNumber {
        case SectorCommitted =>
          FailSector(sectorNo);
        case SectorRecovering =>
          FailSector(sectorNo);
          if sectorStates[sectorNo].faultCount > maxConsecutiveFaultCount {
            ClearSector(sectorNo);
          }
        case SectorActive =>
          FailSector(sectorNo);
          debit := sectorSize;
        case SectorFailing =>
          CheckMFC(sectorNo);
      }
    }

    /** The body of `SubmitPoSt`'s first loop for a sector of the proving set:
        Committed and Recovering sectors become Active and gain power. */
    method ProveSector(sectorNo: SectorNumber, ghost s0: MinerState, ghost done: set<SectorNumber>)
      returns (credit: nat)
      requires sectorNo in s0.sectorStates && sectorNo !in done
      requires sectorNo in s0.provingSet <==> IsProving(s0.sectorStates[sectorNo].stateNumber)
      requires s0.sectorStates[sectorNo].stateNumber != SectorFailing
      requires State() == ApplyToState(s0, done, Activate)
      modifies this
      ensures State() == ApplyToState(s0, done + {sectorNo}, Activate)
      ensures credit == PowerOf(s0.sectorStates, done + {sectorNo}, {SectorCommitted, SectorRecovering}, sectorSize)
                        - PowerOf(s0.sectorStates, done, {SectorCommitted, SectorRecovering}, sectorSize)
    {
      ApplyStep(s0, done, sectorNo, Activate);
      PowerOfAdd(s0.sectorStates, done, sectorNo, {SectorCommitted, SectorRecovering}, sectorSize);
      credit := 0;
      var state := sectorStates[sectorNo];
      match state.stateNumber {
        case SectorCommitted =>
          ActivateSector(sectorNo);
          credit := sectorSize;
        case SectorRecovering =>
          ActivateSector(sectorNo);
          credit := sectorSize;
        case SectorActive =>
      }
    }

    /** The body of `SubmitPoSt`'s second loop: a sector outside the proving
        set (always Failing) counts another fault. */
    method CheckUnprovenSector(sectorNo: SectorNumber, ghost s0: MinerState, ghost done: set<SectorNumber>)
      requires sectorNo in s0.sectorStates && sectorNo !in done
      requires s0.sectorStates[sectorNo].stateNumber == SectorFailing && sectorNo !in s0.provingSet
      requires State() == ApplyToState(s0, done, MaxFaultCheck(maxConsecutiveFaultCount))
      modifies this
      ensures State() == ApplyToState(s0, done + {sectorNo}, MaxFaultCheck(maxConsecutiveFaultCount))
    {
      ApplyStep(s0, done, sectorNo, MaxFaultCheck(maxConsecutiveFaultCount));
      var state := sectorStates[sectorNo];
      match state.stateNumber {
        case SectorFailing =>
          CheckMFC(sectorNo);
      }
    }

    method CommitSector(info: OnChainSealVerifyInfo, sealVerified: bool, lastDealExpiration: ChainEpoch)
      returns (r: Outcome<MinerAbort>)
      requires Valid()
      modifies this
      ensures Valid()
      ensures var o := CommitSectorOutcome(old(State()), info, sealVerified, lastDealExpiration);
        && (o.Success? ==> r == Pass && State() == o.value.state)
        && (o.Failure? ==> r == Fail(o.error) && State() == old(State()))
    {
      CommitSectorKeepsConsistent(State(), info, sealVerified, lastDealExpiration);
      if !sealVerified {
        return Fail(SealNotVerified);
      }
      var sectorExists := CheckIfSectorExists(info.sectorNumber);
      if sectorExists {
        return Fail(SectorAlreadyExists);
      }
      var sealCommitment := SealCommitment(info.unsealedCID, info.sealedCID, info.dealIDs);
      sectors := sectors[info.sectorNumber := sealCommitment];
      sectorStates := sectorStates[info.sectorNumber := CommittedState()];
      provingSet := provingSet + {info.sectorNumber};
      expirationQueue := Enqueue(expirationQueue, ExpirationItem(info.sectorNumber, lastDealExpiration));
      r := Pass;
    }

    /** The loop of `RecoverFaults`.  On an abort the fields are left part-way;
        `RecoverFaults` reverts them. */
    method RecoverFaultsLoop(recoveringSet: set<SectorNumber>) returns (r: Outcome<MinerAbort>)
      requires ProvingSetMatches(State())
      modifies this
      ensures var o := RecoverFaultsOutcome(old(State()), recoveringSet);
        && (o.Success? ==> r == Pass && State() == o.value)
        && (o.Failure? ==> r == Fail(o.error))
    {
      ghost var s0 := State();
      var todo := recoveringSet;
      ghost var done: set<SectorNumber> := {};
      ApplyNothing(s0, Recover);
      while todo != {}
        invariant todo + done == recoveringSet && todo !! done
        invariant AllAccepted(s0.sectorStates, done, Recover)
        invariant State() == ApplyToState(s0, done, Recover)
        decreases todo
      {
        var sectorNo :| sectorNo in todo;
        ApplyUntouched(s0, done, sectorNo, Recover);
        if sectorNo !in sectorStates {
          return Fail(InvalidStateInRecoverFaults);
        }
        ApplyStep(s0, done, sectorNo, Recover);
        var state := sectorStates[sectorNo];
        match state.stateNumber {
          case SectorFailing =>
            sectorStates := sectorStates[sectorNo := SectorState(SectorRecovering, state.faultCount)];
            provingSet := provingSet + {sectorNo};
          case _ =>
            return Fail(InvalidStateInRecoverFaults);
        }
        todo := todo - {sectorNo};
        done := done + {sectorNo};
      }
      r := Pass;
    }

    method RecoverFaults(recoveringSet: set<SectorNumber>) returns (r: Outcome<MinerAbort>)
      requires Valid()
      modifies this
      ensures Valid()
      ensures var o := RecoverFaultsOutcome(old(State()), recoveringSet);
        && (o.Success? ==> r == Pass && State() == o.value)
        && (o.Failure? ==> r == Fail(o.error) && State() == old(State()))
    {
      var saved := State();
      r := RecoverFaultsLoop(recoveringSet);
      if r.Fail? {
        Restore(saved);
      } else {
        ApplyPreservesConsistent(saved, recoveringSet, Recover);
      }
    }

    /** The loop of `DeclareFaults`.  On an abort the fields are left part-way;
        `DeclareFaults` reverts them. */
    method DeclareFaultsLoop(faultSet: set<SectorNumber>) returns (r: Outcome<MinerAbort>, powerUpdate: int)
      requires ProvingSetMatches(State())
      modifies this
      ensures var o := DeclareFaultsOutcome(old(State()), faultSet, sectorSize);
        && (o.Success? ==> r == Pass && State() == o.value.state && powerUpdate == o.value.powerDelta)
        && (o.Failure? ==> r == Fail(o.error))
    {
      ghost var s0 := State();
      powerUpdate := 0;
      var todo := faultSet;
      ghost var done: set<SectorNumber> := {};
      ApplyNothing(s0, Declare);
      PowerOfNone(s0.sectorStates, {SectorActive}, sectorSize);
      while todo != {}
        invariant todo + done == faultSet && todo !! done
        invariant AllAccepted(s0.sectorStates, done, Declare)
        invariant State() == ApplyToState(s0, done, Declare)
        invariant powerUpdate == -PowerOf(s0.sectorStates, done, {SectorActive}, sectorSize)
        decreases todo
      {
        var sectorNo :| sectorNo in todo;
        ApplyUntouched(s0, done, sectorNo, Declare);
        if sectorNo !in sectorStates || sectorStates[sectorNo].stateNumber == SectorFailing {
          return Fail(InvalidStateInDeclareFaults), 0;
        }
        var debit := DeclareSector(sectorNo, s0, done);
        powerUpdate := powerUpdate - debit;
        todo := todo - {sectorNo};
        done := done + {sectorNo};
      }
      r := Pass;
    }

    method DeclareFaults(faultSet: set<SectorNumber>) returns (r: Outcome<MinerAbort>, powerUpdate: int)
      requires Valid()
      modifies this
      ensures Valid()
      ensures var o := DeclareFaultsOutcome(old(State()), faultSet, sectorSize);
        && (o.Success? ==> r == Pass && State() == o.value.state && powerUpdate == o.value.powerDelta)
        && (o.Failure? ==> r == Fail(o.error) && State() == old(State()))
    {
      var saved := State();
      r, powerUpdate := DeclareFaultsLoop(faultSet);
      if r.Fail? {
        Restore(saved);
        powerUpdate := 0;
      } else {
        ApplyPreservesConsistent(saved, faultSet, Declare);
      }
    }

    /** The loop of `CronAction`. */
    method CronActionLoop() returns (powerUpdate: int)
      requires sectors.Keys == sectorStates.Keys && ProvingSetMatches(State())
      modifies this
      ensures var t := CronActionOutcome(old(State()), sectorSize, maxConsecutiveFaultCount);
        State() == t.state && powerUpdate == t.powerDelta
    {
      ghost var s0 := State();
      powerUpdate := 0;
      var todo := sectors.Keys;
      ghost var done: set<SectorNumber> := {};
      ApplyNothing(s0, Cron(maxConsecutiveFaultCount));
      PowerOfNone(s0.sectorStates, {SectorActive}, sectorSize);
      while todo != {}
        invariant todo + done == s0.sectors.Keys && todo !! done
        invariant State() == ApplyToState(s0, done, Cron(maxConsecutiveFaultCount))
        invariant powerUpdate == -PowerOf(s0.sectorStates, done, {SectorActive}, sectorSize)
        decreases todo
      {
        var sectorNo :| sectorNo in todo;
        var debit := CronSector(sectorNo, s0, done);
        powerUpdate := powerUpdate - debit;
        todo := todo - {sectorNo};
        done := done + {sectorNo};
      }
    }

    method CronAction() returns (powerUpdate: int)
      requires Valid()
      modifies this
      ensures Valid()
      ensures var t := CronActionOutcome(old(State()), sectorSize, maxConsecutiveFaultCount);
        State() == t.state && powerUpdate == t.powerDelta
    {
      ghost var s0 := State();
      powerUpdate := CronActionLoop();
      ApplyPreservesConsistent(s0, s0.sectors.Keys, Cron(maxConsecutiveFaultCount));
    }

    /** The first phase of `SubmitPoSt`: every sector of the proving set was proved. */
    method ActivateProvingSet() returns (gained: int)
      requires ProvingSetMatches(State())
      modifies this
      ensures State() == ApplyToState(old(State()), old(provingSet), Activate)
      ensures gained == PowerOf(old(sectorStates), old(provingSet), {SectorCommitted, SectorRecovering}, sectorSize)
    {
      ghost var s0 := State();
      gained := 0;
      var todo := provingSet;
      ghost var done: set<SectorNumber> := {};
      ApplyNothing(s0, Activate);
      PowerOfNone(s0.sectorStates, {SectorCommitted, SectorRecovering}, sectorSize);
      while todo != {}
        invariant todo + done == s0.provingSet && todo !! done
        invariant State() == ApplyToState(s0, done, Activate)
        invariant gained == PowerOf(s0.sectorStates, done, {SectorCommitted, SectorRecovering}, sectorSize)
        decreases todo
      {
        var sectorNo :| sectorNo in todo;
        var credit := ProveSector(sectorNo, s0, done);
        gained := gained + credit;
        todo := todo - {sectorNo};
        done := done + {sectorNo};
      }
    }

    /** The second phase of `SubmitPoSt`: the sectors outside the proving set
        (`GetZeros`) were not proved. */
    method CheckUnprovenSectors()
      requires ProvingSetMatches(State())
      modifies this
      ensures State() == ApplyToState(old(State()), Zeros(old(State())), MaxFaultCheck(maxConsecutiveFaultCount))
    {
      ghost var s0 := State();
      var zeros := sectorStates.Keys - provingSet;
      var todo := zeros;
      ghost var done: set<SectorNumber> := {};
      ApplyNothing(s0, MaxFaultCheck(maxConsecutiveFaultCount));
      while todo != {}
        invariant todo + done == Zeros(s0) && todo !! done
        invariant State() == ApplyToState(s0, done, MaxFaultCheck(maxConsecutiveFaultCount))
        decreases todo
      {
        var sectorNo :| sectorNo in todo;
        CheckUnprovenSector(sectorNo, s0, done);
        todo := todo - {sectorNo};
        done := done + {sectorNo};
      }
    }

    /** The third phase of `SubmitPoSt`: pops every queue entry due at
        `currEpoch`.  On an abort the fields are left part-way; `SubmitPoSt`
        reverts them. */
    method ExpireSectors(currEpoch: ChainEpoch, acc: int) returns (r: Outcome<MinerAbort>, powerUpdate: int)
      modifies this
      ensures var o := ExpireFrom(old(State()), currEpoch, sectorSize, acc);
        && (o.Success? ==> r == Pass && State() == o.value.state && powerUpdate == o.value.powerDelta)
        && (o.Failure? ==> r == Fail(o.error))
    {
      powerUpdate := acc;
      while expirationQueue != [] && expirationQueue[0].expiration <= currEpoch
        invariant ExpireFrom(State(), currEpoch, sectorSize, powerUpdate)
                  == ExpireFrom(old(State()), currEpoch, sectorSize, acc)
        decreases |expirationQueue|
      {
        ghost var before := State();
        var expiredSectorNo := expirationQueue[0].sectorNumber;
        expirationQueue := expirationQueue[1..];
        ghost var popped := State();
        if expiredSectorNo !in sectorStates {
          assert ExpireFrom(before, currEpoch, sectorSize, powerUpdate) == Failure(InvalidStateInExpirationQueue);
          return Fail(InvalidStateInExpirationQueue), 0;
        }
        var state := sectorStates[expiredSectorNo];
        match state.stateNumber {
          case SectorActive =>
            assert ExpireFrom(before, currEpoch, sectorSize, powerUpdate)
                == ExpireFrom(Cleared(popped, expiredSectorNo), currEpoch, sectorSize, powerUpdate - sectorSize);
            ClearSector(expiredSectorNo);
            powerUpdate := powerUpdate - sectorSize;
          case SectorFailing =>
            assert ExpireFrom(before, currEpoch, sectorSize, powerUpdate)
                == ExpireFrom(Cleared(popped, expiredSectorNo), currEpoch, sectorSize, powerUpdate);
            ClearSector(expiredSectorNo);
          case _ =>
            assert ExpireFrom(before, currEpoch, sectorSize, powerUpdate) == Failure(InvalidStateInExpirationQueue);
            return Fail(InvalidStateInExpirationQueue), 0;
        }
      }
      r := Pass;
    }

    method SubmitPoSt(postVerified: bool, currEpoch: ChainEpoch) returns (r: Outcome<MinerAbort>, powerUpdate: int)
      requires Valid()
      modifies this
      ensures Valid()
      ensures var o := SubmitPoStOutcome(old(State()), postVerified, currEpoch, sectorSize, maxConsecutiveFaultCount);
        && (o.Success? ==> r == Pass && State() == o.value.state && powerUpdate == o.value.powerDelta)
        && (o.Failure? ==> r == Fail(o.error) && State() == old(State()))
    {
      if !postVerified {
        return Fail(PoStNotVerified), 0;
      }
      var saved := State();
      var gained := ActivateProvingSet();
      ApplyPreservesConsistent(saved, saved.provingSet, Activate);
      ghost var s1 := State();
      CheckUnprovenSectors();
      ApplyPreservesConsistent(s1, Zeros(s1), MaxFaultCheck(maxConsecutiveFaultCount));
      ExpireFromFacts(State(), currEpoch, sectorSize, gained);
      r, powerUpdate := ExpireSectors(currEpoch, gained);
      if r.Fail? {
        Restore(saved);
        powerUpdate := 0;
      }
    }
  }
}
