/** The storage power consensus subsystem: block validation, the election
    proof's liveness bound and winning inequality, the randomness lookbacks,
    and the consensus view of the power table.  VRF verification, tipset
    weight, the chain's tickets and the clock are collaborators gathered in
    `ConsensusEnv`. */
module StoragePowerConsensus {
  import opened Util
  import opened MapSum

  /** Lookback offsets, in epochs, of the four randomness sources. */
  const SPC_LOOKBACK_RANDOMNESS: int := 300
  const SPC_LOOKBACK_TICKET: int := 1
  const SPC_LOOKBACK_POST: int := -1
  const SPC_LOOKBACK_SEAL: int := -1

  /** Domain-separation tags prefixed to VRF inputs (`VRFPersonalization`). */
  const TICKET_PERSONALIZATION: byte := 0
  const ELECTION_PROOF_PERSONALIZATION: byte := 1

  type PublicKey = Bytes

  /** One miner as the consensus power table sees it. */
  datatype MinerEntry = MinerEntry(minerStoragePower: int, minerPK: PublicKey)

  /** `PowerTable_I`: the miners the consensus subsystem reads power from. */
  datatype PowerTable = PowerTable(miners: map<Address, MinerEntry>)

  /** A VRF output together with the nonce the miner tried. */
  datatype ElectionProof = ElectionProof(output: Bytes, electionNonce: int)

  /** The block fields that validation reads. */
  datatype Block = Block(minerAddress: Address, weight: int, parents: seq<Bytes>, ticket: Bytes,
                         height: int, electionProof: ElectionProof)

  /** What the subsystem consults but does not own. */
  datatype ConsensusEnv = ConsensusEnv(
    epoch: ChainEpoch,                        // the current epoch the seed getters read from
    roundTime: int,                           // `clock.roundTime`
    ticketAt: ChainEpoch -> Bytes,            // `chain.TicketAtEpoch(e).Output`
    tipsetWeight: seq<Bytes> -> int,          // `computeTipsetWeight`
    vrfVerify: (Bytes, Bytes, PublicKey) -> bool,  // `Verify(output, input, key)`
    encodeNonce: int -> Bytes)                // how the nonce is appended to the election input

  /** The five reasons `ValidateBlock` can reject a block, in checking order. */
  datatype ValidationFailure = NotAValidMiner | InvalidParentWeight | InvalidTicket
                             | InvalidElectionProof | NotAWinner

  // ---------------------------------------------------------------------------
  // Power table

  /** `PowerTable.GetMinerPower`; an unknown miner reads as the zero entry. */
  function GetMinerPower(pt: PowerTable, a: Address): (p: int)
    ensures a in pt.miners ==> p == pt.miners[a].minerStoragePower
    ensures a !in pt.miners ==> p == 0
  {
    if a in pt.miners then pt.miners[a].minerStoragePower else 0
  }

  /** `PowerTable.GetMinerPublicKey`; an unknown miner reads as the empty key. */
  function GetMinerPublicKey(pt: PowerTable, a: Address): (pk: PublicKey)
    ensures a in pt.miners ==> pk == pt.miners[a].minerPK
    ensures a !in pt.miners ==> pk == []
  {
    if a in pt.miners then pt.miners[a].minerPK else []
  }

  function MinerStoragePower(e: MinerEntry): int
  {
    e.minerStoragePower
  }

  /** Total network power: the sum of every miner's storage power. */
  ghost function TotalPower(pt: PowerTable): int
  {
    SumBy(pt.miners, MinerStoragePower)
  }

  /** `PowerTable.GetTotalPower`: accumulates over the miners in any order. */
  method GetTotalPower(pt: PowerTable) returns (totalPower: int)
    ensures totalPower == TotalPower(pt)
  {
    totalPower := 0;
    var rest := pt.miners;
    while rest != map[]
      invariant totalPower + SumBy(rest, MinerStoragePower) == TotalPower(pt)
      decreases |rest|
    {
      var a :| a in rest;
      SumByRemove(rest, MinerStoragePower, a);
      RemoveShrinks(rest, a);
      totalPower := totalPower + rest[a].minerStoragePower;
      rest := rest - {a};
    }
  }

  // ---------------------------------------------------------------------------
  // Randomness lookbacks

  /** The ticket the current one is chained to. */
  function GetTicketProductionSeed(ticketAt: ChainEpoch -> Bytes, epoch: ChainEpoch): Bytes
  {
    ticketAt(epoch - SPC_LOOKBACK_TICKET)
  }

  function GetElectionProofSeed(ticketAt: ChainEpoch -> Bytes, epoch: ChainEpoch): Bytes
  {
    ticketAt(epoch - SPC_LOOKBACK_RANDOMNESS)
  }

  function GetSealSeed(ticketAt: ChainEpoch -> Bytes, epoch: ChainEpoch): Bytes
  {
    ticketAt(epoch - SPC_LOOKBACK_SEAL)
  }

  function GetPoStChallenge(ticketAt: ChainEpoch -> Bytes, epoch: ChainEpoch): Bytes
  {
    ticketAt(epoch - SPC_LOOKBACK_POST)
  }

  /** Each seed depends on the chain's ticket at exactly one epoch: the ticket
      seed on `epoch - 1`, the election seed on `epoch - 300`, and (with the
      placeholder offset -1) the seal seed and PoSt challenge on `epoch + 1`. */
  lemma SeedsReadOneEpoch(t1: ChainEpoch -> Bytes, t2: ChainEpoch -> Bytes, epoch: ChainEpoch)
    ensures t1(epoch - 1) == t2(epoch - 1) ==>
              GetTicketProductionSeed(t1, epoch) == GetTicketProductionSeed(t2, epoch)
    ensures t1(epoch - 300) == t2(epoch - 300) ==>
              GetElectionProofSeed(t1, epoch) == GetElectionProofSeed(t2, epoch)
    ensures t1(epoch + 1) == t2(epoch + 1) ==>
              GetSealSeed(t1, epoch) == GetSealSeed(t2, epoch) && GetPoStChallenge(t1, epoch) == GetPoStChallenge(t2, epoch)
  {
  }

  // ---------------------------------------------------------------------------
  // Tickets and election proofs

  /** `validateTicket`: the ticket is a VRF output over the ticket tag and the
      seed ticket's output. */
  function ValidateTicket(ticket: Bytes, pk: PublicKey, env: ConsensusEnv): (ok: bool)
    ensures ok <==> env.vrfVerify(ticket, [TICKET_PERSONALIZATION] + GetTicketProductionSeed(env.ticketAt, env.epoch), pk)
  {
    var input := [TICKET_PERSONALIZATION] + GetTicketProductionSeed(env.ticketAt, env.epoch);
    env.vrfVerify(ticket, input, pk)
  }

  /** `ValidateElectionProof`: rejects a proof whose height plus nonce runs past
      the next round before asking the VRF, then verifies the output over the
      election tag, the election seed and the nonce. */
  function ValidateElectionProof(height: int, proof: ElectionProof, workerAddr: Address,
                                 pt: PowerTable, env: ConsensusEnv): (ok: bool)
    ensures ok <==> height + proof.electionNonce <= env.roundTime + 1
                    && env.vrfVerify(proof.output,
                                 [ELECTION_PROOF_PERSONALIZATION] + GetElectionProofSeed(env.ticketAt, env.epoch)
                                   + env.encodeNonce(proof.electionNonce),
                                 GetMinerPublicKey(pt, workerAddr))
  {
    if height + proof.electionNonce > env.roundTime + 1 then false
    else
      var input := [ELECTION_PROOF_PERSONALIZATION] + GetElectionProofSeed(env.ticketAt, env.epoch)
                   + env.encodeNonce(proof.electionNonce);
      env.vrfVerify(proof.output, input, GetMinerPublicKey(pt, workerAddr))
  }

  /** The liveness bound is decided before any VRF: a stale or future proof is
      rejected whatever the verifier would say. */
  lemma LivenessBoundIgnoresVRF(height: int, proof: ElectionProof, workerAddr: Address, pt: PowerTable,
                                env: ConsensusEnv, vrf: (Bytes, Bytes, PublicKey) -> bool)
    requires height + proof.electionNonce > env.roundTime + 1
    ensures ValidateElectionProof(height, proof, workerAddr, pt, env.(vrfVerify := vrf))
            == ValidateElectionProof(height, proof, workerAddr, pt, env)
  {
  }

  function Pow2(n: nat): (r: nat)
    ensures r > 0
  {
    if n == 0 then 1 else 2 * Pow2(n - 1)
  }

  /** A VRF output read as an unsigned big-endian integer. */
  function BytesToNat(s: Bytes): nat
  {
    if s == [] then 0 else BytesToNat(s[..|s| - 1]) * 256 + s[|s| - 1] as nat
  }

  lemma {:induction false} Pow2Add8(n: nat)
    ensures Pow2(n + 8) == 256 * Pow2(n)
  {
    var k := 0;
    while k < 8
      invariant 0 <= k <= 8
      invariant Pow2(n + k) == Pow2(k) * Pow2(n)
    {
      k := k + 1;
    }
  }

  /** An L-byte output lies in [0, 2^(8L)). */
  lemma {:induction false} BytesToNatBound(s: Bytes)
    ensures BytesToNat(s) < Pow2(8 * |s|)
  {
    if s != [] {
      var init := s[..|s| - 1];
      BytesToNatBound(init);
      Pow2Add8(8 * |init|);
      assert BytesToNat(s) <= (Pow2(8 * |init|) - 1) * 256 + 255;
    }
  }

  /** The winning inequality: minerPower * 2^bits < outputValue * totalPower. */
  predicate Wins(minerPower: int, outputValue: nat, bits: nat, totalPower: int)
  {
    minerPower * Pow2(bits) < outputValue * totalPower
  }

  /** `IsWinningElectionProof`, with `2^(len(Output)*8)` read as the power of
      two its comment describes. */
  ghost function IsWinningElectionProof(proof: ElectionProof, workerAddr: Address, pt: PowerTable): (win: bool)
    ensures win <==> GetMinerPower(pt, workerAddr) * Pow2(8 * |proof.output|)
                       < BytesToNat(proof.output) * TotalPower(pt)
  {
    Wins(GetMinerPower(pt, workerAddr), BytesToNat(proof.output), 8 * |proof.output|, TotalPower(pt))
  }

  /** With the rest fixed and total power non-negative, a larger output never
      turns a win into a loss. */
  lemma WinsMonotoneInOutput(minerPower: int, v: nat, v': nat, bits: nat, totalPower: int)
    requires totalPower >= 0 && v <= v'
    requires Wins(minerPower, v, bits, totalPower)
    ensures Wins(minerPower, v', bits, totalPower)
  {
    assert v * totalPower <= v' * totalPower by {
      assert (v' - v) * totalPower >= 0;
    }
  }

  /** With the rest fixed, more miner power never turns a loss into a win. */
  lemma MorePowerNeverWinsMore(minerPower: int, minerPower': int, v: nat, bits: nat, totalPower: int)
    requires minerPower <= minerPower'
    requires !Wins(minerPower, v, bits, totalPower)
    ensures !Wins(minerPower', v, bits, totalPower)
  {
    assert minerPower * Pow2(bits) <= minerPower' * Pow2(bits) by {
      assert (minerPower' - minerPower) * Pow2(bits) >= 0;
    }
  }

  /** Only the miner's share of the power matters: scaling both powers by the
      same positive factor leaves the outcome unchanged. */
  lemma WinsDependsOnlyOnPowerShare(minerPower: int, v: nat, bits: nat, totalPower: int, c: int)
    requires c > 0
    ensures Wins(minerPower * c, v, bits, totalPower * c) <==> Wins(minerPower, v, bits, totalPower)
  {
    var lhs := minerPower * Pow2(bits);
    var rhs := v * totalPower;
    assert minerPower * c * Pow2(bits) == lhs * c;
    assert v * (totalPower * c) == rhs * c;
    if lhs < rhs {
      assert lhs * c < rhs * c by { assert (rhs - lhs) * c > 0; }
    } else {
      assert lhs * c >= rhs * c by { assert (lhs - rhs) * c >= 0; }
    }
  }

  /** A miner holding at least all of the network's power never wins with an
      output that fits its length: the inequality rewards the miner's missing
      share rather than its share. */
  lemma FullPowerNeverWins(minerPower: int, output: Bytes, totalPower: int)
    requires 0 <= totalPower <= minerPower
    ensures !Wins(minerPower, BytesToNat(output), 8 * |output|, totalPower)
  {
    var p := Pow2(8 * |output|);
    var v := BytesToNat(output);
    BytesToNatBound(output);
    MulMonotone(v, p, totalPower);
    MulMonotone(totalPower, minerPower, p);
    assert v * totalPower <= p * totalPower <= minerPower * p;
  }

  /** Multiplying by a non-negative factor keeps order. */
  lemma MulMonotone(a: int, b: int, c: int)
    requires a <= b && c >= 0
    ensures a * c <= b * c
    ensures c * a <= c * b
  {
    assert (b - a) * c >= 0;
  }

  /** The boundary scenario of a miner with 100 of 1000 units of power and a
      one-byte output: it wins exactly from output value 26 (= 256/10 rounded up) on. */
  lemma TenPercentMinerBoundary(v: nat)
    ensures Wins(100, v, 8, 1000) <==> v >= 26
  {
    assert Pow2(8) == 256 by { Pow2Add8(0); }
  }

  // ---------------------------------------------------------------------------
  // The comparison its comment describes: output / 2^L below the power share

  /** A win when the output, read as a fraction of 2^bits, lies below the
      miner's share of the total power: outputValue * totalPower < minerPower * 2^bits. */
  predicate WinsByShare(minerPower: int, outputValue: nat, bits: nat, totalPower: int)
  {
    outputValue * totalPower < minerPower * Pow2(bits)
  }

  /** With the rest fixed, more miner power never turns a win into a loss. */
  lemma MorePowerKeepsShareWin(minerPower: int, minerPower': int, v: nat, bits: nat, totalPower: int)
    requires minerPower <= minerPower'
    requires WinsByShare(minerPower, v, bits, totalPower)
    ensures WinsByShare(minerPower', v, bits, totalPower)
  {
    MulMonotone(minerPower, minerPower', Pow2(bits));
  }

  /** A miner holding all of a positive total power wins with every output that
      fits its length, and a miner without power never wins. */
  lemma ShareWinsAtTheExtremes(output: Bytes, totalPower: int)
    requires totalPower > 0
    ensures WinsByShare(totalPower, BytesToNat(output), 8 * |output|, totalPower)
    ensures !WinsByShare(0, BytesToNat(output), 8 * |output|, totalPower)
  {
    var p := Pow2(8 * |output|);
    var v := BytesToNat(output);
    BytesToNatBound(output);
    MulStrict(v, p, totalPower);
    MulMonotone(0, v, totalPower);
    assert 0 * p == 0;
  }

  /** Multiplying by a positive factor keeps strict order. */
  lemma MulStrict(a: int, b: int, c: int)
    requires a < b && c > 0
    ensures a * c < c * b
  {
    assert (b - a) * c > 0;
  }

  /** The coded comparison and the described one are exclusive: no output
      makes a miner win under both. */
  lemma WinsExcludesShareWin(minerPower: int, v: nat, bits: nat, totalPower: int)
    ensures !(Wins(minerPower, v, bits, totalPower) && WinsByShare(minerPower, v, bits, totalPower))
  {
  }

  // ---------------------------------------------------------------------------
  // As written: `minerPower * 2^(len(Output)*8)`

  /** Bitwise exclusive or of two naturals (Go's binary `^`). */
  function Xor(a: nat, b: nat): nat
    decreases a + b
  {
    if a == 0 && b == 0 then 0
    else (if a % 2 != b % 2 then 1 else 0) + 2 * Xor(a / 2, b / 2)
  }

  /** The comparison as the Go source spells it: `^` is exclusive or and binds
      looser than `*`, so the left side is `(minerPower * 2) XOR (len * 8)`. */
  predicate WinsAsWritten(minerPower: nat, outputValue: nat, outputLen: nat, totalPower: nat)
  {
    Xor(minerPower * 2, outputLen * 8) < outputValue * totalPower
  }

  /** A one-byte output 0xFF, miner power 1 of total 1: as written the miner
      wins, although 1 * 2^8 < 255 * 1 is false. */
  lemma WinsAsWrittenDisagrees()
    ensures WinsAsWritten(1, 255, 1, 1)
    ensures !Wins(1, 255, 8, 1)
  {
    assert Xor(0, 0) == 0;
    assert Xor(0, 1) == 1;
    assert Xor(0, 2) == 2;
    assert Xor(1, 4) == 5;
    assert Xor(2, 8) == 10;
    assert Pow2(8) == 256 by { Pow2Add8(0); }
  }

  // ---------------------------------------------------------------------------
  // Block validation

  /** `ValidateBlock`: five checks in order, the first failure is returned. */
  ghost function ValidateBlock(b: Block, pt: PowerTable, env: ConsensusEnv): (r: Outcome<ValidationFailure>)
    ensures r == Pass <==>
              && GetMinerPower(pt, b.minerAddress) > 0
              && b.weight == env.tipsetWeight(b.parents)
              && ValidateTicket(b.ticket, GetMinerPublicKey(pt, b.minerAddress), env)
              && ValidateElectionProof(b.height, b.electionProof, b.minerAddress, pt, env)
              && IsWinningElectionProof(b.electionProof, b.minerAddress, pt)
    ensures r == Fail(NotAValidMiner) <==> GetMinerPower(pt, b.minerAddress) <= 0
    ensures r == Fail(InvalidParentWeight) <==>
              && GetMinerPower(pt, b.minerAddress) > 0
              && b.weight != env.tipsetWeight(b.parents)
    ensures r == Fail(InvalidTicket) <==>
              && GetMinerPower(pt, b.minerAddress) > 0
              && b.weight == env.tipsetWeight(b.parents)
              && !ValidateTicket(b.ticket, GetMinerPublicKey(pt, b.minerAddress), env)
    ensures r == Fail(InvalidElectionProof) <==>
              && GetMinerPower(pt, b.minerAddress) > 0
              && b.weight == env.tipsetWeight(b.parents)
              && ValidateTicket(b.ticket, GetMinerPublicKey(pt, b.minerAddress), env)
              && !ValidateElectionProof(b.height, b.electionProof, b.minerAddress, pt, env)
    ensures r == Fail(NotAWinner) <==>
              && GetMinerPower(pt, b.minerAddress) > 0
              && b.weight == env.tipsetWeight(b.parents)
              && ValidateTicket(b.ticket, GetMinerPublicKey(pt, b.minerAddress), env)
              && ValidateElectionProof(b.height, b.electionProof, b.minerAddress, pt, env)
              && !IsWinningElectionProof(b.electionProof, b.minerAddress, pt)
  {
    var minerPK := GetMinerPublicKey(pt, b.minerAddress);
    var minerPower := GetMinerPower(pt, b.minerAddress);
    if minerPower <= 0 then Fail(NotAValidMiner)
    else if b.weight != env.tipsetWeight(b.parents) then Fail(InvalidParentWeight)
    else if !ValidateTicket(b.ticket, minerPK, env) then Fail(InvalidTicket)
    else if !ValidateElectionProof(b.height, b.electionProof, b.minerAddress, pt, env) then Fail(InvalidElectionProof)
    else if !IsWinningElectionProof(b.electionProof, b.minerAddress, pt) then Fail(NotAWinner)
    else Pass
  }

  /** A block whose miner has no positive power is rejected before the weight
      function or the VRF is consulted: any other collaborators give the same verdict. */
  lemma PowerlessMinerRejectedFirst(b: Block, pt: PowerTable, env: ConsensusEnv, env': ConsensusEnv)
    requires GetMinerPower(pt, b.minerAddress) <= 0
    ensures ValidateBlock(b, pt, env) == ValidateBlock(b, pt, env') == Fail(NotAValidMiner)
  {
  }

  /** When every miner's power is non-negative, an accepted block's miner holds
      a positive share of a positive total. */
  lemma AcceptedMinerHoldsPower(b: Block, pt: PowerTable, env: ConsensusEnv)
    requires forall a :: a in pt.miners ==> pt.miners[a].minerStoragePower >= 0
    requires ValidateBlock(b, pt, env) == Pass
    ensures 0 < GetMinerPower(pt, b.minerAddress) < TotalPower(pt)
  {
    var a := b.minerAddress;
    SumByRemove(pt.miners, MinerStoragePower, a);
    SumByNonNegative(pt.miners - {a}, MinerStoragePower);
    var p := Pow2(8 * |b.electionProof.output|);
    BytesToNatBound(b.electionProof.output);
    if TotalPower(pt) <= GetMinerPower(pt, a) {
      FullPowerNeverWins(GetMinerPower(pt, a), b.electionProof.output, TotalPower(pt));
    }
  }
}
