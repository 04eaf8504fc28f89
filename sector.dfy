/** Sector-level values: sector numbers, seal commitments and the storage
    fault types that drive slashing (sector/sector.go). */
module Sector {
  import opened Util

  /** A sector number, unique within one miner. */
  type SectorNumber = nat

  /** What stays on chain after a seal is verified: CommD, CommR and the deals. */
  datatype SealCommitment = SealCommitment(unsealedCID: Bytes, sealedCID: Bytes, dealIDs: seq<nat>)

  /** The parts of `OnChainSealVerifyInfo` that the miner actor reads; the
      proof and the randomness epoch only reach the seal verifier, which is
      an oracle here. */
  datatype OnChainSealVerifyInfo =
    OnChainSealVerifyInfo(sectorNumber: SectorNumber, unsealedCID: Bytes, sealedCID: Bytes, dealIDs: seq<nat>)

  /** The three severities of a storage fault. */
  datatype StorageFaultType = DeclaredFault | DetectedFault | TerminatedFault

  /** The Go encoding: `DeclaredFault StorageFaultType = 1 + iota`. */
  function FaultTypeCode(t: StorageFaultType): int
  {
    match t
    case DeclaredFault => 1
    case DetectedFault => 2
    case TerminatedFault => 3
  }

  /** Decodes a `StorageFaultType` value; any other integer names no fault type. */
  function FaultTypeOfCode(code: int): (r: Option<StorageFaultType>)
    ensures r.Some? <==> 1 <= code <= 3
  {
    if code == 1 then Some(DeclaredFault)
    else if code == 2 then Some(DetectedFault)
    else if code == 3 then Some(TerminatedFault)
    else None
  }

  /** Decoding inverts the encoding, and the encoding is the only way to name a type. */
  lemma FaultTypeCodeRoundTrip(t: StorageFaultType, code: int)
    ensures FaultTypeOfCode(FaultTypeCode(t)) == Some(t)
    ensures FaultTypeOfCode(code) == Some(t) ==> code == FaultTypeCode(t)
  {
  }
}
