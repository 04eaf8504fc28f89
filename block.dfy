/** Chain helpers of struct/block/block.go: byte-string comparison, walking
    parent links back to an epoch, and the input of the randomness hash.
    The chain (`HeadEpoch`, `HeadTipset`, `Parents`), the byte comparator,
    `DrawRandomness` and `SHA256` are collaborators passed in as parameters. */
module Block {
  import opened Util

  /** The smaller of two byte strings under `compare` (`util.CompareBytesStrict`,
      which is not part of this model): `b` only when `a` compares greater. */
  function SmallerBytes(a: Bytes, b: Bytes, compare: (Bytes, Bytes) -> int): (r: Bytes)
    ensures r == a || r == b
    ensures r == b && r != a ==> compare(a, b) > 0
    ensures compare(a, b) <= 0 ==> r == a
    ensures compare(a, b) > 0 ==> r == b
  {
    if compare(a, b) > 0 then b else a
  }

  /** `compare` is a three-way comparison of a strict total order. */
  ghost predicate IsStrictComparator(compare: (Bytes, Bytes) -> int)
  {
    (forall x, y :: compare(x, y) > 0 <==> compare(y, x) < 0) &&
    (forall x, y :: compare(x, y) == 0 <==> x == y)
  }

  /** Under a strict total order the result does not depend on argument order,
      and it is no greater than either argument. */
  lemma SmallerBytesIsMinimum(a: Bytes, b: Bytes, compare: (Bytes, Bytes) -> int)
    requires IsStrictComparator(compare)
    ensures SmallerBytes(a, b, compare) == SmallerBytes(b, a, compare)
    ensures compare(SmallerBytes(a, b, compare), a) <= 0
    ensures compare(SmallerBytes(a, b, compare), b) <= 0
  {
    if compare(a, b) == 0 {
      assert a == b;
    }
  }

  /** `sliceEqual`: equal lengths and equal bytes at every index. */
  method SliceEqual(a: Bytes, b: Bytes) returns (r: bool)
    ensures |a| != |b| ==> !r
    ensures r <==> |a| == |b| && forall i :: 0 <= i < |a| ==> a[i] == b[i]
  {
    if |a| != |b| {
      return false;
    }
    var i := 0;
    while i < |a|
      invariant 0 <= i <= |a|
      invariant forall j :: 0 <= j < i ==> a[j] == b[j]
    {
      if a[i] != b[i] {
        return false;
      }
      i := i + 1;
    }
    return true;
  }

  /** The tipset reached from `t` by following `k` parent links. */
  function Ancestor<T>(t: T, parents: T -> T, k: nat): T
  {
    if k == 0 then t else Ancestor(parents(t), parents, k - 1)
  }

  /** One more link from the `k`-th ancestor reaches the `k+1`-th. */
  lemma {:induction false} AncestorStep<T>(t: T, parents: T -> T, k: nat)
    ensures Ancestor(t, parents, k + 1) == parents(Ancestor(t, parents, k))
  {
    if k > 0 {
      AncestorStep(parents(t), parents, k - 1);
    }
  }

  /** Walking `m` links and then `n` more is walking `m + n` links. */
  lemma {:induction false} AncestorAdd<T>(t: T, parents: T -> T, m: nat, n: nat)
    ensures Ancestor(Ancestor(t, parents, m), parents, n) == Ancestor(t, parents, m + n)
  {
    if m > 0 {
      AncestorAdd(parents(t), parents, m - 1, n);
    }
  }

  /** `Chain.TipsetAtEpoch`: follows `HeadEpoch - epoch` parent links from the
      head; an epoch at or after the head gives the head itself. */
  method TipsetAtEpoch<T>(headEpoch: ChainEpoch, headTipset: T, parents: T -> T, epoch: ChainEpoch)
    returns (ts: T)
    ensures epoch < headEpoch ==> ts == Ancestor(headTipset, parents, headEpoch - epoch)
    ensures epoch >= headEpoch ==> ts == headTipset
  {
    var dist := headEpoch - epoch;
    var current := headTipset;
    var parent := parents(current);
    var i := 0;
    while i < dist
      invariant 0 <= i <= (if dist > 0 then dist else 0)
      invariant current == Ancestor(headTipset, parents, i)
      invariant parent == parents(current)
    {
      AncestorStep(headTipset, parents, i);
      current := parent;
      parent := parents(current);
      i := i + 1;
    }
    ts := current;
  }

  /** Go's `byte(epoch)`: the low eight bits of the two's-complement epoch. */
  function LowByte(epoch: ChainEpoch): (r: byte)
    ensures (epoch - r as int) % 256 == 0
  {
    (epoch % 256) as byte
  }

  /** The bytes `RandomnessAtEpoch` hashes: the prior randomness, the input
      delimiter, then one byte of the epoch. */
  function RandomnessInput(priorRand: Bytes, delimiter: byte, epoch: ChainEpoch): (r: Bytes)
    ensures |r| == |priorRand| + 2
    ensures r[..|priorRand|] == priorRand
    ensures r[|priorRand|] == delimiter
    ensures r[|priorRand| + 1] == LowByte(epoch)
  {
    priorRand + [delimiter] + [LowByte(epoch)]
  }

  /** The hash input determines the prior randomness and the epoch modulo 256. */
  lemma RandomnessInputInjective(p1: Bytes, p2: Bytes, delimiter: byte, e1: ChainEpoch, e2: ChainEpoch)
    requires RandomnessInput(p1, delimiter, e1) == RandomnessInput(p2, delimiter, e2)
    ensures p1 == p2
    ensures e1 % 256 == e2 % 256
  {
    var r := RandomnessInput(p1, delimiter, e1);
    assert p1 == r[..|p1|];
    assert LowByte(e1) == r[|p1| + 1] == LowByte(e2);
  }

  /** Only the low byte of the epoch is hashed, so epochs 256 apart give the
      same input from the same prior randomness. */
  lemma RandomnessInputWraps(priorRand: Bytes, delimiter: byte, epoch: ChainEpoch)
    ensures RandomnessInput(priorRand, delimiter, epoch + 256) == RandomnessInput(priorRand, delimiter, epoch)
  {
    assert LowByte(epoch + 256) == LowByte(epoch);
  }

  /** `Chain.RandomnessAtEpoch`: draws from the tipset at `epoch`, builds the
      hash input by successive appends and hashes it. */
  method RandomnessAtEpoch<T>(headEpoch: ChainEpoch, headTipset: T, parents: T -> T,
                              drawRandomness: (T, ChainEpoch) -> Bytes, delimiter: byte,
                              sha256: Bytes -> Bytes, epoch: ChainEpoch)
    returns (r: Bytes)
    ensures var ts := if epoch < headEpoch then Ancestor(headTipset, parents, headEpoch - epoch) else headTipset;
            r == sha256(RandomnessInput(drawRandomness(ts, epoch), delimiter, epoch))
  {
    var ts := TipsetAtEpoch(headEpoch, headTipset, parents, epoch);
    var priorRand := drawRandomness(ts, epoch);
    var input: Bytes := [];
    input := input + priorRand;
    input := input + [delimiter];
    input := input + [LowByte(epoch)];
    assert input == RandomnessInput(priorRand, delimiter, epoch);
    r := sha256(input);
  }
}
