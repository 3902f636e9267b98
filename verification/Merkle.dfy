/** Merkle tree building, proving and verifying. Hashing is a collision-free term algebra. Leaves are hashed without
    a prefix, so a leaf whose data is two hashes one after the other has the hash of an internal node. */
module Merkle {

  type Byte = x: int | 0 <= x < 256

  datatype Digest = Zeros | LeafDigest(data: seq<Byte>) | NodeDigest(left: Digest, right: Digest)

  /** The data of a leaf: two hashes one after the other, or any other bytes. */
  datatype LeafData = Bytes(data: seq<Byte>) | HashPair(left: Digest, right: Digest)

  datatype MerkleNode = MerkleNode(hash: Digest, leftChild: Digest, rightChild: Digest, hasLeft: bool, hasRight: bool)

  datatype MerkleProof = MerkleProof(leafHash: Digest, siblings: seq<Digest>, leafIndex: nat)

  datatype Result<T> = Ok(value: T) | OutOfRange

  function LeafHash(data: LeafData): Digest {
    match data
    case Bytes(b) => LeafDigest(b)
    case HashPair(l, r) => NodeDigest(l, r)
  }

  function CreateLeaf(data: LeafData): MerkleNode {
    MerkleNode(LeafHash(data), Zeros, Zeros, false, false)
  }

  function CreateInternal(left: Digest, right: Digest): MerkleNode {
    MerkleNode(NodeDigest(left, right), left, right, true, true)
  }

  // ---- Levels ----

  function Half(n: nat): nat { (n + 1) / 2 }

  /** The node above positions 2j and 2j+1; an odd last node is promoted unchanged. */
  function PairAt(level: seq<MerkleNode>, j: nat): MerkleNode
    requires j < Half(|level|)
  {
    if 2 * j + 1 < |level| then CreateInternal(level[2 * j].hash, level[2 * j + 1].hash) else level[2 * j]
  }

  function PairUp(level: seq<MerkleNode>): (next: seq<MerkleNode>)
    ensures |next| == Half(|level|)
    ensures forall j :: 0 <= j < |next| ==> next[j] == PairAt(level, j)
  {
    seq(Half(|level|), j requires 0 <= j < Half(|level|) => PairAt(level, j))
  }

  function Top(level: seq<MerkleNode>): MerkleNode
    requires |level| > 0
    decreases |level|
  {
    if |level| == 1 then level[0] else Top(PairUp(level))
  }

  /** Every level, bottom first, ending in the root. */
  function AllLevels(level: seq<MerkleNode>): seq<MerkleNode>
    decreases |level|
  {
    if |level| <= 1 then level else level + AllLevels(PairUp(level))
  }

  function Sibling(i: nat): nat { if i % 2 == 0 then i + 1 else i - 1 }

  /** The sibling hashes on the way up from position i; none at a level that promotes the position. */
  function Siblings(level: seq<MerkleNode>, i: nat): seq<Digest>
    requires i < |level|
    decreases |level|
  {
    if |level| == 1 then []
    else
      (if Sibling(i) < |level| then [level[Sibling(i)].hash] else []) + Siblings(PairUp(level), i / 2)
  }

  function Combine(h: Digest, i: nat, sibling: Digest): Digest {
    if i % 2 == 0 then NodeDigest(h, sibling) else NodeDigest(sibling, h)
  }

  /** The verifier's walk: one index bit per sibling. */
  function Climb(h: Digest, i: nat, siblings: seq<Digest>): Digest
    decreases |siblings|
  {
    if siblings == [] then h else Climb(Combine(h, i, siblings[0]), i / 2, siblings[1..])
  }

  predicate Verifies(proof: MerkleProof, root: Digest) {
    Climb(proof.leafHash, proof.leafIndex, proof.siblings) == root
  }

  function RootOf(leaves: seq<MerkleNode>): Digest {
    if leaves == [] then Zeros else Top(leaves).hash
  }

  function ProofOf(leaves: seq<MerkleNode>, i: nat): MerkleProof
    requires i < |leaves|
  {
    MerkleProof(leaves[i].hash, Siblings(leaves, i), i)
  }

  // ---- Promotion ----

  /** Some level, reached from n nodes, promotes the ancestor of position i. */
  predicate Promoted(n: nat, i: nat)
    requires i < n
    decreases n
  {
    n > 1 && ((n % 2 == 1 && i == n - 1) || Promoted(Half(n), i / 2))
  }

  function Pow2(k: nat): nat { if k == 0 then 1 else 2 * Pow2(k - 1) }

  lemma {:induction false} Pow2Positive(k: nat)
    ensures Pow2(k) > 0
  {
    if k > 0 { Pow2Positive(k - 1); }
  }

  /** Level k has (n-1) / 2^k + 1 nodes; it is odd and longer than one, and its last node is above i. */
  ghost predicate PromotedAt(n: nat, i: nat, k: nat) {
    Pow2(k) > 0
    && var last := (n - 1) / Pow2(k);
    last > 0 && last % 2 == 0 && i / Pow2(k) == last
  }

  lemma HalvesCompose(x: nat, m: nat)
    requires m > 0
    ensures x / (2 * m) == (x / 2) / m
  {
    var q, r := (x / 2) / m, (x / 2) % m;
    assert x / 2 == q * m + r;
    assert x == q * (2 * m) + (2 * r + x % 2);
    QuotientIs(x, 2 * m, q, 2 * r + x % 2);
  }

  lemma QuotientIs(x: nat, d: nat, q: nat, r: nat)
    requires d > 0 && x == q * d + r && r < d
    ensures x / d == q
  {
    var q' := x / d;
    if q' < q {
      ScaleLe(q' + 1, q, d);
    } else if q < q' {
      ScaleLe(q + 1, q', d);
    }
  }

  lemma ScaleLe(a: nat, b: nat, d: nat)
    requires a <= b
    ensures a * d <= b * d
  {
    assert (b - a) * d >= 0;
  }

  lemma {:induction false} LevelPromotes(n: nat, i: nat, k: nat)
    requires i < n && PromotedAt(n, i, k)
    ensures Promoted(n, i)
    decreases k
  {
    if k > 0 && n > 1 {
      PromotedAbove(n, i, k - 1);
      LevelPromotes(Half(n), i / 2, k - 1);
    }
  }

  lemma {:induction false} PromotingLevel(n: nat, i: nat) returns (k: nat)
    requires i < n && Promoted(n, i)
    ensures PromotedAt(n, i, k)
    decreases n
  {
    if n % 2 == 1 && i == n - 1 {
      k := 0;
    } else {
      k := PromotingLevel(Half(n), i / 2);
      PromotedAbove(n, i, k);
      k := k + 1;
    }
  }

  /** The recursive test is exactly "some level promotes i's ancestor as an odd last node". */
  lemma PromotedSomewhere(n: nat, i: nat)
    requires i < n
    ensures Promoted(n, i) <==> exists k: nat :: PromotedAt(n, i, k)
  {
    forall k: nat | PromotedAt(n, i, k) ensures Promoted(n, i) {
      LevelPromotes(n, i, k);
    }
    if Promoted(n, i) {
      var k := PromotingLevel(n, i);
    }
  }

  lemma PromotedAbove(n: nat, i: nat, k: nat)
    requires i < n && n > 1
    ensures PromotedAt(n, i, k + 1) <==> PromotedAt(Half(n), i / 2, k)
  {
    Pow2Positive(k);
    HalvesCompose(n - 1, Pow2(k));
    HalvesCompose(i, Pow2(k));
    assert Half(n) - 1 == (n - 1) / 2;
  }

  /** No leaf below a power of two that fits into n is ever promoted. */
  lemma {:induction false} LeftBlockNeverPromoted(n: nat, i: nat, k: nat)
    requires i < Pow2(k) <= n
    ensures !Promoted(n, i)
    decreases n
  {
    if n > 1 {
      if k == 0 {
        LeftBlockNeverPromoted(Half(n), 0, 0);
      } else {
        LeftBlockNeverPromoted(Half(n), i / 2, k - 1);
      }
    }
  }

  // ---- Round trip ----

  /** A level with a sibling: one step of the climb. */
  lemma PairedStep(level: seq<MerkleNode>, i: nat, h: Digest, v: nat)
    requires i < |level| && |level| > 1 && Sibling(i) < |level|
    ensures
      var s := level[Sibling(i)].hash;
      Siblings(level, i) == [s] + Siblings(PairUp(level), i / 2)
      && PairUp(level)[i / 2].hash == Combine(level[i].hash, i, s)
      && Climb(h, v, Siblings(level, i)) == Climb(Combine(h, v, s), v / 2, Siblings(PairUp(level), i / 2))
  {
    var s := level[Sibling(i)].hash;
    assert ([s] + Siblings(PairUp(level), i / 2))[1..] == Siblings(PairUp(level), i / 2);
    assert PairUp(level)[i / 2] == PairAt(level, i / 2);
  }

  /** A level that promotes its last node: no step of the climb. */
  lemma PromotedStep(level: seq<MerkleNode>)
    requires |level| > 1 && |level| % 2 == 1
    ensures
      var last, next := |level| - 1, PairUp(level);
      last / 2 == |next| - 1 && next[last / 2] == level[last] && Siblings(level, last) == Siblings(next, last / 2)
  {
    var last, next := |level| - 1, PairUp(level);
    assert next[last / 2] == PairAt(level, last / 2);
    assert [] + Siblings(next, last / 2) == Siblings(next, last / 2);
  }

  lemma OneNode(level: seq<MerkleNode>, h: Digest, v: nat)
    requires |level| == 1
    ensures Climb(h, v, Siblings(level, 0)) == h && Top(level) == level[0]
  {
  }

  /** Once the verifier's hash has left the true path it never rejoins it, whichever side it combines on. */
  lemma {:induction false} NeverRejoins(level: seq<MerkleNode>, i: nat, h: Digest, v: nat)
    requires i < |level| && h != level[i].hash
    ensures Climb(h, v, Siblings(level, i)) != Top(level).hash
    decreases |level|
  {
    hide Climb, Siblings, Top;
    if |level| == 1 {
      OneNode(level, h, v);
    } else {
      TopOfPair(level);
      if Sibling(i) < |level| {
        PairedStep(level, i, h, v);
        NeverRejoins(PairUp(level), i / 2, Combine(h, v, level[Sibling(i)].hash), v / 2);
      } else {
        PromotedStep(level);
        NeverRejoins(PairUp(level), i / 2, h, v);
      }
    }
  }

  /** From position i with index v: wherever the verifier combines on the wrong side, both sides are the same. */
  predicate SidesAgree(level: seq<MerkleNode>, i: nat, v: nat)
    requires i < |level|
    decreases |level|
  {
    |level| == 1
    || (if Sibling(i) < |level|
        then (i % 2 == v % 2 || level[i].hash == level[Sibling(i)].hash) && SidesAgree(PairUp(level), i / 2, v / 2)
        else SidesAgree(PairUp(level), i / 2, v))
  }

  /** The climb reaches the root exactly then, for any level and whatever its hashes. */
  lemma {:induction false} ClimbAgrees(level: seq<MerkleNode>, i: nat, v: nat)
    requires i < |level|
    ensures Climb(level[i].hash, v, Siblings(level, i)) == Top(level).hash <==> SidesAgree(level, i, v)
    decreases |level|
  {
    hide Climb, Siblings, Top;
    if |level| == 1 {
      OneNode(level, level[0].hash, v);
    } else {
      var next := PairUp(level);
      TopOfPair(level);
      if Sibling(i) < |level| {
        var s := level[Sibling(i)].hash;
        PairedStep(level, i, level[i].hash, v);
        if Combine(level[i].hash, v, s) == next[i / 2].hash {
          ClimbAgrees(next, i / 2, v / 2);
        } else {
          NeverRejoins(next, i / 2, Combine(level[i].hash, v, s), v / 2);
        }
      } else {
        PromotedStep(level);
        ClimbAgrees(next, i / 2, v);
      }
    }
  }

  lemma {:induction false} UnpromotedAgrees(level: seq<MerkleNode>, i: nat)
    requires i < |level| && !Promoted(|level|, i)
    ensures SidesAgree(level, i, i)
    decreases |level|
  {
    if |level| > 1 {
      UnpromotedAgrees(PairUp(level), i / 2);
    }
  }

  function Leaves(h: Digest): nat {
    match h
    case NodeDigest(l, r) => Leaves(l) + Leaves(r)
    case _ => 1
  }

  /** All nodes but the last cover w leaves each, the last one at most w. */
  ghost predicate Shaped(level: seq<MerkleNode>, w: nat) {
    |level| > 0
    && (forall j :: 0 <= j < |level| - 1 ==> Leaves(level[j].hash) == w)
    && Leaves(level[|level| - 1].hash) <= w
  }

  ghost predicate Short(level: seq<MerkleNode>, w: nat) {
    Shaped(level, w) && Leaves(level[|level| - 1].hash) < w
  }

  lemma {:induction false} LeavesPositive(h: Digest)
    ensures Leaves(h) > 0
  {
    match h
    case NodeDigest(l, r) => LeavesPositive(l); LeavesPositive(r);
    case _ =>
  }

  lemma PairUpShaped(level: seq<MerkleNode>, w: nat)
    requires Shaped(level, w) && |level| > 1
    ensures Shaped(PairUp(level), 2 * w)
    ensures Short(level, w) || |level| % 2 == 1 ==> Short(PairUp(level), 2 * w)
  {
    var next, n := PairUp(level), |level|;
    LeavesPositive(level[0].hash);
    forall j | 0 <= j < |next| - 1 ensures Leaves(next[j].hash) == 2 * w {
      assert next[j] == CreateInternal(level[2 * j].hash, level[2 * j + 1].hash);
    }
    assert next[|next| - 1] == if n % 2 == 0 then CreateInternal(level[n - 2].hash, level[n - 1].hash) else level[n - 1];
  }

  /** After a promotion the verifier still holds an even index, so its first combination is on the wrong side, and
      the two sides cover different numbers of leaves. */
  lemma {:induction false} PromotionDerails(level: seq<MerkleNode>, w: nat, v: nat)
    requires Short(level, w) && |level| > 1 && v % 2 == 0
    ensures !SidesAgree(level, |level| - 1, v)
    decreases |level|
  {
    var last := |level| - 1;
    if last % 2 == 0 {
      PairUpShaped(level, w);
      PromotedStep(level);
      PromotionDerails(PairUp(level), 2 * w, v);
    }
  }

  lemma {:induction false} PromotedDisagrees(level: seq<MerkleNode>, w: nat, i: nat)
    requires Shaped(level, w) && i < |level| && Promoted(|level|, i)
    ensures !SidesAgree(level, i, i)
    decreases |level|
  {
    hide Leaves;
    PairUpShaped(level, w);
    if |level| % 2 == 1 && i == |level| - 1 {
      PromotedStep(level);
      PromotionDerails(PairUp(level), 2 * w, i);
    } else {
      PromotedDisagrees(PairUp(level), 2 * w, i / 2);
    }
  }

  lemma ClimbReachesTop(level: seq<MerkleNode>, w: nat, i: nat)
    requires Shaped(level, w) && i < |level|
    ensures Climb(level[i].hash, i, Siblings(level, i)) == Top(level).hash <==> !Promoted(|level|, i)
  {
    hide Climb, Siblings, Top, Shaped, SidesAgree;
    ClimbAgrees(level, i, i);
    if Promoted(|level|, i) {
      PromotedDisagrees(level, w, i);
    } else {
      UnpromotedAgrees(level, i);
    }
  }

  /** Leaves as add_leaf creates them. */
  function LeafNodes(data: seq<LeafData>): (leaves: seq<MerkleNode>)
    ensures |leaves| == |data|
  {
    seq(|data|, j requires 0 <= j < |data| => CreateLeaf(data[j]))
  }

  /** Round trip, exact for any data: the generated proof verifies if and only if wherever the verifier combines on
      the wrong side both sides are the same hash. It never combines on the wrong side when no level promotes the
      leaf's ancestor as an odd last node. */
  lemma RoundTripAnyData(data: seq<LeafData>, i: nat)
    requires i < |data|
    ensures Verifies(ProofOf(LeafNodes(data), i), RootOf(LeafNodes(data))) <==> SidesAgree(LeafNodes(data), i, i)
    ensures (!exists k: nat :: PromotedAt(|data|, i, k)) ==> Verifies(ProofOf(LeafNodes(data), i), RootOf(LeafNodes(data)))
  {
    ClimbAgrees(LeafNodes(data), i, i);
    PromotedSomewhere(|data|, i);
    if !Promoted(|data|, i) { UnpromotedAgrees(LeafNodes(data), i); }
  }

  /** Round trip, exact for leaves none of which is two hashes one after the other: the proof verifies if and only if
      no level promotes the leaf's ancestor. */
  lemma RoundTrip(data: seq<LeafData>, i: nat)
    requires i < |data| && forall d :: d in data ==> d.Bytes?
    ensures Verifies(ProofOf(LeafNodes(data), i), RootOf(LeafNodes(data)))
      <==> !exists k: nat :: PromotedAt(|data|, i, k)
  {
    var leaves := LeafNodes(data);
    forall j | 0 <= j < |leaves| ensures Leaves(leaves[j].hash) == 1 {
      assert data[j].Bytes?;
    }
    ClimbReachesTop(leaves, 1, i);
    PromotedSomewhere(|data|, i);
  }

  /** Hence every leaf below the largest power of two not above n verifies, and for n a power of two all do. */
  lemma RoundTripLeftBlock(data: seq<LeafData>, i: nat, k: nat)
    requires i < Pow2(k) <= |data|
    ensures Verifies(ProofOf(LeafNodes(data), i), RootOf(LeafNodes(data)))
  {
    LeftBlockNeverPromoted(|data|, i, k);
    UnpromotedAgrees(LeafNodes(data), i);
    ClimbAgrees(LeafNodes(data), i, i);
  }

  /** The smallest failure: the last of three leaves verifies only if it is the hashes of the first two, one after the
      other. */
  lemma ThreeLeavesFail(a: LeafData, b: LeafData, c: LeafData)
    ensures Verifies(ProofOf(LeafNodes([a, b, c]), 2), RootOf(LeafNodes([a, b, c])))
      <==> c == HashPair(LeafHash(a), LeafHash(b))
  {
    hide Climb, Siblings, Top;
    var leaves := LeafNodes([a, b, c]);
    var next := PairUp(leaves);
    RoundTripAnyData([a, b, c], 2);
    assert next[0] == CreateInternal(LeafHash(a), LeafHash(b)) && next[1] == CreateLeaf(c);
    assert SidesAgree(PairUp(next), 0, 1);
    assert SidesAgree(next, 1, 2) <==> next[1].hash == next[0].hash;
    assert SidesAgree(leaves, 2, 2) <==> SidesAgree(next, 1, 2);
  }

  // ---- Binding ----

  /** Whatever climbs to the root with the right index and length started from the true leaf and used exactly
      the true siblings. */
  lemma {:induction false} Binding(level: seq<MerkleNode>, i: nat, h: Digest, siblings: seq<Digest>)
    requires i < |level| && !Promoted(|level|, i)
    requires |siblings| == |Siblings(level, i)| && Climb(h, i, siblings) == Top(level).hash
    ensures h == level[i].hash && siblings == Siblings(level, i)
    decreases |level|
  {
    if |level| > 1 {
      var next, s, rest := PairUp(level), level[Sibling(i)].hash, siblings[1..];
      PairedStep(level, i, h, i);
      assert Climb(h, i, siblings) == Climb(Combine(h, i, siblings[0]), i / 2, rest);
      Binding(next, i / 2, Combine(h, i, siblings[0]), rest);
      assert siblings == [s] + rest;
    }
  }

  lemma {:induction false} PerfectSiblings(level: seq<MerkleNode>, i: nat, k: nat)
    requires |level| == Pow2(k) && i < |level|
    ensures |Siblings(level, i)| == k && !Promoted(|level|, i)
    decreases k
  {
    LeftBlockNeverPromoted(|level|, i, k);
    if k > 0 {
      Pow2Positive(k - 1);
      PerfectSiblings(PairUp(level), i / 2, k - 1);
    }
  }

  /** For a perfect tree, any verifying proof with h siblings and an index in range is the generated proof. */
  lemma PerfectBinding(leaves: seq<MerkleNode>, k: nat, proof: MerkleProof)
    requires |leaves| == Pow2(k) && proof.leafIndex < |leaves| && |proof.siblings| == k
    ensures Verifies(proof, RootOf(leaves)) ==> proof == ProofOf(leaves, proof.leafIndex)
  {
    PerfectSiblings(leaves, proof.leafIndex, k);
    if Verifies(proof, RootOf(leaves)) {
      Binding(leaves, proof.leafIndex, proof.leafHash, proof.siblings);
    }
  }

  // ---- Every proof a perfect tree accepts ----

  /** The level j steps above. */
  function LevelUp(level: seq<MerkleNode>, j: nat): seq<MerkleNode>
    decreases j
  {
    if j == 0 then level else LevelUp(PairUp(level), j - 1)
  }

  lemma {:induction false} LevelUpPerfect(level: seq<MerkleNode>, h: nat, j: nat)
    requires |level| == Pow2(h) && j <= h
    ensures |level| > 0 && |LevelUp(level, j)| == Pow2(h - j) > 0 && Top(LevelUp(level, j)) == Top(level)
    decreases j
  {
    Pow2Positive(h);
    if j > 0 {
      TopOfPair(level);
      LevelUpPerfect(PairUp(level), h - 1, j - 1);
    }
  }

  lemma HalfOfRemainder(i: nat, m: nat)
    requires m > 0
    ensures i % (2 * m) % 2 == i % 2 && i % (2 * m) / 2 == i / 2 % m
  {
    HalfOfParts(i, m, i / (2 * m), i % (2 * m));
  }

  lemma HalfOfParts(i: nat, m: nat, q: nat, r: nat)
    requires m > 0 && i == q * (2 * m) + r && r < 2 * m
    ensures r % 2 == i % 2 && r / 2 == i / 2 % m
  {
    DoubleProduct(q, m);
    HalfOfSum(i, q * m, r);
    RemainderIs(i / 2, m, q, r / 2);
  }

  lemma DoubleProduct(q: nat, m: nat)
    ensures q * (2 * m) == 2 * (q * m)
  {
  }

  lemma HalfOfSum(i: nat, t: nat, r: nat)
    requires i == 2 * t + r
    ensures r % 2 == i % 2 && i / 2 == t + r / 2
  {
  }

  lemma RemainderIs(x: nat, d: nat, q: nat, r: nat)
    requires d > 0 && x == q * d + r && r < d
    ensures x % d == r
  {
    QuotientIs(x, d, q, r);
    assert x == x / d * d + x % d;
  }

  /** The verifier reads one index bit per sibling, and no others. */
  lemma {:induction false} ClimbModulo(h: Digest, i: nat, siblings: seq<Digest>)
    ensures Pow2(|siblings|) > 0 && Climb(h, i, siblings) == Climb(h, i % Pow2(|siblings|), siblings)
    decreases |siblings|
  {
    Pow2Positive(|siblings|);
    if siblings != [] {
      Pow2Positive(|siblings| - 1);
      HalfOfRemainder(i, Pow2(|siblings| - 1));
      ClimbModulo(Combine(h, i, siblings[0]), i / 2, siblings[1..]);
    }
  }

  /** The index k levels up. */
  function IndexUp(i: nat, k: nat): nat
    decreases k
  {
    if k == 0 then i else IndexUp(i / 2, k - 1)
  }

  lemma {:induction false} ClimbSplits(h: Digest, i: nat, first: seq<Digest>, second: seq<Digest>)
    ensures Climb(h, i, first + second) == Climb(Climb(h, i, first), IndexUp(i, |first|), second)
    decreases |first|
  {
    if first == [] {
      assert first + second == second;
    } else {
      assert (first + second)[1..] == first[1..] + second;
      ClimbSplits(Combine(h, i, first[0]), i / 2, first[1..], second);
    }
  }

  /** With as many siblings as the tree has levels and any index. */
  lemma FullProofExactly(leaves: seq<MerkleNode>, k: nat, h: Digest, index: nat, siblings: seq<Digest>)
    requires |leaves| == Pow2(k) > 0 && |siblings| == k
    ensures
      var i := index % |leaves|;
      Climb(h, index, siblings) == Top(leaves).hash <==> h == leaves[i].hash && siblings == Siblings(leaves, i)
  {
    hide Climb, Siblings, Top;
    var i := index % |leaves|;
    ClimbModulo(h, index, siblings);
    PerfectSiblings(leaves, i, k);
    if Climb(h, i, siblings) == Top(leaves).hash { Binding(leaves, i, h, siblings); }
    UnpromotedAgrees(leaves, i);
    ClimbAgrees(leaves, i, i);
  }

  /** Exact, for 2^h leaves and any proof with at most h siblings: it verifies if and only if it is the path of the node
      at its index, modulo the size of the level as many siblings below the root. With fewer than h siblings that is
      an internal node passing as a leaf. */
  lemma PerfectProofsExactly(leaves: seq<MerkleNode>, h: nat, proof: MerkleProof)
    requires |leaves| == Pow2(h) && |proof.siblings| <= h
    ensures
      var level := LevelUp(leaves, h - |proof.siblings|);
      |level| > 0
      && var i := proof.leafIndex % |level|;
      Verifies(proof, RootOf(leaves)) <==> proof.leafHash == level[i].hash && proof.siblings == Siblings(level, i)
  {
    hide Climb, Siblings, Top, LevelUp;
    var k := |proof.siblings|;
    Pow2Positive(h);
    LevelUpPerfect(leaves, h, h - k);
    FullProofExactly(LevelUp(leaves, h - k), k, proof.leafHash, proof.leafIndex, proof.siblings);
  }

  lemma {:induction false} ClimbIsNode(h: Digest, i: nat, siblings: seq<Digest>)
    requires siblings != []
    ensures Climb(h, i, siblings).NodeDigest?
    decreases |siblings|
  {
    if |siblings| > 1 { ClimbIsNode(Combine(h, i, siblings[0]), i / 2, siblings[1..]); }
  }

  /** ... and with more than h siblings: if and only if it is the path of a leaf continued below that leaf, which needs
      a leaf that is two hashes one after the other. */
  lemma LongProofsExactly(leaves: seq<MerkleNode>, h: nat, proof: MerkleProof)
    requires |leaves| == Pow2(h) && |proof.siblings| > h
    ensures
      var k := |proof.siblings| - h;
      |leaves| > 0
      && var (below, i) := (Climb(proof.leafHash, proof.leafIndex, proof.siblings[..k]), IndexUp(proof.leafIndex, k) % |leaves|);
      (Verifies(proof, RootOf(leaves)) <==> below == leaves[i].hash && proof.siblings[k..] == Siblings(leaves, i))
      && (Verifies(proof, RootOf(leaves)) ==> leaves[i].hash.NodeDigest?)
  {
    hide Climb, Siblings, Top;
    var k := |proof.siblings| - h;
    var first, second := proof.siblings[..k], proof.siblings[k..];
    Pow2Positive(h);
    assert proof.siblings == first + second;
    ClimbSplits(proof.leafHash, proof.leafIndex, first, second);
    ClimbIsNode(proof.leafHash, proof.leafIndex, first);
    FullProofExactly(leaves, h, Climb(proof.leafHash, proof.leafIndex, first), IndexUp(proof.leafIndex, k), second);
  }

  // ---- The same root by recursive splitting ----

  /** The tree shape of section 2.1 of RFC 6962: split at the largest power of two below n. */
  function SplitRoot(leaves: seq<MerkleNode>): MerkleNode
    requires |leaves| > 0
    decreases |leaves|
  {
    if |leaves| == 1 then leaves[0]
    else
      var k := SplitPoint(|leaves|);
      CreateInternal(SplitRoot(leaves[..k]).hash, SplitRoot(leaves[k..]).hash)
  }

  /** The largest power of two below n. */
  function SplitPoint(n: nat): (k: nat)
    requires n > 1
    ensures 0 < k < n <= 2 * k
  {
    if n == 2 then 1 else 2 * SplitPoint(Half(n))
  }

  lemma {:induction false} SplitPointIsPower(n: nat) returns (e: nat)
    requires n > 1
    ensures SplitPoint(n) == Pow2(e)
  {
    if n == 2 {
      e := 0;
    } else {
      e := SplitPointIsPower(Half(n));
      e := e + 1;
    }
  }

  lemma PairUpSplits(level: seq<MerkleNode>, half: nat)
    requires 2 * half <= |level|
    ensures PairUp(level)[..half] == PairUp(level[..2 * half]) && PairUp(level)[half..] == PairUp(level[2 * half..])
  {
  }

  lemma {:induction false} TopSplits(level: seq<MerkleNode>)
    requires |level| > 1
    ensures
      var k := SplitPoint(|level|);
      Top(level) == CreateInternal(Top(level[..k]).hash, Top(level[k..]).hash)
    decreases |level|
  {
    var k := SplitPoint(|level|);
    if |level| > 2 {
      var next := PairUp(level);
      TopSplits(next);
      PairUpSplits(level, k / 2);
      TopOfPair(level[k..]);
      TopOfPair(level[..k]);
    } else {
      assert Top(level) == PairUp(level)[0];
    }
  }

  lemma TopOfPair(level: seq<MerkleNode>)
    requires |level| > 0
    ensures Top(level) == Top(PairUp(level))
  {
  }

  /** Bottom-up pairing with promotion computes the recursively split tree, each split at the largest power of two. */
  lemma {:induction false} BottomUpIsSplit(leaves: seq<MerkleNode>)
    requires |leaves| > 0
    ensures Top(leaves) == SplitRoot(leaves)
    ensures |leaves| > 1 ==> exists e: nat :: SplitPoint(|leaves|) == Pow2(e)
    decreases |leaves|
  {
    if |leaves| > 1 {
      var k := SplitPoint(|leaves|);
      var e := SplitPointIsPower(|leaves|);
      TopSplits(leaves);
      BottomUpIsSplit(leaves[..k]);
      BottomUpIsSplit(leaves[k..]);
    }
  }

  lemma {:induction false} LevelsEndInTop(level: seq<MerkleNode>)
    requires |level| > 0
    ensures |AllLevels(level)| > 0 && AllLevels(level)[|AllLevels(level)| - 1] == Top(level)
    decreases |level|
  {
    if |level| > 1 {
      LevelsEndInTop(PairUp(level));
    }
  }

  /** A leaf without children, or an internal node whose hash is that of its two recorded children. */
  ghost predicate TrueNode(node: MerkleNode, data: seq<LeafData>) {
    if node.hasLeft || node.hasRight
    then node.hasLeft && node.hasRight && node.hash == NodeDigest(node.leftChild, node.rightChild)
    else node.leftChild == Zeros && node.rightChild == Zeros && exists j :: 0 <= j < |data| && node.hash == LeafHash(data[j])
  }

  lemma {:induction false} LevelsTrue(level: seq<MerkleNode>, data: seq<LeafData>)
    requires forall k :: 0 <= k < |level| ==> TrueNode(level[k], data)
    ensures forall k :: 0 <= k < |AllLevels(level)| ==> TrueNode(AllLevels(level)[k], data)
    decreases |level|
  {
    hide TrueNode;
    if |level| > 1 {
      var next := PairUp(level);
      forall j | 0 <= j < |next| ensures TrueNode(next[j], data) {
        if 2 * j + 1 < |level| { PairIsTrue(level[2 * j].hash, level[2 * j + 1].hash, data); }
      }
      LevelsTrue(next, data);
    }
  }

  lemma PairIsTrue(left: Digest, right: Digest, data: seq<LeafData>)
    ensures TrueNode(CreateInternal(left, right), data)
  {
  }

  /** Every node a built tree stores is true to its children, or to one of the leaves. */
  lemma StoredNodesTrue(data: seq<LeafData>)
    ensures forall k :: 0 <= k < |AllLevels(LeafNodes(data))| ==> TrueNode(AllLevels(LeafNodes(data))[k], data)
  {
    var leaves := LeafNodes(data);
    forall k | 0 <= k < |leaves| ensures TrueNode(leaves[k], data) {
      assert leaves[k].hash == LeafHash(data[k]);
    }
    LevelsTrue(leaves, data);
  }

  // ---- The objects ----

  /** Runs the verifier's loop. */
  method Verify(proof: MerkleProof, root: Digest) returns (ok: bool)
    ensures ok == Verifies(proof, root)
  {
    var current, index := proof.leafHash, proof.leafIndex;
    var i := 0;
    while i < |proof.siblings|
      invariant 0 <= i <= |proof.siblings|
      invariant Climb(current, index, proof.siblings[i..]) == Climb(proof.leafHash, proof.leafIndex, proof.siblings)
    {
      var sibling := proof.siblings[i];
      if index % 2 == 0 {
        current := NodeDigest(current, sibling);
      } else {
        current := NodeDigest(sibling, current);
      }
      index := index / 2;
      i := i + 1;
    }
    ok := current == root;
  }

  method BuildNextLevel(level: seq<MerkleNode>) returns (next: seq<MerkleNode>)
    ensures next == PairUp(level)
  {
    next := [];
    var i := 0;
    while i < |level|
      invariant i == 2 * |next| && |next| <= Half(|level|)
      invariant forall j :: 0 <= j < |next| ==> next[j] == PairAt(level, j)
    {
      if i + 1 < |level| {
        next := next + [CreateInternal(level[i].hash, level[i + 1].hash)];
      } else {
        next := next + [level[i]];
      }
      i := i + 2;
    }
  }

  method CollectSiblings(leaves: seq<MerkleNode>, leafIndex: nat) returns (siblings: seq<Digest>)
    requires leafIndex < |leaves|
    ensures siblings == Siblings(leaves, leafIndex)
  {
    hide Siblings, PairUp;
    siblings := [];
    var current, index := leaves, leafIndex;
    while |current| > 1
      invariant 0 <= index < |current|
      invariant siblings + Siblings(current, index) == Siblings(leaves, leafIndex)
      decreases |current|
    {
      var sibling := Sibling(index);
      var next := BuildNextLevel(current);
      SiblingsStep(current, index);
      ghost var found: seq<Digest> := if sibling < |current| then [current[sibling].hash] else [];
      assert siblings + Siblings(current, index) == (siblings + found) + Siblings(next, index / 2);
      if sibling < |current| {
        siblings := siblings + [current[sibling].hash];
      }
      index := index / 2;
      current := next;
    }
    OneNodeSiblings(current);
  }

  lemma OneNodeSiblings(level: seq<MerkleNode>)
    requires |level| == 1
    ensures Siblings(level, 0) == []
  {
  }

  lemma SiblingsStep(level: seq<MerkleNode>, i: nat)
    requires i < |level| && |level| > 1
    ensures Siblings(level, i)
      == (if Sibling(i) < |level| then [level[Sibling(i)].hash] else []) + Siblings(PairUp(level), i / 2)
  {
  }

  class MerkleTreeBuilder {
    var leaves: seq<MerkleNode>
    var nodes: seq<MerkleNode>

    constructor ()
      ensures leaves == [] && nodes == []
    {
      leaves, nodes := [], [];
    }

    method AddLeaf(data: LeafData)
      modifies this`leaves
      ensures leaves == old(leaves) + [CreateLeaf(data)]
      ensures forall all: seq<LeafData> :: old(leaves) == LeafNodes(all) ==> leaves == LeafNodes(all + [data])
    {
      leaves := leaves + [CreateLeaf(data)];
    }

    method BuildTree()
      modifies this`nodes
      ensures nodes == AllLevels(leaves)
    {
      nodes := [];
      var current := leaves;
      while |current| > 1
        invariant nodes + AllLevels(current) == AllLevels(leaves)
        decreases |current|
      {
        var next := BuildNextLevel(current);
        assert nodes + AllLevels(current) == (nodes + current) + AllLevels(next);
        nodes := nodes + current;
        current := next;
      }
      if current != [] {
        nodes := nodes + [current[0]];
      }
    }

    /** The root of the recursively split tree, zeros for no leaves. */
    method BuildRoot() returns (root: Digest)
      modifies this`nodes
      ensures root == RootOf(leaves)
      ensures leaves != [] ==> root == SplitRoot(leaves).hash
      ensures nodes == if |leaves| > 1 then AllLevels(leaves) else old(nodes)
    {
      if leaves == [] {
        return Zeros;
      }
      BottomUpIsSplit(leaves);
      if |leaves| == 1 {
        return leaves[0].hash;
      }
      BuildTree();
      LevelsEndInTop(leaves); // so the source's guard against empty nodes_ is never taken
      root := nodes[|nodes| - 1].hash;
    }

    method GenerateProof(leafIndex: nat) returns (proof: Result<MerkleProof>)
      modifies this`nodes
      ensures proof == if leafIndex < |leaves| then Ok(ProofOf(leaves, leafIndex)) else OutOfRange
      ensures nodes == if leafIndex < |leaves| && |leaves| > 1 then AllLevels(leaves) else old(nodes)
    {
      if leafIndex >= |leaves| {
        return OutOfRange;
      }
      if |leaves| == 1 {
        return Ok(MerkleProof(leaves[0].hash, [], 0));
      }
      BuildTree();
      var siblings := CollectSiblings(leaves, leafIndex);
      proof := Ok(MerkleProof(leaves[leafIndex].hash, siblings, leafIndex));
    }
  }
}
