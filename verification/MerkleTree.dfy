/**
  The tree of section 2.1 of RFC 6962 over leaf hashes, and the same tree built one level at
  a time. The recursive split at the largest power of two (used by the provers) and the
  pairing of neighbours that promotes an odd last node (used by the archive builder, and
  implicitly by the bit-shifting verifiers) meet in the lemmas of this module.
 */
module MerkleTree {
  import opened Hashing

  /** The largest power of two strictly below n. */
  function SplitPoint(n: nat): (k: nat)
    requires n >= 2
    ensures 1 <= k < n <= 2 * k
  {
    if n == 2 then 1 else 2 * SplitPoint((n + 1) / 2)
  }

  predicate IsPow2(k: nat) {
    k == 1 || (k > 1 && k % 2 == 0 && IsPow2(k / 2))
  }

  lemma {:induction false} SplitPointIsPow2(n: nat)
    requires n >= 2
    ensures IsPow2(SplitPoint(n))
  {
    if n > 2 { SplitPointIsPow2((n + 1) / 2); }
  }

  /** At most one power of two lies in [n/2, n). */
  lemma {:induction false} SplitPointUnique(n: nat, k: nat)
    requires n >= 2 && IsPow2(k) && k < n <= 2 * k
    ensures k == SplitPoint(n)
  {
    if n > 2 { SplitPointUnique((n + 1) / 2, k / 2); }
  }

  // ---------------------------------------------------------------- root

  /** The root over leaf hashes, by recursive split. */
  function Root(H: HashFn, hs: seq<Digest>): Digest
    decreases |hs|
  {
    if |hs| == 0 then H([])
    else if |hs| == 1 then hs[0]
    else
      var k := SplitPoint(|hs|);
      NodeHash(H, Root(H, hs[..k]), Root(H, hs[k..]))
  }

  /** Every string hashed while computing Root. */
  function RootInputs(H: HashFn, hs: seq<Digest>): set<Bytes>
    decreases |hs|
  {
    if |hs| == 0 then {[]}
    else if |hs| == 1 then {}
    else
      var k := SplitPoint(|hs|);
      RootInputs(H, hs[..k]) + RootInputs(H, hs[k..]) + {NodeInput(Root(H, hs[..k]), Root(H, hs[k..]))}
  }

  // ---------------------------------------------------------------- one level up

  /** Pair the neighbours; an odd last node is promoted unchanged. */
  function LevelUp(H: HashFn, hs: seq<Digest>): seq<Digest> {
    if |hs| <= 1 then hs else [NodeHash(H, hs[0], hs[1])] + LevelUp(H, hs[2..])
  }

  lemma {:induction false} LevelUpLength(H: HashFn, hs: seq<Digest>)
    ensures |LevelUp(H, hs)| == (|hs| + 1) / 2
  {
    if |hs| > 1 { LevelUpLength(H, hs[2..]); }
  }

  lemma {:induction false} LevelUpAt(H: HashFn, hs: seq<Digest>, j: nat)
    requires 2 * j < |hs|
    ensures |LevelUp(H, hs)| == (|hs| + 1) / 2
    ensures LevelUp(H, hs)[j] == if 2 * j + 1 < |hs| then NodeHash(H, hs[2 * j], hs[2 * j + 1]) else hs[2 * j]
  {
    LevelUpLength(H, hs);
    if j > 0 {
      LevelUpLength(H, hs[2..]);
      LevelUpAt(H, hs[2..], j - 1);
    }
  }

  lemma {:induction false} LevelUpAppend(H: HashFn, a: seq<Digest>, b: seq<Digest>)
    requires |a| % 2 == 0
    ensures LevelUp(H, a + b) == LevelUp(H, a) + LevelUp(H, b)
  {
    if |a| == 0 {
      assert a + b == b;
    } else {
      assert (a + b)[2..] == a[2..] + b;
      LevelUpAppend(H, a[2..], b);
    }
  }

  /** Splitting at an even position commutes with going one level up. */
  lemma LevelUpSplit(H: HashFn, hs: seq<Digest>, k: nat)
    requires k <= |hs| && k % 2 == 0
    ensures |LevelUp(H, hs)| == (|hs| + 1) / 2
    ensures LevelUp(H, hs)[..k / 2] == LevelUp(H, hs[..k])
    ensures LevelUp(H, hs)[k / 2..] == LevelUp(H, hs[k..])
  {
    assert hs == hs[..k] + hs[k..];
    LevelUpAppend(H, hs[..k], hs[k..]);
    LevelUpLength(H, hs);
    LevelUpLength(H, hs[..k]);
  }

  lemma HalfSplit(n: nat)
    requires n > 2
    ensures SplitPoint(n) % 2 == 0 && 2 <= SplitPoint(n) < n
    ensures SplitPoint((n + 1) / 2) == SplitPoint(n) / 2
  {
  }

  lemma RootSplit(H: HashFn, hs: seq<Digest>, k: nat)
    requires 2 <= |hs| && k == SplitPoint(|hs|)
    ensures Root(H, hs) == NodeHash(H, Root(H, hs[..k]), Root(H, hs[k..]))
    ensures RootInputs(H, hs) == RootInputs(H, hs[..k]) + RootInputs(H, hs[k..])
                                 + {NodeInput(Root(H, hs[..k]), Root(H, hs[k..]))}
  {
  }

  lemma TreeOfTwo(H: HashFn, hs: seq<Digest>)
    requires |hs| == 2
    ensures hs[..1] == [hs[0]] && hs[1..] == [hs[1]]
    ensures Root(H, hs) == NodeHash(H, hs[0], hs[1])
    ensures RootInputs(H, hs) == {NodeInput(hs[0], hs[1])}
    ensures LevelUp(H, hs) == [NodeHash(H, hs[0], hs[1])]
  {
    assert hs[..1] == [hs[0]] && hs[1..] == [hs[1]];
  }

  /** Pairing neighbours does not change the root: the two constructions agree. */
  lemma {:induction false} LevelRoot(H: HashFn, hs: seq<Digest>)
    ensures Root(H, LevelUp(H, hs)) == Root(H, hs)
    decreases |hs|, 1
  {
    if |hs| == 2 {
      TreeOfTwo(H, hs);
    } else if |hs| > 2 {
      LevelRootSplit(H, hs, SplitPoint(|hs|));
    }
  }

  lemma {:induction false} LevelRootSplit(H: HashFn, hs: seq<Digest>, k: nat)
    requires 2 < |hs| && k == SplitPoint(|hs|)
    ensures Root(H, LevelUp(H, hs)) == Root(H, hs)
    decreases |hs|, 0
  {
    hide *;
    HalfSplit(|hs|);
    LevelUpSplit(H, hs, k);
    RootSplit(H, hs, k);
    RootSplit(H, LevelUp(H, hs), k / 2);
    LevelRoot(H, hs[..k]);
    LevelRoot(H, hs[k..]);
  }

  /** The strings hashed one level up are among the strings hashed for the root. */
  lemma {:induction false} LevelInputs(H: HashFn, hs: seq<Digest>)
    ensures RootInputs(H, LevelUp(H, hs)) <= RootInputs(H, hs)
    decreases |hs|, 1
  {
    if |hs| == 2 {
      TreeOfTwo(H, hs);
    } else if |hs| > 2 {
      LevelInputsSplit(H, hs, SplitPoint(|hs|));
    }
  }

  lemma {:induction false} LevelInputsSplit(H: HashFn, hs: seq<Digest>, k: nat)
    requires 2 < |hs| && k == SplitPoint(|hs|)
    ensures RootInputs(H, LevelUp(H, hs)) <= RootInputs(H, hs)
    decreases |hs|, 0
  {
    hide *;
    HalfSplit(|hs|);
    LevelUpSplit(H, hs, k);
    RootSplit(H, hs, k);
    RootSplit(H, LevelUp(H, hs), k / 2);
    LevelRoot(H, hs[..k]);
    LevelRoot(H, hs[k..]);
    LevelInputs(H, hs[..k]);
    LevelInputs(H, hs[k..]);
  }

  /** Computing the root hashes every neighbour pair of the lowest level. */
  lemma {:induction false} PairHashed(H: HashFn, hs: seq<Digest>, j: nat)
    requires 2 * j + 1 < |hs|
    ensures NodeInput(hs[2 * j], hs[2 * j + 1]) in RootInputs(H, hs)
    decreases |hs|, 1
  {
    if |hs| == 2 {
      TreeOfTwo(H, hs);
    } else {
      PairHashedSplit(H, hs, j, SplitPoint(|hs|));
    }
  }

  lemma {:induction false} PairHashedSplit(H: HashFn, hs: seq<Digest>, j: nat, k: nat)
    requires 2 * j + 1 < |hs| && 2 < |hs| && k == SplitPoint(|hs|)
    ensures NodeInput(hs[2 * j], hs[2 * j + 1]) in RootInputs(H, hs)
    decreases |hs|, 0
  {
    hide *;
    HalfSplit(|hs|);
    RootSplit(H, hs, k);
    if 2 * j < k {
      PairHashed(H, hs[..k], j);
    } else {
      PairHashed(H, hs[k..], j - k / 2);
    }
  }

  // ---------------------------------------------------------------- audit path

  /** PATH(i, D[0:n]) over leaf hashes, nearest sibling first. */
  function Path(H: HashFn, i: nat, hs: seq<Digest>): (path: seq<Digest>)
    requires i < |hs|
    decreases |hs|
  {
    if |hs| == 1 then []
    else
      var k := SplitPoint(|hs|);
      if i < k then Path(H, i, hs[..k]) + [Root(H, hs[k..])]
      else Path(H, i - k, hs[k..]) + [Root(H, hs[..k])]
  }

  /** The neighbour of node i on its own level: none when i is an odd last node. */
  function Sibling(i: nat, hs: seq<Digest>): seq<Digest>
    requires i < |hs|
  {
    if i % 2 == 1 then [hs[i - 1]] else if i + 1 < |hs| then [hs[i + 1]] else []
  }

  lemma PathSplit(H: HashFn, i: nat, hs: seq<Digest>, k: nat)
    requires i < |hs| && 2 <= |hs| && k == SplitPoint(|hs|)
    ensures i < k ==> Path(H, i, hs) == Path(H, i, hs[..k]) + [Root(H, hs[k..])]
    ensures k <= i ==> Path(H, i, hs) == Path(H, i - k, hs[k..]) + [Root(H, hs[..k])]
  {
  }

  lemma TreeOfOne(H: HashFn, hs: seq<Digest>)
    requires |hs| == 1
    ensures Root(H, hs) == hs[0] && LevelUp(H, hs) == hs
    ensures Path(H, 0, hs) == [] && Sibling(0, hs) == []
  {
  }

  lemma SiblingSplit(i: nat, hs: seq<Digest>, k: nat)
    requires i < |hs| && k < |hs| && k % 2 == 0
    ensures i < k ==> Sibling(i, hs) == Sibling(i, hs[..k])
    ensures k <= i ==> Sibling(i, hs) == Sibling(i - k, hs[k..])
  {
  }

  /** The audit path, read one level at a time. */
  lemma {:induction false} PathLevel(H: HashFn, i: nat, hs: seq<Digest>)
    requires i < |hs| && |hs| >= 2
    ensures |LevelUp(H, hs)| == (|hs| + 1) / 2
    ensures Path(H, i, hs) == Sibling(i, hs) + Path(H, i / 2, LevelUp(H, hs))
    decreases |hs|, 1
  {
    if |hs| == 2 {
      TreeOfTwo(H, hs);
    } else {
      LevelUpLength(H, hs);
      PathLevelSplit(H, i, hs, SplitPoint(|hs|));
    }
  }

  lemma {:induction false} PathLevelSplit(H: HashFn, i: nat, hs: seq<Digest>, k: nat)
    requires 2 < |hs| && k == SplitPoint(|hs|) && i < |hs|
    requires |LevelUp(H, hs)| == (|hs| + 1) / 2
    ensures Path(H, i, hs) == Sibling(i, hs) + Path(H, i / 2, LevelUp(H, hs))
    decreases |hs|, 0
  {
    hide *;
    HalfSplit(|hs|);
    LevelUpSplit(H, hs, k);
    PathSplit(H, i, hs, k);
    PathSplit(H, i / 2, LevelUp(H, hs), k / 2);
    SiblingSplit(i, hs, k);
    LevelRoot(H, hs[..k]);
    LevelRoot(H, hs[k..]);
    if i < k {
      PathLevel(H, i, hs[..k]);
    } else if |hs| - k == 1 {
      TreeOfOne(H, hs[k..]);
    } else {
      assert (i - k) / 2 == i / 2 - k / 2;
      PathLevel(H, i - k, hs[k..]);
    }
  }
}
