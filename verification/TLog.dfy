/**
  tlog.py: the provers over leaf data, the loop verifiers as methods, and what the one side
  promises about the other. A proof element, a root or a leaf hash handed to a verifier is
  any byte string: the code checks no length.
 */
module TLog {
  import opened Hashing
  import opened MerkleTree
  import opened Inclusion
  import C = Consistency

  // ---------------------------------------------------------------- provers

  function Mth(H: HashFn, leaves: seq<Bytes>): Digest
    decreases |leaves|
  {
    if |leaves| == 0 then H([])
    else if |leaves| == 1 then LeafHash(H, leaves[0])
    else
      var k := SplitPoint(|leaves|);
      NodeHash(H, Mth(H, leaves[..k]), Mth(H, leaves[k..]))
  }

  /** The root as section 2.1 of RFC 6962 has it: a zero byte before a leaf, a one byte before two roots, split at
      the largest power of two below the size. */
  lemma MthMeans(H: HashFn, leaves: seq<Bytes>, k: nat)
    requires |leaves| >= 2 ==> IsPow2(k) && k < |leaves| <= 2 * k
    ensures |leaves| == 0 ==> Mth(H, leaves) == H([])
    ensures |leaves| == 1 ==> Mth(H, leaves) == H([0] + leaves[0])
    ensures |leaves| >= 2 ==> Mth(H, leaves) == H([1] + Mth(H, leaves[..k]) + Mth(H, leaves[k..]))
  {
    if |leaves| >= 2 { SplitPointUnique(|leaves|, k); }
  }

  /** Every string hashed while computing Mth. */
  function MthInputs(H: HashFn, leaves: seq<Bytes>): set<Bytes>
    decreases |leaves|
  {
    if |leaves| == 0 then {[]}
    else if |leaves| == 1 then {LeafInput(leaves[0])}
    else
      var k := SplitPoint(|leaves|);
      MthInputs(H, leaves[..k]) + MthInputs(H, leaves[k..]) + {NodeInput(Mth(H, leaves[..k]), Mth(H, leaves[k..]))}
  }

  function InclusionPath(H: HashFn, m: nat, leaves: seq<Bytes>): seq<Digest>
    requires m < |leaves|
    decreases |leaves|
  {
    if |leaves| == 1 then []
    else
      var k := SplitPoint(|leaves|);
      if m < k then InclusionPath(H, m, leaves[..k]) + [Mth(H, leaves[k..])]
      else InclusionPath(H, m - k, leaves[k..]) + [Mth(H, leaves[..k])]
  }

  function ConsistencyProof(H: HashFn, m: nat, leaves: seq<Bytes>): seq<Digest>
    requires m <= |leaves|
  {
    if m == |leaves| || m == 0 then [] else Subproof(H, m, leaves, true)
  }

  function Subproof(H: HashFn, m: nat, D: seq<Bytes>, b: bool): seq<Digest>
    requires 1 <= m <= |D|
    decreases |D|
  {
    if m == |D| then (if b then [] else [Mth(H, D)])
    else
      var k := SplitPoint(|D|);
      if m <= k then Subproof(H, m, D[..k], b) + [Mth(H, D[k..])]
      else Subproof(H, m - k, D[k..], false) + [Mth(H, D[..k])]
  }

  // ---------------------------------------------------------------- leaves and leaf hashes

  lemma LeafHashesSlice(H: HashFn, leaves: seq<Bytes>, k: nat)
    requires k <= |leaves|
    ensures LeafHashes(H, leaves[..k]) == LeafHashes(H, leaves)[..k]
    ensures LeafHashes(H, leaves[k..]) == LeafHashes(H, leaves)[k..]
  {
    hide LeafHash;
  }

  /** Hashing leaves on the way (Python) and hashing them first (JavaScript) give one root. */
  lemma {:induction false} MthIsRoot(H: HashFn, leaves: seq<Bytes>)
    ensures Mth(H, leaves) == Root(H, LeafHashes(H, leaves))
    decreases |leaves|
  {
    if |leaves| >= 2 { MthIsRootSplit(H, leaves, SplitPoint(|leaves|)); }
  }

  lemma MthSplit(H: HashFn, leaves: seq<Bytes>, k: nat)
    requires |leaves| >= 2 && k == SplitPoint(|leaves|)
    ensures Mth(H, leaves) == NodeHash(H, Mth(H, leaves[..k]), Mth(H, leaves[k..]))
    ensures MthInputs(H, leaves) == MthInputs(H, leaves[..k]) + MthInputs(H, leaves[k..])
                                    + {NodeInput(Mth(H, leaves[..k]), Mth(H, leaves[k..]))}
  {
  }

  lemma {:induction false} MthIsRootSplit(H: HashFn, leaves: seq<Bytes>, k: nat)
    requires |leaves| >= 2 && k == SplitPoint(|leaves|)
    ensures Mth(H, leaves) == Root(H, LeafHashes(H, leaves))
    decreases |leaves|, 0
  {
    hide *;
    MthSplit(H, leaves, k);
    RootSplit(H, LeafHashes(H, leaves), k);
    LeafHashesSlice(H, leaves, k);
    MthIsRoot(H, leaves[..k]);
    MthIsRoot(H, leaves[k..]);
  }

  /** Computing Mth hashes every leaf and every node of the tree. */
  lemma {:induction false} MthInputsCover(H: HashFn, leaves: seq<Bytes>)
    ensures RootInputs(H, LeafHashes(H, leaves)) <= MthInputs(H, leaves)
    ensures forall d :: d in leaves ==> LeafInput(d) in MthInputs(H, leaves)
    decreases |leaves|
  {
    if |leaves| >= 2 { MthInputsCoverSplit(H, leaves, SplitPoint(|leaves|)); }
  }

  lemma {:induction false} MthInputsCoverSplit(H: HashFn, leaves: seq<Bytes>, k: nat)
    requires |leaves| >= 2 && k == SplitPoint(|leaves|)
    ensures RootInputs(H, LeafHashes(H, leaves)) <= MthInputs(H, leaves)
    ensures forall d :: d in leaves ==> LeafInput(d) in MthInputs(H, leaves)
    decreases |leaves|, 0
  {
    hide *;
    MthSplit(H, leaves, k);
    RootSplit(H, LeafHashes(H, leaves), k);
    LeafHashesSlice(H, leaves, k);
    MthIsRoot(H, leaves[..k]);
    MthIsRoot(H, leaves[k..]);
    MthInputsCover(H, leaves[..k]);
    MthInputsCover(H, leaves[k..]);
    assert leaves == leaves[..k] + leaves[k..];
  }

  lemma InclusionPathSplit(H: HashFn, m: nat, leaves: seq<Bytes>, k: nat)
    requires m < |leaves| && |leaves| >= 2 && k == SplitPoint(|leaves|)
    ensures m < k ==> InclusionPath(H, m, leaves) == InclusionPath(H, m, leaves[..k]) + [Mth(H, leaves[k..])]
    ensures k <= m ==> InclusionPath(H, m, leaves) == InclusionPath(H, m - k, leaves[k..]) + [Mth(H, leaves[..k])]
  {
  }

  lemma {:induction false} InclusionPathIsPath(H: HashFn, m: nat, leaves: seq<Bytes>)
    requires m < |leaves|
    ensures InclusionPath(H, m, leaves) == Path(H, m, LeafHashes(H, leaves))
    decreases |leaves|
  {
    if |leaves| >= 2 { InclusionPathIsPathSplit(H, m, leaves, SplitPoint(|leaves|)); }
  }

  lemma {:induction false} InclusionPathIsPathSplit(H: HashFn, m: nat, leaves: seq<Bytes>, k: nat)
    requires m < |leaves| && |leaves| >= 2 && k == SplitPoint(|leaves|)
    ensures InclusionPath(H, m, leaves) == Path(H, m, LeafHashes(H, leaves))
    decreases |leaves|, 0
  {
    hide *;
    InclusionPathSplit(H, m, leaves, k);
    PathSplit(H, m, LeafHashes(H, leaves), k);
    LeafHashesSlice(H, leaves, k);
    MthIsRoot(H, leaves[..k]);
    MthIsRoot(H, leaves[k..]);
    if m < k {
      InclusionPathIsPath(H, m, leaves[..k]);
    } else {
      InclusionPathIsPath(H, m - k, leaves[k..]);
    }
  }

  lemma SubproofSplit(H: HashFn, m: nat, D: seq<Bytes>, b: bool, k: nat)
    requires 1 <= m < |D| && k == SplitPoint(|D|)
    ensures m <= k ==> Subproof(H, m, D, b) == Subproof(H, m, D[..k], b) + [Mth(H, D[k..])]
    ensures k < m ==> Subproof(H, m, D, b) == Subproof(H, m - k, D[k..], false) + [Mth(H, D[..k])]
  {
  }

  lemma {:induction false} SubproofIsSubProof(H: HashFn, m: nat, D: seq<Bytes>, b: bool)
    requires 1 <= m <= |D|
    ensures Subproof(H, m, D, b) == C.SubProof(H, m, LeafHashes(H, D), b)
    decreases |D|
  {
    if m < |D| {
      SubproofIsSubProofSplit(H, m, D, b, SplitPoint(|D|));
    } else {
      MthIsRoot(H, D);
    }
  }

  lemma {:induction false} SubproofIsSubProofSplit(H: HashFn, m: nat, D: seq<Bytes>, b: bool, k: nat)
    requires 1 <= m < |D| && k == SplitPoint(|D|)
    ensures Subproof(H, m, D, b) == C.SubProof(H, m, LeafHashes(H, D), b)
    decreases |D|, 0
  {
    hide *;
    SubproofSplit(H, m, D, b, k);
    C.SubProofSplit(H, m, LeafHashes(H, D), b, k);
    LeafHashesSlice(H, D, k);
    MthIsRoot(H, D[..k]);
    MthIsRoot(H, D[k..]);
    if m <= k {
      SubproofIsSubProof(H, m, D[..k], b);
    } else {
      SubproofIsSubProof(H, m - k, D[k..], false);
    }
  }

  lemma ConsistencyProofOverHashes(H: HashFn, m: nat, leaves: seq<Bytes>)
    requires m <= |leaves|
    ensures ConsistencyProof(H, m, leaves) == C.ConsistencyProof(H, m, LeafHashes(H, leaves))
  {
    if 0 < m < |leaves| { SubproofIsSubProof(H, m, leaves, true); }
  }

  // ---------------------------------------------------------------- the loops

  method LargestPow2Below(n: nat) returns (k: nat)
    ensures n >= 2 ==> k == SplitPoint(n) && IsPow2(k) && k < n <= 2 * k
    ensures n < 2 ==> k == 1
  {
    k := 1;
    while k * 2 < n
      invariant IsPow2(k) && k >= 1
      invariant k == 1 || k < n
      decreases n - k
    {
      k := k * 2;
    }
    if n >= 2 { SplitPointUnique(n, k); }
  }

  /** The climb of an accepted proof; index and size are any integers, as in the code. */
  predicate IncludedAt(H: HashFn, leafHash: Bytes, index: int, size: int, path: seq<Bytes>, root: Bytes) {
    Climb(H, index, size - 1, leafHash, path) == Some(root)
  }

  method VerifyInclusion(H: HashFn, leafHash: Bytes, index: int, size: int, path: seq<Bytes>, root: Bytes)
    returns (ok: bool)
    ensures ok <==> IncludedAt(H, leafHash, index, size, path, root)
  {
    var fn, sn, r := index, size - 1, leafHash;
    for j := 0 to |path|
      invariant Climb(H, fn, sn, r, path[j..]) == Climb(H, index, size - 1, leafHash, path)
    {
      var p := path[j];
      if sn == 0 { return false; }
      if fn % 2 == 1 || fn == sn {
        ghost var r0 := r;
        r := NodeHash(H, p, r);
        if fn % 2 != 1 {
          while fn % 2 != 1 && fn != 0
            invariant fn == sn && fn != 0
            invariant Climb(H, fn, sn, r0, path[j..]) == Climb(H, index, size - 1, leafHash, path)
            decreases if fn >= 0 then fn else -fn
          {
            ClimbPromoted(H, fn, r0, path[j..]);
            fn, sn := fn / 2, sn / 2;
          }
        }
        ClimbPaired(H, fn, sn, r0, path[j..]);
      } else {
        ClimbPaired(H, fn, sn, r, path[j..]);
        r := NodeHash(H, r, p);
      }
      assert path[j..][1..] == path[j + 1..];
      fn, sn := fn / 2, sn / 2;
    }
    return sn == 0 && r == root;
  }

  method VerifyConsistency(H: HashFn, m: nat, n: nat, proof: seq<Bytes>, oldRoot: Bytes, newRoot: Bytes)
    returns (ok: bool)
    ensures ok <==> C.Accepts(H, m, n, proof, oldRoot, newRoot)
    ensures m == n ==> (ok <==> proof == [] && oldRoot == newRoot)
    ensures m == 0 < n ==> (ok <==> proof == [])
    ensures m > n || (0 < m < n && proof == []) ==> !ok
  {
    if m == n { return proof == [] && oldRoot == newRoot; }
    if m == 0 { return proof == []; }
    if m > n || proof == [] { return false; }
    var full := if C.BitAnd(m, m - 1) == 0 then [oldRoot] + proof else proof;
    var fn: nat, sn: nat := m - 1, n - 1;
    while fn % 2 == 1
      invariant C.Strip(fn, sn) == C.Strip(m - 1, n - 1)
      decreases fn
    {
      fn, sn := fn / 2, sn / 2;
    }
    var fr, sr := full[0], full[0];
    ghost var result := C.DoubleClimb(H, fn, sn, fr, sr, full[1..]);
    for j := 1 to |full|
      invariant C.DoubleClimb(H, fn, sn, fr, sr, full[j..]) == result
    {
      var c := full[j];
      assert full[j..][1..] == full[j + 1..];
      if sn == 0 { return false; }
      if fn % 2 == 1 || fn == sn {
        ghost var fr0, sr0 := fr, sr;
        fr, sr := NodeHash(H, c, fr), NodeHash(H, c, sr);
        while fn % 2 != 1 && fn != 0
          invariant fn != 0 && sn != 0 && (fn % 2 == 1 || fn == sn)
          invariant C.DoubleClimb(H, fn, sn, fr0, sr0, full[j..]) == result
          decreases fn
        {
          fn, sn := fn / 2, sn / 2;
        }
      } else {
        sr := NodeHash(H, sr, c);
      }
      fn, sn := fn / 2, sn / 2;
    }
    return sn == 0 && fr == oldRoot && sr == newRoot;
  }

  /**
    The index is not compared with the size: in a tree whose size is a power of two, any integer is
    judged as its remainder. That it is below the size is for the caller to check.
   */
  lemma {:induction false} IndexModuloSize(H: HashFn, h: Bytes, index: int, size: nat, path: seq<Bytes>, root: Bytes)
    requires IsPow2(size)
    ensures IncludedAt(H, h, index, size, path, root) <==> IncludedAt(H, h, index % size, size, path, root)
    decreases size
  {
    if size > 1 && path != [] {
      var half := size / 2;
      assert size == 2 * half && (size - 1) / 2 == half - 1;
      HalfModulo(index, half);
      IndexModuloSize(H, Combine(H, index, h, path[0]), index / 2, half, path[1..], root);
    } else if size > 1 {
      assert size - 1 != 0;
    }
  }

  lemma HalfModulo(index: int, half: nat)
    requires half >= 1
    ensures index % (2 * half) % 2 == index % 2 && index % (2 * half) / 2 == index / 2 % half
    ensures index % (2 * half) == 2 * half - 1 || index % (2 * half) < 2 * half - 1
  {
    var q, r := index / 2 / half, index / 2 % half;
    assert index == 2 * (q * half + r) + index % 2;
    assert index == (2 * half) * q + (2 * r + index % 2) by { assert 2 * (q * half) == (2 * half) * q; }
    Euclid(index, 2 * half, q, 2 * r + index % 2);
  }

  lemma Euclid(x: int, d: nat, q: int, r: nat)
    requires d >= 1 && x == d * q + r && r < d
    ensures x / d == q && x % d == r
  {
    var p, s := x / d, x % d;
    assert d * p + s == x;
    if p < q {
      Times(d, q - p, p);
    } else if q < p {
      Times(d, p - q, q);
    }
  }

  lemma Times(d: nat, n: nat, p: int)
    requires n >= 1
    ensures d * (n + p) >= d * p + d
  {
    assert d * (n + p) == d * n + d * p;
    assert d * n == d + d * (n - 1);
  }

  // ---------------------------------------------------------------- inclusion

  /** Every leaf's audit path is accepted. */
  lemma InclusionComplete(H: HashFn, i: nat, leaves: seq<Bytes>)
    requires i < |leaves|
    ensures IncludedAt(H, LeafHash(H, leaves[i]), i, |leaves|, InclusionPath(H, i, leaves), Mth(H, leaves))
  {
    hide Mth, InclusionPath, Root, Path, Climb, LeafHash;
    MthIsRoot(H, leaves);
    InclusionPathIsPath(H, i, leaves);
    ClimbComplete(H, i, LeafHashes(H, leaves));
  }

  /** Only the leaf at the index is accepted, for path elements of any length, or strings collide. */
  lemma InclusionSound(H: HashFn, h: Bytes, i: nat, path: seq<Bytes>, leaves: seq<Bytes>)
    requires i < |leaves| && |h| == 32
    requires IncludedAt(H, h, i, |leaves|, path, Mth(H, leaves))
    ensures h == LeafHash(H, leaves[i])
            || CollisionIn(H, MthInputs(H, leaves) + ClimbInputs(H, i, |leaves| - 1, h, path))
  {
    hide Mth, MthInputs, Root, RootInputs, Climb, ClimbInputs, CollisionIn, LeafHash;
    var strings := MthInputs(H, leaves) + ClimbInputs(H, i, |leaves| - 1, h, path);
    if !CollisionIn(H, strings) {
      MthIsRoot(H, leaves);
      MthInputsCover(H, leaves);
      ClimbSound(H, i, h, path, LeafHashes(H, leaves), strings);
    }
  }

  /** Data whose leaf hash is accepted at index i is leaf i, or strings collide. */
  lemma InclusionSoundData(H: HashFn, d: Bytes, i: nat, path: seq<Bytes>, leaves: seq<Bytes>)
    requires i < |leaves|
    requires IncludedAt(H, LeafHash(H, d), i, |leaves|, path, Mth(H, leaves))
    ensures d == leaves[i]
            || CollisionIn(H, MthInputs(H, leaves) + ClimbInputs(H, i, |leaves| - 1, LeafHash(H, d), path) + {LeafInput(d)})
  {
    hide Mth, MthInputs, Root, RootInputs, Climb, ClimbInputs, CollisionIn, LeafHash, LeafInput;
    var strings := MthInputs(H, leaves) + ClimbInputs(H, i, |leaves| - 1, LeafHash(H, d), path) + {LeafInput(d)};
    if !CollisionIn(H, strings) {
      MthIsRoot(H, leaves);
      MthInputsCover(H, leaves);
      ClimbSound(H, i, LeafHash(H, d), path, LeafHashes(H, leaves), strings);
      LeafNoCollision(H, strings, d, leaves[i]);
    }
  }

  lemma LeafNoCollision(H: HashFn, strings: set<Bytes>, a: Bytes, b: Bytes)
    requires !CollisionIn(H, strings) && LeafInput(a) in strings && LeafInput(b) in strings
    requires LeafHash(H, a) == LeafHash(H, b)
    ensures a == b
  {
    NoCollision(H, strings, LeafInput(a), LeafInput(b));
    assert a == LeafInput(a)[1..] && b == LeafInput(b)[1..];
  }

  /** For any root, one position and size admit one (leaf hash, path) pair, or strings collide. */
  lemma InclusionUnambiguous(H: HashFn, index: int, size: int, root: Bytes, h: Bytes, path: seq<Bytes>, h': Bytes,
      path': seq<Bytes>)
    requires |h| == |h'| == 32
    requires IncludedAt(H, h, index, size, path, root) && IncludedAt(H, h', index, size, path', root)
    ensures (h == h' && path == path')
            || CollisionIn(H, ClimbInputs(H, index, size - 1, h, path) + ClimbInputs(H, index, size - 1, h', path'))
  {
    var strings := ClimbInputs(H, index, size - 1, h, path) + ClimbInputs(H, index, size - 1, h', path');
    if !CollisionIn(H, strings) {
      ClimbUnique(H, index, size - 1, h, path, h', path', strings);
    }
  }

  // ---------------------------------------------------------------- consistency

  /** Every prefix has an accepted proof, the power-of-two sizes included. */
  lemma ConsistencyComplete(H: HashFn, m: nat, leaves: seq<Bytes>)
    requires m <= |leaves|
    ensures C.Accepts(H, m, |leaves|, ConsistencyProof(H, m, leaves), Mth(H, leaves[..m]), Mth(H, leaves))
  {
    hide *;
    ConsistencyProofOverHashes(H, m, leaves);
    MthIsRoot(H, leaves);
    MthIsRoot(H, leaves[..m]);
    LeafHashesSlice(H, leaves, m);
    C.AcceptsComplete(H, m, LeafHashes(H, leaves));
  }

  /** The strings hashed by one verification and by the tree it is about. */
  function ConsistencyInputs(H: HashFn, m: nat, proof: seq<Bytes>, oldRoot: Bytes, leaves: seq<Bytes>): set<Bytes> {
    MthInputs(H, leaves) + C.AcceptInputs(H, m, |leaves|, proof, oldRoot)
  }

  /** The hash both climbs start from: the old root itself when m is a power of two. */
  function StartingHash(m: nat, proof: seq<Bytes>, oldRoot: Bytes): Bytes
    requires m >= 1 && proof != []
  {
    C.FullProof(m, proof, oldRoot)[0]
  }

  /** Consistency soundness: with a 32-byte starting hash the old root is the prefix's root. */
  lemma ConsistencySound(H: HashFn, m: nat, proof: seq<Bytes>, oldRoot: Bytes, leaves: seq<Bytes>)
    requires 1 <= m <= |leaves|
    requires C.Accepts(H, m, |leaves|, proof, oldRoot, Mth(H, leaves))
    requires m < |leaves| ==> proof != [] && |StartingHash(m, proof, oldRoot)| == 32
    ensures oldRoot == Mth(H, leaves[..m]) || CollisionIn(H, ConsistencyInputs(H, m, proof, oldRoot, leaves))
  {
    var strings := ConsistencyInputs(H, m, proof, oldRoot, leaves);
    if m == |leaves| {
      assert leaves[..m] == leaves;
    } else if !CollisionIn(H, strings) {
      ConsistencySoundProper(H, m, proof, oldRoot, leaves, strings);
    }
  }

  lemma ConsistencySoundProper(H: HashFn, m: nat, proof: seq<Bytes>, oldRoot: Bytes, leaves: seq<Bytes>, strings: set<Bytes>)
    requires 1 <= m < |leaves| && proof != []
    requires C.Accepts(H, m, |leaves|, proof, oldRoot, Mth(H, leaves))
    requires |C.FullProof(m, proof, oldRoot)[0]| == 32
    requires MthInputs(H, leaves) + C.AcceptInputs(H, m, |leaves|, proof, oldRoot) <= strings
    requires !CollisionIn(H, strings)
    ensures oldRoot == Mth(H, leaves[..m])
  {
    hide *;
    MthIsRoot(H, leaves);
    MthIsRoot(H, leaves[..m]);
    LeafHashesSlice(H, leaves, m);
    MthInputsCover(H, leaves);
    C.AcceptsSound(H, m, proof, oldRoot, LeafHashes(H, leaves), strings);
  }

  /** If the old root is a tree's root, that tree is the prefix; no length is assumed of the proof. */
  lemma ConsistencyExtends(H: HashFn, proof: seq<Bytes>, olds: seq<Bytes>, leaves: seq<Bytes>)
    requires C.Accepts(H, |olds|, |leaves|, proof, Mth(H, olds), Mth(H, leaves))
    ensures olds <= leaves
            || CollisionIn(H, MthInputs(H, olds) + ConsistencyInputs(H, |olds|, proof, Mth(H, olds), leaves))
  {
    var strings := MthInputs(H, olds) + ConsistencyInputs(H, |olds|, proof, Mth(H, olds), leaves);
    if !CollisionIn(H, strings) && |olds| >= 1 {
      if |olds| == |leaves| {
        MthInjective(H, olds, leaves, strings);
      } else {
        ConsistencyExtendsProper(H, proof, olds, leaves, strings);
      }
    }
  }

  lemma ConsistencyExtendsProper(H: HashFn, proof: seq<Bytes>, olds: seq<Bytes>, leaves: seq<Bytes>, strings: set<Bytes>)
    requires 1 <= |olds| && |olds| < |leaves| && proof != []
    requires C.Accepts(H, |olds|, |leaves|, proof, Mth(H, olds), Mth(H, leaves))
    requires MthInputs(H, olds) + MthInputs(H, leaves) + C.AcceptInputs(H, |olds|, |leaves|, proof, Mth(H, olds)) <= strings
    requires !CollisionIn(H, strings)
    ensures olds == leaves[..|olds|]
    ensures |C.FullProof(|olds|, proof, Mth(H, olds))[0]| == 32
  {
    hide *;
    MthIsRoot(H, leaves);
    MthIsRoot(H, olds);
    MthInputsCover(H, leaves);
    MthInputsCover(H, olds);
    C.AcceptsTrees(H, proof, LeafHashes(H, olds), LeafHashes(H, leaves), strings);
    SameLeaves(H, olds, leaves, strings);
  }

  /** Equal leaf hashes come from equal leaves. */
  lemma SameLeaves(H: HashFn, olds: seq<Bytes>, leaves: seq<Bytes>, strings: set<Bytes>)
    requires |olds| <= |leaves| && LeafHashes(H, olds) == LeafHashes(H, leaves)[..|olds|]
    requires MthInputs(H, olds) + MthInputs(H, leaves) <= strings && !CollisionIn(H, strings)
    ensures olds == leaves[..|olds|]
  {
    hide *;
    MthInputsCover(H, leaves);
    MthInputsCover(H, olds);
    forall i | 0 <= i < |olds| ensures olds[i] == leaves[i] {
      assert LeafHashes(H, olds)[i] == LeafHashes(H, leaves)[i];
      LeafNoCollision(H, strings, olds[i], leaves[i]);
    }
  }

  /** Two trees with one root have the same leaves, whatever their sizes: the prefixes keep
      leaves, nodes and the empty tree apart. */
  lemma {:induction false} MthInjective(H: HashFn, a: seq<Bytes>, b: seq<Bytes>, strings: set<Bytes>)
    requires Mth(H, a) == Mth(H, b)
    requires MthInputs(H, a) + MthInputs(H, b) <= strings && !CollisionIn(H, strings)
    ensures a == b
    decreases |a| + |b|
  {
    hide *;
    var x, y := LastInput(H, a), LastInput(H, b);
    MthLastInput(H, a);
    MthLastInput(H, b);
    NoCollision(H, strings, x, y);
    InputKinds(H, a);
    InputKinds(H, b);
    if |a| == 1 {
      assert a == [x[1..]] && b == [y[1..]];
    } else if |a| >= 2 {
      MthInjectiveSplit(H, a, b, SplitPoint(|a|), SplitPoint(|b|), strings);
    }
  }

  /** The string whose hash is Mth. */
  function LastInput(H: HashFn, leaves: seq<Bytes>): Bytes {
    if |leaves| == 0 then []
    else if |leaves| == 1 then LeafInput(leaves[0])
    else NodeInput(Mth(H, leaves[..SplitPoint(|leaves|)]), Mth(H, leaves[SplitPoint(|leaves|)..]))
  }

  lemma MthLastInput(H: HashFn, leaves: seq<Bytes>)
    ensures Mth(H, leaves) == H(LastInput(H, leaves)) && LastInput(H, leaves) in MthInputs(H, leaves)
  {
  }

  lemma InputKinds(H: HashFn, leaves: seq<Bytes>)
    ensures |leaves| == 0 <==> LastInput(H, leaves) == []
    ensures |leaves| == 1 <==> |LastInput(H, leaves)| > 0 && LastInput(H, leaves)[0] == 0
    ensures |leaves| == 1 ==> leaves == [LastInput(H, leaves)[1..]]
    ensures |leaves| >= 2 ==> SplitPoint(|leaves|) < |leaves|
  {
    if |leaves| == 1 { assert leaves == [leaves[0]] && leaves[0] == LeafInput(leaves[0])[1..]; }
  }

  lemma {:induction false} MthInjectiveSplit(H: HashFn, a: seq<Bytes>, b: seq<Bytes>, k: nat, l: nat, strings: set<Bytes>)
    requires |a| >= 2 && |b| >= 2 && k == SplitPoint(|a|) && l == SplitPoint(|b|)
    requires Mth(H, a) == Mth(H, b)
    requires MthInputs(H, a) + MthInputs(H, b) <= strings && !CollisionIn(H, strings)
    ensures a == b
    decreases |a| + |b|, 0
  {
    hide *;
    MthSplit(H, a, k);
    MthSplit(H, b, l);
    NodeNoCollision(H, strings, Mth(H, a[..k]), Mth(H, a[k..]), Mth(H, b[..l]), Mth(H, b[l..]));
    MthInjective(H, a[..k], b[..l], strings);
    MthInjective(H, a[k..], b[l..], strings);
    assert a == a[..k] + a[k..] && b == b[..l] + b[l..];
  }

  /** An accepted old root is the prefix's root exactly when the starting hash has 32 bytes. */
  lemma StartingHashDecides(H: HashFn, m: nat, proof: seq<Bytes>, oldRoot: Bytes, leaves: seq<Bytes>)
    requires 1 <= m < |leaves| && proof != []
    requires C.Accepts(H, m, |leaves|, proof, oldRoot, Mth(H, leaves))
    ensures (oldRoot == Mth(H, leaves[..m]) <==> |StartingHash(m, proof, oldRoot)| == 32)
            || CollisionIn(H, MthInputs(H, leaves[..m]) + ConsistencyInputs(H, m, proof, oldRoot, leaves))
  {
    var strings := MthInputs(H, leaves[..m]) + ConsistencyInputs(H, m, proof, oldRoot, leaves);
    if !CollisionIn(H, strings) {
      if |StartingHash(m, proof, oldRoot)| == 32 {
        ConsistencySoundProper(H, m, proof, oldRoot, leaves, strings);
      }
      if oldRoot == Mth(H, leaves[..m]) {
        ConsistencyExtendsProper(H, proof, leaves[..m], leaves, strings);
      }
    }
  }

  /** Whatever the hash, some old root that is no root of the prefix is accepted: it has 33 bytes. */
  lemma WrongLengthRootAccepted(H: HashFn, a: Bytes, b: Bytes)
    ensures var l, r := LeafHash(H, a), LeafHash(H, b);
            var oldRoot, proof := l + r[..1], [r[1..]];
            C.Accepts(H, 1, 2, proof, oldRoot, Mth(H, [a, b])) && oldRoot != Mth(H, [a, b][..1])
  {
    var l, r := LeafHash(H, a), LeafHash(H, b);
    var oldRoot, proof := l + r[..1], [r[1..]];
    assert [a, b][..1] == [a] && [a, b][1..] == [b];
    assert NodeInput(oldRoot, r[1..]) == NodeInput(l, r);
    assert C.FullProof(1, proof, oldRoot) == [oldRoot] + proof;
    assert ([oldRoot] + proof)[1..] == proof;
    assert C.DoubleClimb(H, 0, 1, oldRoot, oldRoot, proof) == Some((oldRoot, NodeHash(H, oldRoot, r[1..])));
  }

  /** A verifier that builds the proof from its own leaves accepts only the prefix's root. */
  lemma OwnProofOldRoot(H: HashFn, m: nat, oldRoot: Bytes, leaves: seq<Bytes>)
    requires 1 <= m <= |leaves|
    requires C.Accepts(H, m, |leaves|, ConsistencyProof(H, m, leaves), oldRoot, Mth(H, leaves))
    ensures oldRoot == Mth(H, leaves[..m])
            || CollisionIn(H, ConsistencyInputs(H, m, ConsistencyProof(H, m, leaves), oldRoot, leaves))
  {
    var strings := ConsistencyInputs(H, m, ConsistencyProof(H, m, leaves), oldRoot, leaves);
    if m == |leaves| {
      assert leaves[..m] == leaves;
    } else if !CollisionIn(H, strings) {
      OwnProofOldRootProper(H, m, oldRoot, leaves, strings);
    }
  }

  lemma OwnProofOldRootProper(H: HashFn, m: nat, oldRoot: Bytes, leaves: seq<Bytes>, strings: set<Bytes>)
    requires 1 <= m < |leaves|
    requires C.Accepts(H, m, |leaves|, ConsistencyProof(H, m, leaves), oldRoot, Mth(H, leaves))
    requires MthInputs(H, leaves) + C.AcceptInputs(H, m, |leaves|, ConsistencyProof(H, m, leaves), oldRoot) <= strings
    requires !CollisionIn(H, strings)
    ensures oldRoot == Mth(H, leaves[..m])
  {
    hide *;
    ConsistencyProofOverHashes(H, m, leaves);
    MthIsRoot(H, leaves);
    MthIsRoot(H, leaves[..m]);
    LeafHashesSlice(H, leaves, m);
    MthInputsCover(H, leaves);
    C.OwnProofSound(H, m, oldRoot, LeafHashes(H, leaves), strings);
  }

  /** Given the prefix's root, such a verifier accepts exactly the root of its own leaves. */
  lemma OwnProofNewRoot(H: HashFn, m: nat, newRoot: Bytes, leaves: seq<Bytes>)
    requires 1 <= m <= |leaves|
    ensures C.Accepts(H, m, |leaves|, ConsistencyProof(H, m, leaves), Mth(H, leaves[..m]), newRoot)
            <==> newRoot == Mth(H, leaves)
  {
    hide *;
    ConsistencyComplete(H, m, leaves);
    C.AcceptsOneNewRoot(H, m, |leaves|, ConsistencyProof(H, m, leaves), Mth(H, leaves[..m]), Mth(H, leaves), newRoot);
  }
}
