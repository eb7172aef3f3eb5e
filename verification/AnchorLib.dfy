/** ci/anchor_lib.py: the second inclusion verifier, which returns the root it computes. */
module AnchorLib {
  import opened Hashing
  import opened Inclusion
  import T = TLog

  method RootFromInclusion(H: HashFn, leafHash: Bytes, index: int, size: int, path: seq<Bytes>)
    returns (root: Option<Bytes>)
    ensures root == Climb(H, index, size - 1, leafHash, path)
    ensures forall r :: T.IncludedAt(H, leafHash, index, size, path, r) <==> root == Some(r)
  {
    var fn, sn, r := index, size - 1, leafHash;
    for j := 0 to |path|
      invariant Climb(H, fn, sn, r, path[j..]) == Climb(H, index, size - 1, leafHash, path)
    {
      var p := path[j];
      if sn == 0 { return None; }
      if fn % 2 == 1 || fn == sn {
        ghost var r0 := r;
        r := NodeHash(H, p, r);
        if fn % 2 != 1 {
          while fn % 2 != 1 && fn != 0
            invariant fn == sn && fn != 0
            invariant Climb(H, fn, sn, r0, path[j..]) == Climb(H, index, size - 1, leafHash, path)
            decreases if fn >= 0 then fn else -fn
          {
            ClimbPromoted(H, fn, r0, path[j..]);
            fn, sn := fn / 2, sn / 2;
          }
        }
        ClimbPaired(H, fn, sn, r0, path[j..]);
      } else {
        ClimbPaired(H, fn, sn, r, path[j..]);
        r := NodeHash(H, r, p);
      }
      assert path[j..][1..] == path[j + 1..];
      fn, sn := fn / 2, sn / 2;
    }
    return if sn == 0 then Some(r) else None;
  }

  /** The audit path of a leaf computes the tree's root. */
  lemma RootRecovered(H: HashFn, i: nat, leaves: seq<Bytes>)
    requires i < |leaves|
    ensures Climb(H, i, |leaves| - 1, LeafHash(H, leaves[i]), T.InclusionPath(H, i, leaves)) == Some(T.Mth(H, leaves))
  {
    hide T.Mth, T.InclusionPath, Climb, LeafHash;
    T.InclusionComplete(H, i, leaves);
  }
}
