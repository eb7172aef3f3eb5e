/**
  What the bit-shifting inclusion verifiers compute (section 2.1.3.2 of RFC 9162), as a
  climb through the levels of the tree, and why it is exactly membership: complete for the
  recursive audit path, sound and unambiguous up to a collision among the strings hashed.
 */
module Inclusion {
  import opened Hashing
  import opened MerkleTree

  function Combine(H: HashFn, fn: int, r: Bytes, p: Bytes): Digest {
    if fn % 2 == 1 then NodeHash(H, p, r) else NodeHash(H, r, p)
  }

  /** Climb from node fn of a level whose last node is sn; None when the path does not fit. */
  function Climb(H: HashFn, fn: int, sn: int, r: Bytes, path: seq<Bytes>): Option<Bytes>
    decreases |path|, if fn >= 0 then fn else -fn
  {
    if path == [] then (if sn == 0 then Some(r) else None)
    else if sn == 0 then None
    else if fn % 2 == 0 && fn == sn then Climb(H, fn / 2, sn / 2, r, path)
    else Climb(H, fn / 2, sn / 2, Combine(H, fn, r, path[0]), path[1..])
  }

  /** The strings hashed by that climb. */
  function ClimbInputs(H: HashFn, fn: int, sn: int, r: Bytes, path: seq<Bytes>): set<Bytes>
    decreases |path|, if fn >= 0 then fn else -fn
  {
    if path == [] || sn == 0 then {}
    else if fn % 2 == 0 && fn == sn then ClimbInputs(H, fn / 2, sn / 2, r, path)
    else
      {if fn % 2 == 1 then NodeInput(path[0], r) else NodeInput(r, path[0])}
      + ClimbInputs(H, fn / 2, sn / 2, Combine(H, fn, r, path[0]), path[1..])
  }

  // ---------------------------------------------------------------- one level

  lemma PathNonEmpty(H: HashFn, i: nat, hs: seq<Digest>)
    requires i < |hs| && |hs| >= 2
    ensures Path(H, i, hs) != []
  {
  }

  /** The parent of node i, read off the level above. */
  lemma ParentAt(H: HashFn, i: nat, hs: seq<Digest>)
    requires i < |hs| && |hs| >= 2
    ensures |LevelUp(H, hs)| == (|hs| + 1) / 2
    ensures Sibling(i, hs) == [] <==> i % 2 == 0 && i == |hs| - 1
    ensures Sibling(i, hs) == [] ==> LevelUp(H, hs)[i / 2] == hs[i]
    ensures Sibling(i, hs) != [] ==>
              |Sibling(i, hs)| == 1 && LevelUp(H, hs)[i / 2] == Combine(H, i, hs[i], Sibling(i, hs)[0])
  {
    LevelUpAt(H, hs, i / 2);
  }

  lemma ClimbPromoted(H: HashFn, fn: int, r: Bytes, path: seq<Bytes>)
    requires path != [] && fn % 2 == 0 && fn != 0
    ensures Climb(H, fn, fn, r, path) == Climb(H, fn / 2, fn / 2, r, path)
    ensures ClimbInputs(H, fn, fn, r, path) == ClimbInputs(H, fn / 2, fn / 2, r, path)
  {
  }

  lemma ClimbPaired(H: HashFn, fn: int, sn: int, r: Bytes, path: seq<Bytes>)
    requires path != [] && sn != 0 && !(fn % 2 == 0 && fn == sn)
    ensures Climb(H, fn, sn, r, path) == Climb(H, fn / 2, sn / 2, Combine(H, fn, r, path[0]), path[1..])
    ensures ClimbInputs(H, fn, sn, r, path) ==
              {if fn % 2 == 1 then NodeInput(path[0], r) else NodeInput(r, path[0])}
              + ClimbInputs(H, fn / 2, sn / 2, Combine(H, fn, r, path[0]), path[1..])
  {
  }

  // ---------------------------------------------------------------- completeness

  /** The recursive audit path, climbed by the loop, reaches the recursive root. */
  lemma {:induction false} ClimbComplete(H: HashFn, i: nat, hs: seq<Digest>)
    requires i < |hs|
    ensures Climb(H, i, |hs| - 1, hs[i], Path(H, i, hs)) == Some(Root(H, hs))
    decreases |hs|, 1
  {
    if |hs| >= 2 { ClimbCompleteStep(H, i, hs); }
  }

  lemma {:induction false} ClimbCompleteStep(H: HashFn, i: nat, hs: seq<Digest>)
    requires i < |hs| && |hs| >= 2
    ensures Climb(H, i, |hs| - 1, hs[i], Path(H, i, hs)) == Some(Root(H, hs))
    decreases |hs|, 0
  {
    hide *;
    var up, path, sib := LevelUp(H, hs), Path(H, i, hs), Sibling(i, hs);
    PathLevel(H, i, hs);
    PathNonEmpty(H, i, hs);
    ParentAt(H, i, hs);
    LevelRoot(H, hs);
    ClimbComplete(H, i / 2, up);
    if sib == [] {
      assert path == Path(H, i / 2, up);
      ClimbPromoted(H, i, hs[i], path);
    } else {
      ClimbPaired(H, i, |hs| - 1, hs[i], path);
      assert path[0] == sib[0] && path[1..] == Path(H, i / 2, up);
    }
  }

  // ---------------------------------------------------------------- soundness

  /** A climb that reaches the root of hs started at node fn of hs, or strings collide. */
  lemma {:induction false} ClimbSound(H: HashFn, fn: nat, r: Bytes, path: seq<Bytes>, hs: seq<Digest>, strings: set<Bytes>)
    requires fn < |hs| && |r| == 32
    requires Climb(H, fn, |hs| - 1, r, path) == Some(Root(H, hs))
    requires RootInputs(H, hs) + ClimbInputs(H, fn, |hs| - 1, r, path) <= strings
    requires !CollisionIn(H, strings)
    ensures r == hs[fn]
    decreases |hs|, 1
  {
    if |hs| >= 2 {
      assert path != [];
      ClimbSoundStep(H, fn, r, path, hs, strings);
    }
  }

  lemma {:induction false} ClimbSoundStep(H: HashFn, fn: nat, r: Bytes, path: seq<Bytes>, hs: seq<Digest>,
      strings: set<Bytes>)
    requires fn < |hs| && |hs| >= 2 && |r| == 32 && path != []
    requires Climb(H, fn, |hs| - 1, r, path) == Some(Root(H, hs))
    requires RootInputs(H, hs) + ClimbInputs(H, fn, |hs| - 1, r, path) <= strings
    requires !CollisionIn(H, strings)
    ensures r == hs[fn]
    decreases |hs|, 0
  {
    hide *;
    LevelRoot(H, hs);
    LevelInputs(H, hs);
    LevelUpAt(H, hs, fn / 2);
    if fn % 2 == 0 && fn == |hs| - 1 {
      ClimbPromoted(H, fn, r, path);
      ClimbSound(H, fn / 2, r, path, LevelUp(H, hs), strings);
    } else {
      PairHashed(H, hs, fn / 2);
      ClimbPaired(H, fn, |hs| - 1, r, path);
      ClimbSound(H, fn / 2, Combine(H, fn, r, path[0]), path[1..], LevelUp(H, hs), strings);
      CombineInjective(H, fn, r, path[0], hs, strings);
    }
  }

  lemma CombineInjective(H: HashFn, fn: nat, r: Bytes, p: Bytes, hs: seq<Digest>, strings: set<Bytes>)
    requires fn < |hs| && !(fn % 2 == 0 && fn == |hs| - 1) && |r| == 32
    requires !CollisionIn(H, strings)
    requires NodeInput(hs[2 * (fn / 2)], hs[2 * (fn / 2) + 1]) in strings
    requires (if fn % 2 == 1 then NodeInput(p, r) else NodeInput(r, p)) in strings
    requires Combine(H, fn, r, p) == NodeHash(H, hs[2 * (fn / 2)], hs[2 * (fn / 2) + 1])
    ensures r == hs[fn]
    ensures p == if fn % 2 == 1 then hs[fn - 1] else hs[fn + 1]
  {
    var a, b := hs[2 * (fn / 2)], hs[2 * (fn / 2) + 1];
    if fn % 2 == 1 {
      NodeNoCollision(H, strings, p, r, a, b);
    } else {
      NodeNoCollision(H, strings, r, p, a, b);
    }
  }

  // ---------------------------------------------------------------- uniqueness

  /** Two accepted (start, path) pairs at one position, size and root are the same pair. */
  lemma {:induction false} ClimbUnique(H: HashFn, fn: int, sn: int, r: Bytes, path: seq<Bytes>, r': Bytes,
      path': seq<Bytes>, strings: set<Bytes>)
    requires |r| == |r'| == 32
    requires Climb(H, fn, sn, r, path).Some?
    requires Climb(H, fn, sn, r, path) == Climb(H, fn, sn, r', path')
    requires ClimbInputs(H, fn, sn, r, path) + ClimbInputs(H, fn, sn, r', path') <= strings
    requires !CollisionIn(H, strings)
    ensures r == r' && path == path'
    decreases |path|, 1 + if fn >= 0 then fn else -fn
  {
    if path != [] {
      assert sn != 0 && path' != [];
      if fn % 2 == 0 && fn == sn {
        ClimbUnique(H, fn / 2, sn / 2, r, path, r', path', strings);
      } else {
        ClimbUniquePair(H, fn, sn, r, path, r', path', strings);
      }
    }
  }

  lemma {:induction false} ClimbUniquePair(H: HashFn, fn: int, sn: int, r: Bytes, path: seq<Bytes>, r': Bytes,
      path': seq<Bytes>, strings: set<Bytes>)
    requires |r| == |r'| == 32 && path != [] && path' != [] && sn != 0
    requires !(fn % 2 == 0 && fn == sn)
    requires Climb(H, fn, sn, r, path).Some?
    requires Climb(H, fn, sn, r, path) == Climb(H, fn, sn, r', path')
    requires ClimbInputs(H, fn, sn, r, path) + ClimbInputs(H, fn, sn, r', path') <= strings
    requires !CollisionIn(H, strings)
    ensures r == r' && path == path'
    decreases |path|, 0
  {
    hide *;
    ClimbPaired(H, fn, sn, r, path);
    ClimbPaired(H, fn, sn, r', path');
    var up, up' := Combine(H, fn, r, path[0]), Combine(H, fn, r', path'[0]);
    CombineSize(H, fn, r, path[0]);
    CombineSize(H, fn, r', path'[0]);
    ClimbUnique(H, fn / 2, sn / 2, up, path[1..], up', path'[1..], strings);
    CombineUnique(H, fn, r, path[0], r', path'[0], strings);
    assert path == [path[0]] + path[1..] && path' == [path'[0]] + path'[1..];
  }

  lemma CombineSize(H: HashFn, fn: int, r: Bytes, p: Bytes)
    ensures |Combine(H, fn, r, p)| == 32
  {
  }

  lemma CombineUnique(H: HashFn, fn: int, r: Bytes, p: Bytes, r': Bytes, p': Bytes, strings: set<Bytes>)
    requires |r| == |r'| && !CollisionIn(H, strings) && Combine(H, fn, r, p) == Combine(H, fn, r', p')
    requires (if fn % 2 == 1 then NodeInput(p, r) else NodeInput(r, p)) in strings
    requires (if fn % 2 == 1 then NodeInput(p', r') else NodeInput(r', p')) in strings
    ensures r == r' && p == p'
  {
    hide NodeInput;
    if fn % 2 == 1 {
      NodeNoCollision(H, strings, p, r, p', r');
    } else {
      NodeNoCollision(H, strings, r, p, r', p');
    }
  }
}
