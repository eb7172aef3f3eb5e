/**
  What the bit-shifting consistency verifier computes (section 2.1.4.2 of RFC 9162): a double
  climb, one hash for the old tree and one for the new, from the last node of the old tree.
  The new side is an inclusion climb, so the proof is a node followed by its audit path.
 */
module Consistency {
  import opened Hashing
  import opened MerkleTree
  import opened Inclusion

  /** The bitwise "and" of two naturals. */
  function BitAnd(a: nat, b: nat): nat {
    if a == 0 || b == 0 then 0 else 2 * BitAnd(a / 2, b / 2) + if a % 2 == 1 && b % 2 == 1 then 1 else 0
  }

  /** The test m & (m - 1) == 0 is the test for a power of two. */
  lemma {:induction false} PowerOfTwoTest(m: nat)
    requires m >= 1
    ensures BitAnd(m, m - 1) == 0 <==> IsPow2(m)
  {
    if m > 1 {
      if m % 2 == 0 {
        assert (m - 1) / 2 == m / 2 - 1 && (m - 1) % 2 == 1;
        PowerOfTwoTest(m / 2);
      } else {
        assert (m - 1) / 2 == m / 2;
        BitAndSelf(m / 2);
      }
    }
  }

  lemma {:induction false} BitAndSelf(a: nat)
    ensures BitAnd(a, a) == a
  {
    if a > 0 { BitAndSelf(a / 2); }
  }

  // ---------------------------------------------------------------- the verifier's function

  /** Drop the common levels on which the old tree's last node is complete. */
  function Strip(fn: nat, sn: nat): (nat, nat) {
    if fn % 2 == 1 then Strip(fn / 2, sn / 2) else (fn, sn)
  }

  function DoubleClimb(H: HashFn, fn: nat, sn: nat, fr: Bytes, sr: Bytes, path: seq<Bytes>): Option<(Bytes, Bytes)>
    decreases |path|, fn
  {
    if path == [] then (if sn == 0 then Some((fr, sr)) else None)
    else if sn == 0 then None
    else if fn % 2 == 1 then
      DoubleClimb(H, fn / 2, sn / 2, NodeHash(H, path[0], fr), NodeHash(H, path[0], sr), path[1..])
    else if fn == sn then DoubleClimb(H, fn / 2, sn / 2, fr, sr, path)
    else DoubleClimb(H, fn / 2, sn / 2, fr, NodeHash(H, sr, path[0]), path[1..])
  }

  /** The proof with the implied old root put back when the old size is a power of two. */
  function FullProof(m: nat, proof: seq<Bytes>, oldRoot: Bytes): seq<Bytes>
    requires m >= 1
  {
    if BitAnd(m, m - 1) == 0 then [oldRoot] + proof else proof
  }

  predicate Accepts(H: HashFn, m: nat, n: nat, proof: seq<Bytes>, oldRoot: Bytes, newRoot: Bytes) {
    if m == n then proof == [] && oldRoot == newRoot
    else if m == 0 then proof == []
    else if m > n || proof == [] then false
    else
      var full := FullProof(m, proof, oldRoot);
      var (fn, sn) := Strip(m - 1, n - 1);
      DoubleClimb(H, fn, sn, full[0], full[0], full[1..]) == Some((oldRoot, newRoot))
  }

  // ---------------------------------------------------------------- the two sides

  /** The old side alone. */
  function OldClimb(H: HashFn, fn: nat, sn: nat, fr: Bytes, path: seq<Bytes>): Bytes
    decreases |path|, fn
  {
    if path == [] || sn == 0 then fr
    else if fn % 2 == 1 then OldClimb(H, fn / 2, sn / 2, NodeHash(H, path[0], fr), path[1..])
    else if fn == sn then OldClimb(H, fn / 2, sn / 2, fr, path)
    else OldClimb(H, fn / 2, sn / 2, fr, path[1..])
  }

  function OldInputs(H: HashFn, fn: nat, sn: nat, fr: Bytes, path: seq<Bytes>): set<Bytes>
    decreases |path|, fn
  {
    if path == [] || sn == 0 then {}
    else if fn % 2 == 1 then
      {NodeInput(path[0], fr)} + OldInputs(H, fn / 2, sn / 2, NodeHash(H, path[0], fr), path[1..])
    else if fn == sn then OldInputs(H, fn / 2, sn / 2, fr, path)
    else OldInputs(H, fn / 2, sn / 2, fr, path[1..])
  }

  lemma {:induction false} DoubleClimbSides(H: HashFn, fn: nat, sn: nat, fr: Bytes, sr: Bytes, path: seq<Bytes>)
    ensures DoubleClimb(H, fn, sn, fr, sr, path) ==
              match Climb(H, fn, sn, sr, path)
              case None => None
              case Some(r) => Some((OldClimb(H, fn, sn, fr, path), r))
    decreases |path|, fn
  {
    if path != [] && sn != 0 {
      if fn % 2 == 1 {
        DoubleClimbSides(H, fn / 2, sn / 2, NodeHash(H, path[0], fr), NodeHash(H, path[0], sr), path[1..]);
      } else if fn == sn {
        DoubleClimbSides(H, fn / 2, sn / 2, fr, sr, path);
      } else {
        DoubleClimbSides(H, fn / 2, sn / 2, fr, NodeHash(H, sr, path[0]), path[1..]);
      }
    }
  }

  lemma OldClimbOdd(H: HashFn, fn: nat, sn: nat, fr: Bytes, path: seq<Bytes>)
    requires path != [] && sn != 0 && fn % 2 == 1
    ensures OldClimb(H, fn, sn, fr, path) == OldClimb(H, fn / 2, sn / 2, NodeHash(H, path[0], fr), path[1..])
    ensures OldInputs(H, fn, sn, fr, path) ==
              {NodeInput(path[0], fr)} + OldInputs(H, fn / 2, sn / 2, NodeHash(H, path[0], fr), path[1..])
  {
  }

  lemma OldClimbEven(H: HashFn, fn: nat, sn: nat, fr: Bytes, path: seq<Bytes>)
    requires path != [] && sn != 0 && fn % 2 == 0
    ensures var rest := if fn == sn then path else path[1..];
            OldClimb(H, fn, sn, fr, path) == OldClimb(H, fn / 2, sn / 2, fr, rest)
            && OldInputs(H, fn, sn, fr, path) == OldInputs(H, fn / 2, sn / 2, fr, rest)
  {
  }

  // ---------------------------------------------------------------- the old tree, one level up

  /** The old tree whose last node is fr and whose other nodes are those of hs. */
  function OldLevel(hs: seq<Digest>, fn: nat, fr: Digest): seq<Digest>
    requires fn < |hs|
  {
    hs[..fn] + [fr]
  }

  lemma OldLevelUp(H: HashFn, hs: seq<Digest>, fn: nat, fr: Digest)
    requires fn < |hs| && |hs| >= 2
    ensures |LevelUp(H, hs)| == (|hs| + 1) / 2
    ensures fn % 2 == 0 ==> LevelUp(H, OldLevel(hs, fn, fr)) == OldLevel(LevelUp(H, hs), fn / 2, fr)
    ensures fn % 2 == 1 ==>
              LevelUp(H, OldLevel(hs, fn, fr)) == OldLevel(LevelUp(H, hs), fn / 2, NodeHash(H, hs[fn - 1], fr))
  {
    hide *;
    LevelUpLength(H, hs);
    if fn % 2 == 0 {
      OldLevelUpEven(H, hs, fn, fr);
    } else {
      OldLevelUpOdd(H, hs, fn, fr);
    }
  }

  lemma OldLevelUpEven(H: HashFn, hs: seq<Digest>, fn: nat, fr: Digest)
    requires fn < |hs| && fn % 2 == 0 && |LevelUp(H, hs)| == (|hs| + 1) / 2
    ensures LevelUp(H, OldLevel(hs, fn, fr)) == OldLevel(LevelUp(H, hs), fn / 2, fr)
  {
    assert OldLevel(hs, fn, fr) == hs[..fn] + [fr];
    TreeOfOne(H, [fr]);
    hide LevelUp;
    LevelUpSplit(H, hs, fn);
    LevelUpAppend(H, hs[..fn], [fr]);
  }

  lemma OldLevelUpOdd(H: HashFn, hs: seq<Digest>, fn: nat, fr: Digest)
    requires fn < |hs| && fn % 2 == 1 && |LevelUp(H, hs)| == (|hs| + 1) / 2
    ensures LevelUp(H, OldLevel(hs, fn, fr)) == OldLevel(LevelUp(H, hs), fn / 2, NodeHash(H, hs[fn - 1], fr))
  {
    var last: seq<Digest> := [hs[fn - 1], fr];
    assert OldLevel(hs, fn, fr) == hs[..fn - 1] + last;
    hide LevelUp, NodeHash;
    LevelUpSplit(H, hs, fn - 1);
    LevelUpAppend(H, hs[..fn - 1], last);
    TreeOfTwo(H, last);
    assert (fn - 1) / 2 == fn / 2;
  }

  // ---------------------------------------------------------------- soundness of the double climb

  /** If the new side reaches the root of hs, the old side reaches the root of the old level. */
  lemma {:induction false} OldSideSound(H: HashFn, fn: nat, fr: Digest, sr: Bytes, path: seq<Bytes>, hs: seq<Digest>,
      strings: set<Bytes>)
    requires fn < |hs| && |sr| == 32
    requires Climb(H, fn, |hs| - 1, sr, path) == Some(Root(H, hs))
    requires RootInputs(H, hs) + ClimbInputs(H, fn, |hs| - 1, sr, path) <= strings
    requires !CollisionIn(H, strings)
    ensures sr == hs[fn]
    ensures OldClimb(H, fn, |hs| - 1, fr, path) == Root(H, OldLevel(hs, fn, fr))
    decreases |hs|, 1
  {
    ClimbSound(H, fn, sr, path, hs, strings);
    if |hs| == 1 {
      assert OldLevel(hs, fn, fr) == [fr];
    } else {
      assert path != [];
      OldSideSoundStep(H, fn, fr, sr, path, hs, strings);
    }
  }

  lemma {:induction false} OldSideSoundStep(H: HashFn, fn: nat, fr: Digest, sr: Bytes, path: seq<Bytes>,
      hs: seq<Digest>, strings: set<Bytes>)
    requires fn < |hs| && |sr| == 32 && |hs| >= 2 && path != []
    requires Climb(H, fn, |hs| - 1, sr, path) == Some(Root(H, hs))
    requires RootInputs(H, hs) + ClimbInputs(H, fn, |hs| - 1, sr, path) <= strings
    requires !CollisionIn(H, strings)
    ensures OldClimb(H, fn, |hs| - 1, fr, path) == Root(H, OldLevel(hs, fn, fr))
    decreases |hs|, 0
  {
    hide *;
    var up := LevelUp(H, hs);
    LevelRoot(H, hs);
    LevelInputs(H, hs);
    LevelUpAt(H, hs, fn / 2);
    OldLevelUp(H, hs, fn, fr);
    LevelRoot(H, OldLevel(hs, fn, fr));
    if fn % 2 == 0 && fn == |hs| - 1 {
      ClimbPromoted(H, fn, sr, path);
      OldClimbEven(H, fn, |hs| - 1, fr, path);
      OldSideSound(H, fn / 2, fr, sr, path, up, strings);
    } else {
      PairHashed(H, hs, fn / 2);
      ClimbPaired(H, fn, |hs| - 1, sr, path);
      var sr' := Combine(H, fn, sr, path[0]);
      if fn % 2 == 0 {
        OldClimbEven(H, fn, |hs| - 1, fr, path);
        OldSideSound(H, fn / 2, fr, sr', path[1..], up, strings);
      } else {
        OldClimbOdd(H, fn, |hs| - 1, fr, path);
        OldSideSound(H, fn / 2, NodeHash(H, path[0], fr), sr', path[1..], up, strings);
        CombineInjective(H, fn, sr, path[0], hs, strings);
      }
    }
  }

  /** If moreover the old side reaches the root of an actual tree, that tree is the prefix. */
  lemma {:induction false} OldTreeSound(H: HashFn, fn: nat, fr: Bytes, sr: Bytes, path: seq<Bytes>, olds: seq<Digest>,
      hs: seq<Digest>, strings: set<Bytes>)
    requires fn < |hs| && |sr| == 32 && |olds| == fn + 1
    requires Climb(H, fn, |hs| - 1, sr, path) == Some(Root(H, hs))
    requires OldClimb(H, fn, |hs| - 1, fr, path) == Root(H, olds)
    requires RootInputs(H, hs) + ClimbInputs(H, fn, |hs| - 1, sr, path) <= strings
    requires RootInputs(H, olds) + OldInputs(H, fn, |hs| - 1, fr, path) <= strings
    requires !CollisionIn(H, strings)
    ensures sr == hs[fn] && fr == olds[fn] && olds[..fn] == hs[..fn]
    decreases |hs|, 1
  {
    ClimbSound(H, fn, sr, path, hs, strings);
    if |hs| >= 2 {
      assert path != [];
      OldTreeSoundStep(H, fn, fr, sr, path, olds, hs, strings);
    }
  }

  lemma {:induction false} OldTreeSoundStep(H: HashFn, fn: nat, fr: Bytes, sr: Bytes, path: seq<Bytes>,
      olds: seq<Digest>, hs: seq<Digest>, strings: set<Bytes>)
    requires fn < |hs| && |sr| == 32 && |olds| == fn + 1 && |hs| >= 2 && path != []
    requires Climb(H, fn, |hs| - 1, sr, path) == Some(Root(H, hs))
    requires OldClimb(H, fn, |hs| - 1, fr, path) == Root(H, olds)
    requires RootInputs(H, hs) + ClimbInputs(H, fn, |hs| - 1, sr, path) <= strings
    requires RootInputs(H, olds) + OldInputs(H, fn, |hs| - 1, fr, path) <= strings
    requires !CollisionIn(H, strings)
    ensures fr == olds[fn] && olds[..fn] == hs[..fn]
    decreases |hs|, 0
  {
    hide *;
    var up, oldUp := LevelUp(H, hs), LevelUp(H, olds);
    LevelRoot(H, hs);
    LevelInputs(H, hs);
    LevelUpLength(H, hs);
    LevelRoot(H, olds);
    LevelInputs(H, olds);
    LevelUpAt(H, olds, fn / 2);
    if fn % 2 == 0 {
      OldClimbEven(H, fn, |hs| - 1, fr, path);
      if fn == |hs| - 1 {
        ClimbPromoted(H, fn, sr, path);
        OldTreeSound(H, fn / 2, fr, sr, path, oldUp, up, strings);
      } else {
        ClimbPaired(H, fn, |hs| - 1, sr, path);
        OldTreeSound(H, fn / 2, fr, Combine(H, fn, sr, path[0]), path[1..], oldUp, up, strings);
      }
      SamePairs(H, fn, olds, hs, strings);
    } else {
      OldClimbOdd(H, fn, |hs| - 1, fr, path);
      ClimbPaired(H, fn, |hs| - 1, sr, path);
      OldTreeSound(H, fn / 2, NodeHash(H, path[0], fr), Combine(H, fn, sr, path[0]), path[1..], oldUp, up, strings);
      PairHashed(H, hs, fn / 2);
      LevelUpAt(H, hs, fn / 2);
      CombineInjective(H, fn, sr, path[0], hs, strings);
      PairHashed(H, olds, fn / 2);
      NodeNoCollision(H, strings, path[0], fr, olds[fn - 1], olds[fn]);
      SamePairs(H, fn - 1, olds, hs, strings);
      assert olds[..fn] == olds[..fn - 1] + [olds[fn - 1]] && hs[..fn] == hs[..fn - 1] + [hs[fn - 1]];
    }
  }

  /** Equal parents have equal children. */
  lemma SamePairs(H: HashFn, k: nat, olds: seq<Digest>, hs: seq<Digest>, strings: set<Bytes>)
    requires k % 2 == 0 && k <= |olds| && k <= |hs|
    requires k / 2 <= |LevelUp(H, olds)| && k / 2 <= |LevelUp(H, hs)|
    requires LevelUp(H, olds)[..k / 2] == LevelUp(H, hs)[..k / 2]
    requires RootInputs(H, olds) + RootInputs(H, hs) <= strings
    requires !CollisionIn(H, strings)
    ensures olds[..k] == hs[..k]
  {
    hide *;
    forall i | 0 <= i < k ensures olds[i] == hs[i] {
      var j := i / 2;
      LevelUpAt(H, olds, j);
      LevelUpAt(H, hs, j);
      assert LevelUp(H, olds)[..k / 2][j] == LevelUp(H, hs)[..k / 2][j];
      PairHashed(H, olds, j);
      PairHashed(H, hs, j);
      NodeNoCollision(H, strings, olds[2 * j], olds[2 * j + 1], hs[2 * j], hs[2 * j + 1]);
    }
  }

  // ---------------------------------------------------------------- dropping the common levels

  /** The level on which the climb starts. */
  function StripLevels(H: HashFn, fn: nat, hs: seq<Digest>): seq<Digest> {
    if fn % 2 == 1 then StripLevels(H, fn / 2, LevelUp(H, hs)) else hs
  }

  lemma {:induction false} StripShape(H: HashFn, fn: nat, hs: seq<Digest>)
    requires fn < |hs|
    ensures var (f, s) := Strip(fn, |hs| - 1);
            |StripLevels(H, fn, hs)| == s + 1 && f <= s && f % 2 == 0
            && (f == s <==> fn == |hs| - 1) && (f == 0 <==> IsPow2(fn + 1))
  {
    if fn % 2 == 1 {
      LevelUpLength(H, hs);
      StripShape(H, fn / 2, LevelUp(H, hs));
      assert (fn + 1) / 2 == fn / 2 + 1;
    }
  }

  lemma StripStep(H: HashFn, fn: nat, sn: nat, hs: seq<Digest>)
    requires fn % 2 == 1
    ensures Strip(fn, sn) == Strip(fn / 2, sn / 2)
    ensures StripLevels(H, fn, hs) == StripLevels(H, fn / 2, LevelUp(H, hs))
  {
  }

  lemma StripStop(H: HashFn, fn: nat, sn: nat, hs: seq<Digest>)
    requires fn % 2 == 0
    ensures Strip(fn, sn) == (fn, sn) && StripLevels(H, fn, hs) == hs
  {
  }

  /** The old tree is a prefix of whole nodes on every dropped level. */
  lemma {:induction false} StripRoots(H: HashFn, fn: nat, hs: seq<Digest>)
    requires fn < |hs|
    ensures var f, top := Strip(fn, |hs| - 1).0, StripLevels(H, fn, hs);
            f < |top| && Root(H, top) == Root(H, hs) && RootInputs(H, top) <= RootInputs(H, hs)
            && Root(H, top[..f + 1]) == Root(H, hs[..fn + 1])
  {
    hide *;
    if fn % 2 == 0 {
      StripStop(H, fn, |hs| - 1, hs);
    } else {
      var up := LevelUp(H, hs);
      StripStep(H, fn, |hs| - 1, hs);
      LevelUpLength(H, hs);
      StripRoots(H, fn / 2, up);
      LevelRoot(H, hs);
      LevelInputs(H, hs);
      LevelUpSplit(H, hs, fn + 1);
      LevelRoot(H, hs[..fn + 1]);
      assert (fn + 1) / 2 == fn / 2 + 1;
    }
  }

  /** Equal stripped prefixes come from equal prefixes. */
  lemma {:induction false} StripInjective(H: HashFn, olds: seq<Digest>, hs: seq<Digest>, strings: set<Bytes>)
    requires 1 <= |olds| <= |hs|
    requires var f := Strip(|olds| - 1, |hs| - 1).0;
             f < |StripLevels(H, |olds| - 1, hs)|
             && StripLevels(H, |olds| - 1, olds) == StripLevels(H, |olds| - 1, hs)[..f + 1]
    requires RootInputs(H, olds) + RootInputs(H, hs) <= strings
    requires !CollisionIn(H, strings)
    ensures olds == hs[..|olds|]
    decreases |olds|
  {
    hide *;
    var fn := |olds| - 1;
    if fn % 2 == 0 {
      StripStop(H, fn, |hs| - 1, hs);
      StripStop(H, fn, |hs| - 1, olds);
    } else {
      var oldUp, up := LevelUp(H, olds), LevelUp(H, hs);
      LevelUpLength(H, olds);
      LevelUpLength(H, hs);
      assert |oldUp| - 1 == fn / 2 && |up| - 1 == (|hs| - 1) / 2;
      StripStep(H, fn, |hs| - 1, hs);
      StripStep(H, fn, |hs| - 1, olds);
      LevelInputs(H, olds);
      LevelInputs(H, hs);
      StripInjective(H, oldUp, up, strings);
      assert oldUp[..(fn + 1) / 2] == oldUp;
      SamePairs(H, fn + 1, olds, hs, strings);
    }
  }

  // ---------------------------------------------------------------- soundness

  /** The strings hashed while verifying a consistency proof. */
  function AcceptInputs(H: HashFn, m: nat, n: nat, proof: seq<Bytes>, oldRoot: Bytes): set<Bytes> {
    if m == n || m == 0 || m > n || proof == [] then {}
    else
      var full := FullProof(m, proof, oldRoot);
      var (fn, sn) := Strip(m - 1, n - 1);
      OldInputs(H, fn, sn, full[0], full[1..]) + ClimbInputs(H, fn, sn, full[0], full[1..])
  }

  lemma AcceptsSides(H: HashFn, m: nat, n: nat, proof: seq<Bytes>, oldRoot: Bytes, newRoot: Bytes)
    requires 1 <= m < n && proof != []
    ensures FullProof(m, proof, oldRoot) != []
    ensures var full := FullProof(m, proof, oldRoot);
            var (fn, sn) := Strip(m - 1, n - 1);
            && (Accepts(H, m, n, proof, oldRoot, newRoot) <==>
                  Climb(H, fn, sn, full[0], full[1..]) == Some(newRoot)
                  && OldClimb(H, fn, sn, full[0], full[1..]) == oldRoot)
            && AcceptInputs(H, m, n, proof, oldRoot) ==
                 OldInputs(H, fn, sn, full[0], full[1..]) + ClimbInputs(H, fn, sn, full[0], full[1..])
  {
    var full := FullProof(m, proof, oldRoot);
    var (fn, sn) := Strip(m - 1, n - 1);
    DoubleClimbSides(H, fn, sn, full[0], full[0], full[1..]);
  }

  /** An accepted old root whose climb starts from a 32-byte hash is the root of the prefix. */
  lemma AcceptsSound(H: HashFn, m: nat, proof: seq<Bytes>, oldRoot: Bytes, hs: seq<Digest>, strings: set<Bytes>)
    requires 1 <= m < |hs| && proof != []
    requires Accepts(H, m, |hs|, proof, oldRoot, Root(H, hs))
    requires |FullProof(m, proof, oldRoot)[0]| == 32
    requires RootInputs(H, hs) + AcceptInputs(H, m, |hs|, proof, oldRoot) <= strings
    requires !CollisionIn(H, strings)
    ensures oldRoot == Root(H, hs[..m])
  {
    hide *;
    AcceptsSides(H, m, |hs|, proof, oldRoot, Root(H, hs));
    var full := FullProof(m, proof, oldRoot);
    var f, top := Strip(m - 1, |hs| - 1).0, StripLevels(H, m - 1, hs);
    StripShape(H, m - 1, hs);
    StripRoots(H, m - 1, hs);
    OldSideSound(H, f, full[0], full[0], full[1..], top, strings);
    OldLevelWhole(top, f);
  }

  lemma OldLevelWhole(hs: seq<Digest>, fn: nat)
    requires fn < |hs|
    ensures OldLevel(hs, fn, hs[fn]) == hs[..fn + 1]
  {
  }

  /** If both roots are roots of actual trees the old tree is a prefix, whatever the proof. */
  lemma AcceptsTrees(H: HashFn, proof: seq<Bytes>, olds: seq<Digest>, hs: seq<Digest>, strings: set<Bytes>)
    requires 1 <= |olds| < |hs| && proof != []
    requires Accepts(H, |olds|, |hs|, proof, Root(H, olds), Root(H, hs))
    requires RootInputs(H, hs) + RootInputs(H, olds) + AcceptInputs(H, |olds|, |hs|, proof, Root(H, olds)) <= strings
    requires !CollisionIn(H, strings)
    ensures olds == hs[..|olds|]
    ensures |FullProof(|olds|, proof, Root(H, olds))[0]| == 32
  {
    hide *;
    StripShape(H, |olds| - 1, hs);
    AcceptsTops(H, proof, olds, hs, strings);
    StripInjective(H, olds, hs, strings);
  }

  lemma AcceptsTops(H: HashFn, proof: seq<Bytes>, olds: seq<Digest>, hs: seq<Digest>, strings: set<Bytes>)
    requires 1 <= |olds| < |hs| && proof != []
    requires Accepts(H, |olds|, |hs|, proof, Root(H, olds), Root(H, hs))
    requires RootInputs(H, hs) + RootInputs(H, olds) + AcceptInputs(H, |olds|, |hs|, proof, Root(H, olds)) <= strings
    requires !CollisionIn(H, strings)
    ensures |FullProof(|olds|, proof, Root(H, olds))[0]| == 32
    ensures var f, top := Strip(|olds| - 1, |hs| - 1).0, StripLevels(H, |olds| - 1, hs);
            f < |top| && StripLevels(H, |olds| - 1, olds) == top[..f + 1]
  {
    hide *;
    var m := |olds|;
    AcceptsSides(H, m, |hs|, proof, Root(H, olds), Root(H, hs));
    var full := FullProof(m, proof, Root(H, olds));
    var f := Strip(m - 1, |hs| - 1).0;
    var top, oldTop := StripLevels(H, m - 1, hs), StripLevels(H, m - 1, olds);
    StripShape(H, m - 1, hs);
    StripRoots(H, m - 1, hs);
    StripShape(H, m - 1, olds);
    StripRoots(H, m - 1, olds);
    StripSame(m - 1, m - 1, |hs| - 1);
    assert olds[..m] == olds;
    FirstStep(H, f, full[0], full[1..], oldTop, top, strings);
    SamePrefix(oldTop, top, f);
  }

  lemma SamePrefix(a: seq<Digest>, b: seq<Digest>, f: nat)
    requires |a| == f + 1 <= |b| && a[..f] == b[..f] && a[f] == b[f]
    ensures a == b[..f + 1]
  {
    assert a == a[..f] + [a[f]] && b[..f + 1] == b[..f] + [b[f]];
  }

  lemma {:induction false} StripSame(fn: nat, sn: nat, sn': nat)
    ensures Strip(fn, sn).0 == Strip(fn, sn').0
  {
    if fn % 2 == 1 { StripSame(fn / 2, sn / 2, sn' / 2); }
  }

  lemma ClimbNeedsPath(H: HashFn, fn: int, sn: int, r: Bytes, path: seq<Bytes>)
    requires sn != 0 && Climb(H, fn, sn, r, path).Some?
    ensures path != []
  {
  }

  /** The first step hashes only the new side, which fixes the length of the starting hash. */
  lemma FirstStep(H: HashFn, f: nat, fr: Bytes, path: seq<Bytes>, olds: seq<Digest>, hs: seq<Digest>, strings: set<Bytes>)
    requires f % 2 == 0 && f < |hs| - 1 && |olds| == f + 1
    requires Climb(H, f, |hs| - 1, fr, path) == Some(Root(H, hs))
    requires OldClimb(H, f, |hs| - 1, fr, path) == Root(H, olds)
    requires RootInputs(H, hs) + ClimbInputs(H, f, |hs| - 1, fr, path) <= strings
    requires RootInputs(H, olds) + OldInputs(H, f, |hs| - 1, fr, path) <= strings
    requires !CollisionIn(H, strings)
    ensures |fr| == 32 && fr == hs[f] && fr == olds[f] && olds[..f] == hs[..f]
  {
    hide *;
    ClimbNeedsPath(H, f, |hs| - 1, fr, path);
    ClimbPaired(H, f, |hs| - 1, fr, path);
    OldClimbEven(H, f, |hs| - 1, fr, path);
    LevelRoot(H, hs);
    LevelInputs(H, hs);
    LevelUpLength(H, hs);
    LevelRoot(H, olds);
    LevelInputs(H, olds);
    LevelUpAt(H, olds, f / 2);
    OldTreeSound(H, f / 2, fr, Combine(H, f, fr, path[0]), path[1..], LevelUp(H, olds), LevelUp(H, hs), strings);
    OldTreeSound(H, f, fr, fr, path, olds, hs, strings);
  }

  // ---------------------------------------------------------------- the prover

  /** PROOF(m, D[0:n]) over leaf hashes. */
  function SubProof(H: HashFn, m: nat, hs: seq<Digest>, b: bool): seq<Digest>
    requires 1 <= m <= |hs|
    decreases |hs|
  {
    if m == |hs| then (if b then [] else [Root(H, hs)])
    else
      var k := SplitPoint(|hs|);
      if m <= k then SubProof(H, m, hs[..k], b) + [Root(H, hs[k..])]
      else SubProof(H, m - k, hs[k..], false) + [Root(H, hs[..k])]
  }

  function ConsistencyProof(H: HashFn, m: nat, hs: seq<Digest>): seq<Digest>
    requires m <= |hs|
  {
    if m == |hs| || m == 0 then [] else SubProof(H, m, hs, true)
  }

  lemma SubProofSplit(H: HashFn, m: nat, hs: seq<Digest>, b: bool, k: nat)
    requires 1 <= m < |hs| && k == SplitPoint(|hs|)
    ensures m <= k ==> SubProof(H, m, hs, b) == SubProof(H, m, hs[..k], b) + [Root(H, hs[k..])]
    ensures k < m ==> SubProof(H, m, hs, b) == SubProof(H, m - k, hs[k..], false) + [Root(H, hs[..k])]
  {
  }

  /** For an even old size the proof is the proof one level up. */
  lemma {:induction false} SubProofEven(H: HashFn, m: nat, hs: seq<Digest>, b: bool)
    requires 1 <= m <= |hs| && m % 2 == 0
    ensures m / 2 <= |LevelUp(H, hs)|
    ensures SubProof(H, m, hs, b) == SubProof(H, m / 2, LevelUp(H, hs), b)
    decreases |hs|, 1
  {
    LevelUpLength(H, hs);
    LevelRoot(H, hs);
    if m < |hs| { SubProofEvenSplit(H, m, hs, b, SplitPoint(|hs|)); }
  }

  lemma {:induction false} SubProofEvenSplit(H: HashFn, m: nat, hs: seq<Digest>, b: bool, k: nat)
    requires 1 <= m < |hs| && m % 2 == 0 && k == SplitPoint(|hs|)
    requires m / 2 <= |LevelUp(H, hs)|
    ensures SubProof(H, m, hs, b) == SubProof(H, m / 2, LevelUp(H, hs), b)
    decreases |hs|, 0
  {
    hide *;
    HalfSplit(|hs|);
    LevelUpSplit(H, hs, k);
    LevelRoot(H, hs[..k]);
    LevelRoot(H, hs[k..]);
    SubProofSplit(H, m, hs, b, k);
    SubProofSplit(H, m / 2, LevelUp(H, hs), b, k / 2);
    if m <= k {
      SubProofEven(H, m, hs[..k], b);
    } else {
      SubProofEven(H, m - k, hs[k..], false);
      assert (m - k) / 2 == m / 2 - k / 2;
    }
  }

  /** For an odd old size the proof is the old tree's last leaf and its audit path. */
  lemma {:induction false} SubProofOdd(H: HashFn, m: nat, hs: seq<Digest>)
    requires 1 <= m && m % 2 == 1 && (m < |hs| || |hs| == 1 == m)
    ensures SubProof(H, m, hs, false) == [hs[m - 1]] + Path(H, m - 1, hs)
    decreases |hs|, 1
  {
    if |hs| > 1 { SubProofOddSplit(H, m, hs, SplitPoint(|hs|)); }
  }

  lemma {:induction false} SubProofOddSplit(H: HashFn, m: nat, hs: seq<Digest>, k: nat)
    requires 1 <= m < |hs| && m % 2 == 1 && k == SplitPoint(|hs|)
    ensures SubProof(H, m, hs, false) == [hs[m - 1]] + Path(H, m - 1, hs)
    decreases |hs|, 0
  {
    hide *;
    SplitAtMostHalf(|hs|, m);
    SubProofSplit(H, m, hs, false, k);
    PathSplit(H, m - 1, hs, k);
    if m <= k {
      SubProofOdd(H, m, hs[..k]);
    } else {
      SubProofOdd(H, m - k, hs[k..]);
    }
  }

  lemma SplitAtMostHalf(n: nat, m: nat)
    requires 1 <= m < n && m % 2 == 1
    ensures 1 <= SplitPoint(n) < n
    ensures m <= SplitPoint(n) ==> m < SplitPoint(n) || SplitPoint(n) == 1
    ensures m > SplitPoint(n) ==> SplitPoint(n) % 2 == 0
  {
  }

  lemma {:induction false} SubProofOddTop(H: HashFn, m: nat, hs: seq<Digest>)
    requires 1 <= m < |hs| && m % 2 == 1
    ensures SubProof(H, m, hs, true) == if m == 1 then Path(H, 0, hs) else [hs[m - 1]] + Path(H, m - 1, hs)
    decreases |hs|
  {
    hide *;
    var k := SplitPoint(|hs|);
    SplitAtMostHalf(|hs|, m);
    SubProofOdd(H, m, hs);
    SubProofSplit(H, m, hs, true, k);
    SubProofSplit(H, m, hs, false, k);
    PathSplit(H, m - 1, hs, k);
    if m < k {
      SubProofOddTop(H, m, hs[..k]);
      SubProofOdd(H, m, hs[..k]);
    } else if m == k {
      SubProofWhole(H, hs[..1]);
    }
  }

  lemma SubProofWhole(H: HashFn, hs: seq<Digest>)
    requires |hs| == 1
    ensures SubProof(H, 1, hs, true) == [] && Path(H, 0, hs) == []
  {
  }

  lemma OddPow2(m: nat)
    requires m >= 1
    ensures m % 2 == 1 ==> (IsPow2(m) <==> m == 1)
    ensures m % 2 == 0 ==> (IsPow2(m) <==> IsPow2(m / 2))
  {
  }

  /** The whole proof: the node on the starting level (implied when it is the old root), then its path. */
  lemma {:induction false} ProofShape(H: HashFn, m: nat, hs: seq<Digest>)
    requires 1 <= m < |hs|
    ensures var f, top := Strip(m - 1, |hs| - 1).0, StripLevels(H, m - 1, hs);
            f < |top| &&
            SubProof(H, m, hs, true) == if IsPow2(m) then Path(H, 0, top) else [top[f]] + Path(H, f, top)
    decreases |hs|
  {
    hide *;
    if m % 2 == 1 {
      StripStop(H, m - 1, |hs| - 1, hs);
      SubProofOddTop(H, m, hs);
      OddPow2(m);
    } else {
      LevelUpLength(H, hs);
      SubProofEven(H, m, hs, true);
      assert (m - 1) / 2 == m / 2 - 1;
      StripStep(H, m - 1, |hs| - 1, hs);
      OddPow2(m);
      ProofShape(H, m / 2, LevelUp(H, hs));
    }
  }

  // ---------------------------------------------------------------- completeness

  /** From the node of the old tree on the starting level the old side reaches the old root. */
  lemma {:induction false} OldSideComplete(H: HashFn, fn: nat, fr: Digest, hs: seq<Digest>)
    requires fn < |hs|
    ensures OldClimb(H, fn, |hs| - 1, fr, Path(H, fn, hs)) == Root(H, OldLevel(hs, fn, fr))
    decreases |hs|, 1
  {
    if |hs| == 1 {
      assert OldLevel(hs, fn, fr) == [fr];
    } else {
      OldSideCompleteStep(H, fn, fr, hs);
    }
  }

  lemma {:induction false} OldSideCompleteStep(H: HashFn, fn: nat, fr: Digest, hs: seq<Digest>)
    requires fn < |hs| && |hs| >= 2
    ensures OldClimb(H, fn, |hs| - 1, fr, Path(H, fn, hs)) == Root(H, OldLevel(hs, fn, fr))
    decreases |hs|, 0
  {
    hide *;
    SiblingIs(fn, hs);
    var up, path := LevelUp(H, hs), Path(H, fn, hs);
    PathLevel(H, fn, hs);
    PathNonEmpty(H, fn, hs);
    OldLevelUp(H, hs, fn, fr);
    LevelRoot(H, OldLevel(hs, fn, fr));
    if fn % 2 == 0 {
      OldClimbEven(H, fn, |hs| - 1, fr, path);
      assert (if fn == |hs| - 1 then path else path[1..]) == Path(H, fn / 2, up);
      OldSideComplete(H, fn / 2, fr, up);
    } else {
      OldClimbOdd(H, fn, |hs| - 1, fr, path);
      assert path[0] == hs[fn - 1] && path[1..] == Path(H, fn / 2, up);
      OldSideComplete(H, fn / 2, NodeHash(H, hs[fn - 1], fr), up);
    }
  }

  lemma SiblingIs(i: nat, hs: seq<Digest>)
    requires i < |hs|
    ensures Sibling(i, hs) == if i % 2 == 1 then [hs[i - 1]] else if i + 1 < |hs| then [hs[i + 1]] else []
  {
  }

  /** Every prefix has an accepted proof. */
  lemma AcceptsComplete(H: HashFn, m: nat, hs: seq<Digest>)
    requires m <= |hs|
    ensures Accepts(H, m, |hs|, ConsistencyProof(H, m, hs), Root(H, hs[..m]), Root(H, hs))
  {
    if m == |hs| {
      assert hs[..m] == hs;
    } else if m > 0 {
      AcceptsCompleteProper(H, m, hs);
    }
  }

  lemma AcceptsCompleteProper(H: HashFn, m: nat, hs: seq<Digest>)
    requires 1 <= m < |hs|
    ensures Accepts(H, m, |hs|, ConsistencyProof(H, m, hs), Root(H, hs[..m]), Root(H, hs))
  {
    hide *;
    OwnProofFull(H, m, hs, Root(H, hs[..m]));
    OwnProofClimbs(H, m, hs);
    if IsPow2(m) { OwnProofOldRoot(H, m, hs); }
    AcceptsSides(H, m, |hs|, ConsistencyProof(H, m, hs), Root(H, hs[..m]), Root(H, hs));
  }

  lemma OwnProofFull(H: HashFn, m: nat, hs: seq<Digest>, oldRoot: Bytes)
    requires 1 <= m < |hs|
    ensures ConsistencyProof(H, m, hs) != []
    ensures var f, top := Strip(m - 1, |hs| - 1).0, StripLevels(H, m - 1, hs);
            f < |top| && |top| >= 2 && (IsPow2(m) ==> f == 0) &&
            FullProof(m, ConsistencyProof(H, m, hs), oldRoot) ==
              [if IsPow2(m) then oldRoot else top[f]] + Path(H, f, top)
  {
    hide SubProof, Path, Root, Strip, StripLevels, BitAnd, IsPow2, LevelUp;
    assert ConsistencyProof(H, m, hs) == SubProof(H, m, hs, true);
    PowerOfTwoTest(m);
    StripShape(H, m - 1, hs);
    ProofShape(H, m, hs);
    PathNonEmpty(H, Strip(m - 1, |hs| - 1).0, StripLevels(H, m - 1, hs));
  }

  lemma OwnProofClimbs(H: HashFn, m: nat, hs: seq<Digest>)
    requires 1 <= m < |hs|
    ensures var (f, s) := Strip(m - 1, |hs| - 1);
            var top := StripLevels(H, m - 1, hs);
            f < |top| && Climb(H, f, s, top[f], Path(H, f, top)) == Some(Root(H, hs))
            && OldClimb(H, f, s, top[f], Path(H, f, top)) == Root(H, hs[..m])
  {
    hide *;
    var f, top := Strip(m - 1, |hs| - 1).0, StripLevels(H, m - 1, hs);
    StripShape(H, m - 1, hs);
    StripRoots(H, m - 1, hs);
    ClimbComplete(H, f, top);
    OldSideComplete(H, f, top[f], top);
    OldLevelWhole(top, f);
  }

  /** For a power of two the node on the starting level is the old root itself. */
  lemma OwnProofOldRoot(H: HashFn, m: nat, hs: seq<Digest>)
    requires 1 <= m < |hs| && IsPow2(m)
    ensures var top := StripLevels(H, m - 1, hs);
            |top| >= 2 && Strip(m - 1, |hs| - 1).0 == 0 && top[0] == Root(H, hs[..m])
  {
    hide *;
    StripShape(H, m - 1, hs);
    StripRoots(H, m - 1, hs);
    TreeOfOne(H, StripLevels(H, m - 1, hs)[..1]);
  }

  // ---------------------------------------------------------------- a verifier with its own proof

  /** With the honest proof only the prefix's root is accepted as the old root. */
  lemma OwnProofSound(H: HashFn, m: nat, oldRoot: Bytes, hs: seq<Digest>, strings: set<Bytes>)
    requires 1 <= m < |hs|
    requires Accepts(H, m, |hs|, ConsistencyProof(H, m, hs), oldRoot, Root(H, hs))
    requires RootInputs(H, hs) + AcceptInputs(H, m, |hs|, ConsistencyProof(H, m, hs), oldRoot) <= strings
    requires !CollisionIn(H, strings)
    ensures oldRoot == Root(H, hs[..m])
  {
    hide *;
    OwnProofFull(H, m, hs, oldRoot);
    AcceptsSides(H, m, |hs|, ConsistencyProof(H, m, hs), oldRoot, Root(H, hs));
    OwnProofClimbs(H, m, hs);
    if IsPow2(m) {
      OwnProofOldRoot(H, m, hs);
      StripShape(H, m - 1, hs);
      StripRoots(H, m - 1, hs);
      var top := StripLevels(H, m - 1, hs);
      FirstNodeFixed(H, oldRoot, top, strings);
    }
  }

  /** A climb along the first node's honest path starts at the first node. */
  lemma FirstNodeFixed(H: HashFn, r: Bytes, hs: seq<Digest>, strings: set<Bytes>)
    requires |hs| >= 2
    requires Climb(H, 0, |hs| - 1, r, Path(H, 0, hs)) == Some(Root(H, hs))
    requires RootInputs(H, hs) + ClimbInputs(H, 0, |hs| - 1, r, Path(H, 0, hs)) <= strings
    requires !CollisionIn(H, strings)
    ensures r == hs[0]
  {
    hide *;
    var path := Path(H, 0, hs);
    PathLevel(H, 0, hs);
    CombineAtZero(H, r, hs[1]);
    SiblingIs(0, hs);
    assert path[0] == hs[1];
    ClimbPaired(H, 0, |hs| - 1, r, path);
    LevelRoot(H, hs);
    LevelInputs(H, hs);
    LevelUpAt(H, hs, 0);
    ClimbSound(H, 0, Combine(H, 0, r, path[0]), path[1..], LevelUp(H, hs), strings);
    PairHashed(H, hs, 0);
    NodeNoCollision(H, strings, r, hs[1], hs[0], hs[1]);
  }

  lemma CombineAtZero(H: HashFn, r: Bytes, p: Bytes)
    ensures Combine(H, 0, r, p) == NodeHash(H, r, p)
  {
  }

  /** The climb determines the new root. */
  lemma AcceptsOneNewRoot(H: HashFn, m: nat, n: nat, proof: seq<Bytes>, oldRoot: Bytes, newRoot: Bytes, newRoot': Bytes)
    requires m >= 1 && Accepts(H, m, n, proof, oldRoot, newRoot)
    ensures Accepts(H, m, n, proof, oldRoot, newRoot') <==> newRoot' == newRoot
  {
  }
}
