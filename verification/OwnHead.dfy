/**
  A party that reads the leaves itself, keeps the last head it accepted and moves it only if
  the proof it builds from its own leaves is accepted: the publisher, the client's cached head
  and the decision mirror all move their heads in this way.
 */
module OwnHead {
  import opened Hashing
  import C = Consistency
  import T = TLog

  /** The test made before moving from the head of `prev` to the head of `next`. */
  predicate Moves(H: HashFn, prev: seq<Bytes>, next: seq<Bytes>) {
    |prev| <= |next|
    && C.Accepts(H, |prev|, |next|, T.ConsistencyProof(H, |prev|, next), T.Mth(H, prev), T.Mth(H, next))
  }

  function MoveInputs(H: HashFn, prev: seq<Bytes>, next: seq<Bytes>): set<Bytes>
    requires |prev| <= |next|
  {
    T.MthInputs(H, prev) + T.ConsistencyInputs(H, |prev|, T.ConsistencyProof(H, |prev|, next), T.Mth(H, prev), next)
  }

  /** The test passes exactly for extensions, up to a collision among the strings hashed. */
  lemma MovesExtend(H: HashFn, prev: seq<Bytes>, next: seq<Bytes>)
    ensures prev <= next ==> Moves(H, prev, next)
    ensures Moves(H, prev, next) ==> prev <= next || CollisionIn(H, MoveInputs(H, prev, next))
  {
    hide *;
    MovesIs(H, prev, next);
    if prev <= next {
      T.ConsistencyComplete(H, |prev|, next);
      assert next[..|prev|] == prev;
    } else if Moves(H, prev, next) {
      T.ConsistencyExtends(H, T.ConsistencyProof(H, |prev|, next), prev, next);
    }
  }

  lemma MovesIs(H: HashFn, prev: seq<Bytes>, next: seq<Bytes>)
    ensures Moves(H, prev, next) <==>
              |prev| <= |next| && C.Accepts(H, |prev|, |next|, T.ConsistencyProof(H, |prev|, next), T.Mth(H, prev), T.Mth(H, next))
    ensures |prev| <= |next| ==>
              MoveInputs(H, prev, next)
              == T.MthInputs(H, prev) + T.ConsistencyInputs(H, |prev|, T.ConsistencyProof(H, |prev|, next), T.Mth(H, prev), next)
  {
  }

  /** The leaves behind the heads accepted one after another. */
  predicate Run(H: HashFn, heads: seq<seq<Bytes>>) {
    forall i :: 1 <= i < |heads| ==> Moves(H, heads[i - 1], heads[i])
  }

  function RunInputs(H: HashFn, heads: seq<seq<Bytes>>): set<Bytes>
    requires Run(H, heads)
  {
    if |heads| <= 1 then {}
    else MoveInputs(H, heads[|heads| - 1 - 1], heads[|heads| - 1]) + RunInputs(H, heads[..|heads| - 1])
  }

  lemma RunAppend(H: HashFn, heads: seq<seq<Bytes>>, next: seq<Bytes>)
    requires Run(H, heads) && (heads != [] ==> Moves(H, heads[|heads| - 1], next))
    ensures Run(H, heads + [next])
  {
    hide Moves;
  }

  /** Sizes never go back, with no assumption at all. */
  lemma {:induction false} SizesGrow(H: HashFn, heads: seq<seq<Bytes>>, i: nat, j: nat)
    requires Run(H, heads) && i <= j < |heads|
    ensures |heads[i]| <= |heads[j]|
    decreases j
  {
    if i < j {
      SizesGrow(H, heads, i, j - 1);
      assert Moves(H, heads[j - 1], heads[j]);
    }
  }

  /** Over a whole run every earlier head is the tree of a prefix of every later head's leaves,
      or strings hashed during the run collide. */
  lemma {:induction false} HeadsArePrefixes(H: HashFn, heads: seq<seq<Bytes>>, i: nat, j: nat)
    requires Run(H, heads) && i <= j < |heads|
    ensures heads[i] <= heads[j] || CollisionIn(H, RunInputs(H, heads))
    decreases |heads|
  {
    if i < j { HeadsArePrefixesStep(H, heads, i, j); }
  }

  lemma RunUnfold(H: HashFn, heads: seq<seq<Bytes>>)
    requires Run(H, heads) && |heads| >= 2
    ensures Run(H, heads[..|heads| - 1]) && Moves(H, heads[|heads| - 2], heads[|heads| - 1])
    ensures |heads[|heads| - 2]| <= |heads[|heads| - 1]|
    ensures RunInputs(H, heads)
            == MoveInputs(H, heads[|heads| - 2], heads[|heads| - 1]) + RunInputs(H, heads[..|heads| - 1])
  {
    assert Moves(H, heads[|heads| - 1 - 1], heads[|heads| - 1]);
  }

  lemma {:induction false} HeadsArePrefixesStep(H: HashFn, heads: seq<seq<Bytes>>, i: nat, j: nat)
    requires Run(H, heads) && i < j < |heads|
    ensures heads[i] <= heads[j] || CollisionIn(H, RunInputs(H, heads))
    decreases |heads|, 0
  {
    hide *;
    RunUnfold(H, heads);
    var earlier := heads[..|heads| - 1];
    var last := MoveInputs(H, heads[|heads| - 2], heads[|heads| - 1]);
    HeadsArePrefixes(H, earlier, i, if j == |heads| - 1 then j - 1 else j);
    if CollisionIn(H, RunInputs(H, earlier)) {
      CollisionGrows(H, RunInputs(H, earlier), RunInputs(H, heads));
    } else if j == |heads| - 1 {
      MovesExtend(H, heads[j - 1], heads[j]);
      if CollisionIn(H, last) { CollisionGrows(H, last, RunInputs(H, heads)); }
    }
  }

  /** The root kept for size |heads[i]| is the root of that many of the newest leaves. */
  lemma EveryHeadRecomputes(H: HashFn, heads: seq<seq<Bytes>>, i: nat)
    requires Run(H, heads) && i < |heads|
    ensures |heads[i]| <= |heads[|heads| - 1]|
    ensures T.Mth(H, heads[i]) == T.Mth(H, heads[|heads| - 1][..|heads[i]|]) || CollisionIn(H, RunInputs(H, heads))
  {
    hide *;
    HeadsArePrefixes(H, heads, i, |heads| - 1);
    SizesGrow(H, heads, i, |heads| - 1);
    if heads[i] <= heads[|heads| - 1] { assert heads[|heads| - 1][..|heads[i]|] == heads[i]; }
  }
}
