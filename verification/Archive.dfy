/**
  merkle/merkle_proof.py: the archive tree, built bottom-up with an odd last node promoted,
  its inclusion proofs (sides and skipped levels spelled out) and their folding.
 */
module Archive {
  import opened Hashing
  import opened MerkleTree
  import T = TLog

  /** One archived block: file name and hash text, as bytes. */
  datatype Row = Row(name: Bytes, sha: Bytes)

  function RowData(row: Row): Bytes { row.name + [0] + row.sha }

  function RowsData(rows: seq<Row>): (data: seq<Bytes>)
    ensures |data| == |rows| && forall i :: 0 <= i < |rows| ==> data[i] == RowData(rows[i])
  {
    seq(|rows|, i requires 0 <= i < |rows| => RowData(rows[i]))
  }

  /** The lowest level. */
  function Leaves(H: HashFn, rows: seq<Row>): seq<Digest> {
    LeafHashes(H, RowsData(rows))
  }

  datatype Step = Left(hash: Bytes) | Right(hash: Bytes)

  // ---------------------------------------------------------------- build_levels

  function Levels(H: HashFn, hs: seq<Digest>): seq<seq<Digest>>
    decreases |hs|
  {
    if |hs| <= 1 then [hs]
    else
      LevelUpLength(H, hs);
      [hs] + Levels(H, LevelUp(H, hs))
  }

  method BuildLevels(H: HashFn, rows: seq<Row>) returns (levels: seq<seq<Digest>>)
    ensures levels == Levels(H, Leaves(H, rows))
  {
    hide LevelUp, Leaves;
    var cur := Leaves(H, rows);
    levels := [cur];
    while |cur| > 1
      invariant |levels| >= 1 && cur == levels[|levels| - 1]
      invariant levels[..|levels| - 1] + Levels(H, cur) == Levels(H, Leaves(H, rows))
      decreases |cur|
    {
      var next := PairUp(H, cur);
      LevelUpLength(H, cur);
      assert levels == levels[..|levels| - 1] + [cur];
      levels := levels + [next];
      cur := next;
    }
    assert levels == levels[..|levels| - 1] + [cur];
  }

  method PairUp(H: HashFn, cur: seq<Digest>) returns (next: seq<Digest>)
    ensures next == LevelUp(H, cur)
  {
    hide LevelUp, NodeHash;
    next := [];
    var i := 0;
    LevelUpEmpty(H);
    while i < |cur|
      invariant 0 <= i <= |cur| + 1 && i % 2 == 0
      invariant i <= |cur| ==> next == LevelUp(H, cur[..i])
      invariant i > |cur| ==> next == LevelUp(H, cur)
    {
      PairStep(H, cur, i);
      if i + 1 < |cur| {
        next := next + [NodeHash(H, cur[i], cur[i + 1])];
      } else {
        next := next + [cur[i]];
      }
      i := i + 2;
    }
    assert i <= |cur| ==> cur[..i] == cur;
  }

  lemma LevelUpEmpty(H: HashFn)
    ensures LevelUp(H, []) == []
  {
  }

  lemma PairStep(H: HashFn, cur: seq<Digest>, i: nat)
    requires i < |cur| && i % 2 == 0
    ensures i + 1 < |cur| ==> LevelUp(H, cur[..i + 2]) == LevelUp(H, cur[..i]) + [NodeHash(H, cur[i], cur[i + 1])]
    ensures i + 1 == |cur| ==> LevelUp(H, cur) == LevelUp(H, cur[..i]) + [cur[i]]
  {
    hide LevelUp, NodeHash;
    if i + 1 < |cur| {
      var two: seq<Digest> := [cur[i], cur[i + 1]];
      assert cur[..i + 2] == cur[..i] + two;
      LevelUpAppend(H, cur[..i], two);
      TreeOfTwo(H, two);
    } else {
      assert cur == cur[..i] + [cur[i]];
      LevelUpAppend(H, cur[..i], [cur[i]]);
      TreeOfOne(H, [cur[i]]);
    }
  }

  /** The last level is the one root of the recursive split over the same leaf hashes. */
  lemma {:induction false} LevelsRoot(H: HashFn, hs: seq<Digest>)
    requires |hs| >= 1
    ensures |Levels(H, hs)| >= 1 && Levels(H, hs)[|Levels(H, hs)| - 1] == [Root(H, hs)]
    decreases |hs|
  {
    if |hs| > 1 {
      LevelUpLength(H, hs);
      LevelRoot(H, hs);
      hide LevelUp, Root;
      LevelsRoot(H, LevelUp(H, hs));
    }
  }

  /** The archive root is the root tlog.py would compute over name NUL sha. */
  lemma ArchiveRootIsMth(H: HashFn, rows: seq<Row>)
    requires |rows| >= 1
    ensures var levels := Levels(H, Leaves(H, rows));
            |levels| >= 1 && levels[|levels| - 1] == [T.Mth(H, RowsData(rows))]
  {
    LevelsRoot(H, Leaves(H, rows));
    T.MthIsRoot(H, RowsData(rows));
  }

  // ---------------------------------------------------------------- cmd_prove

  /** The entry of the path at one level: None where the node is promoted. */
  function Entry(i: nat, level: seq<Digest>): Option<Step>
    requires i < |level|
  {
    if i % 2 == 1 then Some(Left(level[i - 1]))
    else if i + 1 < |level| then Some(Right(level[i + 1]))
    else None
  }

  function ProofPath(H: HashFn, i: nat, hs: seq<Digest>): seq<Option<Step>>
    requires i < |hs|
    decreases |hs|
  {
    if |hs| <= 1 then []
    else
      LevelUpLength(H, hs);
      [Entry(i, hs)] + ProofPath(H, i / 2, LevelUp(H, hs))
  }

  method Prove(H: HashFn, levels: seq<seq<Digest>>, rows: seq<Row>, idx: nat) returns (path: seq<Option<Step>>)
    requires idx < |rows| && levels == Levels(H, Leaves(H, rows))
    ensures path == ProofPath(H, idx, Leaves(H, rows))
  {
    hide LevelUp, Leaves, Levels, ProofPath, Entry;
    LeavesLength(H, rows);
    LevelsHead(H, Leaves(H, rows));
    path := [];
    var i: nat := idx;
    for l := 0 to |levels| - 1
      invariant l < |levels| && i < |levels[l]|
      invariant levels[l..] == Levels(H, levels[l])
      invariant path + ProofPath(H, i, levels[l]) == ProofPath(H, idx, Leaves(H, rows))
    {
      var level := levels[l];
      LevelsStep(H, levels, l);
      var sib := if i % 2 == 0 then i + 1 else i - 1;
      var step := if sib < |level| then Some(if sib > i then Right(level[sib]) else Left(level[sib])) else None;
      StepIsEntry(i, level);
      ProofPathStep(H, i, level);
      assert path + ([step] + ProofPath(H, i / 2, LevelUp(H, level))) == path + [step] + ProofPath(H, i / 2, LevelUp(H, level));
      path := path + [step];
      i := i / 2;
    }
    assert levels[|levels| - 1..] == [levels[|levels| - 1]];
    LevelsEnd(H, levels[|levels| - 1]);
    TopPath(H, i, levels[|levels| - 1]);
  }

  lemma StepIsEntry(i: nat, level: seq<Digest>)
    requires i < |level|
    ensures var sib := if i % 2 == 0 then i + 1 else i - 1;
            Entry(i, level) == if sib < |level| then Some(if sib > i then Right(level[sib]) else Left(level[sib])) else None
  {
  }

  lemma TopPath(H: HashFn, i: nat, hs: seq<Digest>)
    requires i < |hs| <= 1
    ensures ProofPath(H, i, hs) == []
  {
  }

  lemma LeavesLength(H: HashFn, rows: seq<Row>)
    ensures |Leaves(H, rows)| == |rows|
  {
  }

  lemma ProofPathStep(H: HashFn, i: nat, hs: seq<Digest>)
    requires i < |hs| && |hs| >= 2 && |LevelUp(H, hs)| == (|hs| + 1) / 2
    ensures ProofPath(H, i, hs) == [Entry(i, hs)] + ProofPath(H, i / 2, LevelUp(H, hs))
  {
  }

  lemma LevelsStep(H: HashFn, levels: seq<seq<Digest>>, l: nat)
    requires l < |levels| - 1 && levels[l..] == Levels(H, levels[l])
    ensures |levels[l]| >= 2 && |LevelUp(H, levels[l])| == (|levels[l]| + 1) / 2
    ensures levels[l + 1] == LevelUp(H, levels[l]) && levels[l + 1..] == Levels(H, levels[l + 1])
  {
    LevelUpLength(H, levels[l]);
    assert levels[l..][0] == levels[l] && levels[l..][1] == levels[l + 1];
    assert levels[l..][1..] == levels[l + 1..];
    LevelsHead(H, LevelUp(H, levels[l]));
  }

  lemma LevelsHead(H: HashFn, hs: seq<Digest>)
    ensures |Levels(H, hs)| >= 1 && Levels(H, hs)[0] == hs
  {
  }

  lemma LevelsEnd(H: HashFn, hs: seq<Digest>)
    requires |Levels(H, hs)| == 1
    ensures |hs| <= 1
  {
    if |hs| > 1 {
      LevelUpLength(H, hs);
      LevelsHead(H, LevelUp(H, hs));
    }
  }

  /** The hashes of a path with the skipped levels dropped. */
  function Hashes(path: seq<Option<Step>>): seq<Bytes> {
    if path == [] then []
    else (if path[0].Some? then [path[0].value.hash] else []) + Hashes(path[1..])
  }

  /** With the skipped levels dropped the path is exactly the recursive audit path. */
  lemma {:induction false} ProofPathIsAuditPath(H: HashFn, i: nat, hs: seq<Digest>)
    requires i < |hs|
    ensures Hashes(ProofPath(H, i, hs)) == Path(H, i, hs)
    decreases |hs|
  {
    if |hs| > 1 {
      LevelUpLength(H, hs);
      PathLevel(H, i, hs);
      hide LevelUp, Path;
      ProofPathIsAuditPath(H, i / 2, LevelUp(H, hs));
      var rest := ProofPath(H, i / 2, LevelUp(H, hs));
      assert ([Entry(i, hs)] + rest)[1..] == rest;
    }
  }

  // ---------------------------------------------------------------- cmd_verify

  function Apply(H: HashFn, h: Bytes, step: Option<Step>): Bytes {
    match step
    case None => h
    case Some(Right(s)) => NodeHash(H, h, s)
    case Some(Left(s)) => NodeHash(H, s, h)
  }

  function Fold(H: HashFn, h: Bytes, path: seq<Option<Step>>): Bytes {
    if path == [] then h else Apply(H, Fold(H, h, path[..|path| - 1]), path[|path| - 1])
  }

  function ApplyInputs(h: Bytes, step: Option<Step>): set<Bytes> {
    match step
    case None => {}
    case Some(Right(s)) => {NodeInput(h, s)}
    case Some(Left(s)) => {NodeInput(s, h)}
  }

  function FoldInputs(H: HashFn, h: Bytes, path: seq<Option<Step>>): set<Bytes> {
    if path == [] then {}
    else FoldInputs(H, h, path[..|path| - 1]) + ApplyInputs(Fold(H, h, path[..|path| - 1]), path[|path| - 1])
  }

  method Verify(H: HashFn, row: Row, path: seq<Option<Step>>, root: Bytes) returns (ok: bool)
    ensures ok <==> Fold(H, LeafHash(H, RowData(row)), path) == root
  {
    var h: Bytes := LeafHash(H, RowData(row));
    for j := 0 to |path|
      invariant h == Fold(H, LeafHash(H, RowData(row)), path[..j])
    {
      assert path[..j + 1][..j] == path[..j];
      if path[j].Some? {
        var s := path[j].value.hash;
        h := if path[j].value.Right? then NodeHash(H, h, s) else NodeHash(H, s, h);
      }
    }
    assert path[..|path|] == path;
    ok := h == root;
  }

  lemma {:induction false} FoldFirst(H: HashFn, h: Bytes, step: Option<Step>, path: seq<Option<Step>>)
    ensures Fold(H, h, [step] + path) == Fold(H, Apply(H, h, step), path)
    decreases |path|
  {
    var whole := [step] + path;
    if path == [] {
      assert whole[..0] == [];
    } else {
      assert whole[..|whole| - 1] == [step] + path[..|path| - 1];
      FoldFirst(H, h, step, path[..|path| - 1]);
    }
  }

  /** Every produced proof folds to the root. */
  lemma {:induction false} ProofFolds(H: HashFn, i: nat, hs: seq<Digest>)
    requires i < |hs|
    ensures Fold(H, hs[i], ProofPath(H, i, hs)) == Root(H, hs)
    decreases |hs|, 1
  {
    if |hs| > 1 { ProofFoldsStep(H, i, hs); }
  }

  lemma {:induction false} ProofFoldsStep(H: HashFn, i: nat, hs: seq<Digest>)
    requires i < |hs| && |hs| >= 2
    ensures Fold(H, hs[i], ProofPath(H, i, hs)) == Root(H, hs)
    decreases |hs|, 0
  {
    hide *;
    LevelUpAt(H, hs, i / 2);
    LevelRoot(H, hs);
    ProofPathStep(H, i, hs);
    FoldFirst(H, hs[i], Entry(i, hs), ProofPath(H, i / 2, LevelUp(H, hs)));
    ApplyEntry(H, i, hs);
    ProofFolds(H, i / 2, LevelUp(H, hs));
  }

  lemma ApplyEntry(H: HashFn, i: nat, hs: seq<Digest>)
    requires i < |hs|
    ensures Apply(H, hs[i], Entry(i, hs))
            == if 2 * (i / 2) + 1 < |hs| then NodeHash(H, hs[2 * (i / 2)], hs[2 * (i / 2) + 1]) else hs[2 * (i / 2)]
  {
  }

  // ---------------------------------------------------------------- soundness

  /** Folding data to the root, with sides and skipped levels chosen freely, needs listed data,
      or strings collide. No index and no size takes part. */
  lemma ArchiveSound(H: HashFn, d: Bytes, path: seq<Option<Step>>, leaves: seq<Bytes>)
    requires |leaves| >= 1 && Fold(H, LeafHash(H, d), path) == T.Mth(H, leaves)
    ensures d in leaves
            || CollisionIn(H, {LeafInput(d)} + FoldInputs(H, LeafHash(H, d), path) + T.MthInputs(H, leaves))
  {
    var strings := {LeafInput(d)} + FoldInputs(H, LeafHash(H, d), path) + T.MthInputs(H, leaves);
    if !CollisionIn(H, strings) { FoldSound(H, d, path, leaves, strings); }
  }

  lemma {:induction false} FoldSound(H: HashFn, d: Bytes, path: seq<Option<Step>>, leaves: seq<Bytes>, strings: set<Bytes>)
    requires |leaves| >= 1 && Fold(H, LeafHash(H, d), path) == T.Mth(H, leaves)
    requires {LeafInput(d)} + FoldInputs(H, LeafHash(H, d), path) + T.MthInputs(H, leaves) <= strings
    requires !CollisionIn(H, strings)
    ensures d in leaves
    decreases |path|, 0
  {
    hide *;
    var h := LeafHash(H, d);
    T.MthLastInput(H, leaves);
    T.InputKinds(H, leaves);
    var root := T.LastInput(H, leaves);
    if path == [] {
      FoldNothing(H, h);
      LeafIs(H, d);
      NoCollision(H, strings, LeafInput(d), root);
    } else {
      var earlier, step := path[..|path| - 1], path[|path| - 1];
      FoldLast(H, h, path);
      FoldLength(H, h, earlier);
      if step.None? {
        FoldSound(H, d, earlier, leaves, strings);
      } else {
        var prev, s := Fold(H, h, earlier), step.value.hash;
        var l, r := if step.value.Right? then prev else s, if step.value.Right? then s else prev;
        NodeIs(H, l, r);
        NoCollision(H, strings, NodeInput(l, r), root);
        FoldSoundNode(H, d, earlier, prev, s, step.value.Right?, leaves, strings);
      }
    }
  }

  lemma {:induction false} FoldSoundNode(H: HashFn, d: Bytes, path: seq<Option<Step>>, prev: Bytes, s: Bytes,
      right: bool, leaves: seq<Bytes>, strings: set<Bytes>)
    requires |leaves| >= 2 && prev == Fold(H, LeafHash(H, d), path) && |prev| == 32
    requires T.LastInput(H, leaves) == if right then NodeInput(prev, s) else NodeInput(s, prev)
    requires {LeafInput(d)} + FoldInputs(H, LeafHash(H, d), path) + T.MthInputs(H, leaves) <= strings
    requires !CollisionIn(H, strings)
    ensures d in leaves
    decreases |path|, 1
  {
    hide *;
    var k := SplitPoint(|leaves|);
    T.InputKinds(H, leaves);
    T.MthSplit(H, leaves, k);
    LastInputSplit(H, leaves, k);
    if right {
      NodeInputSplits(prev, s, T.Mth(H, leaves[..k]), T.Mth(H, leaves[k..]));
      FoldSound(H, d, path, leaves[..k], strings);
    } else {
      NodeInputSplits(s, prev, T.Mth(H, leaves[..k]), T.Mth(H, leaves[k..]));
      FoldSound(H, d, path, leaves[k..], strings);
    }
  }

  lemma LastInputSplit(H: HashFn, leaves: seq<Bytes>, k: nat)
    requires |leaves| >= 2 && k == SplitPoint(|leaves|)
    ensures 1 <= k < |leaves| && T.LastInput(H, leaves) == NodeInput(T.Mth(H, leaves[..k]), T.Mth(H, leaves[k..]))
  {
  }

  lemma LeafIs(H: HashFn, d: Bytes)
    ensures LeafHash(H, d) == H(LeafInput(d)) && LeafInput(d) != [] && LeafInput(d)[0] == 0 && LeafInput(d)[1..] == d
  {
  }

  lemma NodeIs(H: HashFn, l: Bytes, r: Bytes)
    ensures NodeHash(H, l, r) == H(NodeInput(l, r)) && NodeInput(l, r) != [] && NodeInput(l, r)[0] == 1
  {
  }

  lemma FoldNothing(H: HashFn, h: Bytes)
    ensures Fold(H, h, []) == h
  {
  }

  lemma FoldLast(H: HashFn, h: Bytes, path: seq<Option<Step>>)
    requires path != []
    ensures var earlier, step := path[..|path| - 1], path[|path| - 1];
            && (step.None? ==> Fold(H, h, path) == Fold(H, h, earlier) && FoldInputs(H, h, path) == FoldInputs(H, h, earlier))
            && (step.Some? && step.value.Right? ==>
                  Fold(H, h, path) == NodeHash(H, Fold(H, h, earlier), step.value.hash)
                  && FoldInputs(H, h, path) == FoldInputs(H, h, earlier) + {NodeInput(Fold(H, h, earlier), step.value.hash)})
            && (step.Some? && step.value.Left? ==>
                  Fold(H, h, path) == NodeHash(H, step.value.hash, Fold(H, h, earlier))
                  && FoldInputs(H, h, path) == FoldInputs(H, h, earlier) + {NodeInput(step.value.hash, Fold(H, h, earlier))})
  {
  }

  lemma {:induction false} FoldLength(H: HashFn, h: Bytes, path: seq<Option<Step>>)
    requires |h| == 32
    ensures |Fold(H, h, path)| == 32
    decreases |path|
  {
    if path != [] { FoldLength(H, h, path[..|path| - 1]); }
  }

  /** name NUL sha determines both parts when neither sha text contains NUL. */
  lemma RowDetermined(a: Row, b: Row)
    requires RowData(a) == RowData(b) && 0 !in a.sha && 0 !in b.sha
    ensures a == b
  {
    if |a.name| < |b.name| { NulMoves(a, b); }
    if |b.name| < |a.name| { NulMoves(b, a); }
    assert a.name == RowData(a)[..|a.name|] && a.sha == RowData(a)[|a.name| + 1..];
    assert b.name == RowData(b)[..|b.name|] && b.sha == RowData(b)[|b.name| + 1..];
  }

  lemma NulMoves(a: Row, b: Row)
    requires RowData(a) == RowData(b) && |a.name| < |b.name|
    ensures 0 in a.sha
  {
    assert RowData(b)[|b.name|] == 0;
    assert a.sha[|b.name| - |a.name| - 1] == RowData(a)[|b.name|];
  }

  /** Two different rows share one leaf. */
  lemma RowAmbiguous()
    ensures var a, b := Row([97], [98, 0, 99]), Row([97, 0, 98], [99]);
            a != b && RowData(a) == RowData(b)
  {
  }

  /** A row shares its leaf with some other row exactly when it has a NUL in its name or its sha text. */
  lemma RowSharedIff(a: Row)
    ensures (exists b: Row :: b != a && RowData(b) == RowData(a)) <==> 0 in a.name || 0 in a.sha
  {
    if 0 in a.name {
      var i :| 0 <= i < |a.name| && a.name[i] == 0;
      var b := Row(a.name[..i], a.name[i + 1..] + [0] + a.sha);
      assert a.name == a.name[..i] + [0] + a.name[i + 1..];
      assert b != a && RowData(b) == RowData(a);
    } else if 0 in a.sha {
      var i :| 0 <= i < |a.sha| && a.sha[i] == 0;
      var b := Row(a.name + [0] + a.sha[..i], a.sha[i + 1..]);
      assert a.sha == a.sha[..i] + [0] + a.sha[i + 1..];
      assert b != a && RowData(b) == RowData(a);
    } else {
      forall b: Row | RowData(b) == RowData(a) ensures b == a { RowUnshared(a, b); }
    }
  }

  lemma NulInName(a: Row, b: Row)
    requires RowData(b) == RowData(a) && |b.name| < |a.name|
    ensures 0 in a.name
  {
    assert RowData(b)[|b.name|] == 0 && a.name[|b.name|] == RowData(a)[|b.name|];
  }

  /** A row without NUL has its leaf for itself. */
  lemma RowUnshared(a: Row, b: Row)
    requires RowData(b) == RowData(a) && 0 !in a.name && 0 !in a.sha
    ensures b == a
  {
    if |a.name| < |b.name| { NulMoves(a, b); }
    if |b.name| < |a.name| { NulInName(a, b); }
    assert a.name == RowData(a)[..|a.name|] && a.sha == RowData(a)[|a.name| + 1..];
    assert b.name == RowData(b)[..|b.name|] && b.sha == RowData(b)[|b.name| + 1..];
  }

  /**
    A verified proof names a listed row, or strings collide, whatever the proof's own row holds:
    it is enough that the listed rows have no NUL. If only their sha texts have none, neither may
    the proof's.
   */
  lemma VerifiedRowIsListed(H: HashFn, row: Row, path: seq<Option<Step>>, rows: seq<Row>)
    requires |rows| >= 1
    requires (forall r :: r in rows ==> 0 !in r.name && 0 !in r.sha) || (0 !in row.sha && forall r :: r in rows ==> 0 !in r.sha)
    requires var levels := Levels(H, Leaves(H, rows));
             |levels| >= 1 && |levels[|levels| - 1]| == 1
             && Fold(H, LeafHash(H, RowData(row)), path) == levels[|levels| - 1][0]
    ensures row in rows
            || CollisionIn(H, {LeafInput(RowData(row))} + FoldInputs(H, LeafHash(H, RowData(row)),
                path) + T.MthInputs(H, RowsData(rows)))
  {
    hide *;
    ArchiveRootIsMth(H, rows);
    ArchiveSound(H, RowData(row), path, RowsData(rows));
    if RowData(row) in RowsData(rows) {
      var i :| 0 <= i < |rows| && RowsData(rows)[i] == RowData(row);
      if 0 in row.sha { RowUnshared(rows[i], row); } else { RowDetermined(row, rows[i]); }
    }
  }
}
