/**
  tlogcheck.py: the client recomputes the root from the pulses it read, proves the asked
  pulses included, cross-checks the site, and compares with the head it saw last. The
  signature of a checkpoint is the boolean `signed`; its key does not change between runs.
 */
module Client {
  import opened Hashing
  import C = Consistency
  import T = TLog
  import OwnHead
  import Witness

  datatype Note = Note(signed: bool, size: nat, root: Bytes)

  datatype Status = Absent | BadSignature | TreeError | TooLarge | RootMismatch | SplitView | Accepted

  const MAX_SITE_AHEAD: nat := 12

  /** The status of one check, from the cached head and what was read. */
  function Verdict(H: HashFn, cached: Option<Witness.Checkpoint>, note: Option<Note>, read: Option<seq<Bytes>>): Status {
    if note.None? then Absent
    else if !note.value.signed then BadSignature
    else if read.None? then TreeError
    else if note.value.size > |read.value| then TooLarge
    else
      var leaves := read.value[..note.value.size];
      if T.Mth(H, leaves) != note.value.root then RootMismatch
      else if cached.Some? && !Continues(H, cached.value, leaves, note.value.root) then SplitView
      else Accepted
  }

  /** The cached head is accepted as an earlier state of the head being served. */
  predicate Continues(H: HashFn, cached: Witness.Checkpoint, leaves: seq<Bytes>, root: Bytes) {
    cached.size <= |leaves|
    && C.Accepts(H, cached.size, |leaves|, T.ConsistencyProof(H, cached.size, leaves), cached.root, root)
  }

  class Client {
    const H: HashFn
    var cached: Option<Witness.Checkpoint>
    ghost var behind: seq<seq<Bytes>>

    /** The cached head is the tree of the leaves behind the last accepted head. */
    ghost predicate Valid()
      reads this
    {
      && OwnHead.Run(H, behind)
      && (cached.None? <==> behind == [])
      && (cached.Some? ==>
            cached.value == Witness.Checkpoint(|behind[|behind| - 1]|, T.Mth(H, behind[|behind| - 1])))
    }

    constructor (H: HashFn)
      ensures Valid() && this.H == H && cached == None && behind == []
    {
      this.H, cached, behind := H, None, [];
    }

    /** `included` holds the outcome of each inclusion proof asked for, None for a pulse the checkpoint does not cover. */
    method Check(note: Option<Note>, read: Option<seq<Bytes>>, seqs: seq<nat>)
      returns (status: Status, included: seq<Option<bool>>)
      requires Valid() && forall s :: s in seqs ==> s >= 1
      modifies this
      ensures Valid()
      ensures status == Verdict(H, old(cached), note, read)
      ensures status.Absent? <==> note.None?
      ensures status.BadSignature? <==> note.Some? && !note.value.signed
      ensures status.TreeError? <==> note.Some? && note.value.signed && read.None?
      ensures status.TooLarge? <==> note.Some? && note.value.signed && read.Some? && note.value.size > |read.value|
      ensures status.RootMismatch? <==> note.Some? && note.value.signed && read.Some? && note.value.size <= |read.value|
                                        && T.Mth(H, read.value[..note.value.size]) != note.value.root
      ensures status.SplitView? ==> old(cached).Some?
      ensures status.Accepted? && old(cached).Some? ==> old(cached).value.size <= note.value.size
      ensures status in {SplitView, Accepted} ==>
                |included| == |seqs| && forall k :: 0 <= k < |seqs| ==>
                  included[k] == if seqs[k] <= note.value.size then Some(true) else None
      ensures status.Accepted? ==>
                var leaves := read.value[..note.value.size];
                cached == Some(Witness.Checkpoint(|leaves|, T.Mth(H, leaves))) && behind == old(behind) + [leaves]
      ensures !status.Accepted? ==> cached == old(cached) && behind == old(behind)
    {
      hide T.Mth, T.ConsistencyProof, T.InclusionPath, C.Accepts, OwnHead.Run;
      included := [];
      if note.None? { return Absent, included; }
      if !note.value.signed { return BadSignature, included; }
      if read.None? { return TreeError, included; }
      var size, root := note.value.size, note.value.root;
      if size > |read.value| { return TooLarge, included; }
      var leaves := read.value[..size];
      if T.Mth(H, leaves) != root { return RootMismatch, included; }
      included := ProveIncluded(H, seqs, leaves);
      if cached.Some? {
        var seen := cached.value;
        if seen.size > size { return SplitView, included; }
        var ok := T.VerifyConsistency(H, seen.size, size, T.ConsistencyProof(H, seen.size, leaves), seen.root, root);
        if !ok { return SplitView, included; }
      }
      OwnHead.RunAppend(H, behind, leaves);
      behind := behind + [leaves];
      cached := Some(Witness.Checkpoint(size, root));
      return Accepted, included;
    }
  }

  /** One inclusion check for every asked pulse that the checkpoint covers. None ever fails. */
  method ProveIncluded(H: HashFn, seqs: seq<nat>, leaves: seq<Bytes>) returns (included: seq<Option<bool>>)
    requires forall s :: s in seqs ==> s >= 1
    ensures |included| == |seqs|
    ensures forall k :: 0 <= k < |seqs| ==> included[k] == if seqs[k] <= |leaves| then Some(true) else None
  {
    included := [];
    for k := 0 to |seqs|
      invariant |included| == k
      invariant forall j :: 0 <= j < k ==> included[j] == if seqs[j] <= |leaves| then Some(true) else None
    {
      assert seqs[k] in seqs;
      var i := seqs[k] - 1;
      if i < |leaves| {
        T.InclusionComplete(H, i, leaves);
        var ok := T.VerifyInclusion(H, LeafHash(H, leaves[i]), i, |leaves|, T.InclusionPath(H, i, leaves), T.Mth(H, leaves));
        included := included + [Some(ok)];
      } else {
        included := included + [None];
      }
    }
  }

  /** Over every run of one client, each head it ever cached is the tree of that many of the
      leaves behind the newest accepted head, and sizes never went back. */
  lemma ClientRun(c: Client, i: nat)
    requires c.Valid() && i < |c.behind|
    ensures var newest := c.behind[|c.behind| - 1];
            |c.behind[i]| <= |newest| == c.cached.value.size
            && (T.Mth(c.H, c.behind[i]) == T.Mth(c.H, newest[..|c.behind[i]|])
                || CollisionIn(c.H, OwnHead.RunInputs(c.H, c.behind)))
  {
    OwnHead.EveryHeadRecomputes(c.H, c.behind, i);
  }

  /** For a head that recomputes, the check is exactly the question whether the leaves seen
      before are a prefix, up to a collision. */
  lemma CheckDecidesPrefix(H: HashFn, seen: seq<Bytes>, note: Note, read: seq<Bytes>)
    requires note.signed && note.size <= |read| && T.Mth(H, read[..note.size]) == note.root
    ensures var verdict := Verdict(H, Some(Witness.Checkpoint(|seen|, T.Mth(H, seen))), Some(note), Some(read));
            && verdict in {Accepted, SplitView}
            && (seen <= read[..note.size] ==> verdict.Accepted?)
            && (verdict.Accepted? ==>
                  |seen| <= note.size
                  && (seen <= read[..note.size] || CollisionIn(H, OwnHead.MoveInputs(H, seen, read[..note.size]))))
  {
    hide T.Mth, T.ConsistencyProof, C.Accepts, OwnHead.MoveInputs;
    OwnHead.MovesExtend(H, seen, read[..note.size]);
  }

  // ---------------------------------------------------------------- the second publication surface

  datatype SiteAnswer = Same | SiteAhead | Consistent | SiteSplitView

  /** Compare the site's signed head with git's; `more` are the pulses fetched from the site when
      it is ahead, None when they could not be fetched or did not chain. */
  function CrossCheck(H: HashFn, git: Witness.Checkpoint, site: Witness.Checkpoint, sameNote: bool, leaves: seq<Bytes>,
      more: Option<seq<Bytes>>): SiteAnswer
    requires git.size <= |leaves|
    requires more.Some? ==> |leaves| + |more.value| >= site.size
  {
    if sameNote then Same
    else
      var lo, hi := if site.size <= git.size then site.size else git.size, if site.size <= git.size then git.size else site.size;
      var oldRoot, newRoot := if site.size <= git.size then site.root else git.root,
          if site.size <= git.size then git.root else site.root;
      if hi > |leaves| && (hi - |leaves| > MAX_SITE_AHEAD || more.None?) then SiteAhead
      else
        var all := if hi > |leaves| then leaves + more.value else leaves;
        if C.Accepts(H, lo, hi, T.ConsistencyProof(H, lo, all[..hi]), oldRoot, newRoot) then Consistent else SiteSplitView
  }

  /** What ends the comparison before any proof: the same signed note, or a site more than 12 pulses in
      front, or in front by pulses that could not be had. */
  lemma SiteUncompared(H: HashFn, git: Witness.Checkpoint, site: Witness.Checkpoint, sameNote: bool, leaves: seq<Bytes>,
      more: Option<seq<Bytes>>)
    requires git.size <= |leaves|
    requires more.Some? ==> |leaves| + |more.value| >= site.size
    ensures var answer := CrossCheck(H, git, site, sameNote, leaves, more);
            && (answer == Same <==> sameNote)
            && (answer == SiteAhead <==> !sameNote && site.size > |leaves| && (site.size > |leaves| + 12 || more.None?))
  {
    hide T.Mth, T.ConsistencyProof, C.Accepts;
  }

  /** A site behind git: "consistent" means its root is that of a prefix of the pulses read,
      unless it claims the empty tree, for which nothing is compared. */
  lemma SiteBehind(H: HashFn, git: Witness.Checkpoint, site: Witness.Checkpoint, leaves: seq<Bytes>,
      more: Option<seq<Bytes>>)
    requires site.size <= git.size <= |leaves| && git.root == T.Mth(H, leaves[..git.size])
    requires more.Some? ==> |leaves| + |more.value| >= site.size
    ensures var answer := CrossCheck(H, git, site, false, leaves, more);
            && (site.size == 0 && git.size > 0 ==> answer == Consistent)
            && (site.root == T.Mth(H, leaves[..site.size]) ==> answer == Consistent)
            && (answer == Consistent && (site.size > 0 || git.size == 0) ==>
                  site.root == T.Mth(H, leaves[..site.size])
                  || CollisionIn(H, T.ConsistencyInputs(H, site.size, T.ConsistencyProof(H, site.size,
                      leaves[..git.size]), site.root, leaves[..git.size])))
  {
    var all := leaves[..git.size];
    assert all[..site.size] == leaves[..site.size];
    T.ConsistencyComplete(H, site.size, all);
    var proof := T.ConsistencyProof(H, site.size, all);
    hide T.Mth, T.ConsistencyInputs, T.Subproof, CollisionIn;
    if C.Accepts(H, site.size, git.size, proof, site.root, git.root) && site.size > 0 {
      T.OwnProofOldRoot(H, site.size, site.root, all);
    }
  }

  /** A site ahead of git: "consistent" says exactly that its root recomputes, unless the git head
      is the empty tree, after which any site root is called consistent unread. */
  lemma SiteInFront(H: HashFn, git: Witness.Checkpoint, site: Witness.Checkpoint, leaves: seq<Bytes>, more: seq<Bytes>)
    requires git.size < site.size && git.size <= |leaves| && git.root == T.Mth(H, leaves[..git.size])
    requires |leaves| + |more| >= site.size && site.size <= |leaves| + MAX_SITE_AHEAD
    ensures CrossCheck(H, git, site, false, leaves, Some(more)) == Consistent
            <==> git.size == 0 || site.root == T.Mth(H, (leaves + more)[..site.size])
  {
    hide T.Mth, T.Subproof;
    var all := (leaves + more)[..site.size];
    assert all[..git.size] == leaves[..git.size];
    if site.size <= |leaves| { assert leaves[..site.size] == all; }
    if git.size > 0 { T.OwnProofNewRoot(H, git.size, site.root, all); }
  }
}
