/**
  tlog.py, publishing: sign the current head only if it continues the last published
  checkpoint, and ask a witness for a cosignature, learning the size it knows from a refusal.
 */
module Publisher {
  import opened Hashing
  import opened Witness
  import C = Consistency
  import T = TLog
  import OwnHead

  // ---------------------------------------------------------------- write_checkpoint

  datatype WriteResult = Rollback | Fork | DifferentRoot | Unchanged | Wrote

  class Publisher {
    const H: HashFn
    /** The files of checkpoints/, in the order of their zero-padded names. */
    var files: seq<Checkpoint>
    ghost var behind: seq<seq<Bytes>>

    ghost predicate Valid()
      reads this
    {
      && OwnHead.Run(H, behind) && |behind| == |files|
      && (forall i :: 0 <= i < |files| ==> files[i] == Checkpoint(|behind[i]|, T.Mth(H, behind[i])))
      && (forall i :: 1 <= i < |files| ==> files[i - 1].size < files[i].size)
    }

    constructor (H: HashFn)
      ensures Valid() && this.H == H && files == [] && behind == []
    {
      this.H, files, behind := H, [], [];
    }

    method WriteCheckpoint(leaves: seq<Bytes>) returns (result: WriteResult)
      requires Valid()
      modifies this
      ensures Valid()
      ensures result != DifferentRoot
      ensures old(files) == [] ==> result == Wrote
      ensures old(files) != [] ==>
                var last := Last(old(behind));
                (result == Rollback <==> |last| > |leaves|)
                && (result in {Wrote, Unchanged} <==> OwnHead.Moves(H, last, leaves))
                && (result == Unchanged <==> |last| == |leaves| && T.Mth(H, last) == T.Mth(H, leaves))
      ensures result == Wrote ==>
                files == old(files) + [Checkpoint(|leaves|, T.Mth(H, leaves))] && behind == old(behind) + [leaves]
      ensures result != Wrote ==> files == old(files) && behind == old(behind)
    {
      hide T.Mth, T.Subproof, OwnHead.Run, OwnHead.Moves, C.Accepts;
      SameSize(H, leaves);
      var n, root := |leaves|, T.Mth(H, leaves);
      if files != [] {
        var prev := files[|files| - 1];
        OwnHead.MovesIs(H, behind[|files| - 1], leaves);
        if prev.size > n { return Rollback; }
        var ok := T.VerifyConsistency(H, prev.size, n, T.ConsistencyProof(H, prev.size, leaves), prev.root, root);
        if !ok { return Fork; }
        if prev.size == n && prev.root == root { return Unchanged; }
        if prev.size == n { return DifferentRoot; }
      }
      OwnHead.RunAppend(H, behind, leaves);
      files := files + [Checkpoint(n, root)];
      behind := behind + [leaves];
      return Wrote;
    }
  }

  lemma SameSize(H: HashFn, leaves: seq<Bytes>)
    ensures T.ConsistencyProof(H, |leaves|, leaves) == []
    ensures forall root: Bytes :: C.Accepts(H, |leaves|, |leaves|, [], root, T.Mth(H, leaves)) <==> root == T.Mth(H, leaves)
  {
  }

  /** Every checkpoint ever published recomputes from the chain behind the newest one. */
  lemma PublishedRun(p: Publisher, i: nat)
    requires p.Valid() && i < |p.files|
    ensures var chain := p.behind[|p.behind| - 1];
            p.files[i].size <= |chain|
            && (p.files[i].root == T.Mth(p.H, chain[..p.files[i].size])
                || CollisionIn(p.H, OwnHead.RunInputs(p.H, p.behind)))
  {
    hide OwnHead.Run, OwnHead.RunInputs, T.Mth;
    OwnHead.EveryHeadRecomputes(p.H, p.behind, i);
  }

  // ---------------------------------------------------------------- witness_submit

  datatype SubmitResult =
    | CosignatureReceived(checkpoint: Checkpoint)
    | StaleOrNoProgress(known: nat)
    | Refused
    | TooManyRetries

  /** The body posted when the witness is believed to hold `known`. */
  function Body(H: HashFn, origin: string, note: Checkpoint, leaves: seq<Bytes>, known: nat): Request
    requires note.size <= |leaves|
  {
    Request(known, if 0 < known < note.size then T.ConsistencyProof(H, known, leaves[..note.size]) else [],
            origin, note.size, note.root, true)
  }

  method WitnessSubmit(w: Witness, origin: string, note: Checkpoint, leaves: seq<Bytes>)
    returns (result: SubmitResult, posts: nat)
    requires w.Valid() && note.size <= |leaves|
    modifies w
    ensures w.Valid() && 1 <= posts <= 2 && !result.TooManyRetries?
    ensures result.CosignatureReceived? ==> origin in w.logs && w.HeadOf(origin) == Some(note) && result.checkpoint == note
    ensures !result.CosignatureReceived? ==> w.HeadOf(origin) == old(w.HeadOf(origin))
    ensures origin !in w.logs ==> result == Refused && posts == 1
    ensures result.StaleOrNoProgress? <==> origin in w.logs && KnownSize(old(w.HeadOf(origin))) > note.size
    ensures result.StaleOrNoProgress? ==> result.known == KnownSize(old(w.HeadOf(origin)))
    ensures Ready(w.H, w.logs, origin, old(w.HeadOf(origin)), note, leaves)
            ==> result == CosignatureReceived(note) && posts <= 2 && w.HeadOf(origin) == Some(note)
  {
    hide Respond, Body, Ready, T.Mth, Sanitised;
    var known: nat := 0;
    posts := 0;
    ghost var before := w.HeadOf(origin);
    for attempt := 0 to 4
      invariant w.Valid() && posts == attempt && known <= note.size
      invariant w.HeadOf(origin) == before
      invariant attempt == 0 ==> known == 0
      invariant attempt == 1 ==> origin in w.logs && known == KnownSize(before)
      invariant attempt <= 1
    {
      var body := Body(w.H, origin, note, leaves, known);
      BodyOrigin(w.H, origin, note, leaves, known);
      ReadyAnswers(w.H, w.logs, origin, before, note, leaves);
      var response := w.AddCheckpoint(body);
      posts := posts + 1;
      if response.Cosigned? { return CosignatureReceived(response.checkpoint), posts; }
      if !response.Conflict? { return Refused, posts; }
      if response.known == known || response.known > note.size { return StaleOrNoProgress(response.known), posts; }
      known := response.known;
    }
    return TooManyRetries, posts;
  }

  /** The situation of the handshake: the log is configured, the note is the head of the leaves,
      and the witness holds nothing or the head of a non-empty prefix of them. */
  predicate Ready(H: HashFn, logs: set<string>, origin: string, head: Option<Checkpoint>, note: Checkpoint,
      leaves: seq<Bytes>) {
    && origin in logs && 1 <= note.size <= |leaves|
    && note.root == T.Mth(H, leaves[..note.size])
    && (head.Some? ==>
          1 <= head.value.size <= note.size && head.value.root == T.Mth(H, leaves[..head.value.size]))
  }

  lemma BodyOrigin(H: HashFn, origin: string, note: Checkpoint, leaves: seq<Bytes>, known: nat)
    requires note.size <= |leaves|
    ensures Body(H, origin, note, leaves, known).Request? && Body(H, origin, note, leaves, known).origin == origin
    ensures Body(H, origin, note, leaves, known).oldSize == known && Body(H, origin, note, leaves, known).signed
    ensures Body(H, origin, note, leaves, known).size == note.size && Body(H, origin, note, leaves, known).root == note.root
  {
  }

  /** What a ready witness answers: to the size it holds with a cosignature, to any other with that size. */
  lemma ReadyAnswers(H: HashFn, logs: set<string>, origin: string, head: Option<Checkpoint>, note: Checkpoint,
      leaves: seq<Bytes>)
    requires note.size <= |leaves|
    ensures Ready(H, logs, origin, head, note, leaves) ==>
              && 0 <= KnownSize(head) <= note.size
              && Respond(H, logs, head, Body(H, origin, note, leaves, KnownSize(head))) == Cosigned(note)
              && (KnownSize(head) != 0 ==>
                    Respond(H, logs, head, Body(H, origin, note, leaves, 0)) == Conflict(KnownSize(head)))
  {
    if Ready(H, logs, origin, head, note, leaves) {
      var all, k := leaves[..note.size], KnownSize(head);
      T.ConsistencyComplete(H, k, all);
      assert all[..k] == leaves[..k];
      hide T.Mth, T.ConsistencyProof, C.Accepts;
    }
  }
}
