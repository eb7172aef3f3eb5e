/**
  nbwitness.py: a witness holds one head per log, moves it only under an accepted consistency
  proof, and cosigns what it moves to. Heads live in files named by the sanitised origin, so
  two origins that sanitise alike share one head; every claim below is per such name.
 */
module Witness {
  import opened Hashing
  import opened MerkleTree
  import C = Consistency
  import T = TLog

  datatype Checkpoint = Checkpoint(size: nat, root: Bytes)

  /** A parsed add-checkpoint body; `signed` says whether the log's own signature verifies. */
  datatype Request = Malformed | Request(oldSize: int, proof: seq<Bytes>, origin: string, size: int, root: Bytes, signed: bool)

  datatype Response =
    | BadRequest | UnknownLog | BadSignature
    | Conflict(known: nat) | Forbidden | Cosigned(checkpoint: Checkpoint)

  /** One cosigned checkpoint, the proof that came with it, the origin it named, and whether that log had signed it. */
  datatype Move = Move(checkpoint: Checkpoint, proof: seq<Bytes>, origin: string, signed: bool)

  predicate PlainChar(c: char) {
    'A' <= c <= 'Z' || 'a' <= c <= 'z' || '0' <= c <= '9' || c == '.' || c == '_' || c == '-'
  }

  /** The name of the head file of an origin. */
  function Sanitised(origin: string): (key: string)
    ensures |key| == |origin|
  {
    seq(|origin|, i requires 0 <= i < |origin| => if PlainChar(origin[i]) then origin[i] else '_')
  }

  // ---------------------------------------------------------------- what one request does

  function KnownSize(head: Option<Checkpoint>): nat {
    if head.Some? then head.value.size else 0
  }

  function Respond(H: HashFn, logs: set<string>, head: Option<Checkpoint>, req: Request): Response {
    if req.Malformed? then BadRequest
    else if req.origin !in logs then UnknownLog
    else if !req.signed then BadSignature
    else
      var known := KnownSize(head);
      if req.oldSize != known then Conflict(known)
      else if req.size < known then Conflict(known)
      else if req.size == known then
        if head.Some? && req.root == head.value.root then Cosigned(head.value) else Forbidden
      else if known == 0 && req.proof == [] then Cosigned(Checkpoint(req.size, req.root))
      else if !C.Accepts(H, known, req.size, req.proof, if head.Some? then head.value.root else [], req.root) then Forbidden
      else Cosigned(Checkpoint(req.size, req.root))
  }

  class Witness {
    const H: HashFn
    const logs: set<string>
    var heads: map<string, Checkpoint>
    ghost var history: map<string, seq<Move>>

    ghost predicate Valid()
      reads this
    {
      && heads.Keys == history.Keys
      && (forall key :: key in heads ==> Explains(H, history[key], heads[key]))
      && (forall key :: key in history ==> OnlySigned(logs, key, history[key]))
    }

    function HeadOf(origin: string): Option<Checkpoint>
      reads this
    {
      if Sanitised(origin) in heads then Some(heads[Sanitised(origin)]) else None
    }

    constructor (H: HashFn, logs: set<string>)
      ensures Valid() && this.H == H && this.logs == logs
      ensures heads == map[] && history == map[]
    {
      this.H, this.logs := H, logs;
      heads, history := map[], map[];
    }

    method AddCheckpoint(req: Request) returns (response: Response)
      requires Valid()
      modifies this
      ensures Valid()
      ensures response == Respond(H, logs, if req.Malformed? then None else old(HeadOf(req.origin)), req)
      ensures response.BadRequest? <==> req.Malformed?
      ensures response.UnknownLog? <==> req.Request? && req.origin !in logs
      ensures response.BadSignature? <==> req.Request? && req.origin in logs && !req.signed
      ensures response.Cosigned? ==> req.Request? && req.origin in logs && req.signed
      ensures req.Request? && req.origin in logs && req.signed ==>
                var head := old(HeadOf(req.origin));
                var known := if head.Some? then head.value.size else 0;
                && (response.Conflict? <==> req.oldSize != known || req.size < known)
                && (response.Conflict? ==> response.known == known)
                && (response.Cosigned? ==> response.checkpoint == Checkpoint(req.size, req.root))
                && (req.oldSize == known == req.size ==> (response.Cosigned? <==> head.Some? && req.root == head.value.root))
                && (req.oldSize == known < req.size ==>
                      (response.Cosigned? <==>
                         if req.proof == [] && known == 0 then true
                         else C.Accepts(H, known, req.size, req.proof, if head.Some? then head.value.root else [], req.root)))
      ensures heads == if response.Cosigned? then old(heads)[Sanitised(req.origin) := response.checkpoint] else old(heads)
      ensures response.Cosigned? ==>
                var key := Sanitised(req.origin);
                var before := if key in old(history) then old(history[key]) else [];
                history == old(history)[key := before + [Move(response.checkpoint, req.proof, req.origin, req.signed)]]
      ensures !response.Cosigned? ==> history == old(history)
    {
      hide C.Accepts, Sanitised, Follows;
      if req.Malformed? { return BadRequest; }
      if req.origin !in logs { return UnknownLog; }
      if !req.signed { return BadSignature; }
      var key := Sanitised(req.origin);
      var known, knownRoot := 0, [];
      if key in heads {
        known, knownRoot := heads[key].size, heads[key].root;
        assert Explains(H, history[key], heads[key]);
      }
      if req.oldSize != known { return Conflict(known); }
      if req.size < known { return Conflict(known); }
      if req.size == known {
        if !(key in heads && req.root == knownRoot) { return Forbidden; }
        FollowsSame(H, heads[key], Move(heads[key], req.proof, req.origin, req.signed));
        response := Cosigned(heads[key]);
        Record(key, Move(heads[key], req.proof, req.origin, req.signed));
        return;
      }
      if known == 0 && req.proof == [] {
        // first sight of this log
      } else {
        var ok := T.VerifyConsistency(H, known, req.size, req.proof, knownRoot, req.root);
        if !ok { return Forbidden; }
        if key in heads { FollowsLarger(H, heads[key], Move(Checkpoint(req.size, req.root), req.proof, req.origin, req.signed)); }
      }
      response := Cosigned(Checkpoint(req.size, req.root));
      Record(key, Move(Checkpoint(req.size, req.root), req.proof, req.origin, req.signed));
    }

    /** Store the head and remember that it was cosigned. */
    method Record(key: string, move: Move)
      requires Valid() && move.checkpoint.size >= 1
      requires key in heads ==> Follows(H, heads[key], move)
      requires move.signed && move.origin in logs && Sanitised(move.origin) == key
      modifies this
      ensures Valid() && heads == old(heads)[key := move.checkpoint]
      ensures var before := if key in old(history) then old(history[key]) else [];
              history == old(history)[key := before + [move]]
    {
      hide Explains, Follows, Sanitised;
      ghost var before := if key in history then history[key] else [];
      ExplainsAppend(H, before, if key in heads then Some(heads[key]) else None, move);
      heads := heads[key := move.checkpoint];
      history := history[key := before + [move]];
    }
  }

  lemma FollowsSame(H: HashFn, prev: Checkpoint, next: Move)
    requires next.checkpoint == prev
    ensures Follows(H, prev, next)
  {
  }

  lemma FollowsLarger(H: HashFn, prev: Checkpoint, next: Move)
    requires prev.size < next.checkpoint.size
    requires C.Accepts(H, prev.size, next.checkpoint.size, next.proof, prev.root, next.checkpoint.root)
    ensures Follows(H, prev, next)
  {
  }

  // ---------------------------------------------------------------- what a whole run leaves behind

  function Last<T>(s: seq<T>): T
    requires s != []
  {
    s[|s| - 1]
  }

  /** One cosigned checkpoint may follow another: the same again, or a larger one under a proof. */
  predicate Follows(H: HashFn, prev: Checkpoint, next: Move) {
    || next.checkpoint == prev
    || (prev.size < next.checkpoint.size
        && C.Accepts(H, prev.size, next.checkpoint.size, next.proof, prev.root, next.checkpoint.root))
  }

  predicate Linked(H: HashFn, history: seq<Move>) {
    forall i :: 1 <= i < |history| ==> Follows(H, history[i - 1].checkpoint, history[i])
  }

  /** Every checkpoint of a history was signed by a configured log of this name. */
  predicate OnlySigned(logs: set<string>, key: string, history: seq<Move>) {
    forall i :: 0 <= i < |history| ==> history[i].signed && history[i].origin in logs && Sanitised(history[i].origin) == key
  }

  /** A history that leads to a head. */
  predicate Explains(H: HashFn, history: seq<Move>, head: Checkpoint) {
    && history != [] && Linked(H, history)
    && head == Last(history).checkpoint
    && history[0].checkpoint.size >= 1 && head.size >= 1
  }

  lemma ExplainsAppend(H: HashFn, history: seq<Move>, head: Option<Checkpoint>, move: Move)
    requires head.None? ==> history == []
    requires head.Some? ==> Explains(H, history, head.value) && Follows(H, head.value, move)
    requires move.checkpoint.size >= 1
    ensures Explains(H, history + [move], move.checkpoint)
  {
  }

  /** Cosigned sizes never decrease, and one size is only ever cosigned with one root. */
  lemma {:induction false} NeverBack(H: HashFn, history: seq<Move>, i: nat, j: nat)
    requires Linked(H, history) && i <= j < |history|
    ensures history[i].checkpoint.size <= history[j].checkpoint.size
    ensures history[i].checkpoint.size == history[j].checkpoint.size ==> history[i].checkpoint == history[j].checkpoint
    decreases j
  {
    if i < j {
      NeverBack(H, history, i, j - 1);
      assert Follows(H, history[j - 1].checkpoint, history[j]);
    }
  }

  /** Every proof the witness acted on starts from a 32-byte hash. */
  predicate Sized(history: seq<Move>) {
    forall i :: 1 <= i < |history| ==> SizedMove(history[i - 1].checkpoint, history[i])
  }

  predicate SizedMove(prev: Checkpoint, next: Move) {
    1 <= prev.size < next.checkpoint.size && next.proof != []
    ==> |T.StartingHash(prev.size, next.proof, prev.root)| == 32
  }

  /** The strings hashed in checking the moves, and in computing the trees behind them. */
  function RunInputs(H: HashFn, history: seq<Move>, leaves: seq<Bytes>): set<Bytes>
    decreases |history|
  {
    if |history| <= 1 then T.MthInputs(H, leaves)
    else
      var prev := history[|history| - 2].checkpoint;
      T.ConsistencyInputs(H, prev.size, Last(history).proof, prev.root, leaves)
      + RunInputs(H, history[..|history| - 1], if prev.size <= |leaves| then leaves[..prev.size] else [])
  }

  /** Witness safety: if the head is the tree of some leaves, every checkpoint ever cosigned is
      the tree of a prefix of those leaves, or strings hashed on the way collide. */
  lemma {:induction false} WitnessSafety(H: HashFn, history: seq<Move>, leaves: seq<Bytes>, i: nat)
    requires Linked(H, history) && Sized(history) && i < |history|
    requires Last(history).checkpoint == Checkpoint(|leaves|, T.Mth(H, leaves))
    requires history[0].checkpoint.size >= 1
    ensures history[i].checkpoint.size <= |leaves|
    ensures history[i].checkpoint.root == T.Mth(H, leaves[..history[i].checkpoint.size])
            || CollisionIn(H, RunInputs(H, history, leaves))
    decreases |history|
  {
    NeverBack(H, history, i, |history| - 1);
    NeverBack(H, history, 0, i);
    if i == |history| - 1 {
      assert leaves[..|leaves|] == leaves;
    } else {
      WitnessSafetyStep(H, history, leaves, i);
    }
  }

  lemma {:induction false} WitnessSafetyStep(H: HashFn, history: seq<Move>, leaves: seq<Bytes>, i: nat)
    requires Linked(H, history) && Sized(history) && i < |history| - 1
    requires Last(history).checkpoint == Checkpoint(|leaves|, T.Mth(H, leaves))
    requires history[0].checkpoint.size >= 1
    ensures history[i].checkpoint.size <= |leaves|
    ensures history[i].checkpoint.root == T.Mth(H, leaves[..history[i].checkpoint.size])
            || CollisionIn(H, RunInputs(H, history, leaves))
    decreases |history|, 0
  {
    hide *;
    var n := |history|;
    var prev, move, earlier := history[n - 2].checkpoint, history[n - 1], history[..n - 1];
    NeverBack(H, history, i, n - 2);
    NeverBack(H, history, 0, n - 2);
    NeverBack(H, history, n - 2, n - 1);
    DropLast(H, history);
    LastIs(history);
    LastIs(earlier);
    RunInputsStep(H, history, leaves);
    PrevRoot(H, prev, move, leaves);
    var small := T.ConsistencyInputs(H, prev.size, move.proof, prev.root, leaves);
    if CollisionIn(H, small) {
      CollisionGrows(H, small, RunInputs(H, history, leaves));
    } else {
      WitnessSafety(H, earlier, leaves[..prev.size], i);
      assert leaves[..prev.size][..history[i].checkpoint.size] == leaves[..history[i].checkpoint.size];
      var rest := RunInputs(H, earlier, leaves[..prev.size]);
      if CollisionIn(H, rest) { CollisionGrows(H, rest, RunInputs(H, history, leaves)); }
    }
  }

  lemma LastIs<T>(s: seq<T>)
    requires s != []
    ensures Last(s) == s[|s| - 1]
  {
  }

  lemma DropLast(H: HashFn, history: seq<Move>)
    requires Linked(H, history) && Sized(history) && |history| >= 2
    ensures Linked(H, history[..|history| - 1]) && Sized(history[..|history| - 1])
    ensures Follows(H, history[|history| - 2].checkpoint, history[|history| - 1])
    ensures SizedMove(history[|history| - 2].checkpoint, history[|history| - 1])
  {
    assert Follows(H, history[|history| - 1 - 1].checkpoint, history[|history| - 1]);
    assert SizedMove(history[|history| - 1 - 1].checkpoint, history[|history| - 1]);
  }

  lemma RunInputsStep(H: HashFn, history: seq<Move>, leaves: seq<Bytes>)
    requires |history| >= 2 && history[|history| - 2].checkpoint.size <= |leaves|
    ensures var prev := history[|history| - 2].checkpoint;
            T.ConsistencyInputs(H, prev.size, Last(history).proof, prev.root, leaves) <= RunInputs(H, history, leaves)
            && RunInputs(H, history[..|history| - 1], leaves[..prev.size]) <= RunInputs(H, history, leaves)
  {
  }

  /** One move: the previous root is the prefix's root, or the strings of this check collide. */
  lemma PrevRoot(H: HashFn, prev: Checkpoint, move: Move, leaves: seq<Bytes>)
    requires 1 <= prev.size <= |leaves| && Follows(H, prev, move) && SizedMove(prev, move)
    requires move.checkpoint == Checkpoint(|leaves|, T.Mth(H, leaves))
    ensures prev.root == T.Mth(H, leaves[..prev.size])
            || CollisionIn(H, T.ConsistencyInputs(H, prev.size, move.proof, prev.root, leaves))
  {
    if prev == move.checkpoint {
      assert leaves[..prev.size] == leaves;
    } else {
      T.ConsistencySound(H, prev.size, move.proof, prev.root, leaves);
    }
  }

  /** Every checkpoint of the run is the tree of a prefix of the leaves. */
  ghost predicate AllPrefixes(H: HashFn, history: seq<Move>, leaves: seq<Bytes>) {
    forall i :: 0 <= i < |history| ==> IsPrefixTree(H, history[i].checkpoint, leaves)
  }

  ghost predicate IsPrefixTree(H: HashFn, cp: Checkpoint, leaves: seq<Bytes>) {
    cp.size <= |leaves| && cp.root == T.Mth(H, leaves[..cp.size])
  }

  /**
    The exact condition, with nothing assumed of the proofs: if the head is the tree of some
    leaves, every checkpoint ever cosigned is the tree of a prefix of them if and only if every
    proof started from a 32-byte hash, or strings hashed on the way collide.
   */
  lemma WitnessSafetyIff(H: HashFn, history: seq<Move>, leaves: seq<Bytes>)
    requires history != [] && Linked(H, history)
    requires Last(history).checkpoint == Checkpoint(|leaves|, T.Mth(H, leaves))
    requires history[0].checkpoint.size >= 1
    ensures (AllPrefixes(H, history, leaves) <==> Sized(history)) || CollisionIn(H, RunInputs(H, history, leaves))
  {
    hide *;
    if !CollisionIn(H, RunInputs(H, history, leaves)) {
      if Sized(history) {
        SizedIsPrefixes(H, history, leaves);
      } else if AllPrefixes(H, history, leaves) {
        PrefixesAreSized(H, history, leaves);
      }
    }
  }

  lemma SizedIsPrefixes(H: HashFn, history: seq<Move>, leaves: seq<Bytes>)
    requires history != [] && Linked(H, history) && Sized(history)
    requires Last(history).checkpoint == Checkpoint(|leaves|, T.Mth(H, leaves))
    requires history[0].checkpoint.size >= 1 && !CollisionIn(H, RunInputs(H, history, leaves))
    ensures AllPrefixes(H, history, leaves)
  {
    hide Linked, Sized, RunInputs, T.Mth, CollisionIn;
    forall i | 0 <= i < |history| ensures IsPrefixTree(H, history[i].checkpoint, leaves) {
      WitnessSafety(H, history, leaves, i);
    }
  }

  lemma {:induction false} PrefixesAreSized(H: HashFn, history: seq<Move>, leaves: seq<Bytes>)
    requires history != [] && Linked(H, history) && AllPrefixes(H, history, leaves)
    requires Last(history).checkpoint == Checkpoint(|leaves|, T.Mth(H, leaves))
    requires history[0].checkpoint.size >= 1 && !CollisionIn(H, RunInputs(H, history, leaves))
    ensures Sized(history)
    decreases |history|
  {
    hide *;
    var n := |history|;
    if n == 1 {
      OneIsSized(history);
    } else {
      var prev, move, earlier := history[n - 2].checkpoint, history[n - 1], history[..n - 1];
      LastIs(history);
      LastIs(earlier);
      PrefixDrop(H, history, leaves);
      NeverBack(H, history, 0, n - 2);
      EarlierInputs(H, history, leaves);
      if CollisionIn(H, RunInputs(H, earlier, leaves[..prev.size])) {
        CollisionGrows(H, RunInputs(H, earlier, leaves[..prev.size]), RunInputs(H, history, leaves));
      }
      PrefixesAreSized(H, earlier, leaves[..prev.size]);
      LastIsSized(H, prev, move, leaves, RunInputs(H, history, leaves));
      SizedGrows(history);
    }
  }

  lemma OneIsSized(history: seq<Move>)
    requires |history| == 1
    ensures Sized(history)
  {
  }

  lemma PrefixDrop(H: HashFn, history: seq<Move>, leaves: seq<Bytes>)
    requires |history| >= 2 && Linked(H, history) && AllPrefixes(H, history, leaves)
    ensures var prev, earlier := history[|history| - 2].checkpoint, history[..|history| - 1];
            && prev.size <= |leaves| && prev.root == T.Mth(H, leaves[..prev.size])
            && Linked(H, earlier) && Follows(H, prev, history[|history| - 1])
            && AllPrefixes(H, earlier, leaves[..prev.size])
  {
    hide T.Mth, Follows;
    var n := |history|;
    var prev, earlier := history[n - 2].checkpoint, history[..n - 1];
    assert IsPrefixTree(H, prev, leaves) && Follows(H, history[n - 1 - 1].checkpoint, history[n - 1]);
    forall i | 0 <= i < |earlier| ensures IsPrefixTree(H, earlier[i].checkpoint, leaves[..prev.size]) {
      NeverBack(H, history, i, n - 2);
      assert IsPrefixTree(H, history[i].checkpoint, leaves);
      assert leaves[..prev.size][..history[i].checkpoint.size] == leaves[..history[i].checkpoint.size];
    }
  }

  /** The strings of the earlier moves, and of the tree behind the previous head, are among those of the run. */
  lemma EarlierInputs(H: HashFn, history: seq<Move>, leaves: seq<Bytes>)
    requires |history| >= 2 && history[|history| - 2].checkpoint.size <= |leaves|
    ensures var prev := history[|history| - 2].checkpoint;
            && T.ConsistencyInputs(H, prev.size, Last(history).proof, prev.root, leaves) <= RunInputs(H, history, leaves)
            && RunInputs(H, history[..|history| - 1], leaves[..prev.size]) <= RunInputs(H, history, leaves)
            && T.MthInputs(H, leaves[..prev.size]) <= RunInputs(H, history, leaves)
  {
    RunInputsStep(H, history, leaves);
    var prev := history[|history| - 2].checkpoint;
    RunInputsTree(H, history[..|history| - 1], leaves[..prev.size]);
  }

  lemma RunInputsTree(H: HashFn, history: seq<Move>, leaves: seq<Bytes>)
    ensures T.MthInputs(H, leaves) <= RunInputs(H, history, leaves)
  {
  }

  lemma LastIsSized(H: HashFn, prev: Checkpoint, move: Move, leaves: seq<Bytes>, strings: set<Bytes>)
    requires 1 <= prev.size <= |leaves| && prev.root == T.Mth(H, leaves[..prev.size])
    requires move.checkpoint == Checkpoint(|leaves|, T.Mth(H, leaves)) && Follows(H, prev, move)
    requires T.ConsistencyInputs(H, prev.size, move.proof, prev.root, leaves) + T.MthInputs(H, leaves[..prev.size]) <= strings
    requires !CollisionIn(H, strings)
    ensures SizedMove(prev, move)
  {
    hide T.Mth, T.MthInputs, T.ConsistencyInputs, CollisionIn, C.Accepts;
    if prev.size < |leaves| && move.proof != [] {
      var used := T.MthInputs(H, leaves[..prev.size]) + T.ConsistencyInputs(H, prev.size, move.proof, prev.root, leaves);
      T.StartingHashDecides(H, prev.size, move.proof, prev.root, leaves);
      if CollisionIn(H, used) { CollisionGrows(H, used, strings); }
    }
  }

  lemma SizedGrows(history: seq<Move>)
    requires |history| >= 2 && Sized(history[..|history| - 1])
    requires SizedMove(history[|history| - 2].checkpoint, history[|history| - 1])
    ensures Sized(history)
  {
    hide SizedMove;
    var n := |history|;
    forall i | 1 <= i < n ensures SizedMove(history[i - 1].checkpoint, history[i]) {
      if i < n - 1 {
        assert SizedMove(history[..n - 1][i - 1].checkpoint, history[..n - 1][i]);
      }
    }
  }

  /** The same exact condition for a running witness, for any log it has cosigned for. */
  lemma RunningWitnessSafetyIff(w: Witness, origin: string, leaves: seq<Bytes>)
    requires w.Valid() && w.HeadOf(origin) == Some(Checkpoint(|leaves|, T.Mth(w.H, leaves)))
    ensures var history := w.history[Sanitised(origin)];
            (AllPrefixes(w.H, history, leaves) <==> Sized(history)) || CollisionIn(w.H, RunInputs(w.H, history, leaves))
  {
    hide Sanitised, Linked, Sized, RunInputs, AllPrefixes, T.Mth;
    WitnessSafetyIff(w.H, w.history[Sanitised(origin)], leaves);
  }

  // ---------------------------------------------------------------- what the sanitised name merges

  /** Two origins share one head file exactly when they differ only where both have a character that becomes "_". */
  lemma SharedNameIff(a: string, b: string)
    ensures Sanitised(a) == Sanitised(b)
            <==> |a| == |b| && forall i :: 0 <= i < |a| ==> a[i] == b[i] || (BecomesUnderscore(a[i]) && BecomesUnderscore(b[i]))
  {
    if Sanitised(a) == Sanitised(b) {
      forall i | 0 <= i < |a| ensures a[i] == b[i] || (BecomesUnderscore(a[i]) && BecomesUnderscore(b[i])) {
        assert Sanitised(a)[i] == Sanitised(b)[i];
      }
    }
  }

  predicate BecomesUnderscore(c: char) {
    !('A' <= c <= 'Z') && !('a' <= c <= 'z') && !('0' <= c <= '9') && c != '.' && c != '-'
  }

  /**
    Over every run, each checkpoint cosigned under an origin's name came with a valid signature of
    a configured log of that name; of that very origin, if no other configured log shares the name.
   */
  lemma EveryMoveSigned(w: Witness, origin: string, i: nat)
    requires w.Valid() && Sanitised(origin) in w.history && i < |w.history[Sanitised(origin)]|
    ensures var move := w.history[Sanitised(origin)][i];
            && move.signed && move.origin in w.logs && |move.origin| == |origin|
            && (forall k :: 0 <= k < |origin| ==>
                  move.origin[k] == origin[k] || (BecomesUnderscore(move.origin[k]) && BecomesUnderscore(origin[k])))
            && ((forall log :: log in w.logs && log != origin ==> Sanitised(log) != Sanitised(origin)) ==> move.origin == origin)
  {
    hide Sanitised, Explains;
    assert OnlySigned(w.logs, Sanitised(origin), w.history[Sanitised(origin)]);
    SharedNameIff(w.history[Sanitised(origin)][i].origin, origin);
  }

  /** Two different origins with one head file. */
  lemma SharedNameExample()
    ensures "log.example/a" != "log.example:a" && Sanitised("log.example/a") == Sanitised("log.example:a")
  {
    SharedNameIff("log.example/a", "log.example:a");
  }

  /**
    A checkpoint is cosigned for one log, then another log makes its first request: if the two
    origins share a name, the second is judged against the first one's head and told its size;
    if they do not, nothing of the first is seen.
   */
  method FirstRequestAfter(w: Witness, a: Request, b: Request) returns (first: Response, second: Response)
    requires w.Valid() && a.Request? && b.Request? && b.oldSize == 0 && b.origin in w.logs && b.signed
    modifies w
    ensures w.Valid() && first == Respond(w.H, w.logs, old(w.HeadOf(a.origin)), a)
    ensures first.Cosigned? && Sanitised(a.origin) == Sanitised(b.origin) ==> second == Conflict(first.checkpoint.size)
    ensures Sanitised(a.origin) != Sanitised(b.origin) ==> second == Respond(w.H, w.logs, old(w.HeadOf(b.origin)), b)
  {
    hide C.Accepts, Sanitised, Linked;
    first := w.AddCheckpoint(a);
    second := w.AddCheckpoint(b);
  }
}
