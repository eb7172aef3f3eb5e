/**
  The commit-reveal custody protocol between the aggregator (pulse.py, issued by
  beacon-cycle.py) and the entropy host. Every aggregator command is cut at its calls to the
  host: a call may not arrive, may be carried out with its reply lost, or may be answered, and
  the aggregator may crash between any two steps. Host calls are serialised, one aggregator
  runs at a time, and the published chain only moves by its pushes. A push can fail after the
  pulse has been committed to git, and then nothing but a new pulse makes git push again.
 */
module Custody {
  import opened Hashing
  import opened EntropyHost

  /** The hashed part of a pulse; `rest` stands for whatever else it carries. */
  datatype Core =
    | Legacy(num: nat, prevHash: Digest, rest: string)
    | Commit(num: nat, prevHash: Digest, rest: string, commitment: Digest, target: nat)
    | Reveal(num: nat, prevHash: Digest, rest: string, commitNum: nat, commitHash: Digest, commitment: Digest, E: Bytes)
    | Failure(num: nat, prevHash: Digest, rest: string, commitNum: nat, commitHash: Digest, commitment: Digest)
    | Skip(num: nat, prevHash: Digest, rest: string)

  datatype Config = Config(commitOf: HashFn, hashOf: Core -> Digest)

  /** No pulse hashes to the all-zero string that marks an unpublished commit. */
  ghost predicate NoZeroHash(cfg: Config) {
    forall core :: cfg.hashOf(core) != ZERO
  }

  type Chain = seq<Core>

  function Head(chain: Chain): Core
    requires chain != []
  {
    chain[|chain| - 1]
  }

  function HeadHash(cfg: Config, chain: Chain): Digest {
    if chain == [] then ZERO else cfg.hashOf(Head(chain))
  }

  predicate HeadIsCommit(chain: Chain) {
    chain != [] && Head(chain).Commit?
  }

  predicate HeadIsResolver(chain: Chain) {
    chain != [] && (Head(chain).Reveal? || Head(chain).Failure?)
  }

  // ---------------------------------------------------------------- the state

  /** What the aggregator process holds in memory between two host calls. */
  datatype AggState =
    | Idle
    | CommitReady(target: nat)
    | CommitHave(commitment: Digest, target: nat)
    | RollbackAsk(num: nat)
    | RollbackAbandon(num: nat)
    | RollbackFinalize(num: nat)
    | RevealReady
    | RevealHave(E: Bytes)
    | FailReady
    | FailHave
    | FinalizeReady(num: nat, resolver: Digest)
    | Scan(todo: seq<Name>, resolve: bool)
    | ScanAbandon(num: nat, todo: seq<Name>, resolve: bool)
    | ScanFinalizeZero(num: nat, todo: seq<Name>, resolve: bool)
    | ScanFinalize(num: nat, resolver: Digest, todo: seq<Name>, resolve: bool)

  /**
    `local` is the checkout, `saved` how many of its pulses are in git commits, `published` what
    origin has; `signed` is every commit statement made.
   */
  datatype State =
    State(published: Chain, local: Chain, saved: nat, files: Files, signed: seq<(nat, Digest)>, agg: AggState)

  datatype Delivery = NotReached | ReplyLost | Answered

  datatype Event =
    | StartCommit(now: int, target: nat)
    | CallCommit(E: Bytes, delivery: Delivery)
    | RefuseCommit
    | SealCommit(rest: string)
    | CallRollbackPending(delivery: Delivery)
    | CallRollbackAbandon(delivery: Delivery)
    | CallRollbackFinalize(delivery: Delivery)
    | StartReveal(now: int, latest: Option<nat>)
    | CallReveal(released: Option<nat>, delivery: Delivery)
    | SealReveal(rest: string)
    | StartFail
    | CallAbandon(delivery: Delivery)
    | SealFailure(rest: string)
    | MintSkip(offline: bool, rest: string)
    | StartFinalize
    | CallFinalize(delivery: Delivery)
    | StartScan(order: seq<Name>, resolve: bool)
    | ScanNext
    | CallScanAbandon(delivery: Delivery)
    | CallScanFinalize(delivery: Delivery)
    | Publish
    | PushFails
    | ByHand(push: bool)
    | Crash

  /** Only a checkout equal to the published head may mint. */
  predicate Synced(s: State) {
    s.local == s.published
  }

  /** git status shows pulses: only then does publish commit and push. */
  predicate Dirty(s: State) {
    s.saved < |s.local|
  }

  function After(s: State, files: Files, agg: AggState): State {
    s.(files := files, agg := agg)
  }

  /** The files after a call that did or did not reach the host. */
  function Reached(delivery: Delivery, before: Files, after: Files): Files {
    if delivery == NotReached then before else after
  }

  // ---------------------------------------------------------------- the clock

  const GENESIS_UNIX := 1692803367
  const PERIOD := 3
  const PUBLISH_MARGIN_S := 20
  const REVEAL_DEADLINE_S := 600

  /** When a drand round is released; round 1 is at genesis. */
  function ReleaseTime(round: nat): int {
    GENESIS_UNIX + (round - 1) * PERIOD
  }

  /** cmd_commit: the target is far enough away to honour the publication margin. */
  predicate CommitInTime(now: int, target: nat) {
    ReleaseTime(target) - now >= PUBLISH_MARGIN_S + 30
  }

  /**
    cmd_reveal: not past the deadline, by its own clock and, when it asked drand itself, by the
    newest round, which must have reached the target. `latest` is None when the cycle driver
    already fetched the target round.
   */
  predicate RevealInTime(now: int, latest: Option<nat>, target: nat) {
    && now <= ReleaseTime(target) + REVEAL_DEADLINE_S
    && (latest.Some? ==> target <= latest.value && ReleaseTime(latest.value) <= ReleaseTime(target) + REVEAL_DEADLINE_S)
  }

  // ---------------------------------------------------------------- one event

  /**
    Publish is a git commit and a push that went through, PushFails a git commit whose push did
    not; where git sees nothing new neither does anything. ByHand is the operator, pushing the
    checkout or resetting it: no command of the program does that.
   */
  function Apply(cfg: Config, s: State, e: Event): State {
    match e
    case Crash => s.(agg := Idle)
    case Publish => if s.agg.Idle? && Dirty(s) then s.(published := s.local, saved := |s.local|) else s
    case PushFails => if s.agg.Idle? then s.(saved := |s.local|) else s
    case ByHand(push) =>
      if !s.agg.Idle? then s
      else if push then s.(published := s.local, saved := |s.local|)
      else s.(local := s.published, saved := |s.published|)
    case MintSkip(offline, rest) =>
      if s.agg.Idle? && (offline || Synced(s)) && !HeadIsCommit(s.local) then
        s.(local := s.local + [Skip(|s.local| + 1, HeadHash(cfg, s.local), rest)])
      else s
    case StartCommit(_, _) => ApplyCommit(cfg, s, e)
    case CallCommit(_, _) => ApplyCommit(cfg, s, e)
    case RefuseCommit => ApplyCommit(cfg, s, e)
    case SealCommit(_) => ApplyCommit(cfg, s, e)
    case CallRollbackPending(_) => ApplyRollback(s, e)
    case CallRollbackAbandon(_) => ApplyRollback(s, e)
    case CallRollbackFinalize(_) => ApplyRollback(s, e)
    case StartReveal(_, _) => ApplyReveal(cfg, s, e)
    case CallReveal(_, _) => ApplyReveal(cfg, s, e)
    case SealReveal(_) => ApplyReveal(cfg, s, e)
    case StartFail => ApplyFail(cfg, s, e)
    case CallAbandon(_) => ApplyFail(cfg, s, e)
    case SealFailure(_) => ApplyFail(cfg, s, e)
    case StartFinalize => ApplyFinalize(cfg, s, e)
    case CallFinalize(_) => ApplyFinalize(cfg, s, e)
    case StartScan(_, _) => ApplyScan(cfg, s, e)
    case ScanNext => ApplyScan(cfg, s, e)
    case CallScanAbandon(_) => ApplyScan(cfg, s, e)
    case CallScanFinalize(_) => ApplyScan(cfg, s, e)
  }

  /** cmd_commit up to the seal. A refusal of any kind rolls back. */
  function ApplyCommit(cfg: Config, s: State, e: Event): State {
    var num := |s.local| + 1;
    if e.StartCommit? then
      if s.agg.Idle? && Synced(s) && !HeadIsCommit(s.local) && CommitInTime(e.now,
          e.target) then s.(agg := CommitReady(e.target)) else s
    else if e.CallCommit? && s.agg.CommitReady? then
      var o := CommitOutcome(cfg.commitOf, s.files, num, s.agg.target, e.E);
      if e.delivery == NotReached then s.(agg := RollbackAsk(num))
      else
        var s' := s.(files := o.files, signed := if o.reply.CommitStatement? then s.signed + [(num,
            o.reply.commitment)] else s.signed);
        if e.delivery == Answered && o.reply.CommitStatement? then s'.(agg := CommitHave(o.reply.commitment, s.agg.target))
        else s'.(agg := RollbackAsk(num))
    else if e.RefuseCommit? && (s.agg.CommitReady? || s.agg.CommitHave?) then s.(agg := RollbackAsk(num))
    else if e.SealCommit? && s.agg.CommitHave? then
      s.(local := s.local + [Commit(num, HeadHash(cfg, s.local), e.rest, s.agg.commitment, s.agg.target)], agg := Idle)
    else s
  }

  /** The rollback of a commit that was not written: ask, abandon, finalize with the zero hash. */
  function ApplyRollback(s: State, e: Event): State {
    if e.CallRollbackPending? && s.agg.RollbackAsk? then
      var num := s.agg.num;
      if e.delivery == Answered && (Name(num, Secret) in s.files || Name(num,
          Abandoning) in s.files) then s.(agg := RollbackAbandon(num))
      else s.(agg := Idle)
    else if e.CallRollbackAbandon? && s.agg.RollbackAbandon? then
      var o := AbandonOutcome(s.files, s.agg.num, ZERO);
      After(s, Reached(e.delivery, s.files, o.files),
            if e.delivery == Answered && o.reply.FailureStatement? then RollbackFinalize(s.agg.num) else Idle)
    else if e.CallRollbackFinalize? && s.agg.RollbackFinalize? then
      After(s, Reached(e.delivery, s.files, FinalizeOutcome(s.files, s.agg.num, ZERO).files), Idle)
    else s
  }

  function ApplyReveal(cfg: Config, s: State, e: Event): State {
    if e.StartReveal? then
      if s.agg.Idle? && Synced(s) && HeadIsCommit(s.local) && RevealInTime(e.now, e.latest, Head(s.local).target)
      then s.(agg := RevealReady) else s
    else if e.CallReveal? && s.agg.RevealReady? && HeadIsCommit(s.local) then
      var o := RevealOutcome(cfg.commitOf, s.files, |s.local|, HeadHash(cfg, s.local), e.released);
      After(s, Reached(e.delivery, s.files, o.files),
            if e.delivery == Answered && o.reply.RevealStatement? then RevealHave(o.reply.E) else Idle)
    else if e.SealReveal? && s.agg.RevealHave? && HeadIsCommit(s.local) then
      if cfg.commitOf(s.agg.E) != Head(s.local).commitment then s.(agg := Idle)
      else
        var core := Reveal(|s.local| + 1, HeadHash(cfg, s.local), e.rest, |s.local|, HeadHash(cfg, s.local),
            Head(s.local).commitment, s.agg.E);
        s.(local := s.local + [core], agg := Idle)
    else s
  }

  function ApplyFail(cfg: Config, s: State, e: Event): State {
    if e.StartFail? then
      if s.agg.Idle? && Synced(s) && HeadIsCommit(s.local) then s.(agg := FailReady) else s
    else if e.CallAbandon? && s.agg.FailReady? then
      var o := AbandonOutcome(s.files, |s.local|, HeadHash(cfg, s.local));
      After(s, Reached(e.delivery, s.files, o.files),
            if e.delivery == Answered && o.reply.FailureStatement? then FailHave else Idle)
    else if e.SealFailure? && s.agg.FailHave? && HeadIsCommit(s.local) then
      var core := Failure(|s.local| + 1, HeadHash(cfg, s.local), e.rest, |s.local|, HeadHash(cfg, s.local),
          Head(s.local).commitment);
      s.(local := s.local + [core], agg := Idle)
    else s
  }

  /** cmd_finalize: only a published resolver retires its secret. */
  function ApplyFinalize(cfg: Config, s: State, e: Event): State {
    if e.StartFinalize? then
      if s.agg.Idle? && Synced(s) && HeadIsResolver(s.local) then
        s.(agg := FinalizeReady(Head(s.local).commitNum, cfg.hashOf(Head(s.local))))
      else s
    else if e.CallFinalize? && s.agg.FinalizeReady? then
      After(s, Reached(e.delivery, s.files, FinalizeOutcome(s.files, s.agg.num, s.agg.resolver).files), Idle)
    else s
  }

  /** A held seq that never entered the chain. */
  predicate Unpublished(chain: Chain, num: nat) {
    num > |chain| || (num == |chain| && !HeadIsCommit(chain))
  }

  /** The published resolver of a seq below the head. */
  predicate HasResolver(chain: Chain, num: nat) {
    num < |chain| && (chain[num].Reveal? || chain[num].Failure?) && chain[num].commitNum == num
  }

  /** cmd_recover, and cmd_abort_unpublished when `resolve` is false. */
  function ApplyScan(cfg: Config, s: State, e: Event): State {
    if e.StartScan? then
      if s.agg.Idle? && Synced(s) && (set n | n in e.order) == Pending(s.files) then s.(agg := Scan(e.order, e.resolve)) else s
    else if e.ScanNext? && s.agg.Scan? then
      if s.agg.todo == [] then s.(agg := Idle)
      else
        var name, rest := s.agg.todo[0], s.agg.todo[1..];
        if Unpublished(s.local, name.num) then s.(agg := ScanAbandon(name.num, rest, s.agg.resolve))
        else if s.agg.resolve && name.state != Secret && HasResolver(s.local, name.num) then
          s.(agg := ScanFinalize(name.num, cfg.hashOf(s.local[name.num]), rest, s.agg.resolve))
        else s.(agg := Scan(rest, s.agg.resolve))
    else if e.CallScanAbandon? && s.agg.ScanAbandon? then
      var o := AbandonOutcome(s.files, s.agg.num, ZERO);
      After(s, Reached(e.delivery, s.files, o.files),
            if e.delivery == Answered && o.reply.FailureStatement? then ScanFinalizeZero(s.agg.num, s.agg.todo,
                s.agg.resolve) else Idle)
    else if e.CallScanFinalize? && (s.agg.ScanFinalizeZero? || s.agg.ScanFinalize?) then
      var o := FinalizeOutcome(s.files, s.agg.num, if s.agg.ScanFinalize? then s.agg.resolver else ZERO);
      After(s, Reached(e.delivery, s.files, o.files),
            if e.delivery == Answered && o.reply.Finalized? then Scan(s.agg.todo, s.agg.resolve) else Idle)
    else s
  }

  /** A log whose pulses so far are all of the old kind; the host holds nothing. */
  predicate GenesisOk(cfg: Config, genesis: Chain) {
    forall i :: 0 <= i < |genesis| ==>
      genesis[i].Legacy? && genesis[i].num == i + 1 && genesis[i].prevHash == HeadHash(cfg, genesis[..i])
  }

  function Run(cfg: Config, genesis: Chain, events: seq<Event>): State {
    if events == [] then State(genesis, genesis, |genesis|, map[], [], Idle)
    else Apply(cfg, Run(cfg, genesis, events[..|events| - 1]), events[|events| - 1])
  }

  // ---------------------------------------------------------------- the invariant

  /** One pulse after its predecessors: numbered, linked, legal, and naming the commit before it. */
  predicate PulseOk(cfg: Config, chain: Chain, i: nat)
    requires i < |chain|
  {
    var before := chain[..i];
    && chain[i].num == i + 1
    && chain[i].prevHash == HeadHash(cfg, before)
    && match chain[i]
       case Legacy(_, _, _) => i > 0 ==> chain[i - 1].Legacy?
       case Commit(_, _, _, _, _) => !HeadIsCommit(before)
       case Skip(_, _, _) => !HeadIsCommit(before)
       case Reveal(_, _, _, num, hash, commitment, E) =>
         HeadIsCommit(before) && num == i && hash == HeadHash(cfg, before)
         && commitment == Head(before).commitment && cfg.commitOf(E) == commitment
       case Failure(_, _, _, num, hash, commitment) =>
         HeadIsCommit(before) && num == i && hash == HeadHash(cfg, before) && commitment == Head(before).commitment
  }

  predicate ChainOk(cfg: Config, chain: Chain) {
    forall i :: 0 <= i < |chain| ==> PulseOk(cfg, chain, i)
  }

  predicate IsPending(n: Name) {
    n.state == Secret || n.state == Revealing || n.state == Abandoning
  }

  predicate FilesOk(cfg: Config, files: Files) {
    && (forall a, b :: a in files && b in files && IsPending(a) && IsPending(b) ==> a == b)
    && (forall n :: n in files && IsPending(n) ==> files[n].E.Some? && cfg.commitOf(files[n].E.value) == files[n].commitment)
  }

  predicate HoldsAs(files: Files, name: Name, commitment: Digest, target: nat) {
    name in files && files[name].commitment == commitment && files[name].target == target
  }

  /** The secret of this commitment is still held, in one of the three pending states. */
  predicate Held(files: Files, num: nat, commitment: Digest, target: nat) {
    || HoldsAs(files, Name(num, Secret), commitment, target)
    || HoldsAs(files, Name(num, Revealing), commitment, target)
    || HoldsAs(files, Name(num, Abandoning), commitment, target)
  }

  predicate HeadHeld(files: Files, chain: Chain) {
    HeadIsCommit(chain) ==> Held(files, |chain|, Head(chain).commitment, Head(chain).target)
  }

  /** The host will sign no further commit statement for this seq. */
  predicate Blocked(files: Files, num: nat) {
    Name(num, Secret) in files || Refuses(files, num)
  }

  function LastSigned(signed: seq<(nat, Digest)>, num: nat): Option<Digest> {
    if signed == [] then None
    else if signed[|signed| - 1].0 == num then Some(signed[|signed| - 1].1)
    else LastSigned(signed[..|signed| - 1], num)
  }

  predicate CommitsOk(s: State) {
    forall i :: 0 <= i < |s.local| && s.local[i].Commit? ==>
      Blocked(s.files, i + 1) && LastSigned(s.signed, i + 1) == Some(s.local[i].commitment)
  }

  /** No commit pulse stands at this seq. */
  predicate NoCommitAt(chain: Chain, num: nat) {
    1 <= num <= |chain| ==> !chain[num - 1].Commit?
  }

  predicate AggOk(cfg: Config, s: State) {
    match s.agg
    case Idle => true
    case CommitReady(_) => Synced(s) && !HeadIsCommit(s.local)
    case CommitHave(commitment, target) =>
      && Synced(s) && !HeadIsCommit(s.local)
      && HoldsAs(s.files, Name(|s.local| + 1, Secret), commitment, target)
      && LastSigned(s.signed, |s.local| + 1) == Some(commitment)
    case RollbackAsk(num) => num == |s.local| + 1
    case RollbackAbandon(num) => num == |s.local| + 1
    case RollbackFinalize(num) => num == |s.local| + 1
    case RevealReady => Synced(s) && HeadIsCommit(s.local)
    case RevealHave(_) => Synced(s) && HeadIsCommit(s.local)
    case FailReady => Synced(s) && HeadIsCommit(s.local)
    case FailHave => Synced(s) && HeadIsCommit(s.local)
    case FinalizeReady(num, resolver) => Synced(s) && !HeadIsCommit(s.local) && resolver != ZERO
    case Scan(_, _) => Synced(s)
    case ScanAbandon(num, _, _) => Synced(s) && NoCommitAt(s.local, num)
    case ScanFinalizeZero(num, _, _) => Synced(s) && NoCommitAt(s.local, num)
    case ScanFinalize(num, resolver, _, _) => Synced(s) && num < |s.local| && resolver != ZERO
  }

  /** What is not yet at origin: one pulse of any kind, and skips minted while origin was out of reach. */
  predicate UnpushedOk(s: State) {
    && |s.published| <= s.saved <= |s.local|
    && forall i :: |s.published| < i < |s.local| ==> s.local[i].Skip?
  }

  predicate Inv(cfg: Config, s: State) {
    && s.published <= s.local
    && UnpushedOk(s)
    && ChainOk(cfg, s.local)
    && FilesOk(cfg, s.files)
    && HeadHeld(s.files, s.local) && HeadHeld(s.files, s.published)
    && CommitsOk(s)
    && AggOk(cfg, s)
  }

  // ---------------------------------------------------------------- what a host command keeps

  /** Only files of one seq differ. */
  ghost predicate SameElsewhere(before: Files, after: Files, num: nat) {
    forall n: Name :: n.num != num ==> (n in before <==> n in after) && (n in before ==> after[n] == before[n])
  }

  /** A held secret stays held and a blocked seq stays blocked. */
  ghost predicate Keeps(before: Files, after: Files, num: nat) {
    && (Blocked(before, num) ==> Blocked(after, num))
    && forall c, t :: Held(before, num, c, t) ==> Held(after, num, c, t)
  }

  lemma CommitKeeps(cfg: Config, files: Files, num: nat, target: nat, E: Bytes)
    requires FilesOk(cfg, files)
    ensures var o := CommitOutcome(cfg.commitOf, files, num, target, E);
            && FilesOk(cfg, o.files) && SameElsewhere(files, o.files, num)
            && (o.reply.CommitStatement? ==>
                  !Blocked(files, num) && HoldsAs(o.files, Name(num, Secret), o.reply.commitment, target))
            && (!o.reply.CommitStatement? ==> o.files == files)
  {
    var o := CommitOutcome(cfg.commitOf, files, num, target, E);
    if o.reply.CommitStatement? {
      assert forall n :: n in files && IsPending(n) ==> n in Pending(files);
    }
  }

  lemma MoveKeeps(cfg: Config, files: Files, num: nat, st: FileState, to: FileState)
    requires FilesOk(cfg, files) && Name(num, st) in files && IsPending(Name(num, st))
    requires to == Revealing || to == Abandoning
    ensures var after := Rename(files, Name(num, st), Name(num, to));
            FilesOk(cfg, after) && SameElsewhere(files, after, num) && Keeps(files, after, num)
  {
  }

  lemma RevealKeeps(cfg: Config, files: Files, num: nat, commitHash: Digest, released: Option<nat>)
    requires FilesOk(cfg, files)
    ensures var o := RevealOutcome(cfg.commitOf, files, num, commitHash, released);
            FilesOk(cfg, o.files) && SameElsewhere(files, o.files, num) && Keeps(files, o.files, num)
  {
    hide FilesOk, Keeps, SameElsewhere, Rename;
    NothingMoved(files, num);
    var found := Find(files, num, [Secret, Revealing]);
    if found.Some? { MoveKeeps(cfg, files, num, found.value, Revealing); }
  }

  lemma AbandonKeeps(cfg: Config, files: Files, num: nat, commitHash: Digest)
    requires FilesOk(cfg, files)
    ensures var o := AbandonOutcome(files, num, commitHash);
            FilesOk(cfg, o.files) && SameElsewhere(files, o.files, num) && Keeps(files, o.files, num)
  {
    hide FilesOk, Keeps, SameElsewhere, Rename;
    NothingMoved(files, num);
    var found := Find(files, num, [Secret, Revealing, Abandoning]);
    if found.Some? { MoveKeeps(cfg, files, num, found.value, Abandoning); }
  }

  lemma NothingMoved(files: Files, num: nat)
    ensures SameElsewhere(files, files, num) && Keeps(files, files, num)
  {
  }

  /** Finalizing against a real pulse hash keeps the seq blocked. */
  lemma FinalizeKeeps(cfg: Config, files: Files, num: nat, resolver: Digest)
    requires FilesOk(cfg, files)
    ensures var o := FinalizeOutcome(files, num, resolver);
            FilesOk(cfg, o.files) && SameElsewhere(files, o.files, num)
            && (resolver != ZERO && Blocked(files, num) ==> Blocked(o.files, num))
  {
    var found := Find(files, num, [Revealing, Abandoning, Revealed, Abandoned]);
    if found.Some? && (found.value == Revealing || found.value == Abandoning) {
      assert IsPending(Name(num, found.value));
      FinalizeMoveKeeps(cfg, files, num, found.value, resolver);
    }
  }

  lemma FinalizeMoveKeeps(cfg: Config, files: Files, num: nat, st: FileState, resolver: Digest)
    requires FilesOk(cfg, files) && Name(num, st) in files && (st == Revealing || st == Abandoning)
    ensures var rec := files[Name(num, st)];
            var after := (files - {Name(num, st)})[FinalName(num, st) := Record(rec.commitment, None, rec.target, Some(resolver))];
            FilesOk(cfg, after) && SameElsewhere(files, after, num)
            && (resolver != ZERO && Blocked(files, num) ==> Blocked(after, num))
  {
  }

  // ---------------------------------------------------------------- what an event keeps

  /** Other seqs do not notice. */
  lemma Elsewhere(before: Files, after: Files, num: nat, other: nat, c: Digest, t: nat)
    requires SameElsewhere(before, after, num) && other != num
    ensures Blocked(before, other) <==> Blocked(after, other)
    ensures Held(before, other, c, t) <==> Held(after, other, c, t)
  {
    assert forall st :: Name(other, st).num != num;
  }

  /** A host command on seq num keeps the invariant if it keeps what the chain needs of num. */
  lemma FilesMove(cfg: Config, s: State, files: Files, num: nat, agg: AggState)
    requires Inv(cfg, s) && FilesOk(cfg, files) && SameElsewhere(s.files, files, num)
    requires NoCommitAt(s.local, num) || Keeps(s.files, files, num)
             || ((Blocked(s.files, num) ==> Blocked(files, num)) && num != |s.local| && num != |s.published|)
    requires AggOk(cfg, After(s, files, agg))
    ensures Inv(cfg, After(s, files, agg))
  {
    hide ChainOk, FilesOk, SameElsewhere, Held, Blocked, AggOk;
    var s' := After(s, files, agg);
    forall i | 0 <= i < |s.local| && s.local[i].Commit? ensures Blocked(files, i + 1) {
      if i + 1 != num { Elsewhere(s.files, files, num, i + 1, ZERO, 0); }
    }
    HeadStaysHeld(s, files, num, s.local);
    HeadStaysHeld(s, files, num, s.published);
  }

  lemma HeadStaysHeld(s: State, files: Files, num: nat, chain: Chain)
    requires s.published <= s.local && (chain == s.local || chain == s.published)
    requires HeadHeld(s.files, chain) && SameElsewhere(s.files, files, num)
    requires NoCommitAt(s.local, num) || Keeps(s.files, files, num) || num != |chain|
    ensures HeadHeld(files, chain)
  {
    hide SameElsewhere, Held, Blocked;
    if HeadIsCommit(chain) {
      if |chain| != num {
        Elsewhere(s.files, files, num, |chain|, Head(chain).commitment, Head(chain).target);
      } else {
        assert s.local[num - 1] == Head(chain);
      }
    }
  }

  lemma ChainAppend(cfg: Config, chain: Chain, core: Core)
    requires ChainOk(cfg, chain) && PulseOk(cfg, chain + [core], |chain|)
    ensures ChainOk(cfg, chain + [core])
  {
    hide PulseOk;
    forall i | 0 <= i < |chain| ensures PulseOk(cfg, chain + [core], i) { PulsePrefix(cfg, chain, core, i); }
  }

  lemma PulsePrefix(cfg: Config, chain: Chain, core: Core, i: nat)
    requires i < |chain| && PulseOk(cfg, chain, i)
    ensures PulseOk(cfg, chain + [core], i)
  {
    assert (chain + [core])[..i] == chain[..i];
  }

  lemma ChainPrefix(cfg: Config, chain: Chain, prefix: Chain)
    requires ChainOk(cfg, chain) && prefix <= chain
    ensures ChainOk(cfg, prefix)
  {
    forall i | 0 <= i < |prefix| ensures PulseOk(cfg, prefix, i) {
      assert PulseOk(cfg, chain, i) && prefix[..i] == chain[..i];
    }
  }

  /** Minting a pulse that is not a commit. */
  lemma MintKeeps(cfg: Config, s: State, core: Core)
    requires Inv(cfg, s) && !core.Commit? && PulseOk(cfg, s.local + [core], |s.local|) && (core.Skip? || Synced(s))
    ensures Inv(cfg, s.(local := s.local + [core], agg := Idle))
  {
    hide ChainOk, PulseOk, FilesOk, Held, Blocked, LastSigned;
    ChainAppend(cfg, s.local, core);
    var s' := s.(local := s.local + [core], agg := Idle);
    forall i | 0 <= i < |s'.local| && s'.local[i].Commit?
      ensures Blocked(s.files, i + 1) && LastSigned(s.signed, i + 1) == Some(s'.local[i].commitment)
    {
      assert s'.local[i] == s.local[i];
    }
  }

  lemma SealCommitKeeps(cfg: Config, s: State, rest: string)
    requires Inv(cfg, s) && s.agg.CommitHave?
    ensures Inv(cfg, ApplyCommit(cfg, s, SealCommit(rest)))
  {
    hide ChainOk, PulseOk, FilesOk, LastSigned;
    var core := Commit(|s.local| + 1, HeadHash(cfg, s.local), rest, s.agg.commitment, s.agg.target);
    CommitPulseOk(cfg, s.local, rest, s.agg.commitment, s.agg.target);
    ChainAppend(cfg, s.local, core);
    var s' := s.(local := s.local + [core], agg := Idle);
    forall i | 0 <= i < |s'.local| && s'.local[i].Commit?
      ensures Blocked(s.files, i + 1) && LastSigned(s.signed, i + 1) == Some(s'.local[i].commitment)
    {
      if i < |s.local| { assert s'.local[i] == s.local[i]; }
    }
  }

  lemma CommitPulseOk(cfg: Config, chain: Chain, rest: string, commitment: Digest, target: nat)
    requires !HeadIsCommit(chain)
    ensures PulseOk(cfg, chain + [Commit(|chain| + 1, HeadHash(cfg, chain), rest, commitment, target)], |chain|)
  {
    assert (chain + [Commit(|chain| + 1, HeadHash(cfg, chain), rest, commitment, target)])[..|chain|] == chain;
  }

  lemma SkipPulseOk(cfg: Config, chain: Chain, rest: string)
    requires !HeadIsCommit(chain)
    ensures PulseOk(cfg, chain + [Skip(|chain| + 1, HeadHash(cfg, chain), rest)], |chain|)
  {
    assert (chain + [Skip(|chain| + 1, HeadHash(cfg, chain), rest)])[..|chain|] == chain;
  }

  lemma RevealPulseOk(cfg: Config, chain: Chain, rest: string, E: Bytes)
    requires HeadIsCommit(chain) && cfg.commitOf(E) == Head(chain).commitment
    ensures PulseOk(cfg, chain + [Reveal(|chain| + 1, HeadHash(cfg, chain), rest, |chain|, HeadHash(cfg, chain),
        Head(chain).commitment, E)], |chain|)
  {
    assert (chain + [Reveal(|chain| + 1, HeadHash(cfg, chain), rest, |chain|, HeadHash(cfg, chain),
        Head(chain).commitment, E)])[..|chain|] == chain;
  }

  lemma FailurePulseOk(cfg: Config, chain: Chain, rest: string)
    requires HeadIsCommit(chain)
    ensures PulseOk(cfg, chain + [Failure(|chain| + 1, HeadHash(cfg, chain), rest, |chain|, HeadHash(cfg, chain),
        Head(chain).commitment)], |chain|)
  {
    assert (chain + [Failure(|chain| + 1, HeadHash(cfg, chain), rest, |chain|, HeadHash(cfg, chain),
        Head(chain).commitment)])[..|chain|] == chain;
  }

  /** Changing only what the aggregator remembers. */
  lemma RememberKeeps(cfg: Config, s: State, agg: AggState)
    requires Inv(cfg, s) && AggOk(cfg, s.(agg := agg))
    ensures Inv(cfg, s.(agg := agg))
  {
    hide ChainOk, FilesOk, Held, Blocked, AggOk;
  }

  lemma {:induction false} LastSignedAppend(signed: seq<(nat, Digest)>, num: nat, c: Digest, other: nat)
    ensures LastSigned(signed + [(num, c)], other) == if other == num then Some(c) else LastSigned(signed, other)
  {
    assert (signed + [(num, c)])[..|signed|] == signed;
  }

  /** The host signs a new commitment for the seq after the head. */
  lemma CallCommitKeeps(cfg: Config, s: State, e: Event)
    requires Inv(cfg, s) && e.CallCommit? && s.agg.CommitReady?
    ensures Inv(cfg, ApplyCommit(cfg, s, e))
  {
    hide ChainOk, FilesOk, Blocked, LastSigned, CommitOutcome, SameElsewhere;
    var num := |s.local| + 1;
    var o := CommitOutcome(cfg.commitOf, s.files, num, s.agg.target, e.E);
    CommitKeeps(cfg, s.files, num, s.agg.target, e.E);
    if e.delivery == NotReached || !o.reply.CommitStatement? {
      RememberKeeps(cfg, s, RollbackAsk(num));
    } else {
      SignedKeeps(cfg, s, o.files, o.reply.commitment,
                  if e.delivery == Answered then CommitHave(o.reply.commitment, s.agg.target) else RollbackAsk(num));
    }
  }

  lemma SignedKeeps(cfg: Config, s: State, files: Files, commitment: Digest, agg: AggState)
    requires Inv(cfg, s) && s.agg.CommitReady? && FilesOk(cfg, files) && SameElsewhere(s.files, files, |s.local| + 1)
    requires HoldsAs(files, Name(|s.local| + 1, Secret), commitment, s.agg.target)
    requires agg == CommitHave(commitment, s.agg.target) || agg == RollbackAsk(|s.local| + 1)
    ensures Inv(cfg, s.(files := files, signed := s.signed + [(|s.local| + 1, commitment)], agg := agg))
  {
    hide ChainOk, FilesOk, Blocked, LastSigned, SameElsewhere, Held, HoldsAs;
    var num := |s.local| + 1;
    var s' := s.(files := files, signed := s.signed + [(num, commitment)], agg := agg);
    forall i | 0 <= i < |s.local| && s.local[i].Commit?
      ensures Blocked(files, i + 1) && LastSigned(s'.signed, i + 1) == Some(s.local[i].commitment)
    {
      Elsewhere(s.files, files, num, i + 1, ZERO, 0);
      LastSignedAppend(s.signed, num, commitment, i + 1);
    }
    LastSignedAppend(s.signed, num, commitment, num);
    HeadStaysHeld(s, files, num, s.local);
    HeadStaysHeld(s, files, num, s.published);
  }

  lemma CommitEventKeeps(cfg: Config, s: State, e: Event)
    requires Inv(cfg, s)
    ensures Inv(cfg, ApplyCommit(cfg, s, e))
  {
    hide ChainOk, FilesOk, Held, Blocked, LastSigned, CommitsOk, CommitOutcome, HeadHeld;
    if e.StartCommit? && s.agg.Idle? && Synced(s) && !HeadIsCommit(s.local) && CommitInTime(e.now, e.target) {
      RememberKeeps(cfg, s, CommitReady(e.target));
    } else if e.CallCommit? && s.agg.CommitReady? {
      CallCommitKeeps(cfg, s, e);
    } else if e.RefuseCommit? && (s.agg.CommitReady? || s.agg.CommitHave?) {
      RememberKeeps(cfg, s, RollbackAsk(|s.local| + 1));
    } else if e.SealCommit? && s.agg.CommitHave? {
      SealCommitKeeps(cfg, s, e.rest);
    }
  }

  lemma RollbackEventKeeps(cfg: Config, s: State, e: Event)
    requires Inv(cfg, s)
    ensures Inv(cfg, ApplyRollback(s, e))
  {
    hide ChainOk, FilesOk, Held, Blocked, CommitsOk, HeadHeld, AbandonOutcome, FinalizeOutcome, SameElsewhere, Keeps;
    var s' := ApplyRollback(s, e);
    if e.CallRollbackPending? && s.agg.RollbackAsk? {
      RememberKeeps(cfg, s, s'.agg);
    } else if e.CallRollbackAbandon? && s.agg.RollbackAbandon? {
      AbandonKeeps(cfg, s.files, s.agg.num, ZERO);
      NothingMoved(s.files, s.agg.num);
      FilesMove(cfg, s, s'.files, s.agg.num, s'.agg);
    } else if e.CallRollbackFinalize? && s.agg.RollbackFinalize? {
      FinalizeKeeps(cfg, s.files, s.agg.num, ZERO);
      NothingMoved(s.files, s.agg.num);
      FilesMove(cfg, s, s'.files, s.agg.num, Idle);
    }
  }

  lemma RevealEventKeeps(cfg: Config, s: State, e: Event)
    requires Inv(cfg, s)
    ensures Inv(cfg, ApplyReveal(cfg, s, e))
  {
    hide ChainOk, FilesOk, Held, Blocked, CommitsOk, HeadHeld, RevealOutcome, SameElsewhere, Keeps, PulseOk;
    var s' := ApplyReveal(cfg, s, e);
    if e.StartReveal? && s.agg.Idle? && Synced(s) && HeadIsCommit(s.local) && RevealInTime(e.now, e.latest, Head(s.local).target) {
      RememberKeeps(cfg, s, RevealReady);
    } else if e.CallReveal? && s.agg.RevealReady? && HeadIsCommit(s.local) {
      RevealKeeps(cfg, s.files, |s.local|, HeadHash(cfg, s.local), e.released);
      NothingMoved(s.files, |s.local|);
      FilesMove(cfg, s, s'.files, |s.local|, s'.agg);
    } else if e.SealReveal? && s.agg.RevealHave? && HeadIsCommit(s.local) {
      if cfg.commitOf(s.agg.E) != Head(s.local).commitment {
        RememberKeeps(cfg, s, Idle);
      } else {
        RevealPulseOk(cfg, s.local, e.rest, s.agg.E);
        MintKeeps(cfg, s, Reveal(|s.local| + 1, HeadHash(cfg, s.local), e.rest, |s.local|, HeadHash(cfg, s.local),
            Head(s.local).commitment, s.agg.E));
      }
    }
  }

  lemma FailEventKeeps(cfg: Config, s: State, e: Event)
    requires Inv(cfg, s)
    ensures Inv(cfg, ApplyFail(cfg, s, e))
  {
    hide ChainOk, FilesOk, Held, Blocked, CommitsOk, HeadHeld, AbandonOutcome, SameElsewhere, Keeps, PulseOk;
    var s' := ApplyFail(cfg, s, e);
    if e.StartFail? && s.agg.Idle? && Synced(s) && HeadIsCommit(s.local) {
      RememberKeeps(cfg, s, FailReady);
    } else if e.CallAbandon? && s.agg.FailReady? {
      AbandonKeeps(cfg, s.files, |s.local|, HeadHash(cfg, s.local));
      NothingMoved(s.files, |s.local|);
      FilesMove(cfg, s, s'.files, |s.local|, s'.agg);
    } else if e.SealFailure? && s.agg.FailHave? && HeadIsCommit(s.local) {
      FailurePulseOk(cfg, s.local, e.rest);
      MintKeeps(cfg, s, Failure(|s.local| + 1, HeadHash(cfg, s.local), e.rest, |s.local|, HeadHash(cfg, s.local),
          Head(s.local).commitment));
    }
  }

  lemma FinalizeEventKeeps(cfg: Config, s: State, e: Event)
    requires Inv(cfg, s) && NoZeroHash(cfg)
    ensures Inv(cfg, ApplyFinalize(cfg, s, e))
  {
    hide ChainOk, FilesOk, Held, Blocked, CommitsOk, FinalizeOutcome, SameElsewhere, Keeps;
    var s' := ApplyFinalize(cfg, s, e);
    if e.StartFinalize? && s.agg.Idle? && Synced(s) && HeadIsResolver(s.local) {
      RememberKeeps(cfg, s, s'.agg);
    } else if e.CallFinalize? && s.agg.FinalizeReady? {
      FinalizeKeeps(cfg, s.files, s.agg.num, s.agg.resolver);
      NothingMoved(s.files, s.agg.num);
      FinalizeMoves(cfg, s, s'.files, s.agg.num);
    }
  }

  /** With no commit at either head, finalizing any seq against a pulse hash is harmless. */
  lemma FinalizeMoves(cfg: Config, s: State, files: Files, num: nat)
    requires Inv(cfg, s) && FilesOk(cfg, files) && SameElsewhere(s.files, files, num)
    requires Blocked(s.files, num) ==> Blocked(files, num)
    requires !HeadIsCommit(s.local) && Synced(s)
    ensures Inv(cfg, After(s, files, Idle))
  {
    hide ChainOk, FilesOk, SameElsewhere, Held, Blocked, LastSigned;
    forall i | 0 <= i < |s.local| && s.local[i].Commit? ensures Blocked(files, i + 1) {
      if i + 1 != num { Elsewhere(s.files, files, num, i + 1, ZERO, 0); }
    }
  }

  lemma ScanEventKeeps(cfg: Config, s: State, e: Event)
    requires Inv(cfg, s) && NoZeroHash(cfg)
    ensures Inv(cfg, ApplyScan(cfg, s, e))
  {
    hide ChainOk, FilesOk, Held, Blocked, CommitsOk, HeadHeld, FinalizeOutcome, AbandonOutcome, SameElsewhere, Keeps;
    var s' := ApplyScan(cfg, s, e);
    if e.StartScan? && s.agg.Idle? && Synced(s) && (set n | n in e.order) == Pending(s.files) {
      RememberKeeps(cfg, s, Scan(e.order, e.resolve));
    } else if e.ScanNext? && s.agg.Scan? {
      RememberKeeps(cfg, s, s'.agg);
    } else if e.CallScanAbandon? && s.agg.ScanAbandon? {
      AbandonKeeps(cfg, s.files, s.agg.num, ZERO);
      NothingMoved(s.files, s.agg.num);
      FilesMove(cfg, s, s'.files, s.agg.num, s'.agg);
    } else if e.CallScanFinalize? && (s.agg.ScanFinalizeZero? || s.agg.ScanFinalize?) {
      FinalizeKeeps(cfg, s.files, s.agg.num, if s.agg.ScanFinalize? then s.agg.resolver else ZERO);
      NothingMoved(s.files, s.agg.num);
      FilesMove(cfg, s, s'.files, s.agg.num, s'.agg);
    }
  }

  /** The operator resets the checkout to what origin has. */
  lemma ResetKeeps(cfg: Config, s: State)
    requires Inv(cfg, s) && s.agg.Idle?
    ensures Inv(cfg, s.(local := s.published, saved := |s.published|))
  {
    hide ChainOk, FilesOk, Held, Blocked, LastSigned, PulseOk;
    ChainPrefix(cfg, s.local, s.published);
    var s' := s.(local := s.published, saved := |s.published|);
    forall i | 0 <= i < |s'.local| && s'.local[i].Commit?
      ensures Blocked(s.files, i + 1) && LastSigned(s.signed, i + 1) == Some(s'.local[i].commitment)
    {
      assert s'.local[i] == s.local[i];
    }
  }

  lemma SkipKeeps(cfg: Config, s: State, rest: string)
    requires Inv(cfg, s) && s.agg.Idle? && !HeadIsCommit(s.local)
    ensures Inv(cfg, s.(local := s.local + [Skip(|s.local| + 1, HeadHash(cfg, s.local), rest)]))
  {
    hide Inv, PulseOk;
    SkipPulseOk(cfg, s.local, rest);
    MintKeeps(cfg, s, Skip(|s.local| + 1, HeadHash(cfg, s.local), rest));
  }

  lemma OtherEventKeeps(cfg: Config, s: State, e: Event)
    requires Inv(cfg, s) && (e.Crash? || e.Publish? || e.PushFails? || e.ByHand? || e.MintSkip?)
    ensures Inv(cfg, Apply(cfg, s, e))
  {
    hide ChainOk, FilesOk, Held, Blocked, LastSigned, PulseOk;
    if e.ByHand? && !e.push && s.agg.Idle? {
      ResetKeeps(cfg, s);
    } else if e.MintSkip? && s.agg.Idle? && (e.offline || Synced(s)) && !HeadIsCommit(s.local) {
      SkipKeeps(cfg, s, e.rest);
    }
  }

  lemma ApplyKeeps(cfg: Config, s: State, e: Event)
    requires Inv(cfg, s) && NoZeroHash(cfg)
    ensures Inv(cfg, Apply(cfg, s, e))
  {
    hide Inv, NoZeroHash, ApplyCommit, ApplyRollback, ApplyReveal, ApplyFail, ApplyFinalize, ApplyScan;
    CommitEventKeeps(cfg, s, e);
    RollbackEventKeeps(cfg, s, e);
    RevealEventKeeps(cfg, s, e);
    FailEventKeeps(cfg, s, e);
    FinalizeEventKeeps(cfg, s, e);
    ScanEventKeeps(cfg, s, e);
    if e.Crash? || e.Publish? || e.PushFails? || e.ByHand? || e.MintSkip? { OtherEventKeeps(cfg, s, e); }
  }

  lemma GenesisKeeps(cfg: Config, genesis: Chain)
    requires GenesisOk(cfg, genesis)
    ensures Inv(cfg, State(genesis, genesis, |genesis|, map[], [], Idle))
  {
    forall i | 0 <= i < |genesis| ensures PulseOk(cfg, genesis, i) { }
  }

  /** The invariant holds in every state of every run. */
  lemma {:induction false} RunKeeps(cfg: Config, genesis: Chain, events: seq<Event>)
    requires GenesisOk(cfg, genesis) && NoZeroHash(cfg)
    ensures Inv(cfg, Run(cfg, genesis, events))
    decreases |events|
  {
    hide Inv, Apply, NoZeroHash;
    if events == [] {
      GenesisKeeps(cfg, genesis);
    } else {
      RunKeeps(cfg, genesis, events[..|events| - 1]);
      ApplyKeeps(cfg, Run(cfg, genesis, events[..|events| - 1]), events[|events| - 1]);
    }
  }
}
