/**
  What the host's files say over whole runs: an E exists exactly while its commit is pending, and
  a finalized record names the pulse that resolved its commit and the way it did.
 */
module CustodyRecords {
  import opened Hashing
  import opened EntropyHost
  import opened Custody
  import opened CustodyRuns

  /** A published pulse resolves the seq, in the way the record of it says, and is the one recorded. */
  predicate NamesResolver(cfg: Config, chain: Chain, n: Name, resolver: Digest) {
    && n.num < |chain| && resolver == cfg.hashOf(chain[n.num])
    && (if n.state == Revealed then chain[n.num].Reveal? else chain[n.num].Failure?)
    && chain[n.num].commitNum == n.num
  }

  /** A finalized record holds no E, and a resolver: the zero hash or a published pulse. */
  ghost predicate RecordsOk(cfg: Config, files: Files, chain: Chain) {
    forall n :: n in files && !IsPending(n) ==>
      && files[n].E.None? && files[n].resolver.Some?
      && (files[n].resolver.value == ZERO || NamesResolver(cfg, chain, n, files[n].resolver.value))
  }

  /** The seq of a reveal is not being abandoned, that of a failure not held or being revealed. */
  ghost predicate KindsOk(files: Files, chain: Chain) {
    forall i :: 0 <= i < |chain| ==>
      && (chain[i].Reveal? ==> Name(i, Abandoning) !in files)
      && (chain[i].Failure? ==> Name(i, Revealing) !in files)
  }

  /** What the command under way knows of the host's files and of the chain. */
  ghost predicate AggKnows(cfg: Config, s: State) {
    match s.agg
    case RevealHave(_) => Name(|s.local|, Revealing) in s.files
    case FailHave => Name(|s.local|, Abandoning) in s.files
    case FinalizeReady(num, resolver) => HasResolver(s.published, num) && resolver == cfg.hashOf(s.published[num])
    case ScanFinalize(num, resolver, _, _) => HasResolver(s.published, num) && resolver == cfg.hashOf(s.published[num])
    case ScanAbandon(num, _, _) => num >= |s.local|
    case _ => true
  }

  ghost predicate Told(cfg: Config, s: State) {
    RecordsOk(cfg, s.files, s.published) && KindsOk(s.files, s.local) && AggKnows(cfg, s)
  }

  // ---------------------------------------------------------------- what a host command keeps

  lemma RecordsGrow(cfg: Config, files: Files, chain: Chain, longer: Chain)
    requires RecordsOk(cfg, files, chain) && chain <= longer
    ensures RecordsOk(cfg, files, longer)
  {
    assert forall i :: 0 <= i < |chain| ==> chain[i] == longer[i];
  }

  /** A command that only creates or renames pending files of a seq beyond the chain. */
  lemma PendingMoves(cfg: Config, before: Files, after: Files, chain: Chain, local: Chain, num: nat)
    requires RecordsOk(cfg, before, chain) && KindsOk(before, local) && SameElsewhere(before, after, num) && num >= |local|
    requires forall n :: n in after && !IsPending(n) ==> n in before && after[n] == before[n]
    ensures RecordsOk(cfg, after, chain) && KindsOk(after, local)
  {
    hide NamesResolver;
    forall i, st | 0 <= i < |local| ensures Name(i, st) in after <==> Name(i, st) in before {
      assert Name(i, st).num != num;
    }
  }

  lemma CommitMoves(cfg: Config, files: Files, num: nat, target: nat, E: Bytes)
    ensures var after := CommitOutcome(cfg.commitOf, files, num, target, E).files;
            SameElsewhere(files, after, num) && forall n :: n in after && !IsPending(n) ==> n in files && after[n] == files[n]
  {
    hide Refuses;
  }

  lemma RenameMoves(files: Files, num: nat, st: FileState, to: FileState)
    requires Name(num, st) in files && IsPending(Name(num, to))
    ensures var after := Rename(files, Name(num, st), Name(num, to));
            && SameElsewhere(files, after, num) && Name(num, to) in after
            && forall n :: n in after && !IsPending(n) ==> n in files && after[n] == files[n]
  {
  }

  lemma RevealMoves(cfg: Config, files: Files, num: nat, hash: Digest, released: Option<nat>)
    ensures var o := RevealOutcome(cfg.commitOf, files, num, hash, released);
            && SameElsewhere(files, o.files, num)
            && (forall n :: n in o.files && !IsPending(n) ==> n in files && o.files[n] == files[n])
            && (o.reply.RevealStatement? ==> Name(num, Revealing) in o.files)
  {
    hide Rename, SameElsewhere;
    NothingMoved(files, num);
    var found := Find(files, num, [Secret, Revealing]);
    if found.Some? { RenameMoves(files, num, found.value, Revealing); }
  }

  lemma AbandonMoves(files: Files, num: nat, hash: Digest)
    ensures var o := AbandonOutcome(files, num, hash);
            && SameElsewhere(files, o.files, num)
            && (forall n :: n in o.files && !IsPending(n) ==> n in files && o.files[n] == files[n])
            && (o.reply.FailureStatement? ==> Name(num, Abandoning) in o.files)
  {
    hide Rename, SameElsewhere;
    NothingMoved(files, num);
    var found := Find(files, num, [Secret, Revealing, Abandoning]);
    if found.Some? { RenameMoves(files, num, found.value, Abandoning); }
  }

  /** Finalizing against the zero hash, or against the published pulse that resolves the seq. */
  lemma FinalizeTells(cfg: Config, files: Files, chain: Chain, local: Chain, num: nat, resolver: Digest)
    requires RecordsOk(cfg, files, chain) && KindsOk(files, local) && chain <= local
    requires resolver == ZERO || (HasResolver(chain, num) && resolver == cfg.hashOf(chain[num]))
    ensures var after := FinalizeOutcome(files, num, resolver).files;
            RecordsOk(cfg, after, chain) && KindsOk(after, local)
  {
    var found := Find(files, num, [Revealing, Abandoning, Revealed, Abandoned]);
    assert num < |chain| ==> chain[num] == local[num];
  }

  lemma KindsAppend(files: Files, chain: Chain, core: Core)
    requires KindsOk(files, chain)
    requires core.Reveal? ==> Name(|chain|, Abandoning) !in files
    requires core.Failure? ==> Name(|chain|, Revealing) !in files
    ensures KindsOk(files, chain + [core])
  {
    forall i | 0 <= i < |chain| + 1
      ensures (chain + [core])[i].Reveal? ==> Name(i, Abandoning) !in files
      ensures (chain + [core])[i].Failure? ==> Name(i, Revealing) !in files
    {
      if i < |chain| { assert (chain + [core])[i] == chain[i]; }
    }
  }

  lemma KindsPrefix(files: Files, chain: Chain, prefix: Chain)
    requires KindsOk(files, chain) && prefix <= chain
    ensures KindsOk(files, prefix)
  {
    assert forall i :: 0 <= i < |prefix| ==> prefix[i] == chain[i];
  }

  // ---------------------------------------------------------------- every event keeps it

  lemma CommitStep(cfg: Config, s: State, e: Event)
    requires Inv(cfg, s) && Told(cfg, s)
    ensures Told(cfg, ApplyCommit(cfg, s, e))
  {
    hide RecordsOk, KindsOk, CommitOutcome, SameElsewhere, ChainOk, CommitsOk, FilesOk, HeadHeld, NamesResolver, CommitInTime;
    if e.CallCommit? && s.agg.CommitReady? {
      CommitMoves(cfg, s.files, |s.local| + 1, s.agg.target, e.E);
      PendingMoves(cfg, s.files, CommitOutcome(cfg.commitOf, s.files, |s.local| + 1, s.agg.target, e.E).files, s.published,
          s.local, |s.local| + 1);
    } else if e.SealCommit? && s.agg.CommitHave? {
      KindsAppend(s.files, s.local, Commit(|s.local| + 1, HeadHash(cfg, s.local), e.rest, s.agg.commitment, s.agg.target));
    }
  }

  lemma RollbackStep(cfg: Config, s: State, e: Event)
    requires Inv(cfg, s) && Told(cfg, s)
    ensures Told(cfg, ApplyRollback(s, e))
  {
    hide RecordsOk, KindsOk, AbandonOutcome, FinalizeOutcome, SameElsewhere, ChainOk, CommitsOk, FilesOk, HeadHeld, HasResolver;
    if e.CallRollbackAbandon? && s.agg.RollbackAbandon? {
      AbandonMoves(s.files, s.agg.num, ZERO);
      PendingMoves(cfg, s.files, AbandonOutcome(s.files, s.agg.num, ZERO).files, s.published, s.local, s.agg.num);
    } else if e.CallRollbackFinalize? && s.agg.RollbackFinalize? {
      FinalizeTells(cfg, s.files, s.published, s.local, s.agg.num, ZERO);
    }
  }

  lemma RevealStep(cfg: Config, s: State, e: Event)
    requires Inv(cfg, s) && Told(cfg, s)
    ensures Told(cfg, ApplyReveal(cfg, s, e))
  {
    hide RecordsOk, KindsOk, RevealOutcome, SameElsewhere, ChainOk, CommitsOk, HeadHeld, RevealInTime;
    if e.CallReveal? && s.agg.RevealReady? && HeadIsCommit(s.local) {
      var o := RevealOutcome(cfg.commitOf, s.files, |s.local|, HeadHash(cfg, s.local), e.released);
      RevealMoves(cfg, s.files, |s.local|, HeadHash(cfg, s.local), e.released);
      PendingMoves(cfg, s.files, o.files, s.published, s.local, |s.local|);
    } else if e.SealReveal? && s.agg.RevealHave? && HeadIsCommit(s.local) {
      OnlyOne(cfg, s.files, |s.local|);
      KindsAppend(s.files, s.local, Reveal(|s.local| + 1, HeadHash(cfg, s.local), e.rest, |s.local|, HeadHash(cfg, s.local),
          Head(s.local).commitment, s.agg.E));
    }
  }

  lemma OnlyOne(cfg: Config, files: Files, num: nat)
    requires FilesOk(cfg, files)
    ensures !(Name(num, Revealing) in files && Name(num, Abandoning) in files)
  {
    assert IsPending(Name(num, Revealing)) && IsPending(Name(num, Abandoning));
  }

  lemma FailStep(cfg: Config, s: State, e: Event)
    requires Inv(cfg, s) && Told(cfg, s)
    ensures Told(cfg, ApplyFail(cfg, s, e))
  {
    hide RecordsOk, KindsOk, AbandonOutcome, SameElsewhere, ChainOk, CommitsOk, HeadHeld;
    if e.CallAbandon? && s.agg.FailReady? {
      AbandonMoves(s.files, |s.local|, HeadHash(cfg, s.local));
      PendingMoves(cfg, s.files, AbandonOutcome(s.files, |s.local|, HeadHash(cfg, s.local)).files, s.published, s.local, |s.local|);
    } else if e.SealFailure? && s.agg.FailHave? && HeadIsCommit(s.local) {
      OnlyOne(cfg, s.files, |s.local|);
      KindsAppend(s.files, s.local, Failure(|s.local| + 1, HeadHash(cfg, s.local), e.rest, |s.local|, HeadHash(cfg, s.local),
          Head(s.local).commitment));
    }
  }

  lemma FinalizeStep(cfg: Config, s: State, e: Event)
    requires Inv(cfg, s) && Told(cfg, s)
    ensures Told(cfg, ApplyFinalize(cfg, s, e))
  {
    hide RecordsOk, KindsOk, FinalizeOutcome, CommitsOk, HeadHeld, FilesOk, PulseOk;
    if e.StartFinalize? && s.agg.Idle? && Synced(s) && HeadIsResolver(s.local) {
      HeadResolves(cfg, s.local);
    } else if e.CallFinalize? && s.agg.FinalizeReady? {
      FinalizeTells(cfg, s.files, s.published, s.local, s.agg.num, s.agg.resolver);
    }
  }

  lemma HeadResolves(cfg: Config, chain: Chain)
    requires ChainOk(cfg, chain) && HeadIsResolver(chain)
    ensures Head(chain).commitNum == |chain| - 1 && HasResolver(chain, |chain| - 1)
  {
    assert PulseOk(cfg, chain, |chain| - 1);
  }

  lemma ScanStep(cfg: Config, s: State, e: Event)
    requires Inv(cfg, s) && Told(cfg, s)
    ensures Told(cfg, ApplyScan(cfg, s, e))
  {
    hide RecordsOk, KindsOk, AbandonOutcome, FinalizeOutcome, SameElsewhere, ChainOk, CommitsOk, FilesOk, HeadHeld, HasResolver;
    if e.CallScanAbandon? && s.agg.ScanAbandon? {
      AbandonMoves(s.files, s.agg.num, ZERO);
      PendingMoves(cfg, s.files, AbandonOutcome(s.files, s.agg.num, ZERO).files, s.published, s.local, s.agg.num);
    } else if e.CallScanFinalize? && (s.agg.ScanFinalizeZero? || s.agg.ScanFinalize?) {
      FinalizeTells(cfg, s.files, s.published, s.local, s.agg.num, if s.agg.ScanFinalize? then s.agg.resolver else ZERO);
    }
  }

  lemma OtherStep(cfg: Config, s: State, e: Event)
    requires Inv(cfg, s) && Told(cfg, s) && (e.Crash? || e.Publish? || e.PushFails? || e.ByHand? || e.MintSkip?)
    ensures Told(cfg, Apply(cfg, s, e))
  {
    hide RecordsOk, KindsOk, ChainOk, CommitsOk, FilesOk, HeadHeld;
    RecordsGrow(cfg, s.files, s.published, s.local);
    KindsPrefix(s.files, s.local, s.published);
    if e.MintSkip? {
      KindsAppend(s.files, s.local, Skip(|s.local| + 1, HeadHash(cfg, s.local), e.rest));
    }
  }

  lemma StepTells(cfg: Config, s: State, e: Event)
    requires Inv(cfg, s) && Told(cfg, s)
    ensures Told(cfg, Apply(cfg, s, e))
  {
    hide Inv, Told, ApplyCommit, ApplyRollback, ApplyReveal, ApplyFail, ApplyFinalize, ApplyScan;
    CommitStep(cfg, s, e);
    RollbackStep(cfg, s, e);
    RevealStep(cfg, s, e);
    FailStep(cfg, s, e);
    FinalizeStep(cfg, s, e);
    ScanStep(cfg, s, e);
    if e.Crash? || e.Publish? || e.PushFails? || e.ByHand? || e.MintSkip? { OtherStep(cfg, s, e); }
  }

  lemma {:induction false} RunTells(cfg: Config, genesis: Chain, events: seq<Event>)
    requires GenesisOk(cfg, genesis) && NoZeroHash(cfg)
    ensures Told(cfg, Run(cfg, genesis, events))
    decreases |events|
  {
    hide Inv, Apply, NoZeroHash, Told, GenesisOk;
    if events == [] {
      GenesisTells(cfg, genesis);
    } else {
      RunTells(cfg, genesis, events[..|events| - 1]);
      RunKeeps(cfg, genesis, events[..|events| - 1]);
      StepTells(cfg, Run(cfg, genesis, events[..|events| - 1]), events[|events| - 1]);
    }
  }

  lemma GenesisTells(cfg: Config, genesis: Chain)
    requires GenesisOk(cfg, genesis)
    ensures Told(cfg, Run(cfg, genesis, []))
  {
  }

  /**
    In every state of every run a file holds an E exactly while its commit is pending: there for as
    long as it may be asked for, gone from the record once it is finalized.
   */
  lemma EntropyOnlyWhilePending(cfg: Config, genesis: Chain, events: seq<Event>, n: Name)
    requires GenesisOk(cfg, genesis) && NoZeroHash(cfg) && n in Run(cfg, genesis, events).files
    ensures var rec := Run(cfg, genesis, events).files[n];
            && (rec.E.Some? <==> n.state == Secret || n.state == Revealing || n.state == Abandoning)
            && (rec.E.Some? ==> cfg.commitOf(rec.E.value) == rec.commitment)
  {
    hide Run, NoZeroHash, GenesisOk, ChainOk, CommitsOk, AggOk, HeadHeld, KindsOk, AggKnows, NamesResolver;
    RunKeeps(cfg, genesis, events);
    RunTells(cfg, genesis, events);
  }

  /**
    In every state of every run a finalized record either stands for a commit that never entered the
    published chain, or names the published pulse right after its commit: a reveal if the record
    says revealed, a failure if it says abandoned.
   */
  lemma RecordNamesItsResolver(cfg: Config, genesis: Chain, events: seq<Event>, n: Name)
    requires GenesisOk(cfg, genesis) && NoZeroHash(cfg)
    requires n in Run(cfg, genesis, events).files && (n.state == Revealed || n.state == Abandoned)
    ensures var s := Run(cfg, genesis, events);
            && s.files[n].resolver.Some?
            && (s.files[n].resolver.value != ZERO ==>
                  && 1 <= n.num < |s.published| && s.files[n].resolver.value == cfg.hashOf(s.published[n.num])
                  && s.published[n.num - 1].Commit?
                  && (if n.state == Revealed then s.published[n.num].Reveal? else s.published[n.num].Failure?))
  {
    hide Run, NoZeroHash, GenesisOk, ChainOk, CommitsOk, AggOk, HeadHeld, KindsOk, AggKnows, FilesOk;
    RunKeeps(cfg, genesis, events);
    RunTells(cfg, genesis, events);
    var s := Run(cfg, genesis, events);
    ChainPrefix(cfg, s.local, s.published);
    if n.num < |s.published| { ResolvesPrevious(cfg, s.published, n.num); }
  }

  lemma ResolvesPrevious(cfg: Config, chain: Chain, i: nat)
    requires ChainOk(cfg, chain) && i < |chain|
    ensures chain[i].Reveal? || chain[i].Failure? ==> i > 0 && chain[i - 1].Commit?
  {
    assert PulseOk(cfg, chain, i);
    if i > 0 { assert Head(chain[..i]) == chain[i - 1]; }
  }
}
