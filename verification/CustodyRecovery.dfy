/**
  When the next commit can be made, by the program's commands alone and from the checkout as a
  crash leaves it. cmd_recover retires a held secret if its seq never entered
  the chain, or if it has begun to be resolved and its resolver is published; any other leftover
  below the head blocks every later commit, whatever commands follow.
 */
module CustodyRecovery {
  import opened Hashing
  import opened EntropyHost
  import opened Custody
  import opened CustodyRuns
  import opened CustodyProgress

  /** What cmd_recover retires; cmd_abort_unpublished when `resolve` is false. */
  predicate Clears(chain: Chain, n: Name, resolve: bool) {
    Unpublished(chain, n.num) || (resolve && n.state != Secret && HasResolver(chain, n.num))
  }

  // ---------------------------------------------------------------- one scan

  lemma ScanFound(cfg: Config, s: State, n: Name, resolve: bool)
    requires s.agg.Idle? && Synced(s) && Pending(s.files) == {n}
    ensures var t := Apply(cfg, Apply(cfg, s, StartScan([n], resolve)), ScanNext);
            t == s.(agg := if Unpublished(s.local, n.num) then ScanAbandon(n.num, [], resolve)
                           else if Clears(s.local, n, resolve) then ScanFinalize(n.num, cfg.hashOf(s.local[n.num]), [], resolve)
                           else Scan([], resolve))
  {
    assert (set m | m in [n]) == {n} && [n][1..] == [];
  }

  lemma FindOnly(files: Files, n: Name)
    requires Pending(files) == {n}
    ensures n in files
    ensures Find(files, n.num, [Secret, Revealing, Abandoning]) == Some(n.state)
    ensures n.state != Secret ==> Find(files, n.num, [Revealing, Abandoning, Revealed, Abandoned]) == Some(n.state)
  {
    assert n in Pending(files);
    forall st | st == Secret || st == Revealing || st == Abandoning ensures Name(n.num, st) in files <==> st == n.state {
      assert Name(n.num, st) in Pending(files) <==> Name(n.num, st) in files;
    }
  }

  lemma AbandonMoves(files: Files, n: Name, commitHash: Digest)
    requires Pending(files) == {n}
    ensures var o := AbandonOutcome(files, n.num, commitHash);
            o.reply.FailureStatement? && Pending(o.files) == {Name(n.num, Abandoning)}
  {
    FindOnly(files, n);
  }

  lemma FinalizeEmpties(files: Files, n: Name, resolver: Digest)
    requires Pending(files) == {n} && n.state != Secret
    ensures var o := FinalizeOutcome(files, n.num, resolver); o.reply.Finalized? && Pending(o.files) == {}
  {
    FindOnly(files, n);
    var o := FinalizeOutcome(files, n.num, resolver);
    assert forall m :: m in o.files && IsPending(m) ==> m in Pending(files) && m != n;
  }

  /**
    One recover over the held file, every call answered, leaves the host with no secret if and
    only if the file clears; otherwise it touches nothing. The chain never changes.
   */
  lemma RecoverClearsIff(cfg: Config, s: State, n: Name, resolve: bool)
    requires s.agg.Idle? && Synced(s) && Pending(s.files) == {n}
    ensures var after := Steps(cfg, s, CleanSteps(n, resolve));
            && after == s.(files := after.files)
            && (if Clears(s.published, n, resolve) then Pending(after.files) == {} else after.files == s.files)
  {
    hide Steps, AbandonOutcome, FinalizeOutcome, Pending, Unpublished, HasResolver, ApplyCommit, ApplyReveal,
        ApplyFail, ApplyRollback, ApplyFinalize;
    FiveSteps(cfg, s, StartScan([n], resolve), ScanNext, CallScanAbandon(Answered), CallScanFinalize(Answered), ScanNext);
    ScanFound(cfg, s, n, resolve);
    var t := Apply(cfg, Apply(cfg, s, StartScan([n], resolve)), ScanNext);
    var u := Apply(cfg, t, CallScanAbandon(Answered));
    if Unpublished(s.local, n.num) {
      AbandonMoves(s.files, n, ZERO);
      FinalizeEmpties(u.files, Name(n.num, Abandoning), ZERO);
    } else if Clears(s.local, n, resolve) {
      FinalizeEmpties(s.files, n, t.agg.resolver);
    }
  }

  // ---------------------------------------------------------------- the next commit

  /** Only seqs up to `bound` were ever finalized against a pulse. */
  ghost predicate ResolvedUpTo(files: Files, bound: nat) {
    forall n :: n in files && ResolvedPublished(files[n]) ==> n.num <= bound
  }

  lemma RenameUpTo(files: Files, num: nat, st: FileState, to: FileState, bound: nat)
    requires ResolvedUpTo(files, bound) && Name(num, st) in files
    ensures ResolvedUpTo(Rename(files, Name(num, st), Name(num, to)), bound)
  {
    var after := Rename(files, Name(num, st), Name(num, to));
    forall n | n in after && ResolvedPublished(after[n]) ensures n.num <= bound {
      var m := if n == Name(num, to) then Name(num, st) else n;
      assert m in files && ResolvedPublished(files[m]);
    }
  }

  lemma CommandsUpTo(cfg: Config, files: Files, num: nat, target: nat, E: Bytes, commitHash: Digest,
      released: Option<nat>, bound: nat)
    requires ResolvedUpTo(files, bound)
    ensures ResolvedUpTo(CommitOutcome(cfg.commitOf, files, num, target, E).files, bound)
    ensures ResolvedUpTo(RevealOutcome(cfg.commitOf, files, num, commitHash, released).files, bound)
    ensures ResolvedUpTo(AbandonOutcome(files, num, commitHash).files, bound)
  {
    hide Rename, Refuses, Pending;
    var r := Find(files, num, [Secret, Revealing]);
    if r.Some? { RenameUpTo(files, num, r.value, Revealing, bound); }
    var a := Find(files, num, [Secret, Revealing, Abandoning]);
    if a.Some? { RenameUpTo(files, num, a.value, Abandoning, bound); }
  }

  lemma FinalizeUpTo(files: Files, num: nat, resolver: Digest, bound: nat)
    requires ResolvedUpTo(files, bound) && (resolver == ZERO || num <= bound)
    ensures ResolvedUpTo(FinalizeOutcome(files, num, resolver).files, bound)
  {
  }

  /** Only seqs that are already in the published chain were ever finalized against a pulse. */
  ghost predicate ResolvedBehind(s: State) {
    && ResolvedUpTo(s.files, |s.published|)
    && (s.agg.FinalizeReady? ==> s.agg.num <= |s.published|)
  }

  lemma StartFinalizeBehind(cfg: Config, s: State)
    requires Inv(cfg, s) && Synced(s) && HeadIsResolver(s.local)
    ensures Head(s.local).commitNum <= |s.published|
  {
    hide CommitsOk, FilesOk, AggOk, HeadHeld;
    assert PulseOk(cfg, s.local, |s.local| - 1);
  }

  lemma FilesBehind(cfg: Config, s: State, e: Event)
    requires s.agg.ScanFinalize? ==> s.agg.num <= |s.published|
    requires ResolvedBehind(s)
    ensures ResolvedUpTo(Apply(cfg, s, e).files, |s.published|)
  {
    hide ResolvedUpTo, CommitOutcome, RevealOutcome, AbandonOutcome, FinalizeOutcome, HeadIsCommit, HeadIsResolver,
        HeadHash, Unpublished, HasResolver;
    var bound, num := |s.published|, |s.local|;
    match e
    case CallCommit(E, _) => if s.agg.CommitReady? { CommandsUpTo(cfg, s.files, num + 1, s.agg.target, E, ZERO, None, bound); }
    case CallReveal(released, _) => CommandsUpTo(cfg, s.files, num, 0, [], HeadHash(cfg, s.local), released, bound);
    case CallAbandon(_) => CommandsUpTo(cfg, s.files, num, 0, [], HeadHash(cfg, s.local), None, bound);
    case CallRollbackAbandon(_) => if s.agg.RollbackAbandon? { CommandsUpTo(cfg, s.files, s.agg.num, 0, [], ZERO, None, bound); }
    case CallScanAbandon(_) => if s.agg.ScanAbandon? { CommandsUpTo(cfg, s.files, s.agg.num, 0, [], ZERO, None, bound); }
    case CallRollbackFinalize(_) => if s.agg.RollbackFinalize? { FinalizeUpTo(s.files, s.agg.num, ZERO, bound); }
    case CallFinalize(_) => if s.agg.FinalizeReady? { FinalizeUpTo(s.files, s.agg.num, s.agg.resolver, bound); }
    case CallScanFinalize(_) =>
      if s.agg.ScanFinalize? { FinalizeUpTo(s.files, s.agg.num, s.agg.resolver, bound); }
      else if s.agg.ScanFinalizeZero? { FinalizeUpTo(s.files, s.agg.num, ZERO, bound); }
    case _ =>
  }

  lemma UpToGrows(files: Files, bound: nat, more: nat)
    requires ResolvedUpTo(files, bound) && bound <= more
    ensures ResolvedUpTo(files, more)
  {
  }

  lemma ScanFinalizeBehind(cfg: Config, s: State)
    requires Inv(cfg, s)
    ensures s.published <= s.local && (s.agg.ScanFinalize? ==> s.agg.num <= |s.published|)
  {
    hide ChainOk, CommitsOk, FilesOk, HeadHeld;
  }

  lemma BehindKeeps(cfg: Config, s: State, e: Event)
    requires Inv(cfg, s) && ResolvedBehind(s)
    ensures ResolvedBehind(Apply(cfg, s, e))
  {
    hide Inv, ResolvedUpTo, Apply;
    ScanFinalizeBehind(cfg, s);
    PublishedMoves(cfg, s, e);
    FilesBehind(cfg, s, e);
    UpToGrows(Apply(cfg, s, e).files, |s.published|, |Apply(cfg, s, e).published|);
    FinalizeReadyFrom(cfg, s, e);
  }

  lemma FinalizeReadyFrom(cfg: Config, s: State, e: Event)
    requires Inv(cfg, s) && ResolvedBehind(s)
    ensures var s' := Apply(cfg, s, e); s'.agg.FinalizeReady? ==> s'.agg.num <= |s.published|
  {
    hide Inv, ResolvedUpTo, CommitOutcome, RevealOutcome, AbandonOutcome, FinalizeOutcome, Unpublished, HasResolver;
    if e.StartFinalize? && s.agg.Idle? && Synced(s) && HeadIsResolver(s.local) { StartFinalizeBehind(cfg, s); }
  }

  lemma {:induction false} RunResolvedBehind(cfg: Config, genesis: Chain, events: seq<Event>)
    requires GenesisOk(cfg, genesis) && NoZeroHash(cfg)
    ensures ResolvedBehind(Run(cfg, genesis, events))
    decreases |events|
  {
    hide Inv, NoZeroHash, GenesisOk, Apply;
    if events != [] {
      var before, e := events[..|events| - 1], events[|events| - 1];
      RunResolvedBehind(cfg, genesis, before);
      RunKeeps(cfg, genesis, before);
      BehindKeeps(cfg, Run(cfg, genesis, before), e);
    }
  }

  lemma CommitAsked(cfg: Config, s: State, now: int, target: nat, E: Bytes)
    requires CommitInTime(now, target) && s.agg.Idle? && Synced(s) && !HeadIsCommit(s.local)
    requires Pending(s.files) == {} && ResolvedUpTo(s.files, |s.local|)
    ensures var t := Apply(cfg, Apply(cfg, s, StartCommit(now, target)), CallCommit(E, Answered));
            && t.agg == CommitHave(cfg.commitOf(E),
                target) && t.local == s.local && t.published == s.published && t.saved == s.saved
            && t.signed == s.signed + [(|s.local| + 1, cfg.commitOf(E))]
  {
    hide HeadIsCommit, Steps;
    var num := |s.local| + 1;
    forall st | st == Secret || st == Revealing || st == Abandoning ensures Name(num, st) !in s.files {
      assert Name(num, st) !in Pending(s.files);
    }
    assert !Refuses(s.files, num);
  }

  lemma CommitSealed(cfg: Config, t: State, rest: string)
    requires t.agg.CommitHave? && t.saved <= |t.local|
    ensures var u := Apply(cfg, Apply(cfg, t, SealCommit(rest)), Publish);
            && u.published == t.local + [Commit(|t.local| + 1, HeadHash(cfg, t.local), rest, t.agg.commitment, t.agg.target)]
            && u.signed == t.signed
  {
    hide ApplyReveal, ApplyFail, ApplyRollback, ApplyFinalize, ApplyScan;
  }

  lemma CommitsFrom(cfg: Config, s: State, now: int, target: nat, E: Bytes, rest: string)
    requires CommitInTime(now, target) && s.agg.Idle? && Synced(s) && !HeadIsCommit(s.local) && s.saved <= |s.local|
    requires Pending(s.files) == {} && ResolvedUpTo(s.files, |s.local|)
    ensures var u := Steps(cfg, s, CommitSteps(now, target, E, rest));
            && u.published == s.published + [Commit(|s.local| + 1, HeadHash(cfg, s.local), rest, cfg.commitOf(E), target)]
            && u.signed == s.signed + [(|s.local| + 1, cfg.commitOf(E))]
  {
    hide Steps, Apply, ResolvedUpTo, Pending, HeadIsCommit, HeadHash;
    FourSteps(cfg, s, StartCommit(now, target), CallCommit(E, Answered), SealCommit(rest), Publish);
    CommitAsked(cfg, s, now, target, E);
    CommitSealed(cfg, Apply(cfg, Apply(cfg, s, StartCommit(now, target)), CallCommit(E, Answered)), rest);
  }

  // ---------------------------------------------------------------- stranded for good

  /** How long the chain is at least, once the checkout is synced. */
  function Reach(s: State): nat {
    if CanPush(s) then |s.local| else |s.local| + 1
  }

  /** A held file below the head that recover does not clear, now or once the checkout is synced. */
  predicate Leftover(s: State, n: Name) {
    && n.num < Reach(s) && s.published <= s.local && !HeadIsCommit(s.local)
    && !(n.state != Secret && HasResolver(s.local, n.num))
    && (Synced(s) || s.agg.Idle?)
  }

  /** No command in flight that could touch the file. */
  predicate OutOfReach(s: State, n: Name) {
    match s.agg
    case Idle => true
    case CommitReady(_) => true
    case RollbackAsk(num) => num > n.num
    case RollbackAbandon(num) => num > n.num
    case RollbackFinalize(num) => num > n.num
    case FinalizeReady(num, _) => num != n.num || n.state == Secret
    case Scan(_, _) => Synced(s)
    case ScanAbandon(num, _, _) => Synced(s) && num > n.num
    case ScanFinalizeZero(num, _, _) => Synced(s) && num > n.num
    case ScanFinalize(num, _, _, _) => Synced(s) && (num != n.num || n.state == Secret)
    case _ => false
  }

  ghost predicate Stranded(s: State, n: Name) {
    n in Pending(s.files) && Leftover(s, n) && OutOfReach(s, n)
  }

  lemma OthersLeave(cfg: Config, files: Files, num: nat, commitHash: Digest, n: Name)
    requires FilesOk(cfg, files) && n in Pending(files) && num != n.num
    ensures n in Pending(AbandonOutcome(files, num, commitHash).files)
    ensures n in Pending(FinalizeOutcome(files, num, commitHash).files)
  {
    hide FilesOk, Find, FinalName;
    AbandonKeeps(cfg, files, num, commitHash);
    FinalizeKeeps(cfg, files, num, commitHash);
  }

  lemma FinalizeLeaves(cfg: Config, files: Files, num: nat, resolver: Digest, n: Name)
    requires FilesOk(cfg, files) && n in Pending(files) && (num != n.num || n.state == Secret)
    ensures n in Pending(FinalizeOutcome(files, num, resolver).files)
  {
    if num != n.num {
      OthersLeave(cfg, files, num, resolver, n);
    } else {
      FinalizeLeavesSecret(cfg, files, num, resolver, n);
    }
  }

  lemma FinalizeLeavesSecret(cfg: Config, files: Files, num: nat, resolver: Digest, n: Name)
    requires FilesOk(cfg, files) && n in Pending(files) && n.state == Secret && n.num == num
    ensures FinalizeOutcome(files, num, resolver).files == files
  {
    assert IsPending(Name(num, Revealing)) && IsPending(Name(num, Abandoning)) && IsPending(n);
    assert Name(num, Revealing) !in files && Name(num, Abandoning) !in files;
  }

  lemma StrandedFiles(cfg: Config, s: State, e: Event, n: Name)
    requires FilesOk(cfg, s.files) && Stranded(s, n) && !e.ByHand?
    ensures n in Pending(Apply(cfg, s, e).files) && Apply(cfg, s, e).signed == s.signed
  {
    hide FilesOk, Pending, Refuses, RevealOutcome, AbandonOutcome, FinalizeOutcome, Unpublished, HasResolver, HeadHash;
    match e
    case CallRollbackAbandon(_) => if s.agg.RollbackAbandon? { OthersLeave(cfg, s.files, s.agg.num, ZERO, n); }
    case CallRollbackFinalize(_) => if s.agg.RollbackFinalize? { OthersLeave(cfg, s.files, s.agg.num, ZERO, n); }
    case CallScanAbandon(_) => if s.agg.ScanAbandon? { OthersLeave(cfg, s.files, s.agg.num, ZERO, n); }
    case CallScanFinalize(_) =>
      if s.agg.ScanFinalizeZero? { OthersLeave(cfg, s.files, s.agg.num, ZERO, n); }
      else if s.agg.ScanFinalize? { FinalizeLeaves(cfg, s.files, s.agg.num, s.agg.resolver, n); }
    case CallFinalize(_) => if s.agg.FinalizeReady? { FinalizeLeaves(cfg, s.files, s.agg.num, s.agg.resolver, n); }
    case _ =>
  }

  lemma HeadNamesItsCommit(cfg: Config, s: State)
    requires Inv(cfg, s) && HeadIsResolver(s.local)
    ensures Head(s.local).commitNum == |s.local| - 1
  {
    hide CommitsOk, FilesOk, AggOk, HeadHeld;
    assert PulseOk(cfg, s.local, |s.local| - 1);
  }

  lemma LeftoverKeeps(cfg: Config, s: State, e: Event, n: Name)
    requires Leftover(s, n) && OutOfReach(s, n) && Pending(s.files) != {} && !e.ByHand? && s.saved <= |s.local|
    ensures Leftover(Apply(cfg, s, e), n)
  {
    hide Pending, Refuses, Find, CommitOutcome, RevealOutcome, AbandonOutcome, FinalizeOutcome, ApplyScan, Unpublished,
        HeadHash;
    ScanLeavesChain(cfg, s, e);
  }

  lemma OutOfReachKeeps(cfg: Config, s: State, e: Event, n: Name)
    requires n in Pending(s.files) && Leftover(s, n) && OutOfReach(s, n)
    requires HeadIsResolver(s.local) ==> Head(s.local).commitNum == |s.local| - 1
    ensures OutOfReach(Apply(cfg, s, e), n)
  {
    hide Pending, Refuses, Find, RevealOutcome, AbandonOutcome, FinalizeOutcome, HeadHash;
    assert Pending(s.files) != {};
  }

  lemma StrandedKeeps(cfg: Config, s: State, e: Event, n: Name)
    requires Inv(cfg, s) && Stranded(s, n) && !e.ByHand?
    ensures Stranded(Apply(cfg, s, e), n) && Apply(cfg, s, e).signed == s.signed
  {
    hide Inv, Apply, Leftover, OutOfReach, Pending;
    InvFilesOk(cfg, s);
    Linked(cfg, s);
    StrandedFiles(cfg, s, e, n);
    LeftoverKeeps(cfg, s, e, n);
    if HeadIsResolver(s.local) { HeadNamesItsCommit(cfg, s); }
    OutOfReachKeeps(cfg, s, e, n);
  }

  lemma InvFilesOk(cfg: Config, s: State)
    requires Inv(cfg, s)
    ensures FilesOk(cfg, s.files)
  {
  }

  /** From then on no commit statement is signed, whatever commands, losses and crashes follow. */
  lemma {:induction false} StrandedForever(cfg: Config, s: State, n: Name, t: int, more: seq<Event>)
    requires Inv(cfg, s) && NoZeroHash(cfg) && Stranded(s, n) && Commands(more, t)
    ensures Steps(cfg, s, more).signed == s.signed && n in Pending(Steps(cfg, s, more).files)
    decreases |more|
  {
    hide Inv, NoZeroHash, Apply, Leftover, OutOfReach, Pending;
    if more != [] {
      assert more[0] in more;
      StrandedKeeps(cfg, s, more[0], n);
      ApplyKeeps(cfg, s, more[0]);
      StrandedForever(cfg, Apply(cfg, s, more[0]), n, t, more[1..]);
    }
  }

  /** What must hold of the checkout and the host for another commit statement to be possible. */
  ghost predicate CanCommitAgain(cfg: Config, s: State) {
    if HeadIsCommit(s.local) then CanPush(s) else forall n :: n in Pending(s.files) ==> Clears(NextChain(cfg, s), n, true)
  }

  /**
    After any run, from any time on, some continuation by the program's commands signs another
    commit statement if and only if git would push an unresolved commit at the head of the
    checkout, or, with no commit there, recover clears whatever the host holds on the chain the
    checkout must publish first.
   */
  lemma NextCommitIff(cfg: Config, genesis: Chain, events: seq<Event>, t: int)
    requires GenesisOk(cfg, genesis) && NoZeroHash(cfg)
    ensures var s := Run(cfg, genesis, events + [Crash]);
            (exists more :: Commands(more, t) && Steps(cfg, s, more).signed != s.signed) <==> CanCommitAgain(cfg, s)
  {
    hide Run, Inv, NoZeroHash, GenesisOk, Steps, Clears, Pending, HeadIsCommit, NextChain, CanPush, Commands;
    CrashedRun(cfg, genesis, events);
    RunResolvedBehind(cfg, genesis, events + [Crash]);
    var s := Run(cfg, genesis, events + [Crash]);
    Linked(cfg, s);
    if CanCommitAgain(cfg, s) {
      if HeadIsCommit(s.local) { CommitsAfterResolving(cfg, s, t); } else { CommitsAfterSyncing(cfg, s, t); }
    } else if HeadIsCommit(s.local) {
      StalledIsSaved(cfg, s);
      forall more | Commands(more, t) ensures Steps(cfg, s, more).signed == s.signed { StalledForever(cfg, s, t, more); }
    } else {
      var n :| n in Pending(s.files) && !Clears(NextChain(cfg, s), n, true);
      NotClearedIsStranded(cfg, s, n);
      forall more | Commands(more, t) ensures Steps(cfg, s, more).signed == s.signed { StrandedForever(cfg, s, n, t, more); }
    }
  }

  lemma CommandsAppend(a: seq<Event>, b: seq<Event>, t: int)
    requires Commands(a, t) && Commands(b, t)
    ensures Commands(a + b, t)
  {
  }

  lemma SyncingIsCommands(s: State, t: int)
    ensures Commands(ToSync(s), t) && Commands(FailSteps(""), t)
  {
  }

  /** Sync the checkout, recover, commit. */
  lemma CommitsAfterSyncing(cfg: Config, s: State, t: int)
    requires Inv(cfg, s) && NoZeroHash(cfg) && s.agg.Idle? && ResolvedBehind(s) && !HeadIsCommit(s.local)
    requires forall n :: n in Pending(s.files) ==> Clears(NextChain(cfg, s), n, true)
    ensures exists more :: Commands(more, t) && Steps(cfg, s, more).signed != s.signed
  {
    hide Inv, NoZeroHash, Steps, Clears, Pending, ResolvedBehind, Commands, ToSync;
    SyncsTo(cfg, s);
    StepsBehind(cfg, s, ToSync(s));
    var u := Steps(cfg, s, ToSync(s));
    NextChainHead(cfg, s);
    NextCommitSigned(cfg, u, t);
    var more :| Commands(more, t) && Steps(cfg, u, more).signed != u.signed;
    SyncingIsCommands(s, t);
    CommandsAppend(ToSync(s), more, t);
    StepsAppend(cfg, s, ToSync(s), more);
    assert Commands(ToSync(s) + more, t) && Steps(cfg, s, ToSync(s) + more).signed != s.signed;
  }

  lemma NextChainHead(cfg: Config, s: State)
    requires !HeadIsCommit(s.local)
    ensures !HeadIsCommit(NextChain(cfg, s))
  {
  }

  /** Sync the checkout, fail the commit at its head, recover, commit. */
  lemma CommitsAfterResolving(cfg: Config, s: State, t: int)
    requires Inv(cfg, s) && NoZeroHash(cfg) && s.agg.Idle? && ResolvedBehind(s) && HeadIsCommit(s.local) && CanPush(s)
    ensures exists more :: Commands(more, t) && Steps(cfg, s, more).signed != s.signed
  {
    hide Inv, NoZeroHash, Steps, Clears, Pending, ResolvedBehind, Commands, ToSync, FailSteps, AbandonOutcome;
    SyncsTo(cfg, s);
    StepsBehind(cfg, s, ToSync(s));
    var u := Steps(cfg, s, ToSync(s));
    FailsFrom(cfg, u, "");
    FailedClears(cfg, u, "");
    StepsBehind(cfg, u, FailSteps(""));
    var v := Steps(cfg, u, FailSteps(""));
    NextCommitSigned(cfg, v, t);
    var more :| Commands(more, t) && Steps(cfg, v, more).signed != v.signed;
    SyncingIsCommands(s, t);
    CommandsAppend(FailSteps(""), more, t);
    CommandsAppend(ToSync(s), FailSteps("") + more, t);
    StepsAppend(cfg, u, FailSteps(""), more);
    StepsAppend(cfg, s, ToSync(s), FailSteps("") + more);
    var all := ToSync(s) + (FailSteps("") + more);
    assert Commands(all, t) && Steps(cfg, s, all).signed != s.signed;
  }

  lemma NotClearedIsStranded(cfg: Config, s: State, n: Name)
    requires Inv(cfg, s) && s.agg.Idle? && !HeadIsCommit(s.local)
    requires n in Pending(s.files) && !Clears(NextChain(cfg, s), n, true)
    ensures Stranded(s, n)
  {
    hide ChainOk, CommitsOk, FilesOk, HeadHeld, HeadHash;
    var chain := NextChain(cfg, s);
    assert !HeadIsCommit(chain) && |chain| == Reach(s);
    assert HasResolver(s.local, n.num) ==> HasResolver(chain, n.num);
  }

  /** A round far enough after a time. */
  function LateRound(t: int): (round: nat)
    ensures CommitInTime(t, round)
  {
    if t + 50 <= GENESIS_UNIX then 1 else 2 + (t + 50 - GENESIS_UNIX) / PERIOD
  }

  lemma NextCommitSigned(cfg: Config, s: State, t: int)
    requires Inv(cfg, s) && NoZeroHash(cfg) && s.agg.Idle? && Synced(s) && !HeadIsCommit(s.local) && ResolvedBehind(s)
    requires forall n :: n in Pending(s.files) ==> Clears(s.published, n, true)
    ensures exists more :: Commands(more, t) && Steps(cfg, s, more).signed != s.signed
  {
    hide Inv, NoZeroHash, Steps, Clears, Pending, HeadIsCommit, ResolvedUpTo;
    var more := CommitSteps(t, LateRound(t), [], "");
    Linked(cfg, s);
    if Pending(s.files) == {} {
      CommitsFrom(cfg, s, t, LateRound(t), [], "");
      assert Commands(more, t) && Steps(cfg, s, more).signed != s.signed;
    } else {
      var n :| n in Pending(s.files);
      OnlyOne(cfg, s, n);
      RecoverClearsIff(cfg, s, n, true);
      var clean := Steps(cfg, s, CleanSteps(n, true));
      StepsBehind(cfg, s, CleanSteps(n, true));
      Linked(cfg, clean);
      CommitsFrom(cfg, clean, t, LateRound(t), [], "");
      StepsAppend(cfg, s, CleanSteps(n, true), more);
      var all := CleanSteps(n, true) + more;
      assert Commands(all, t) && Steps(cfg, s, all).signed != s.signed;
    }
  }

  lemma OnlyOne(cfg: Config, s: State, n: Name)
    requires Inv(cfg, s) && n in Pending(s.files)
    ensures Pending(s.files) == {n}
  {
    hide ChainOk, CommitsOk, AggOk, HeadHeld;
    forall m | m in Pending(s.files) ensures m == n { assert IsPending(m) && IsPending(n); }
  }

  lemma {:induction false} StepsBehind(cfg: Config, s: State, more: seq<Event>)
    requires Inv(cfg, s) && NoZeroHash(cfg) && ResolvedBehind(s)
    ensures Inv(cfg, Steps(cfg, s, more)) && ResolvedBehind(Steps(cfg, s, more))
    decreases |more|
  {
    hide Inv, NoZeroHash, Apply, ResolvedBehind;
    if more != [] {
      ApplyKeeps(cfg, s, more[0]);
      BehindKeeps(cfg, s, more[0]);
      StepsBehind(cfg, Apply(cfg, s, more[0]), more[1..]);
    }
  }

  // ---------------------------------------------------------------- both sides happen

  /** A host that signed, an answer that was lost, a restart, and two skips with no recover between. */
  const STRANDING: seq<Event> :=
    [StartCommit(GENESIS_UNIX - 50, 1), CallCommit([], ReplyLost), Crash, MintSkip(false, ""), Publish,
        MintSkip(false, ""), Publish]

  lemma {:induction false} RunIsSteps(cfg: Config, genesis: Chain, events: seq<Event>)
    ensures Run(cfg, genesis, events) == Steps(cfg, State(genesis, genesis, |genesis|, map[], [], Idle), events)
  {
    hide Run, Steps, Apply;
    EmptyRun(cfg, genesis);
    assert [] + events == events;
    RunThenSteps(cfg, genesis, [], events);
  }

  /** Not every run can go on: on an empty log these events leave a secret nothing will ever retire. */
  lemma StrandingHappens(cfg: Config)
    ensures var s := Run(cfg, [], STRANDING);
            && s.agg.Idle? && Synced(s) && !HeadIsCommit(s.published)
            && Pending(s.files) == {Name(1, Secret)} && !Clears(s.published, Name(1, Secret), true)
  {
    hide Run, Steps, Apply;
    var s0 := State([], [], 0, map[], [], Idle);
    RunIsSteps(cfg, [], STRANDING);
    StepsAppend(cfg, s0, [StartCommit(GENESIS_UNIX - 50, 1), CallCommit([], ReplyLost), Crash],
        [MintSkip(false, ""), Publish, MintSkip(false, ""), Publish]);
    ThreeSteps(cfg, s0, StartCommit(GENESIS_UNIX - 50, 1), CallCommit([], ReplyLost), Crash);
    LostCommit(cfg);
    var files := map[Name(1, Secret) := Record(cfg.commitOf([]), Some([]), 1, None)];
    var s1 := State([], [], 0, files, [(1, cfg.commitOf([]))], Idle);
    FourSteps(cfg, s1, MintSkip(false, ""), Publish, MintSkip(false, ""), Publish);
    TwoSkips(cfg, s1);
    assert STRANDING == [StartCommit(GENESIS_UNIX - 50, 1), CallCommit([], ReplyLost), Crash] + [MintSkip(false, ""),
        Publish, MintSkip(false, ""), Publish];
  }

  lemma LostCommit(cfg: Config)
    ensures Apply(cfg, Apply(cfg, Apply(cfg, State([], [], 0, map[], [], Idle), StartCommit(GENESIS_UNIX - 50, 1)),
        CallCommit([], ReplyLost)), Crash)
            == State([], [], 0, map[Name(1, Secret) := Record(cfg.commitOf([]), Some([]), 1, None)], [(1, cfg.commitOf([]))], Idle)
  {
    hide Steps, ApplyReveal, ApplyFail, ApplyScan, ApplyFinalize, ApplyRollback;
    assert Pending(map[]) == {};
  }

  lemma TwoSkips(cfg: Config, s: State)
    requires s.agg.Idle? && s.local == [] && s.published == [] && s.saved == 0
    ensures var t := Apply(cfg, Apply(cfg, Apply(cfg, Apply(cfg, s, MintSkip(false, "")), Publish), MintSkip(false, "")), Publish);
            && t.agg.Idle? && t.files == s.files && t.local == t.published && |t.published| == 2 && t.published[1].Skip?
  {
    hide Steps, ApplyCommit, ApplyReveal, ApplyFail, ApplyScan, ApplyFinalize, ApplyRollback;
  }

  /** Once a commit has been failed, what the host still holds clears. */
  lemma FailedClears(cfg: Config, s: State, rest: string)
    requires Inv(cfg, s) && s.agg.Idle? && Synced(s) && HeadIsCommit(s.published)
    ensures var u := Steps(cfg, s, FailSteps(rest));
            !HeadIsCommit(u.published) && forall n :: n in Pending(u.files) ==> Clears(u.published, n, true)
  {
    hide Steps, Inv, HasResolver, Unpublished, FailSteps, AbandonOutcome;
    FailsFrom(cfg, s, rest);
    FailLeavesAbandoning(cfg, s, rest);
    FailureResolves(cfg, s.published, rest);
    var u := Steps(cfg, s, FailSteps(rest));
    forall n | n in Pending(u.files) ensures Clears(u.published, n, true) { assert n == Name(|s.published|, Abandoning); }
  }

  lemma FailureResolves(cfg: Config, chain: Chain, rest: string)
    requires HeadIsCommit(chain)
    ensures HasResolver(chain + [FailureOf(cfg, chain, rest)], |chain|)
  {
  }

  lemma FailLeavesAbandoning(cfg: Config, s: State, rest: string)
    requires Inv(cfg, s) && s.agg.Idle? && Synced(s) && HeadIsCommit(s.published)
    ensures Pending(Steps(cfg, s, FailSteps(rest)).files) == {Name(|s.published|, Abandoning)}
  {
    hide Steps, Apply, FailSteps, ChainOk, CommitsOk, AggOk, FilesOk, AbandonOutcome, Pending;
    FailsFrom(cfg, s, rest);
    var num, head := |s.published|, Head(s.published);
    HeldIsPending(s.files, num, head.commitment, head.target);
    var n :| n in Pending(s.files) && n.num == num;
    OnlyOne(cfg, s, n);
    AbandonMoves(s.files, n, HeadHash(cfg, s.published));
  }

  lemma HeldIsPending(files: Files, num: nat, commitment: Digest, target: nat)
    requires Held(files, num, commitment, target)
    ensures exists n :: n in Pending(files) && n.num == num
  {
    assert forall st :: Name(num, st) in files && IsPending(Name(num, st)) ==> Name(num, st) in Pending(files);
    assert IsPending(Name(num, Secret)) && IsPending(Name(num, Revealing)) && IsPending(Name(num, Abandoning));
  }

  // ---------------------------------------------------------------- a resolved commit is never in the way

  predicate IsResolver(core: Core) {
    core.Reveal? || core.Failure?
  }

  /** The file of a seq whose resolver is sealed, or about to be, has left its first state. */
  predicate OpenedAway(s: State) {
    && (forall i :: 0 <= i < |s.local| && IsResolver(s.local[i]) ==> Name(i, Secret) !in s.files)
    && (s.agg.RevealHave? || s.agg.FailHave? ==> Name(|s.local|, Secret) !in s.files)
  }

  lemma NoNewSecret(cfg: Config, files: Files, num: nat, h: Digest, released: Option<nat>, i: nat)
    requires Name(i, Secret) !in files
    ensures Name(i, Secret) !in RevealOutcome(cfg.commitOf, files, num, h, released).files
    ensures Name(i, Secret) !in AbandonOutcome(files, num, h).files
    ensures Name(i, Secret) !in FinalizeOutcome(files, num, h).files
  {
    hide Find;
  }

  lemma CommitIsItsOwn(cfg: Config, files: Files, num: nat, target: nat, E: Bytes, i: nat)
    requires Name(i, Secret) !in files && i != num
    ensures Name(i, Secret) !in CommitOutcome(cfg.commitOf, files, num, target, E).files
  {
    hide Refuses, Pending;
  }

  /** A reveal or abandon statement is only made once the file has left its first state. */
  lemma StatementMoves(cfg: Config, files: Files, num: nat, h: Digest, released: Option<nat>)
    ensures var o := RevealOutcome(cfg.commitOf, files, num, h, released);
            o.reply.RevealStatement? ==> Name(num, Secret) !in o.files
    ensures var o := AbandonOutcome(files, num, h); o.reply.FailureStatement? ==> Name(num, Secret) !in o.files
  {
  }

  lemma AwayFiles(cfg: Config, s: State, e: Event, i: nat)
    requires i <= |s.local| && Name(i, Secret) !in s.files
    ensures Name(i, Secret) !in Apply(cfg, s, e).files
  {
    hide CommitOutcome, RevealOutcome, AbandonOutcome, FinalizeOutcome, HeadIsCommit, HeadIsResolver, HeadHash,
        Unpublished, HasResolver;
    var num := |s.local|;
    match e
    case CallCommit(E, _) => if s.agg.CommitReady? { CommitIsItsOwn(cfg, s.files, num + 1, s.agg.target, E, i); }
    case CallReveal(released, _) => NoNewSecret(cfg, s.files, num, HeadHash(cfg, s.local), released, i);
    case CallAbandon(_) => NoNewSecret(cfg, s.files, num, HeadHash(cfg, s.local), None, i);
    case CallRollbackAbandon(_) => if s.agg.RollbackAbandon? { NoNewSecret(cfg, s.files, s.agg.num, ZERO, None, i); }
    case CallScanAbandon(_) => if s.agg.ScanAbandon? { NoNewSecret(cfg, s.files, s.agg.num, ZERO, None, i); }
    case CallRollbackFinalize(_) => if s.agg.RollbackFinalize? { NoNewSecret(cfg, s.files, s.agg.num, ZERO, None, i); }
    case CallFinalize(_) => if s.agg.FinalizeReady? { NoNewSecret(cfg, s.files, s.agg.num, s.agg.resolver, None, i); }
    case CallScanFinalize(_) =>
      if s.agg.ScanFinalize? { NoNewSecret(cfg, s.files, s.agg.num, s.agg.resolver, None, i); }
      else if s.agg.ScanFinalizeZero? { NoNewSecret(cfg, s.files, s.agg.num, ZERO, None, i); }
    case _ =>
  }

  lemma AwayAgg(cfg: Config, s: State, e: Event)
    requires OpenedAway(s)
    ensures var u := Apply(cfg, s, e); u.agg.RevealHave? || u.agg.FailHave? ==> Name(|u.local|, Secret) !in u.files
  {
    hide CommitOutcome, RevealOutcome, AbandonOutcome, FinalizeOutcome, HeadIsResolver, HeadHash, Unpublished, HasResolver;
    match e
    case CallReveal(released, _) => StatementMoves(cfg, s.files, |s.local|, HeadHash(cfg, s.local), released);
    case CallAbandon(_) => StatementMoves(cfg, s.files, |s.local|, HeadHash(cfg, s.local), None);
    case _ =>
  }

  /** A new resolver in the checkout is the seal of what the aggregator had. */
  lemma AwayLocal(cfg: Config, s: State, e: Event, i: nat)
    requires s.published <= s.local && i < |Apply(cfg, s, e).local| && IsResolver(Apply(cfg, s, e).local[i])
    ensures i <= |s.local| && (i < |s.local| ==> IsResolver(s.local[i]))
    ensures i == |s.local| ==> s.agg.RevealHave? || s.agg.FailHave?
  {
    hide CommitOutcome, RevealOutcome, AbandonOutcome, FinalizeOutcome, HeadIsResolver, HeadHash, Unpublished, HasResolver;
  }

  lemma AwayKeeps(cfg: Config, s: State, e: Event)
    requires s.published <= s.local && OpenedAway(s)
    ensures OpenedAway(Apply(cfg, s, e))
  {
    hide Apply, IsResolver;
    AwayAgg(cfg, s, e);
    forall i | 0 <= i < |Apply(cfg, s, e).local| && IsResolver(Apply(cfg, s, e).local[i]) ensures Name(i,
        Secret) !in Apply(cfg, s, e).files {
      AwayLocal(cfg, s, e, i);
      AwayFiles(cfg, s, e, i);
    }
  }

  lemma {:induction false} RunOpensAway(cfg: Config, genesis: Chain, events: seq<Event>)
    requires GenesisOk(cfg, genesis) && NoZeroHash(cfg)
    ensures OpenedAway(Run(cfg, genesis, events))
    decreases |events|
  {
    hide Inv, NoZeroHash, Apply;
    if events != [] {
      var before, e := events[..|events| - 1], events[|events| - 1];
      RunOpensAway(cfg, genesis, before);
      RunKeeps(cfg, genesis, before);
      Linked(cfg, Run(cfg, genesis, before));
      AwayKeeps(cfg, Run(cfg, genesis, before), e);
    }
  }

  /**
    After any run with a commit at the published head, the commands that resolve it in public
    leave nothing held that is in the way of the next commit.
   */
  lemma ResolvedCommitClears(cfg: Config, genesis: Chain, events: seq<Event>, rest: string)
    requires GenesisOk(cfg, genesis) && NoZeroHash(cfg)
    requires HeadIsCommit(Run(cfg, genesis, events).published)
    ensures var u := Steps(cfg, Run(cfg, genesis, events + [Crash]), ResolveSteps(Run(cfg, genesis, events + [Crash]), rest));
            !HeadIsCommit(u.published) && forall n :: n in Pending(u.files) ==> Clears(u.published, n, true)
  {
    hide Run, Steps, Inv, NoZeroHash, GenesisOk, ToSync, FailSteps, CanPush, OpenedAway, Clears, Pending;
    CrashedRun(cfg, genesis, events);
    RunOpensAway(cfg, genesis, events + [Crash]);
    var s := Run(cfg, genesis, events + [Crash]);
    if Synced(s) {
      FailedClears(cfg, s, rest);
    } else {
      WaitingResolves(cfg, s);
      SyncsTo(cfg, s);
      NextChainHead(cfg, s);
      forall n | n in Pending(s.files) ensures Clears(NextChain(cfg, s), n, true) { WaitingClears(cfg, s, n); }
    }
  }

  lemma WaitingClears(cfg: Config, s: State, n: Name)
    requires Inv(cfg, s) && OpenedAway(s) && HeadIsCommit(s.published) && !Synced(s) && n in Pending(s.files)
    ensures Clears(NextChain(cfg, s), n, true)
  {
    hide ChainOk, CommitsOk, AggOk, FilesOk, Held, HeadHash;
    WaitingResolves(cfg, s);
    var num, head := |s.published|, Head(s.published);
    HeldIsPending(s.files, num, head.commitment, head.target);
    var m :| m in Pending(s.files) && m.num == num;
    OnlyOne(cfg, s, m);
    assert n == m && IsResolver(s.local[num]);
    assert NextChain(cfg, s)[num] == s.local[num];
  }

  /** So a commit at the published head never stops the log: another commit can always follow its resolution. */
  lemma CommitAfterCommit(cfg: Config, genesis: Chain, events: seq<Event>)
    requires GenesisOk(cfg, genesis) && NoZeroHash(cfg)
    requires HeadIsCommit(Run(cfg, genesis, events).published)
    ensures CanCommitAgain(cfg, Run(cfg, genesis, events + [Crash]))
  {
    hide Run, Inv, NoZeroHash, GenesisOk, CanPush, OpenedAway, Clears, Pending, NextChain;
    CrashedRun(cfg, genesis, events);
    RunOpensAway(cfg, genesis, events + [Crash]);
    var s := Run(cfg, genesis, events + [Crash]);
    if Synced(s) {
      SyncedCanPush(s);
    } else {
      WaitingResolves(cfg, s);
      forall n | n in Pending(s.files) ensures Clears(NextChain(cfg, s), n, true) { WaitingClears(cfg, s, n); }
    }
  }

  lemma SyncedCanPush(s: State)
    requires Synced(s)
    ensures CanPush(s)
  {
  }
}
