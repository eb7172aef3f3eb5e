/**
  What can still happen to a published commit after any run. The aggregator has crashed and
  starts again on the checkout it left behind, which may hold pulses that were never pushed; the
  operator does nothing by hand.
 */
module CustodyProgress {
  import opened Hashing
  import opened EntropyHost
  import opened Custody
  import opened CustodyRuns

  function FailSteps(rest: string): seq<Event> {
    [StartFail, CallAbandon(Answered), SealFailure(rest), Publish]
  }

  /** `now` and `latest` are what the aggregator sees of the time, `released` what the host sees. */
  function RevealSteps(now: int, latest: Option<nat>, released: Option<nat>, rest: string): seq<Event> {
    [StartReveal(now, latest), CallReveal(released, Answered), SealReveal(rest), Publish]
  }

  /** One recover (or abort-unpublished) over a single held file, every call answered. */
  function CleanSteps(n: Name, resolve: bool): seq<Event> {
    [StartScan([n], resolve), ScanNext, CallScanAbandon(Answered), CallScanFinalize(Answered), ScanNext]
  }

  function CommitSteps(now: int, target: nat, E: Bytes, rest: string): seq<Event> {
    [StartCommit(now, target), CallCommit(E, Answered), SealCommit(rest), Publish]
  }

  /** The program's own commands, none of them looking at the clock before this time. */
  predicate Commands(events: seq<Event>, t: int) {
    forall e :: e in events ==> !e.ByHand? && (e.StartCommit? || e.StartReveal? ==> t <= e.now)
  }

  lemma CrashedRun(cfg: Config, genesis: Chain, events: seq<Event>)
    requires GenesisOk(cfg, genesis) && NoZeroHash(cfg)
    ensures var s := Run(cfg, genesis, events + [Crash]);
            s == Run(cfg, genesis, events).(agg := Idle) && Inv(cfg, s) && s.agg.Idle?
  {
    hide Run, Steps, Inv, NoZeroHash, GenesisOk;
    RunThenSteps(cfg, genesis, events, [Crash]);
    OneStep(cfg, Run(cfg, genesis, events), Crash);
    RunKeeps(cfg, genesis, events + [Crash]);
  }

  // ---------------------------------------------------------------- catching up

  /** Nothing waits to be pushed, or git sees something to commit and catch_up pushes it. */
  predicate CanPush(s: State) {
    Synced(s) || Dirty(s)
  }

  /** A commit pulse is in a git commit that was not pushed: no skip can follow it and nothing is dirty. */
  predicate Stalled(s: State) {
    !CanPush(s) && HeadIsCommit(s.local)
  }

  function SkipOf(cfg: Config, chain: Chain): Core {
    Skip(|chain| + 1, HeadHash(cfg, chain), "")
  }

  /** The least chain that origin must have before the checkout can be equal to it. */
  function NextChain(cfg: Config, s: State): Chain {
    if CanPush(s) then s.local else s.local + [SkipOf(cfg, s.local)]
  }

  /** The push of what waits; a skip minted while origin is out of reach, where git alone would not push. */
  function ToSync(s: State): seq<Event> {
    if Synced(s) then [] else if Dirty(s) then [Publish] else [MintSkip(true, ""), Publish]
  }

  lemma SyncsTo(cfg: Config, s: State)
    requires Inv(cfg, s) && s.agg.Idle? && !Stalled(s)
    ensures var chain := NextChain(cfg, s);
            Steps(cfg, s, ToSync(s)) == s.(published := chain, local := chain, saved := |chain|)
  {
    hide Steps, ChainOk, CommitsOk, FilesOk, AggOk;
    StepsOf(cfg, s);
    if Synced(s) {
    } else if Dirty(s) {
      OneStep(cfg, s, Publish);
    } else {
      TwoSteps(cfg, s, MintSkip(true, ""), Publish);
    }
  }

  lemma Linked(cfg: Config, s: State)
    requires Inv(cfg, s)
    ensures s.published <= s.local && |s.published| <= s.saved <= |s.local|
  {
  }

  lemma StepsOf(cfg: Config, s: State)
    ensures Steps(cfg, s, []) == s
  {
  }

  /** With a commit at the published head, the pulse after it in the checkout resolves it. */
  lemma WaitingResolves(cfg: Config, s: State)
    requires Inv(cfg, s) && HeadIsCommit(s.published) && !Synced(s)
    ensures |s.local| > |s.published| && !HeadIsCommit(s.local) && Resolves(cfg, s.published, s.local[|s.published|])
  {
    hide CommitsOk, FilesOk, AggOk, HeadHeld;
    var num := |s.published|;
    LongerIfUnsynced(s);
    assert PulseOk(cfg, s.local, num) && s.local[..num] == s.published;
    if |s.local| > num + 1 { assert s.local[|s.local| - 1].Skip?; }
  }

  lemma LongerIfUnsynced(s: State)
    requires s.published <= s.local && !Synced(s)
    ensures |s.published| < |s.local|
  {
    assert s.published == s.local[..|s.published|];
  }

  /** A pulse that reveals or fails the commit at this head, by its number, hash and commitment. */
  predicate Resolves(cfg: Config, chain: Chain, core: Core)
    requires HeadIsCommit(chain)
  {
    match core
    case Reveal(_, _, _, num, hash, commitment, E) =>
      num == |chain| && hash == HeadHash(cfg, chain) && commitment == Head(chain).commitment && cfg.commitOf(E) == commitment
    case Failure(_, _, _, num, hash, commitment) =>
      num == |chain| && hash == HeadHash(cfg, chain) && commitment == Head(chain).commitment
    case _ => false
  }

  // ---------------------------------------------------------------- resolving the head commit

  function FailureOf(cfg: Config, chain: Chain, rest: string): Core
    requires HeadIsCommit(chain)
  {
    Failure(|chain| + 1, HeadHash(cfg, chain), rest, |chain|, HeadHash(cfg, chain), Head(chain).commitment)
  }

  lemma FailAsked(cfg: Config, s: State)
    requires Inv(cfg, s) && s.agg.Idle? && Synced(s) && HeadIsCommit(s.local)
    ensures var t := Apply(cfg, Apply(cfg, s, StartFail), CallAbandon(Answered));
            && t.agg == FailHave && t.local == s.local && t.published == s.published && t.saved == s.saved && t.signed == s.signed
            && t.files == AbandonOutcome(s.files, |s.local|, HeadHash(cfg, s.local)).files
  {
    hide Steps, ChainOk, CommitsOk, PulseOk, Refuses, ApplyCommit, ApplyRollback, ApplyFinalize, ApplyScan,
        ApplyReveal, AggOk;
    assert Find(s.files, |s.local|, [Secret, Revealing, Abandoning]).Some?;
  }

  lemma FailSealed(cfg: Config, t: State, rest: string)
    requires t.agg == FailHave && HeadIsCommit(t.local) && t.saved <= |t.local|
    ensures var u := Apply(cfg, Apply(cfg, t, SealFailure(rest)), Publish);
            && u.published == t.local + [FailureOf(cfg, t.local, rest)] && u.files == t.files
            && u.signed == t.signed && u.agg.Idle? && Synced(u)
  {
    hide Steps, ApplyCommit, ApplyRollback, ApplyFinalize, ApplyScan, ApplyReveal;
  }

  lemma FailsFrom(cfg: Config, s: State, rest: string)
    requires Inv(cfg, s) && s.agg.Idle? && Synced(s) && HeadIsCommit(s.published)
    ensures var u := Steps(cfg, s, FailSteps(rest));
            && u.published == s.published + [FailureOf(cfg, s.published, rest)]
            && u.files == AbandonOutcome(s.files, |s.published|, HeadHash(cfg, s.published)).files
            && u.signed == s.signed && u.agg.Idle? && Synced(u)
  {
    hide Steps, Apply, Inv, AbandonOutcome;
    FourSteps(cfg, s, StartFail, CallAbandon(Answered), SealFailure(rest), Publish);
    FailAsked(cfg, s);
    Linked(cfg, s);
    FailSealed(cfg, Apply(cfg, Apply(cfg, s, StartFail), CallAbandon(Answered)), rest);
  }

  function ResolveSteps(s: State, rest: string): seq<Event> {
    if Synced(s) then FailSteps(rest) else ToSync(s)
  }

  /**
    After any run, a published commit can be resolved in public by the next commands: a checkout
    equal to origin fails it, and any other already holds a resolver of it and pushes that.
   */
  lemma CommitCanAlwaysBeResolved(cfg: Config, genesis: Chain, events: seq<Event>, rest: string)
    requires GenesisOk(cfg, genesis) && NoZeroHash(cfg)
    requires HeadIsCommit(Run(cfg, genesis, events).published)
    ensures var s := Run(cfg, genesis, events + [Crash]);
            var num, after := |s.published|, Steps(cfg, s, ResolveSteps(s, rest)).published;
            && HeadIsCommit(s.published) && s.published <= after && num < |after|
            && Resolves(cfg, s.published, after[num])
            && if Synced(s) then after[num] == FailureOf(cfg, s.published, rest) else num < |s.local| && after[num] == s.local[num]
  {
    hide Run, Steps, Inv, NoZeroHash, GenesisOk, ToSync, FailSteps, CanPush;
    CrashedRun(cfg, genesis, events);
    var s := Run(cfg, genesis, events + [Crash]);
    Linked(cfg, s);
    if Synced(s) {
      FailsFrom(cfg, s, rest);
    } else {
      WaitingResolves(cfg, s);
      SyncsTo(cfg, s);
    }
  }

  // ---------------------------------------------------------------- one reveal

  /** The window of a reveal: the round is out for the host, the deadline has not passed, nothing is being abandoned. */
  predicate CanReveal(s: State, now: int, latest: Option<nat>, released: Option<nat>)
    requires HeadIsCommit(s.published)
  {
    var target := Head(s.published).target;
    && RevealInTime(now, latest, target)
    && released.Some? && released.value >= target
    && Name(|s.published|, Abandoning) !in s.files
  }

  lemma RevealStarted(cfg: Config, s: State, now: int, latest: Option<nat>)
    requires s.agg.Idle? && Synced(s) && HeadIsCommit(s.local)
    ensures Apply(cfg, s, StartReveal(now, latest))
            == if RevealInTime(now, latest, Head(s.local).target) then s.(agg := RevealReady) else s
  {
  }

  lemma RevealAsked(cfg: Config, s: State, released: Option<nat>)
    requires Inv(cfg, s) && s.agg.RevealReady? && HeadIsCommit(s.local)
    requires released.Some? && released.value >= Head(s.local).target && Name(|s.local|, Abandoning) !in s.files
    ensures var t := Apply(cfg, s, CallReveal(released, Answered));
            && t.agg.RevealHave? && t.local == s.local && t.published == s.published && t.saved == s.saved
            && cfg.commitOf(t.agg.E) == Head(s.local).commitment
  {
    hide Steps, ChainOk, CommitsOk, PulseOk, Refuses, ApplyCommit, ApplyRollback, ApplyFinalize, ApplyScan, ApplyFail, AggOk;
    var num := |s.local|;
    var found := Find(s.files, num, [Secret, Revealing]);
    assert found.Some? && IsPending(Name(num, found.value));
    assert HoldsAs(s.files, Name(num, found.value), Head(s.local).commitment, Head(s.local).target) by {
      assert IsPending(Name(num, Secret)) && IsPending(Name(num, Revealing));
    }
  }

  lemma RevealSealed(cfg: Config, t: State, rest: string)
    requires t.agg.RevealHave? && HeadIsCommit(t.local) && cfg.commitOf(t.agg.E) == Head(t.local).commitment && t.saved <= |t.local|
    ensures var after := Apply(cfg, Apply(cfg, t, SealReveal(rest)), Publish).published;
            && |after| == |t.local| + 1 && t.local <= after
            && Head(after).Reveal? && Head(after).E == t.agg.E
  {
    hide Steps, ApplyCommit, ApplyRollback, ApplyFinalize, ApplyScan, ApplyFail;
  }

  lemma RevealRefused(cfg: Config, s: State, released: Option<nat>)
    requires Inv(cfg, s) && s.agg.RevealReady? && HeadIsCommit(s.local)
    requires released.None? || released.value < Head(s.local).target || Name(|s.local|, Abandoning) in s.files
    ensures var t := Apply(cfg, s, CallReveal(released, Answered));
            t.agg.Idle? && t.local == s.local && t.published == s.published
  {
    hide Steps, ChainOk, CommitsOk, PulseOk, Refuses, ApplyCommit, ApplyRollback, ApplyFinalize, ApplyScan, ApplyFail, AggOk;
    var num := |s.local|;
    if Name(num, Abandoning) in s.files {
      PendingAlone(cfg, s.files, num, Abandoning);
    } else {
      HeldAsCommitted(s.files, num, Head(s.local).commitment, Head(s.local).target);
      PendingPair(cfg, s.files, num);
    }
  }

  lemma PendingAlone(cfg: Config, files: Files, num: nat, st: FileState)
    requires FilesOk(cfg, files) && Name(num, st) in files && IsPending(Name(num, st))
    ensures st != Secret ==> Name(num, Secret) !in files
    ensures st != Revealing ==> Name(num, Revealing) !in files
    ensures st != Abandoning ==> Name(num, Abandoning) !in files
  {
  }

  lemma PendingPair(cfg: Config, files: Files, num: nat)
    requires FilesOk(cfg, files)
    ensures !(Name(num, Secret) in files && Name(num, Revealing) in files)
  {
    if Name(num, Secret) in files { PendingAlone(cfg, files, num, Secret); }
  }

  lemma HeldAsCommitted(files: Files, num: nat, commitment: Digest, target: nat)
    requires Held(files, num, commitment, target) && Name(num, Abandoning) !in files
    ensures HoldsAs(files, Name(num, Secret), commitment, target) || HoldsAs(files, Name(num, Revealing), commitment, target)
  {
  }

  lemma RevealOnce(cfg: Config, s: State, now: int, latest: Option<nat>, released: Option<nat>, rest: string)
    requires Inv(cfg, s) && s.agg.Idle? && Synced(s) && HeadIsCommit(s.published)
    ensures var after := Steps(cfg, s, RevealSteps(now, latest, released, rest)).published;
            if CanReveal(s, now, latest, released) then
              && |after| == |s.published| + 1 && s.published <= after
              && Head(after).Reveal? && cfg.commitOf(Head(after).E) == Head(s.published).commitment
            else after == s.published
  {
    hide Steps, Apply, Inv;
    FourSteps(cfg, s, StartReveal(now, latest), CallReveal(released, Answered), SealReveal(rest), Publish);
    RevealStarted(cfg, s, now, latest);
    var s1 := Apply(cfg, s, StartReveal(now, latest));
    if !RevealInTime(now, latest, Head(s.published).target) {
      NothingStarted(cfg, s, released, rest);
    } else {
      ReadyKeeps(cfg, s);
      if CanReveal(s, now, latest, released) {
        RevealAsked(cfg, s1, released);
        Linked(cfg, s);
        RevealSealed(cfg, Apply(cfg, s1, CallReveal(released, Answered)), rest);
      } else {
        RevealRefused(cfg, s1, released);
        NothingSealed(cfg, Apply(cfg, s1, CallReveal(released, Answered)), rest);
      }
    }
  }

  lemma ReadyKeeps(cfg: Config, s: State)
    requires Inv(cfg, s) && Synced(s) && HeadIsCommit(s.local)
    ensures Inv(cfg, s.(agg := RevealReady))
  {
    hide ChainOk, FilesOk, CommitsOk, HeadHeld;
    RememberKeeps(cfg, s, RevealReady);
  }

  lemma NothingStarted(cfg: Config, s: State, released: Option<nat>, rest: string)
    requires s.agg.Idle? && Synced(s)
    ensures Apply(cfg, Apply(cfg, Apply(cfg, s, CallReveal(released, Answered)), SealReveal(rest)),
        Publish).published == s.published
  {
    hide ApplyCommit, ApplyFail, ApplyRollback, ApplyFinalize, ApplyScan;
  }

  lemma NothingSealed(cfg: Config, s: State, rest: string)
    requires s.agg.Idle? && Synced(s)
    ensures Apply(cfg, Apply(cfg, s, SealReveal(rest)), Publish).published == s.published
  {
    hide ApplyCommit, ApplyFail, ApplyRollback, ApplyFinalize, ApplyScan;
  }

  /** On a checkout that is not synced the attempt is refused, and only the push does anything. */
  lemma RevealUnsynced(cfg: Config, s: State, now: int, latest: Option<nat>, released: Option<nat>, rest: string)
    requires s.agg.Idle? && !Synced(s)
    ensures Steps(cfg, s, RevealSteps(now, latest, released, rest)).published == if Dirty(s) then s.local else s.published
  {
    hide Steps, ApplyCommit, ApplyFail, ApplyRollback, ApplyFinalize, ApplyScan;
    FourSteps(cfg, s, StartReveal(now, latest), CallReveal(released, Answered), SealReveal(rest), Publish);
  }

  /**
    After any run, one answered attempt to reveal the published commit and push. On a synced
    checkout it publishes an opening if the round is out, the deadline has not passed and the host
    has not begun to abandon it, and nothing in every other case. On any other checkout it is the
    push of what was sealed before, if git sees that.
   */
  lemma RevealPublishesIff(cfg: Config, genesis: Chain, events: seq<Event>, now: int, latest: Option<nat>,
      released: Option<nat>, rest: string)
    requires GenesisOk(cfg, genesis) && NoZeroHash(cfg)
    requires HeadIsCommit(Run(cfg, genesis, events).published)
    ensures var s := Run(cfg, genesis, events + [Crash]);
            var after := Run(cfg, genesis, events + [Crash] + RevealSteps(now, latest, released, rest)).published;
            && HeadIsCommit(s.published)
            && if !Synced(s) then after == if Dirty(s) then s.local else s.published
               else if CanReveal(s, now, latest, released) then
                 && |after| == |s.published| + 1 && s.published <= after
                 && Head(after).Reveal? && cfg.commitOf(Head(after).E) == Head(s.published).commitment
               else after == s.published
  {
    hide Run, Steps, Inv, NoZeroHash, GenesisOk, RevealSteps, CanReveal;
    CrashedRun(cfg, genesis, events);
    var s := Run(cfg, genesis, events + [Crash]);
    RunThenSteps(cfg, genesis, events + [Crash], RevealSteps(now, latest, released, rest));
    if Synced(s) {
      RevealOnce(cfg, s, now, latest, released, rest);
    } else {
      RevealUnsynced(cfg, s, now, latest, released, rest);
    }
  }

  // ---------------------------------------------------------------- ever revealed

  /** The published pulse after seq `num` reveals it. */
  predicate RevealPublished(s: State, num: nat) {
    num < |s.published| && s.published[num].Reveal?
  }

  /** Neither file that reveal-prepare looks for. */
  predicate NothingToReveal(files: Files, num: nat) {
    Name(num, Secret) !in files && Name(num, Revealing) !in files
  }

  /** The part of the chain up to and just after the commit. */
  predicate StandsUnrevealed(s: State, num: nat) {
    && 1 <= num <= |s.published| && s.published <= s.local && s.local[num - 1].Commit?
    && (|s.local| > num ==> !s.local[num].Reveal?)
  }

  /**
    The commit at seq `num` is public and not revealed, and no reveal of it is under way; `gone`
    when the host has nothing left to reveal, otherwise only the deadline forbids a new attempt.
   */
  predicate Unrevealable(s: State, num: nat, gone: bool) {
    && StandsUnrevealed(s, num)
    && (|s.local| == num ==> !s.agg.RevealHave? && (gone || !s.agg.RevealReady?))
    && (gone ==> NothingToReveal(s.files, num))
  }

  lemma RenameRevivesNothing(files: Files, num: nat, at: nat, st: FileState, to: FileState)
    requires NothingToReveal(files, num) && Name(at, st) in files && (to == Abandoning || at != num)
    ensures NothingToReveal(Rename(files, Name(at, st), Name(at, to)), num)
  {
  }

  lemma RevealRevivesNothing(cfg: Config, files: Files, num: nat, at: nat, h: Digest, released: Option<nat>)
    requires NothingToReveal(files, num)
    ensures var o := RevealOutcome(cfg.commitOf, files, at, h, released);
            NothingToReveal(o.files, num) && (at == num ==> o.reply == Died)
  {
    hide Rename;
    var found := Find(files, at, [Secret, Revealing]);
    if found.Some? { RenameRevivesNothing(files, num, at, found.value, Revealing); }
  }

  lemma AbandonRevivesNothing(files: Files, num: nat, at: nat, h: Digest)
    requires NothingToReveal(files, num)
    ensures NothingToReveal(AbandonOutcome(files, at, h).files, num)
  {
    hide Rename, NothingToReveal;
    var found := Find(files, at, [Secret, Revealing, Abandoning]);
    if found.Some? { RenameRevivesNothing(files, num, at, found.value, Abandoning); }
  }

  lemma FinalizeRevivesNothing(files: Files, num: nat, at: nat, resolver: Digest)
    requires NothingToReveal(files, num)
    ensures NothingToReveal(FinalizeOutcome(files, at, resolver).files, num)
  {
    hide Find;
  }

  lemma CommitRevivesNothing(cfg: Config, files: Files, num: nat, at: nat, target: nat, E: Bytes)
    requires NothingToReveal(files, num) && at != num
    ensures NothingToReveal(CommitOutcome(cfg.commitOf, files, at, target, E).files, num)
  {
    hide Refuses, Pending;
  }

  lemma StaysGone(cfg: Config, s: State, e: Event, num: nat)
    requires NothingToReveal(s.files, num) && num <= |s.local|
    ensures NothingToReveal(Apply(cfg, s, e).files, num)
    ensures |s.local| == num && !s.agg.RevealHave? ==> !Apply(cfg, s, e).agg.RevealHave?
  {
    hide NothingToReveal, CommitOutcome, RevealOutcome, AbandonOutcome, FinalizeOutcome, HeadIsCommit, HeadIsResolver,
        HeadHash, Unpublished, HasResolver;
    var at := |s.local|;
    match e
    case CallCommit(E, _) => if s.agg.CommitReady? { CommitRevivesNothing(cfg, s.files, num, at + 1, s.agg.target, E); }
    case CallReveal(released, _) => RevealRevivesNothing(cfg, s.files, num, at, HeadHash(cfg, s.local), released);
    case CallAbandon(_) => AbandonRevivesNothing(s.files, num, at, HeadHash(cfg, s.local));
    case CallRollbackAbandon(_) => if s.agg.RollbackAbandon? { AbandonRevivesNothing(s.files, num, s.agg.num, ZERO); }
    case CallScanAbandon(_) => if s.agg.ScanAbandon? { AbandonRevivesNothing(s.files, num, s.agg.num, ZERO); }
    case CallRollbackFinalize(_) => if s.agg.RollbackFinalize? { FinalizeRevivesNothing(s.files, num, s.agg.num, ZERO); }
    case CallFinalize(_) => if s.agg.FinalizeReady? { FinalizeRevivesNothing(s.files, num, s.agg.num, s.agg.resolver); }
    case CallScanFinalize(_) =>
      if s.agg.ScanFinalize? { FinalizeRevivesNothing(s.files, num, s.agg.num, s.agg.resolver); }
      else if s.agg.ScanFinalizeZero? { FinalizeRevivesNothing(s.files, num, s.agg.num, ZERO); }
    case _ =>
  }

  lemma StandsKeeps(cfg: Config, s: State, e: Event, num: nat)
    requires StandsUnrevealed(s, num) && (|s.local| == num ==> !s.agg.RevealHave?) && !e.ByHand?
    ensures |s.local| <= |Apply(cfg, s, e).local|
    ensures StandsUnrevealed(Apply(cfg, s, e), num) && Apply(cfg, s, e).local[num - 1] == s.local[num - 1]
  {
    hide CommitOutcome, RevealOutcome, AbandonOutcome, FinalizeOutcome, HeadIsResolver, HeadHash, ApplyScan;
    ScanLeavesChain(cfg, s, e);
  }

  lemma ScanLeavesChain(cfg: Config, s: State, e: Event)
    ensures var u := ApplyScan(cfg, s, e);
            && u.local == s.local && u.published == s.published && u.saved == s.saved
            && (s.agg.Idle? && !Synced(s) ==> u == s)
  {
  }

  lemma NoneUnderWayKeeps(cfg: Config, s: State, e: Event, num: nat, gone: bool)
    requires 1 <= num <= |s.local| && s.local[num - 1].Commit?
    requires |s.local| == num ==> !s.agg.RevealHave? && (gone || !s.agg.RevealReady?)
    requires !e.ByHand?
    requires !gone && |s.local| == num && e.StartReveal? ==> e.now > ReleaseTime(s.local[num - 1].target) + REVEAL_DEADLINE_S
    requires gone && |s.local| == num && !s.agg.RevealHave? ==> !Apply(cfg, s, e).agg.RevealHave?
    ensures var u := Apply(cfg, s, e); |u.local| == num ==> !u.agg.RevealHave? && (gone || !u.agg.RevealReady?)
  {
    hide CommitOutcome, RevealOutcome, AbandonOutcome, FinalizeOutcome, HeadIsResolver, HeadHash, Unpublished, HasResolver;
  }

  lemma UnrevealableKeeps(cfg: Config, s: State, e: Event, num: nat, gone: bool)
    requires Unrevealable(s, num, gone) && !e.ByHand?
    requires !gone && |s.local| == num && e.StartReveal? ==> e.now > ReleaseTime(s.local[num - 1].target) + REVEAL_DEADLINE_S
    ensures Unrevealable(Apply(cfg, s, e), num, gone) && Apply(cfg, s, e).local[num - 1] == s.local[num - 1]
    ensures |s.local| <= |Apply(cfg, s, e).local|
  {
    hide Apply, NothingToReveal, StandsUnrevealed;
    StandsIs(s, num);
    if gone { StaysGone(cfg, s, e, num); }
    StandsKeeps(cfg, s, e, num);
    NoneUnderWayKeeps(cfg, s, e, num, gone);
  }

  lemma StandsIs(s: State, num: nat)
    requires StandsUnrevealed(s, num)
    ensures 1 <= num <= |s.local| && s.local[num - 1].Commit?
  {
  }

  /** Then no command, from the deadline on or at any time, publishes a reveal of it. */
  lemma {:induction false} NeverRevealed(cfg: Config, s: State, num: nat, gone: bool, t: int, more: seq<Event>)
    requires Unrevealable(s, num, gone) && Commands(more, t)
    requires gone || |s.local| > num || t > ReleaseTime(s.local[num - 1].target) + REVEAL_DEADLINE_S
    ensures !RevealPublished(Steps(cfg, s, more), num)
    decreases |more|
  {
    hide Apply;
    if more != [] {
      assert more[0] in more;
      UnrevealableKeeps(cfg, s, more[0], num, gone);
      NeverRevealed(cfg, Apply(cfg, s, more[0]), num, gone, t, more[1..]);
    }
  }

  /** Nothing sealed reveals it, and no reveal is under way. */
  lemma NoneSealed(cfg: Config, s: State, num: nat)
    requires Inv(cfg, s) && s.agg.Idle? && HeadIsCommit(s.published) && num == |s.published|
    requires |s.local| > num ==> !s.local[num].Reveal?
    ensures Unrevealable(s, num, false)
    ensures Name(num, Abandoning) in s.files ==> Unrevealable(s, num, true)
  {
    hide ChainOk, CommitsOk, HeadHeld, AggOk;
    if Name(num, Abandoning) in s.files { PendingAlone(cfg, s.files, num, Abandoning); }
  }

  /**
    After any run, from a time t on, some continuation by the program's commands publishes a
    reveal of the published commit if and only if the checkout already holds a sealed one, or it
    is synced, the deadline has not passed at t and the host has not begun to abandon it.
   */
  lemma CommitCanBeRevealedIff(cfg: Config, genesis: Chain, events: seq<Event>, t: int)
    requires GenesisOk(cfg, genesis) && NoZeroHash(cfg)
    requires HeadIsCommit(Run(cfg, genesis, events).published)
    ensures var s := Run(cfg, genesis, events + [Crash]);
            var num := |s.published|;
            HeadIsCommit(s.published) &&
            ((exists more :: Commands(more, t) && RevealPublished(Steps(cfg, s, more), num))
             <==> if Synced(s) then t <= ReleaseTime(Head(s.published).target) + REVEAL_DEADLINE_S && Name(num,
                 Abandoning) !in s.files
                  else |s.local| > num && s.local[num].Reveal?)
  {
    hide Run, Steps, Inv, NoZeroHash, GenesisOk, Unrevealable, Commands, RevealPublished, CanReveal, Resolves;
    CrashedRun(cfg, genesis, events);
    var s := Run(cfg, genesis, events + [Crash]);
    var num, target := |s.published|, Head(s.published).target;
    Linked(cfg, s);
    if !Synced(s) {
      WaitingResolves(cfg, s);
      if s.local[num].Reveal? { SealedIsPublished(cfg, s, t); } else { NoneSealed(cfg, s, num); }
    } else if t <= ReleaseTime(target) + REVEAL_DEADLINE_S && Name(num, Abandoning) !in s.files {
      RevealStillPossible(cfg, s, t);
    } else {
      NoneSealed(cfg, s, num);
    }
    forall more | Commands(more, t) && (if Synced(s) then t > ReleaseTime(target) + REVEAL_DEADLINE_S || Name(num,
        Abandoning) in s.files
                                        else !s.local[num].Reveal?)
      ensures !RevealPublished(Steps(cfg, s, more), num)
    {
      NeverRevealed(cfg, s, num, Name(num, Abandoning) in s.files, t, more);
    }
  }

  /** A sealed reveal is published by the push, whatever the clock says. */
  lemma SealedIsPublished(cfg: Config, s: State, t: int)
    requires Inv(cfg, s) && s.agg.Idle? && HeadIsCommit(s.published) && !Synced(s)
    requires |s.local| > |s.published| && s.local[|s.published|].Reveal?
    ensures exists more :: Commands(more, t) && RevealPublished(Steps(cfg, s, more), |s.published|)
  {
    hide Inv, Steps, Resolves;
    WaitingResolves(cfg, s);
    SyncsTo(cfg, s);
    assert Commands(ToSync(s), t) && RevealPublished(Steps(cfg, s, ToSync(s)), |s.published|);
  }

  lemma RevealStillPossible(cfg: Config, s: State, t: int)
    requires Inv(cfg, s) && s.agg.Idle? && Synced(s) && HeadIsCommit(s.published)
    requires t <= ReleaseTime(Head(s.published).target) + REVEAL_DEADLINE_S && Name(|s.published|, Abandoning) !in s.files
    ensures exists more :: Commands(more, t) && RevealPublished(Steps(cfg, s, more), |s.published|)
  {
    hide Inv, Steps;
    var target := Head(s.published).target;
    var now := if t < ReleaseTime(target) then ReleaseTime(target) else t;
    var more := RevealSteps(now, Some(target), Some(target), "");
    RevealOnce(cfg, s, now, Some(target), Some(target), "");
    assert Commands(more, t) && RevealPublished(Steps(cfg, s, more), |s.published|);
  }

  // ---------------------------------------------------------------- stalled

  /**
    A commit pulse in a git commit whose push failed: no command of the program changes anything
    at origin, in the checkout or on the host, ever again. Only the operator can push it.
   */
  lemma {:induction false} StalledForever(cfg: Config, s: State, t: int, more: seq<Event>)
    requires s.agg.Idle? && Stalled(s) && s.saved == |s.local| && Commands(more, t)
    ensures Steps(cfg, s, more) == s
    decreases |more|
  {
    hide Apply;
    if more != [] {
      assert more[0] in more;
      StalledKeeps(cfg, s, more[0]);
      StalledForever(cfg, s, t, more[1..]);
    }
  }

  lemma StalledKeeps(cfg: Config, s: State, e: Event)
    requires s.agg.Idle? && Stalled(s) && s.saved == |s.local| && !e.ByHand?
    ensures Apply(cfg, s, e) == s
  {
    hide CommitOutcome, RevealOutcome, AbandonOutcome, FinalizeOutcome;
  }

  /** The first commit of an empty log, sealed, committed to git and not pushed. */
  function StallSteps(E: Bytes): seq<Event> {
    [StartCommit(GENESIS_UNIX - 50, 1), CallCommit(E, Answered), SealCommit(""), PushFails]
  }

  /** It happens: the host answered, the pulse was sealed, and the push of it failed. */
  lemma StallHappens(cfg: Config, E: Bytes)
    ensures var s := Run(cfg, [], StallSteps(E)); s.agg.Idle? && Stalled(s) && s.saved == |s.local| && s.published == []
  {
    hide Run, Steps, Apply, Stalled;
    var s0 := State([], [], 0, map[], [], Idle);
    EmptyRun(cfg, []);
    RunThenSteps(cfg, [], [], StallSteps(E));
    assert [] + StallSteps(E) == StallSteps(E);
    FourSteps(cfg, s0, StartCommit(GENESIS_UNIX - 50, 1), CallCommit(E, Answered), SealCommit(""), PushFails);
    FirstCommit(cfg, E);
  }

  lemma EmptyRun(cfg: Config, genesis: Chain)
    ensures Run(cfg, genesis, []) == State(genesis, genesis, |genesis|, map[], [], Idle)
  {
  }

  lemma FirstCommit(cfg: Config, E: Bytes)
    ensures var s0 := State([], [], 0, map[], [], Idle);
            var t := Apply(cfg, Apply(cfg, s0, StartCommit(GENESIS_UNIX - 50, 1)), CallCommit(E, Answered));
            var s := Apply(cfg, Apply(cfg, t, SealCommit("")), PushFails);
            s.agg.Idle? && Stalled(s) && s.saved == |s.local| && s.published == []
  {
    hide Steps, ApplyReveal, ApplyFail, ApplyScan, ApplyFinalize, ApplyRollback;
    assert Pending(map[]) == {};
  }

  /** After any run some continuation by the program's commands publishes something if and only if it has not stalled. */
  lemma GoesOnIff(cfg: Config, genesis: Chain, events: seq<Event>, t: int)
    requires GenesisOk(cfg, genesis) && NoZeroHash(cfg)
    ensures var s := Run(cfg, genesis, events + [Crash]);
            (exists more :: Commands(more, t) && Steps(cfg, s, more).published != s.published) <==> !Stalled(s)
  {
    hide Run, Steps, Inv, NoZeroHash, GenesisOk, Stalled, Commands;
    CrashedRun(cfg, genesis, events);
    var s := Run(cfg, genesis, events + [Crash]);
    Linked(cfg, s);
    if Stalled(s) {
      StalledIsSaved(cfg, s);
      forall more | Commands(more, t) ensures Steps(cfg, s, more).published == s.published { StalledForever(cfg, s, t, more); }
    } else {
      SomethingIsPublished(cfg, s, t);
    }
  }

  lemma StalledIsSaved(cfg: Config, s: State)
    requires Inv(cfg, s) && Stalled(s)
    ensures s.saved == |s.local|
  {
  }

  lemma SomethingIsPublished(cfg: Config, s: State, t: int)
    requires Inv(cfg, s) && s.agg.Idle? && !Stalled(s)
    ensures exists more :: Commands(more, t) && Steps(cfg, s, more).published != s.published
  {
    hide Inv, Steps;
    Linked(cfg, s);
    if !Synced(s) {
      LongerIfUnsynced(s);
      SyncsTo(cfg, s);
      assert Commands(ToSync(s), t) && Steps(cfg, s, ToSync(s)).published != s.published;
    } else if HeadIsCommit(s.published) {
      FailsFrom(cfg, s, "");
      assert Commands(FailSteps(""), t) && Steps(cfg, s, FailSteps("")).published != s.published;
    } else {
      SkipIsPublished(cfg, s);
      var more := [MintSkip(false, ""), Publish];
      assert Commands(more, t) && Steps(cfg, s, more).published != s.published;
    }
  }

  lemma SkipIsPublished(cfg: Config, s: State)
    requires Inv(cfg, s) && s.agg.Idle? && Synced(s) && !HeadIsCommit(s.local)
    ensures Steps(cfg, s, [MintSkip(false, ""), Publish]).published == s.local + [SkipOf(cfg, s.local)]
  {
    hide Steps, ChainOk, CommitsOk, FilesOk, AggOk;
    TwoSteps(cfg, s, MintSkip(false, ""), Publish);
  }
}
