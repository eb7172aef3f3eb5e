/**
  Cycles that go well. A failure always succeeds when the host answers and the push goes
  through; when one cycle gets pulses out that an earlier one minted and did not push; and from
  any state in which a cycle can commit, one cycle with every call answered publishes its commit
  and the reveal of it, and leaves a state as good again.
 */
module CycleProgress {
  import opened Hashing
  import opened EntropyHost
  import opened Custody
  import opened CustodyRuns
  import opened CustodyProgress
  import opened CustodyRecovery
  import opened Pulse
  import opened Cycle

  predicate AllWell(luck: Luck) {
    luck.delivery == Answered && !luck.refused && luck.push.Pushed? && luck.finalize == Answered
  }

  // ---------------------------------------------------------------- a failure

  lemma SettlePublishes(cfg: Config, s: State, luck: Luck)
    requires luck.push.Pushed? && s.agg.Idle? && Dirty(s)
    ensures var u := Steps(cfg, s, SettleEvents(luck));
            && u.published == s.local && u.local == s.local && u.saved == |s.local| && u.agg.Idle? && u.signed == s.signed
            && u.files == if HeadIsResolver(s.local)
                          then Reached(luck.finalize, s.files, FinalizeOutcome(s.files, Head(s.local).commitNum,
                              cfg.hashOf(Head(s.local))).files)
                          else s.files
  {
    hide Steps, FinalizeOutcome, HeadIsResolver, Reached, ApplyCommit, ApplyReveal, ApplyFail, ApplyRollback, ApplyScan;
    ThreeSteps(cfg, s, Publish, StartFinalize, CallFinalize(luck.finalize));
    assert SettleEvents(luck) == [Publish, StartFinalize, CallFinalize(luck.finalize)];
  }

  lemma SealedIsIdle(cfg: Config, t: State, rest: string)
    requires t.agg == FailHave && HeadIsCommit(t.local)
    ensures Apply(cfg, t, SealFailure(rest)) == t.(agg := Idle, local := t.local + [FailureOf(cfg, t.local, rest)])
  {
    hide ApplyCommit, ApplyReveal, ApplyRollback, ApplyFinalize, ApplyScan;
  }

  lemma FailCommandMints(cfg: Config, s: State, luck: Luck)
    requires Inv(cfg, s) && s.agg.Idle? && Synced(s) && HeadIsCommit(s.local) && luck.delivery == Answered && !luck.refused
    ensures var u := Steps(cfg, s, FailCommand(luck));
            && u.agg.Idle? && u.local == s.local + [FailureOf(cfg, s.local, luck.rest)] && Dirty(u)
            && u.files == AbandonOutcome(s.files, |s.local|, HeadHash(cfg, s.local)).files
  {
    hide Steps, Apply, Inv, AbandonOutcome;
    ThreeSteps(cfg, s, StartFail, CallAbandon(Answered), SealFailure(luck.rest));
    FailAsked(cfg, s);
    Linked(cfg, s);
    SealedIsIdle(cfg, Apply(cfg, Apply(cfg, s, StartFail), CallAbandon(Answered)), luck.rest);
  }

  /**
    fail ends with the failure of the head commit published whenever the checkout is synced at a
    commit, the host answers, and the push succeeds, whatever happens to the finalize.
   */
  lemma FailPhaseSucceeds(cfg: Config, s: State, luck: Luck)
    requires Inv(cfg, s) && s.agg.Idle? && Synced(s) && HeadIsCommit(s.local)
    requires luck.delivery == Answered && !luck.refused && luck.push.Pushed?
    ensures FailEnding(cfg, s, luck) == Failed
    ensures Steps(cfg, s, FailPlan(luck)).published == s.published + [FailureOf(cfg, s.published, luck.rest)]
  {
    hide Steps, SettleEvents, FailCommand, Inv, AbandonOutcome, FinalizeOutcome;
    FailCommandMints(cfg, s, luck);
    StepsAppend(cfg, s, FailCommand(luck), SettleEvents(luck));
    SettlePublishes(cfg, Steps(cfg, s, FailCommand(luck)), luck);
  }

  // ---------------------------------------------------------------- prepare

  /** A synced checkout from which the next commit is possible: no commit at the head, and all that is held clears. */
  ghost predicate Ready(s: State) {
    && s.agg.Idle? && Synced(s) && !HeadIsCommit(s.published) && ResolvedBehind(s)
    && forall n :: n in Pending(s.files) ==> Clears(s.published, n, true)
  }

  /** The same of a checkout that may hold pulses for catch_up to push. */
  ghost predicate Admits(s: State) {
    && s.agg.Idle? && CanPush(s) && !HeadIsCommit(s.local) && ResolvedBehind(s)
    && forall n :: n in Pending(s.files) ==> Clears(s.local, n, true)
  }

  /** The pull succeeds, and so does the push of what waits. */
  predicate CatchesUp(s: State, x: Fates) {
    x.pulled && (Synced(s) || x.pushFirst.Pushed?)
  }

  function CaughtUp(s: State): State {
    s.(published := s.local, saved := |s.local|)
  }

  /** Every host call of the recover answered, for a listing of just what is held. */
  predicate CallsAnswered(s: State, x: Fates) {
    && x.listing.Some? && |x.calls| == |x.listing.value| == |Pending(s.files)|
    && (set n | n in x.listing.value) == Pending(s.files)
    && forall c :: c in x.calls ==> c == (Answered, Answered)
  }

  lemma CatchUpSyncs(cfg: Config, s: State, x: Fates)
    requires Inv(cfg, s) && Admits(s) && CatchesUp(s, x)
    ensures Steps(cfg, s, CatchUp(x)) == CaughtUp(s) && Inv(cfg, CaughtUp(s)) && Ready(CaughtUp(s))
  {
    hide Steps, Inv, ResolvedUpTo, Pending, Clears, HeadIsCommit;
    Linked(cfg, s);
    OnePush(cfg, s, x.pushFirst);
    UpToGrows(s.files, |s.published|, |s.local|);
    PublishKeeps(cfg, s);
  }

  lemma PublishKeeps(cfg: Config, s: State)
    requires Inv(cfg, s) && s.agg.Idle? && CanPush(s)
    ensures Inv(cfg, CaughtUp(s))
  {
    hide ChainOk, FilesOk, Held, Blocked, LastSigned;
  }

  lemma OnePush(cfg: Config, s: State, p: Pushing)
    requires s.agg.Idle?
    ensures Steps(cfg, s, PushEvents(p))
            == if p.NotSaved? || !Dirty(s) then (if p.Rejected? then s.(saved := |s.local|) else s)
               else if p.Pushed? then CaughtUp(s) else s.(saved := |s.local|)
  {
    hide Steps;
    StepsNone(cfg, s);
    OneStep(cfg, s, Publish);
    OneStep(cfg, s, PushFails);
  }

  lemma AnsweredScan(cfg: Config, s: State, n: Name)
    requires s.agg == Scan([n], true) && Pending(s.files) == {n}
    ensures Apply(cfg, Apply(cfg, Apply(cfg, s, ScanNext), CallScanAbandon(Answered)),
        CallScanFinalize(Answered)).agg == Scan([], true)
  {
    hide Apply, AbandonOutcome, FinalizeOutcome, Pending, Unpublished, HasResolver;
    assert [n] + [] == [n];
    CleanUnfold(cfg, s, n, [], (Answered, Answered), true);
    if Unpublished(s.local, n.num) {
      AbandonMoves(s.files, n, ZERO);
      FinalizeEmpties(AbandonOutcome(s.files, n.num, ZERO).files, Name(n.num, Abandoning), ZERO);
    } else if Clears(s.local, n, true) {
      Resolvable(s.local, n.num);
      FinalizeEmpties(s.files, n, cfg.hashOf(s.local[n.num]));
    }
  }

  lemma OneListed(order: seq<Name>, n: Name)
    requires |order| == 1 && (set m | m in order) == {n}
    ensures order == [n]
  {
    assert order[0] in (set m | m in order);
  }

  /** prepare goes through and leaves nothing held. */
  lemma PrepareClears(cfg: Config, s: State, x: Fates)
    requires Inv(cfg, s) && NoZeroHash(cfg) && Admits(s) && CatchesUp(s, x) && CallsAnswered(s, x)
    ensures Prepared(cfg, s, x)
    ensures var u := Steps(cfg, s, PreparePlan(cfg, s, x));
            && Inv(cfg, u) && Ready(u) && u.local == s.local == u.published && Pending(u.files) == {}
  {
    hide Steps, Inv, NoZeroHash, ScanBody, ScanEvents, Recovered, Ready, Admits, CallsAnswered, CatchUp;
    CatchUpSyncs(cfg, s, x);
    var r := CaughtUp(s);
    var scan := ScanEvents(x.listing, x.calls, true);
    ListedAgain(s, r, x);
    ScanClears(cfg, r, x);
    StepsAppend(cfg, s, CatchUp(x), scan);
    assert CatchUp(x) + scan == PreparePlan(cfg, s, x);
  }

  lemma ListedAgain(s: State, r: State, x: Fates)
    requires CallsAnswered(s, x) && r.files == s.files
    ensures CallsAnswered(r, x)
  {
  }

  lemma ScanClears(cfg: Config, s: State, x: Fates)
    requires Inv(cfg, s) && NoZeroHash(cfg) && Ready(s) && CallsAnswered(s, x)
    ensures Recovered(cfg, s, x.listing, x.calls, true)
    ensures var u := Steps(cfg, s, ScanEvents(x.listing, x.calls, true));
            && Inv(cfg, u) && Ready(u) && u.local == s.local && u.published == s.published && Pending(u.files) == {}
  {
    hide Steps, Inv, NoZeroHash, ScanBody, Apply, Clears, Pending, HeadIsCommit, ResolvedBehind;
    var order := x.listing.value;
    var scan := ScanEvents(x.listing, x.calls, true);
    ScanStarts(cfg, s, order, x.calls, true);
    StepsAppend(cfg, s, [StartScan(order, true)] + ScanBody(x.calls), [ScanNext]);
    var t := s.(agg := Scan(order, true));
    if Pending(s.files) == {} {
      BodyOfNone(cfg, t, x.calls);
      ScanLast(cfg, t);
      assert Steps(cfg, s, scan) == s;
    } else {
      var n :| n in Pending(s.files);
      OnlyOne(cfg, s, n);
      OneListed(order, n);
      assert x.calls[0] in x.calls && x.calls == [(Answered, Answered)];
      AnsweredScan(cfg, t, n);
      BodyOfOne(cfg, t, (Answered, Answered));
      assert Steps(cfg, s, scan) == Steps(cfg, s, CleanSteps(n, true)) by { CleanIsScan(n); }
      RecoverClearsIff(cfg, s, n, true);
    }
    StepsBehind(cfg, s, scan);
  }

  lemma BodyOfNone(cfg: Config, s: State, calls: seq<(Delivery, Delivery)>)
    requires |calls| == 0
    ensures Steps(cfg, s, ScanBody(calls)) == s
  {
    hide Steps;
    assert calls == [];
    BodyEnds(cfg, s);
  }

  lemma BodyOfOne(cfg: Config, s: State, call: (Delivery, Delivery))
    ensures Steps(cfg, s, ScanBody([call]))
            == Apply(cfg, Apply(cfg, Apply(cfg, s, ScanNext), CallScanAbandon(call.0)), CallScanFinalize(call.1))
  {
    hide Steps, Apply, ScanBody;
    ScanOne(cfg, s, [call]);
    assert [call][1..] == [];
    BodyEnds(cfg, Apply(cfg, Apply(cfg, Apply(cfg, s, ScanNext), CallScanAbandon(call.0)), CallScanFinalize(call.1)));
  }

  lemma CleanIsScan(n: Name)
    ensures CleanSteps(n, true) == ScanEvents(Some([n]), [(Answered, Answered)], true)
  {
    assert [(Answered, Answered)][1..] == [];
  }

  // ---------------------------------------------------------------- commit and reveal

  function CommitOf(cfg: Config, chain: Chain, x: Fates): Core {
    Commit(|chain| + 1, HeadHash(cfg, chain), x.commit.rest, cfg.commitOf(x.E), x.target)
  }

  predicate CommitWell(x: Fates) {
    && CommitInTime(x.commitNow, x.target) && x.commit.delivery == Answered && !x.commit.refused && x.commit.push.Pushed?
    && !PublishedLate(x)
  }

  lemma CommitCommandMints(cfg: Config, s: State, x: Fates)
    requires Ready(s) && s.saved <= |s.local| && Pending(s.files) == {} && CommitWell(x)
    ensures var u := Steps(cfg, s, CommitCommand(x));
            && u.agg.Idle? && u.local == s.local + [CommitOf(cfg, s.local, x)] && u.published == s.published && Dirty(u)
  {
    hide Steps, Apply, RollbackEvents, Pending, HeadIsCommit, HeadHash, ResolvedUpTo, CommitInTime;
    CommitEventsUnfold(cfg, s, x.commitNow, x.target, x.E, Answered, false, x.commit.rest, x.rollback);
    CommitAsked(cfg, s, x.commitNow, x.target, x.E);
    var t := Apply(cfg, Apply(cfg, s, StartCommit(x.commitNow, x.target)), CallCommit(x.E, Answered));
    CommitIsSealed(cfg, t, x.commit.rest);
    IdleRollback(cfg, Apply(cfg, t, SealCommit(x.commit.rest)), x.rollback);
  }

  lemma CommitIsSealed(cfg: Config, t: State, rest: string)
    requires t.agg.CommitHave?
    ensures Apply(cfg, t, SealCommit(rest))
            == t.(agg := Idle, local := t.local + [Commit(|t.local| + 1, HeadHash(cfg, t.local), rest,
                t.agg.commitment, t.agg.target)])
  {
    hide ApplyReveal, ApplyFail, ApplyRollback, ApplyFinalize, ApplyScan;
  }

  lemma CommitPhaseSucceeds(cfg: Config, s: State, x: Fates)
    requires Inv(cfg, s) && NoZeroHash(cfg) && Ready(s) && Pending(s.files) == {} && CommitWell(x)
    ensures Committed(cfg, s, x)
    ensures var u := Steps(cfg, s, CommitPlan(cfg, s, x));
            && Inv(cfg, u) && ResolvedBehind(u) && u.agg.Idle? && Synced(u)
            && u.published == s.published + [CommitOf(cfg, s.published, x)]
  {
    hide Steps, Inv, NoZeroHash, CommitCommand, Apply, ResolvedUpTo, Pending, HeadIsCommit;
    Linked(cfg, s);
    CommitCommandMints(cfg, s, x);
    StepsAppend(cfg, s, CommitCommand(x), [Publish]);
    var u := Steps(cfg, s, CommitCommand(x));
    OneStep(cfg, u, Publish);
    PushedIs(cfg, u);
    StepsBehind(cfg, s, CommitCommand(x) + [Publish]);
  }

  lemma PushedIs(cfg: Config, s: State)
    requires s.agg.Idle? && Dirty(s)
    ensures Apply(cfg, s, Publish) == CaughtUp(s)
  {
  }

  predicate RevealWell(x: Fates, target: nat) {
    && StillInWindow(x, target) && x.released.Some? && x.released.value >= target && AllWell(x.opening)
  }

  lemma RevealIsSealed(cfg: Config, t: State, rest: string)
    requires t.agg.RevealHave? && HeadIsCommit(t.local) && cfg.commitOf(t.agg.E) == Head(t.local).commitment
    ensures var u := Apply(cfg, t, SealReveal(rest));
            && u.agg.Idle? && u.files == t.files && u.published == t.published && u.saved == t.saved
            && u.local == t.local + [Reveal(|t.local| + 1, HeadHash(cfg, t.local), rest, |t.local|,
                HeadHash(cfg, t.local), Head(t.local).commitment, t.agg.E)]
  {
    hide Steps, ApplyCommit, ApplyRollback, ApplyFinalize, ApplyScan, ApplyFail;
  }

  lemma RevealMovesFile(cfg: Config, s: State, released: Option<nat>)
    requires Inv(cfg, s) && s.agg.RevealReady? && HeadIsCommit(s.local)
    requires Name(|s.local|, Abandoning) !in s.files
    ensures Pending(Apply(cfg, s, CallReveal(released, Answered)).files) == {Name(|s.local|, Revealing)}
  {
    hide Steps, ChainOk, CommitsOk, PulseOk, Refuses, ApplyCommit, ApplyRollback, ApplyFinalize, ApplyScan, ApplyFail, AggOk;
    var num := |s.local|;
    HeldAsCommitted(s.files, num, Head(s.local).commitment, Head(s.local).target);
    var found := Find(s.files, num, [Secret, Revealing]);
    assert Name(num, found.value) in Pending(s.files);
    OnlyOne(cfg, s, Name(num, found.value));
    RenamedOnly(s.files, num, found.value, Revealing);
  }

  lemma RenamedOnly(files: Files, num: nat, st: FileState, to: FileState)
    requires Pending(files) == {Name(num, st)} && IsPending(Name(num, to))
    ensures Name(num, st) in files && Pending(Rename(files, Name(num, st), Name(num, to))) == {Name(num, to)}
  {
    assert Name(num, st) in Pending(files);
    var after := Rename(files, Name(num, st), Name(num, to));
    forall n ensures n in Pending(after) <==> n == Name(num, to) {
      assert n in files && IsPending(n) ==> n in Pending(files);
    }
  }

  /** The reveal command on a fresh commit: the opening is minted and the secret waits to be retired. */
  lemma RevealCommandMints(cfg: Config, s: State, x: Fates)
    requires Inv(cfg, s) && s.agg.Idle? && Synced(s) && HeadIsCommit(s.local)
    requires RevealWell(x, Head(s.local).target) && Name(|s.local|, Abandoning) !in s.files
    ensures var u := Steps(cfg, s, RevealCommand(x));
            && u.agg.Idle? && |u.local| == |s.local| + 1 && s.local <= u.local && Head(u.local).Reveal?
            && Head(u.local).commitNum == |s.local| && cfg.commitOf(Head(u.local).E) == Head(s.local).commitment
            && Pending(u.files) == {Name(|s.local|, Revealing)} && Dirty(u)
  {
    hide Steps, Apply, Inv, Pending;
    ThreeSteps(cfg, s, StartReveal(x.revealNow, None), CallReveal(x.released, Answered), SealReveal(x.opening.rest));
    RevealStarted(cfg, s, x.revealNow, None);
    Linked(cfg, s);
    ReadyKeeps(cfg, s);
    var s1 := s.(agg := RevealReady);
    RevealAsked(cfg, s1, x.released);
    RevealMovesFile(cfg, s1, x.released);
    RevealIsSealed(cfg, Apply(cfg, s1, CallReveal(x.released, Answered)), x.opening.rest);
  }

  lemma RevealPhaseSucceeds(cfg: Config, s: State, x: Fates)
    requires Inv(cfg, s) && NoZeroHash(cfg) && ResolvedBehind(s) && s.agg.Idle? && Synced(s) && HeadIsCommit(s.local)
    requires RevealWell(x, Head(s.local).target) && Name(|s.local|, Abandoning) !in s.files
    ensures RevealEnding(cfg, s, x) == Ending.Revealed
    ensures var u := Steps(cfg, s, RevealPlan(cfg, s, x));
            && Inv(cfg, u) && Ready(u) && |u.published| == |s.published| + 1 && s.published <= u.published
            && Head(u.published).Reveal? && cfg.commitOf(Head(u.published).E) == Head(s.published).commitment
            && Pending(u.files) == {}
  {
    hide Steps, Inv, NoZeroHash, RevealCommand, SettleEvents, FinalizeOutcome, Pending, ResolvedUpTo, StillInWindow;
    RevealCommandMints(cfg, s, x);
    var u := Steps(cfg, s, RevealCommand(x));
    StepsAppend(cfg, s, RevealCommand(x), SettleEvents(x.opening));
    SettlePublishes(cfg, u, x.opening);
    FinalizeEmpties(u.files, Name(|s.local|, Revealing), cfg.hashOf(Head(u.local)));
    StepsBehind(cfg, s, RevealCommand(x) + SettleEvents(x.opening));
  }

  // ---------------------------------------------------------------- no commit and no refusal is left without a pulse

  /** A reveal command either mints the reveal or leaves the checkout as it was. */
  lemma RevealCommandEither(cfg: Config, s: State, x: Fates)
    requires s.agg.Idle? && Synced(s) && HeadIsCommit(s.local) && s.saved == |s.local|
    ensures var u := Steps(cfg, s, RevealCommand(x));
            && u.agg.Idle? && u.published == s.published && u.saved == s.saved
            && (u.local == s.local || (|u.local| == |s.local| + 1 && s.local <= u.local && Head(u.local).Reveal? && Dirty(u)))
  {
    hide Steps, RevealOutcome, RevealInTime, ApplyCommit, ApplyFail, ApplyRollback, ApplyFinalize, ApplyScan;
    ThreeSteps(cfg, s, StartReveal(x.revealNow, None), CallReveal(x.released, x.opening.delivery),
        if x.opening.refused then Crash else SealReveal(x.opening.rest));
  }

  /**
    The reveal phase never leaves a commit unresolved: on a synced checkout, however the reveal
    fares, if what it mints is pushed and the failure is answered and pushed, it ends with a reveal
    or a failure published right after the commit.
   */
  lemma RevealPhaseResolves(cfg: Config, s: State, x: Fates)
    requires Inv(cfg, s) && NoZeroHash(cfg) && s.agg.Idle? && Synced(s) && HeadIsCommit(s.local)
    requires x.opening.push.Pushed? && x.failing.delivery == Answered && !x.failing.refused && x.failing.push.Pushed?
    ensures var ending, after := RevealEnding(cfg, s, x), Steps(cfg, s, RevealPlan(cfg, s, x)).published;
            && |after| == |s.published| + 1 && s.published <= after
            && ending == (if Head(after).Reveal? then Ending.Revealed else Failed)
            && (Head(after).Reveal? || Head(after).Failure?)
  {
    hide Steps, Inv, NoZeroHash, RevealCommand, SettleEvents, FinalizeOutcome, FailPlan, FailEnding, StillInWindow;
    Linked(cfg, s);
    RevealCommandEither(cfg, s, x);
    StepsKeep(cfg, s, RevealCommand(x));
    var u := Steps(cfg, s, RevealCommand(x));
    StepsAppend(cfg, s, RevealCommand(x), SettleEvents(x.opening));
    StepsAppend(cfg, s, RevealCommand(x), FailPlan(x.failing));
    if !StillInWindow(x, Head(s.local).target) {
      FailPhaseSucceeds(cfg, s, x.failing);
    } else if u.local != s.local {
      SettlePublishes(cfg, u, x.opening);
    } else {
      FailPhaseSucceeds(cfg, u, x.failing);
    }
  }

  /** A commit command, with its rollback, ends with the commit minted or the checkout as it was. */
  lemma CommitCommandEither(cfg: Config, s: State, x: Fates)
    requires s.agg.Idle?
    ensures var u := Steps(cfg, s, CommitCommand(x));
            && u.agg.Idle? && u.published == s.published && u.saved == s.saved
            && (u.local == s.local || (|u.local| == |s.local| + 1 && s.local <= u.local && Head(u.local).Commit?))
  {
    hide Steps, Apply, RollbackEvents;
    var e: Event := if x.commit.refused then RefuseCommit else SealCommit(x.commit.rest);
    CommitEventsUnfold(cfg, s, x.commitNow, x.target, x.E, x.commit.delivery, x.commit.refused, x.commit.rest, x.rollback);
    var t := Apply(cfg, Apply(cfg, Apply(cfg, s, StartCommit(x.commitNow, x.target)), CallCommit(x.E, x.commit.delivery)), e);
    CommitHalf(cfg, s, x, e);
    RollbackEnds(cfg, t, x.rollback);
  }

  lemma CommitHalf(cfg: Config, s: State, x: Fates, e: Event)
    requires s.agg.Idle? && (e == RefuseCommit || e == SealCommit(x.commit.rest))
    ensures var started := Apply(cfg, s, StartCommit(x.commitNow, x.target));
            var t := Apply(cfg, Apply(cfg, started, CallCommit(x.E, x.commit.delivery)), e);
            && (t.agg.Idle? || (t.agg.RollbackAsk? && t.local == s.local)) && t.published == s.published && t.saved == s.saved
            && (t.local == s.local || (|t.local| == |s.local| + 1 && s.local <= t.local && Head(t.local).Commit?))
  {
    hide CommitOutcome, CommitInTime, HeadHash, HeadIsCommit, ApplyReveal, ApplyFail, ApplyRollback, ApplyFinalize, ApplyScan;
  }

  lemma RollbackEnds(cfg: Config, t: State, f: Fate)
    requires t.agg.Idle? || t.agg.RollbackAsk?
    ensures var u := Steps(cfg, t, RollbackEvents(f));
            u.agg.Idle? && u.local == t.local && u.published == t.published && u.saved == t.saved
  {
    hide Steps, AbandonOutcome, FinalizeOutcome, ApplyCommit, ApplyReveal, ApplyFail, ApplyFinalize, ApplyScan;
    ThreeSteps(cfg, t, CallRollbackPending(f.ask), CallRollbackAbandon(f.abandon), CallRollbackFinalize(f.finalize));
  }

  /** A refused commit is public: on a synced checkout at no commit, it ends with a skip published if its push goes through. */
  lemma RefusedCommitIsSkipped(cfg: Config, s: State, x: Fates)
    requires Inv(cfg, s) && s.agg.Idle? && Synced(s) && !HeadIsCommit(s.local)
    requires Steps(cfg, s, CommitCommand(x)).local == s.local && x.commit.push.Pushed?
    ensures CommitEnding(cfg, s, x) == Refused
    ensures Steps(cfg, s, CommitPlan(cfg, s, x)).published
            == s.published + [Skip(|s.published| + 1, HeadHash(cfg, s.published), x.commit.rest)]
  {
    hide Steps, Inv, CommitCommand;
    Linked(cfg, s);
    CommitCommandEither(cfg, s, x);
    var u := Steps(cfg, s, CommitCommand(x));
    StepsAppend(cfg, s, CommitCommand(x), SkipPlan(cfg, u, x.commit));
    SkipIsPublished(cfg, u, x.commit);
  }

  /** A commit published with less than 20 seconds to its round is failed at once, if the failure is answered and pushed. */
  lemma LateCommitIsFailed(cfg: Config, s: State, x: Fates)
    requires Inv(cfg, s) && NoZeroHash(cfg) && s.agg.Idle? && Synced(s)
    requires Steps(cfg, s, CommitCommand(x)).local != s.local && x.commit.push.Pushed?
    requires x.pushedAt + 20 > 1692803367 + (x.target - 1) * 3
    requires x.failing.delivery == Answered && !x.failing.refused && x.failing.push.Pushed?
    ensures CommitEnding(cfg, s, x) == Failed
    ensures var after := Steps(cfg, s, CommitPlan(cfg, s, x)).published;
            && |after| == |s.published| + 2 && s.published <= after && after[|s.published|].Commit? && Head(after).Failure?
  {
    hide Steps, Inv, NoZeroHash, CommitCommand, FailPlan, FailEnding;
    Linked(cfg, s);
    CommitCommandEither(cfg, s, x);
    var u := Steps(cfg, s, CommitCommand(x));
    StepsAppend(cfg, s, CommitCommand(x), PushEvents(x.commit.push));
    OnePush(cfg, u, x.commit.push);
    StepsKeep(cfg, s, CommitCommand(x) + PushEvents(x.commit.push));
    StepsAppend(cfg, s, CommitCommand(x) + PushEvents(x.commit.push), FailPlan(x.failing));
    FailPhaseSucceeds(cfg, CaughtUp(u), x.failing);
  }

  lemma SkipIsPublished(cfg: Config, u: State, luck: Luck)
    requires u.agg.Idle? && Synced(u) && !HeadIsCommit(u.local) && luck.push.Pushed? && u.saved <= |u.local|
    ensures Steps(cfg, u, SkipPlan(cfg, u, luck)).published
            == u.published + [Skip(|u.published| + 1, HeadHash(cfg, u.published), luck.rest)]
  {
    hide Steps, ApplyCommit, ApplyReveal, ApplyFail, ApplyRollback, ApplyFinalize, ApplyScan;
    OneStep(cfg, u, MintSkip(luck.offline, luck.rest));
    TwoSteps(cfg, u, MintSkip(luck.offline, luck.rest), Publish);
    assert [MintSkip(luck.offline, luck.rest)] + [Publish] == [MintSkip(luck.offline, luck.rest), Publish];
  }

  // ---------------------------------------------------------------- the cycle

  lemma FreshCommitIsNotAbandoned(cfg: Config, s: State, x: Fates)
    requires Inv(cfg, s) && Ready(s) && Pending(s.files) == {} && CommitWell(x)
    ensures Name(|s.local| + 1, Abandoning) !in Steps(cfg, s, CommitPlan(cfg, s, x)).files
  {
    hide Steps, Apply, RollbackEvents, HeadIsCommit, HeadHash, ResolvedUpTo, CommitInTime, Inv;
    CommitEventsUnfold(cfg, s, x.commitNow, x.target, x.E, Answered, false, x.commit.rest, x.rollback);
    CommitAsked(cfg, s, x.commitNow, x.target, x.E);
    Linked(cfg, s);
    CommitCommandMints(cfg, s, x);
    var t := Apply(cfg, Apply(cfg, s, StartCommit(x.commitNow, x.target)), CallCommit(x.E, Answered));
    CommitFiles(cfg, s, x.commitNow, x.target, x.E);
    CommitIsSealed(cfg, t, x.commit.rest);
    IdleRollback(cfg, Apply(cfg, t, SealCommit(x.commit.rest)), x.rollback);
    StepsAppend(cfg, s, CommitCommand(x), [Publish]);
    OneStep(cfg, Steps(cfg, s, CommitCommand(x)), Publish);
    PushedIs(cfg, Steps(cfg, s, CommitCommand(x)));
  }

  lemma CommitFiles(cfg: Config, s: State, now: int, target: nat, E: Bytes)
    requires s.agg.Idle? && Pending(s.files) == {}
    ensures Name(|s.local| + 1, Abandoning) !in Apply(cfg, Apply(cfg, s, StartCommit(now, target)), CallCommit(E, Answered)).files
  {
    hide Refuses, HeadIsCommit, CommitInTime;
    assert Name(|s.local| + 1, Abandoning) !in Pending(s.files);
  }

  /**
    From any state that admits a cycle, one cycle whose pull, calls and pushes all succeed
    publishes what waited, its own commit, and then an opening of it, and ends synced in a state
    that admits the next cycle, with nothing held.
   */
  lemma GoodCycleReveals(cfg: Config, s: State, x: Fates)
    requires Inv(cfg, s) && NoZeroHash(cfg) && Admits(s) && CatchesUp(s, x)
    requires CallsAnswered(s, x) && CommitWell(x) && RevealWell(x, x.target)
    ensures CycleEnding(cfg, s, x) == Ending.Revealed
    ensures var u := Steps(cfg, s, CyclePlan(cfg, s, x));
            && Inv(cfg, u) && Ready(u) && Admits(u) && Pending(u.files) == {}
            && |u.published| == |s.local| + 2 && s.local + [CommitOf(cfg, s.local, x)] <= u.published
            && Head(u.published).Reveal? && cfg.commitOf(Head(u.published).E) == cfg.commitOf(x.E)
  {
    hide Steps, Inv, NoZeroHash, PreparePlan, CommitPlan, RevealPlan, RevealEnding, CommitEnding, Prepared, Committed,
        Pending, Clears, ResolvedBehind, CallsAnswered, Admits;
    PrepareClears(cfg, s, x);
    var p := PreparePlan(cfg, s, x);
    var ready := Steps(cfg, s, p);
    CommitPhaseSucceeds(cfg, ready, x);
    FreshCommitIsNotAbandoned(cfg, ready, x);
    var c := CommitPlan(cfg, ready, x);
    StepsAppend(cfg, s, p, c);
    var done := Steps(cfg, ready, c);
    RevealPhaseSucceeds(cfg, done, x);
    StepsAppend(cfg, s, p + c, RevealPlan(cfg, done, x));
    ReadyAdmits(Steps(cfg, s, CyclePlan(cfg, s, x)));
  }

  lemma ReadyAdmits(s: State)
    requires Ready(s)
    ensures Admits(s)
  {
  }

  /**
    After any run, if another commit is possible, none waits at the head of the checkout and git
    would push what does wait, the next cycle is admitted.
   */
  lemma RunAdmits(cfg: Config, genesis: Chain, events: seq<Event>)
    requires GenesisOk(cfg, genesis) && NoZeroHash(cfg)
    requires var s := Run(cfg, genesis, events + [Crash]);
             CanCommitAgain(cfg, s) && !HeadIsCommit(s.local) && CanPush(s)
    ensures var s := Run(cfg, genesis, events + [Crash]); Inv(cfg, s) && Admits(s)
  {
    hide Run, Inv, NoZeroHash, GenesisOk, Clears, Pending, HeadIsCommit;
    CrashedRun(cfg, genesis, events);
    RunResolvedBehind(cfg, genesis, events + [Crash]);
  }

  // ---------------------------------------------------------------- pulses that wait

  /** The push of catch_up, or a skip minted while origin could not be asked and then pushed. */
  predicate PrepareGetsOut(s: State, x: Fates) {
    (Dirty(s) && x.pushFirst.Pushed?) || (x.skip.offline && !HeadIsCommit(s.local) && x.skip.push.Pushed?)
  }

  /** Without a pull only the handler publishes, when a commit is at the head. */
  predicate HandlerGetsOut(s: State, x: Fates) {
    HeadIsCommit(s.local) && Dirty(s) && x.failing.push.Pushed?
  }

  /**
    One cycle on a checkout that holds pulses an earlier one did not get out. They are at origin
    after it if and only if git saw them and the push of catch_up went through, or a skip could be
    minted offline and its push took them along; and when even the pull failed, if the handler's
    publish of an unresolved commit went through. Otherwise nothing changes at origin.
   */
  lemma WaitingPulsesOutIff(cfg: Config, s: State, x: Fates)
    requires Inv(cfg, s) && NoZeroHash(cfg) && s.agg.Idle? && !Synced(s)
    requires x.listing.Some? ==> (set n | n in x.listing.value) == Pending(s.files)
    ensures var after := Steps(cfg, s, CyclePlan(cfg, s, x)).published;
            && (s.local <= after <==> if x.pulled then PrepareGetsOut(s, x) else HandlerGetsOut(s, x))
            && (s.local <= after || after == s.published)
  {
    hide Steps, Inv, NoZeroHash, CyclePlan, PrepareGetsOut, HandlerGetsOut, Pending;
    Linked(cfg, s);
    LongerIfUnsynced(s);
    if x.pulled { PullGetsOut(cfg, s, x); } else { NoPullGetsOut(cfg, s, x); }
  }

  lemma NoPullGetsOut(cfg: Config, s: State, x: Fates)
    requires Inv(cfg, s) && s.agg.Idle? && !Synced(s) && !x.pulled
    ensures var after := Steps(cfg, s, CyclePlan(cfg, s, x)).published;
            if HandlerGetsOut(s, x) then s.local <= after else after == s.published
  {
    hide Steps, Inv, SettleEvents, FailEvents;
    StepsNone(cfg, s);
    UnsyncedFails(cfg, s, x.failing);
    StepsAppend(cfg, s, FailCommand(x.failing), SettleEvents(x.failing));
    UnsyncedSettles(cfg, s, x.failing);
  }

  lemma UnsyncedFails(cfg: Config, s: State, luck: Luck)
    requires s.agg.Idle? && !Synced(s)
    ensures Steps(cfg, s, FailCommand(luck)) == s
  {
    hide Steps, ApplyCommit, ApplyReveal, ApplyRollback, ApplyFinalize, ApplyScan;
    ThreeSteps(cfg, s, StartFail, CallAbandon(luck.delivery), if luck.refused then Crash else SealFailure(luck.rest));
  }

  lemma UnsyncedSettles(cfg: Config, s: State, luck: Luck)
    requires s.agg.Idle? && !Synced(s)
    ensures Steps(cfg, s, SettleEvents(luck)).published == if Dirty(s) && luck.push.Pushed? then s.local else s.published
  {
    hide Steps, FinalizeOutcome;
    OnePush(cfg, s, luck.push);
    var u := Steps(cfg, s, PushEvents(luck.push));
    var rest: seq<Event> := if luck.push.Pushed? then [StartFinalize, CallFinalize(luck.finalize)] else [];
    StepsAppend(cfg, s, PushEvents(luck.push), rest);
    StepsNone(cfg, u);
    TwoSteps(cfg, u, StartFinalize, CallFinalize(luck.finalize));
  }

  lemma PullGetsOut(cfg: Config, s: State, x: Fates)
    requires Inv(cfg, s) && NoZeroHash(cfg) && s.agg.Idle? && !Synced(s) && x.pulled
    requires x.listing.Some? ==> (set n | n in x.listing.value) == Pending(s.files)
    ensures var after := Steps(cfg, s, CyclePlan(cfg, s, x)).published;
            if PrepareGetsOut(s, x) then s.local <= after else after == s.published
  {
    hide Steps, Inv, NoZeroHash, CyclePlan, ScanEvents, SkipPlan, Pending, Recovered;
    Linked(cfg, s);
    OnePush(cfg, s, x.pushFirst);
    var u := Steps(cfg, s, CatchUp(x));
    if Dirty(s) && x.pushFirst.Pushed? {
      CatchUpFirst(cfg, s, x);
      PublishKeeps(cfg, s);
      var rest := CyclePlan(cfg, s, x)[|CatchUp(x)|..];
      StepsAppend(cfg, s, CatchUp(x), rest);
      StepsKeep(cfg, u, rest);
    } else {
      UnsyncedScans(cfg, u, x);
      SkipGetsOut(cfg, u, x.skip);
      var scan := ScanEvents(x.listing, x.calls, true);
      StepsAppend(cfg, s, CatchUp(x), scan);
      StepsAppend(cfg, s, CatchUp(x) + scan, SkipPlan(cfg, u, x.skip));
      RefusedPlan(cfg, s, x);
    }
  }

  lemma CatchUpFirst(cfg: Config, s: State, x: Fates)
    requires x.pulled
    ensures CatchUp(x) <= CyclePlan(cfg, s, x)
    ensures CyclePlan(cfg, s, x) == CatchUp(x) + CyclePlan(cfg, s, x)[|CatchUp(x)|..]
  {
    hide CatchUp, ScanEvents, SkipPlan, Steps, Prepared, Committed, RevealPlan, CommitPlan;
    assert CatchUp(x) <= PreparePlan(cfg, s, x);
  }

  lemma RefusedPlan(cfg: Config, s: State, x: Fates)
    requires x.pulled && !Prepared(cfg, s, x)
    ensures var p := CatchUp(x) + ScanEvents(x.listing, x.calls, true);
            CyclePlan(cfg, s, x) == p + SkipPlan(cfg, Steps(cfg, s, p), x.skip)
  {
    hide CatchUp, ScanEvents, SkipPlan, Steps, Prepared, Committed, RevealPlan, CommitPlan;
  }

  /** A checkout that is not synced is not scanned. */
  lemma UnsyncedScans(cfg: Config, u: State, x: Fates)
    requires u.agg.Idle? && !Synced(u)
    requires x.listing.Some? ==> (set n | n in x.listing.value) == Pending(u.files)
    ensures Steps(cfg, u, ScanEvents(x.listing, x.calls, true)) == u && !Recovered(cfg, u, x.listing, x.calls, true)
  {
    hide Steps, ScanBody, Pending;
    StepsNone(cfg, u);
    if x.listing.Some? {
      ScanStarts(cfg, u, x.listing.value, x.calls, true);
      StepsAppend(cfg, u, [StartScan(x.listing.value, true)] + ScanBody(x.calls), [ScanNext]);
      ScanLast(cfg, u);
    }
  }

  lemma SkipGetsOut(cfg: Config, u: State, luck: Luck)
    requires u.agg.Idle? && !Synced(u) && u.saved <= |u.local|
    ensures var after := Steps(cfg, u, SkipPlan(cfg, u, luck)).published;
            if luck.offline && !HeadIsCommit(u.local) && luck.push.Pushed? then u.local <= after else after == u.published
  {
    hide Steps, HeadHash;
    var skip := [MintSkip(luck.offline, luck.rest)];
    OneStep(cfg, u, MintSkip(luck.offline, luck.rest));
    StepsAppend(cfg, u, skip, PushEvents(luck.push));
    OnePush(cfg, Steps(cfg, u, skip), luck.push);
    assert skip + [] == skip;
  }
}
