/**
  The clock over whole runs: no commit pulse is for a round that was about to come out when its
  command started, and no reveal pulse opens a commit before its round or started past its
  deadline. Times are seconds and written out: round r comes out at 1692803367 + (r - 1) * 3.
 */
module CustodyTimes {
  import opened Hashing
  import opened EntropyHost
  import opened Custody
  import opened CustodyRuns
  import CustodyProgress

  /** A commit command for this round started 50 seconds or more before the round came out. */
  ghost predicate CommitStarted(events: seq<Event>, target: nat) {
    exists e :: e in events && e.StartCommit? && e.target == target && e.now + 50 <= 1692803367 + (target - 1) * 3
  }

  /** A reveal command started when the round was out for at most 600 seconds, by either clock it read. */
  ghost predicate RevealStarted(events: seq<Event>, target: nat) {
    exists e :: && e in events && e.StartReveal? && e.now <= 1692803367 + (target - 1) * 3 + 600
                && (e.latest.Some? ==> target <= e.latest.value && (e.latest.value - target) * 3 <= 600)
  }

  /** The host saw this round before it answered a reveal. */
  ghost predicate RoundSeen(events: seq<Event>, target: nat) {
    exists e :: e in events && e.CallReveal? && e.delivery == Answered && e.released.Some? && e.released.value >= target
  }

  ghost predicate PulseTimely(events: seq<Event>, chain: Chain, i: nat)
    requires i < |chain|
  {
    && (chain[i].Commit? ==> CommitStarted(events, chain[i].target))
    && (chain[i].Reveal? ==>
          && i > 0 && chain[i - 1].Commit?
          && RevealStarted(events, chain[i - 1].target) && RoundSeen(events, chain[i - 1].target))
  }

  ghost predicate ChainTimely(events: seq<Event>, chain: Chain) {
    forall i :: 0 <= i < |chain| ==> PulseTimely(events, chain, i)
  }

  /** What the command under way has already shown. */
  ghost predicate AggTimely(events: seq<Event>, s: State) {
    match s.agg
    case CommitReady(target) => CommitStarted(events, target)
    case CommitHave(_, target) => CommitStarted(events, target)
    case RevealReady => HeadIsCommit(s.local) && RevealStarted(events, Head(s.local).target)
    case RevealHave(_) =>
      HeadIsCommit(s.local) && RevealStarted(events, Head(s.local).target) && RoundSeen(events, Head(s.local).target)
    case _ => true
  }

  lemma TimelyGrows(events: seq<Event>, e: Event, target: nat)
    ensures CommitStarted(events, target) ==> CommitStarted(events + [e], target)
    ensures RevealStarted(events, target) ==> RevealStarted(events + [e], target)
    ensures RoundSeen(events, target) ==> RoundSeen(events + [e], target)
  {
    assert forall x :: x in events ==> x in events + [e];
  }

  lemma ChainTimelyGrows(events: seq<Event>, e: Event, chain: Chain)
    requires ChainTimely(events, chain)
    ensures ChainTimely(events + [e], chain)
  {
    hide CommitStarted, RevealStarted, RoundSeen;
    forall i | 0 <= i < |chain| ensures PulseTimely(events + [e], chain, i) {
      assert PulseTimely(events, chain, i);
      if chain[i].Commit? { TimelyGrows(events, e, chain[i].target); }
      if chain[i].Reveal? { TimelyGrows(events, e, chain[i - 1].target); }
    }
  }

  lemma ChainTimelyAppend(events: seq<Event>, chain: Chain, core: Core)
    requires ChainTimely(events, chain)
    requires core.Commit? ==> CommitStarted(events, core.target)
    requires core.Reveal? ==>
               HeadIsCommit(chain) && RevealStarted(events, Head(chain).target) && RoundSeen(events, Head(chain).target)
    ensures ChainTimely(events, chain + [core])
  {
    hide CommitStarted, RevealStarted, RoundSeen;
    forall i | 0 <= i < |chain| ensures PulseTimely(events, chain + [core], i) {
      assert PulseTimely(events, chain, i);
    }
  }

  lemma ChainTimelyPrefix(events: seq<Event>, chain: Chain, prefix: Chain)
    requires ChainTimely(events, chain) && prefix <= chain
    ensures ChainTimely(events, prefix)
  {
    hide CommitStarted, RevealStarted, RoundSeen;
    forall i | 0 <= i < |prefix| ensures PulseTimely(events, prefix, i) {
      assert PulseTimely(events, chain, i);
    }
  }

  lemma CommitStep(cfg: Config, s: State, events: seq<Event>, e: Event)
    requires ChainTimely(events, s.local) && AggTimely(events, s)
    requires e.StartCommit? || e.CallCommit? || e.RefuseCommit? || e.SealCommit?
    ensures ChainTimely(events + [e], Apply(cfg, s, e).local) && AggTimely(events + [e], Apply(cfg, s, e))
  {
    hide ChainTimely, RevealStarted, RoundSeen, CommitOutcome;
    ChainTimelyGrows(events, e, s.local);
    AggGrows(events, e, s);
    if e.SealCommit? && s.agg.CommitHave? {
      ChainTimelyAppend(events + [e], s.local,
          Commit(|s.local| + 1, HeadHash(cfg, s.local), e.rest, s.agg.commitment, s.agg.target));
    } else {
      assert e in events + [e];
    }
  }

  lemma AggGrows(events: seq<Event>, e: Event, s: State)
    requires AggTimely(events, s)
    ensures AggTimely(events + [e], s)
  {
    hide CommitStarted, RevealStarted, RoundSeen;
    if s.agg.CommitReady? || s.agg.CommitHave? {
      TimelyGrows(events, e, s.agg.target);
    } else if s.agg.RevealReady? || s.agg.RevealHave? {
      TimelyGrows(events, e, Head(s.local).target);
    }
  }

  lemma RevealStep(cfg: Config, s: State, events: seq<Event>, e: Event)
    requires Inv(cfg, s) && ChainTimely(events, s.local) && AggTimely(events, s)
    requires e.StartReveal? || e.CallReveal? || e.SealReveal?
    ensures ChainTimely(events + [e], Apply(cfg, s, e).local) && AggTimely(events + [e], Apply(cfg, s, e))
  {
    hide ChainTimely, CommitStarted, RevealOutcome, Inv, RevealInTime, RevealStarted, RoundSeen;
    ChainTimelyGrows(events, e, s.local);
    AggGrows(events, e, s);
    if e.StartReveal? {
      if HeadIsCommit(s.local) && RevealInTime(e.now, e.latest, Head(s.local).target) {
        StartsInTime(events, e, Head(s.local).target);
      }
    } else if e.CallReveal? {
      if s.agg.RevealReady? && HeadIsCommit(s.local) { CallSees(cfg, s, events, e); }
    } else if s.agg.RevealHave? && HeadIsCommit(s.local) {
      ChainTimelyAppend(events + [e], s.local, Reveal(|s.local| + 1, HeadHash(cfg, s.local), e.rest, |s.local|,
          HeadHash(cfg, s.local), Head(s.local).commitment, s.agg.E));
    }
  }

  lemma StartsInTime(events: seq<Event>, e: Event, target: nat)
    requires e.StartReveal? && RevealInTime(e.now, e.latest, target)
    ensures RevealStarted(events + [e], target)
  {
    assert e in events + [e];
  }

  lemma CallSees(cfg: Config, s: State, events: seq<Event>, e: Event)
    requires Inv(cfg, s) && s.agg.RevealReady? && HeadIsCommit(s.local) && e.CallReveal?
    ensures Apply(cfg, s, e).local == s.local
    ensures Apply(cfg, s, e).agg.Idle? || (Apply(cfg, s, e).agg.RevealHave? && RoundSeen(events + [e], Head(s.local).target))
  {
    hide RevealOutcome, Inv;
    assert e in events + [e];
    if e.released.None? || e.released.value < Head(s.local).target {
      CustodyProgress.RevealRefused(cfg, s, e.released);
    }
  }

  lemma OtherStep(cfg: Config, s: State, events: seq<Event>, e: Event)
    requires Inv(cfg, s) && ChainTimely(events, s.local) && AggTimely(events, s)
    requires !(e.StartCommit? || e.CallCommit? || e.RefuseCommit? || e.SealCommit?)
    requires !(e.StartReveal? || e.CallReveal? || e.SealReveal?)
    ensures ChainTimely(events + [e], Apply(cfg, s, e).local) && AggTimely(events + [e], Apply(cfg, s, e))
  {
    hide ChainTimely, CommitStarted, RevealStarted, RoundSeen, AbandonOutcome, FinalizeOutcome, ChainOk, FilesOk, CommitsOk,
        AggOk, HeadHeld, Unpublished, HasResolver;
    ChainTimelyGrows(events, e, s.local);
    AggGrows(events, e, s);
    if e.ByHand? && !e.push {
      ChainTimelyPrefix(events + [e], s.local, s.published);
    } else if e.MintSkip? {
      ChainTimelyAppend(events + [e], s.local, Skip(|s.local| + 1, HeadHash(cfg, s.local), e.rest));
    } else if e.SealFailure? && HeadIsCommit(s.local) {
      ChainTimelyAppend(events + [e], s.local, Failure(|s.local| + 1, HeadHash(cfg, s.local), e.rest, |s.local|,
          HeadHash(cfg, s.local), Head(s.local).commitment));
    }
  }

  lemma {:induction false} RunTimely(cfg: Config, genesis: Chain, events: seq<Event>)
    requires GenesisOk(cfg, genesis) && NoZeroHash(cfg)
    ensures ChainTimely(events, Run(cfg, genesis, events).local) && AggTimely(events, Run(cfg, genesis, events))
    decreases |events|
  {
    hide Inv, Apply, NoZeroHash, ChainTimely, AggTimely;
    if events == [] {
      GenesisTimely(cfg, genesis);
    } else {
      var before, e := events[..|events| - 1], events[|events| - 1];
      assert before + [e] == events;
      var s := Run(cfg, genesis, before);
      RunTimely(cfg, genesis, before);
      RunKeeps(cfg, genesis, before);
      if e.StartCommit? || e.CallCommit? || e.RefuseCommit? || e.SealCommit? {
        CommitStep(cfg, s, before, e);
      } else if e.StartReveal? || e.CallReveal? || e.SealReveal? {
        RevealStep(cfg, s, before, e);
      } else {
        OtherStep(cfg, s, before, e);
      }
    }
  }

  lemma GenesisTimely(cfg: Config, genesis: Chain)
    requires GenesisOk(cfg, genesis)
    ensures ChainTimely([], genesis) && AggTimely([], Run(cfg, genesis, []))
  {
  }

  /**
    In every run, whatever was lost or crashed, each commit pulse of the checkout, and so of origin,
    is for a round that a commit command of the run targeted while it was 50 seconds or more away.
   */
  lemma CommitsPrecedeTheirRound(cfg: Config, genesis: Chain, events: seq<Event>, i: nat)
    requires GenesisOk(cfg, genesis) && NoZeroHash(cfg)
    requires var s := Run(cfg, genesis, events); i < |s.local| && s.local[i].Commit?
    ensures var s := Run(cfg, genesis, events); s.published <= s.local
    ensures var target := Run(cfg, genesis, events).local[i].target;
            exists e :: e in events && e.StartCommit? && e.target == target && e.now + 50 <= 1692803367 + (target - 1) * 3
  {
    hide Run, NoZeroHash, GenesisOk, ChainOk, CommitsOk, CommitStarted;
    RunTimely(cfg, genesis, events);
    RunIsLinked(cfg, genesis, events);
    StartedWhen(events, Run(cfg, genesis, events).local, i);
  }

  lemma StartedWhen(events: seq<Event>, chain: Chain, i: nat)
    requires ChainTimely(events, chain) && i < |chain| && chain[i].Commit?
    ensures exists e :: && e in events && e.StartCommit? && e.target == chain[i].target
                        && e.now + 50 <= 1692803367 + (chain[i].target - 1) * 3
  {
    assert PulseTimely(events, chain, i);
  }

  /**
    In every run each reveal pulse opens the commit right before it, and did so only after the host
    had seen that commit's round, in a command that started 600 seconds after the round or earlier.
   */
  lemma RevealsFollowTheirRound(cfg: Config, genesis: Chain, events: seq<Event>, i: nat)
    requires GenesisOk(cfg, genesis) && NoZeroHash(cfg)
    requires var s := Run(cfg, genesis, events); i < |s.local| && s.local[i].Reveal?
    ensures var chain := Run(cfg, genesis, events).local;
            && i > 0 && chain[i - 1].Commit? && cfg.commitOf(chain[i].E) == chain[i - 1].commitment
            && var target := chain[i - 1].target;
            && (exists e :: && e in events && e.CallReveal? && e.delivery == Answered
                            && e.released.Some? && e.released.value >= target)
            && (exists e :: && e in events && e.StartReveal? && e.now <= 1692803367 + (target - 1) * 3 + 600
                            && (e.latest.Some? ==> target <= e.latest.value && (e.latest.value - target) * 3 <= 600))
  {
    hide Run, NoZeroHash, GenesisOk, ChainOk, CommitsOk, ChainTimely, CommitStarted;
    RunTimely(cfg, genesis, events);
    RunIsLinked(cfg, genesis, events);
    OpenedWhen(cfg, events, Run(cfg, genesis, events).local, i);
  }

  lemma OpenedWhen(cfg: Config, events: seq<Event>, chain: Chain, i: nat)
    requires ChainTimely(events, chain) && ChainOk(cfg, chain) && i < |chain| && chain[i].Reveal?
    ensures i > 0 && chain[i - 1].Commit? && cfg.commitOf(chain[i].E) == chain[i - 1].commitment
    ensures RoundSeen(events, chain[i - 1].target) && RevealStarted(events, chain[i - 1].target)
  {
    hide CommitStarted, RevealStarted, RoundSeen;
    assert PulseTimely(events, chain, i) && PulseOk(cfg, chain, i);
    assert Head(chain[..i]) == chain[i - 1];
  }
}
