/**
  beacon-cycle.py: one cycle of the beacon, as the order in which it issues the aggregator's
  commands. Pushes may fail, host calls may be lost, and a cycle may find the commit of an
  earlier one unresolved. Each phase has a plan, the events of the custody model it issues in
  that order from a given state, and the phase is proved to carry out exactly its plan.
 */
module Cycle {
  import opened Hashing
  import opened EntropyHost
  import opened Custody
  import opened CustodyRuns
  import opened Pulse

  /** How the host calls, the checks and the push of one minting command fare. */
  datatype Luck = Luck(delivery: Delivery, refused: bool, push: Pushing, finalize: Delivery, offline: bool, rest: string)

  /** What one cycle can end with: its commit resolved in public, refused, or minted and not pushed. */
  datatype Ending = Revealed | Failed | Refused | NotPushed

  /** Everything a cycle does not decide: the times it reads, the answers and pushes it gets. */
  datatype Fates = Fates(
    pulled: bool, pushFirst: Pushing, listing: Option<seq<Name>>, calls: seq<(Delivery, Delivery)>, skip: Luck,
    commitNow: int, target: nat, E: Bytes, commit: Luck, rollback: Fate, pushedAt: int, failing: Luck,
    observed: bool, revealNow: int, released: Option<nat>, opening: Luck)

  /** Reveals are only begun this long before the deadline. */
  const REVEAL_ROOM_S := 90

  // ---------------------------------------------------------------- the plans

  /** The command minted something. */
  function Mints(cfg: Config, s: State, events: seq<Event>): bool {
    Steps(cfg, s, events).local != s.local
  }

  /** Publish, then retire the secret; nothing after a failed push. */
  function SettleEvents(luck: Luck): seq<Event> {
    PushEvents(luck.push) + if luck.push.Pushed? then [StartFinalize, CallFinalize(luck.finalize)] else []
  }

  function FailCommand(luck: Luck): seq<Event> {
    FailEvents(luck.delivery, luck.refused, luck.rest)
  }

  /** fail: the failure command, publish, finalize. A failure that was not minted does not stop the rest. */
  function FailPlan(luck: Luck): seq<Event> {
    FailCommand(luck) + SettleEvents(luck)
  }

  function FailEnding(cfg: Config, s: State, luck: Luck): Ending {
    if !luck.push.Pushed? then NotPushed else if Mints(cfg, s, FailCommand(luck)) then Failed else Refused
  }

  function RevealCommand(x: Fates): seq<Event> {
    RevealEvents(x.revealNow, None, x.released, x.opening.delivery, x.opening.refused, x.opening.rest)
  }

  /** The round was seen in time and there is room to publish before the deadline. */
  predicate StillInWindow(x: Fates, target: nat) {
    x.observed && x.revealNow <= ReleaseTime(target) + REVEAL_DEADLINE_S - REVEAL_ROOM_S
  }

  predicate GetsRevealed(cfg: Config, s: State, x: Fates)
    requires HeadIsCommit(s.local)
  {
    StillInWindow(x, Head(s.local).target) && Mints(cfg, s, RevealCommand(x))
  }

  /** reveal_phase: outside the window fail; inside it reveal, publish and finalize, or fail when refused. */
  function RevealPlan(cfg: Config, s: State, x: Fates): seq<Event>
    requires HeadIsCommit(s.local)
  {
    if !StillInWindow(x, Head(s.local).target) then FailPlan(x.failing)
    else if GetsRevealed(cfg, s, x) then RevealCommand(x) + SettleEvents(x.opening)
    else RevealCommand(x) + FailPlan(x.failing)
  }

  function RevealEnding(cfg: Config, s: State, x: Fates): Ending
    requires HeadIsCommit(s.local)
  {
    if !StillInWindow(x, Head(s.local).target) then FailEnding(cfg, s, x.failing)
    else if GetsRevealed(cfg, s, x) then (if x.opening.push.Pushed? then Ending.Revealed else NotPushed)
    else FailEnding(cfg, Steps(cfg, s, RevealCommand(x)), x.failing)
  }

  /** A skip is published if it was minted. */
  function SkipPlan(cfg: Config, s: State, luck: Luck): seq<Event> {
    var skip := [MintSkip(luck.offline, luck.rest)];
    skip + if Mints(cfg, s, skip) then PushEvents(luck.push) else []
  }

  function CommitCommand(x: Fates): seq<Event> {
    CommitEvents(x.commitNow, x.target, x.E, x.commit.delivery, x.commit.refused, x.commit.rest, x.rollback)
  }

  predicate PublishedLate(x: Fates) {
    ReleaseTime(x.target) - x.pushedAt < PUBLISH_MARGIN_S
  }

  /**
    commit_phase: a refused commit becomes a published skip; one published too late is failed, and
    so is one whose publish raised, by the handler around the whole cycle.
   */
  function CommitPlan(cfg: Config, s: State, x: Fates): seq<Event> {
    var c := CommitCommand(x);
    if !Mints(cfg, s, c) then c + SkipPlan(cfg, Steps(cfg, s, c), x.commit)
    else if !x.commit.push.Pushed? || PublishedLate(x) then c + PushEvents(x.commit.push) + FailPlan(x.failing)
    else c + [Publish]
  }

  predicate Committed(cfg: Config, s: State, x: Fates) {
    Mints(cfg, s, CommitCommand(x)) && x.commit.push.Pushed? && !PublishedLate(x)
  }

  /** How the cycle ends when its commit did not come out right. */
  function CommitEnding(cfg: Config, s: State, x: Fates): Ending {
    if !Mints(cfg, s, CommitCommand(x)) then Refused
    else FailEnding(cfg, Steps(cfg, s, CommitCommand(x) + PushEvents(x.commit.push)), x.failing)
  }

  function CatchUp(x: Fates): seq<Event> {
    PushEvents(x.pushFirst)
  }

  predicate Prepared(cfg: Config, s: State, x: Fates) {
    Recovered(cfg, Steps(cfg, s, CatchUp(x)), x.listing, x.calls, true)
  }

  /** prepare: publish what an earlier cycle minted, recover; a failed recover ends in a skip. */
  function PreparePlan(cfg: Config, s: State, x: Fates): seq<Event> {
    var p := CatchUp(x) + ScanEvents(x.listing, x.calls, true);
    if Prepared(cfg, s, x) then p else p + SkipPlan(cfg, Steps(cfg, s, p), x.skip)
  }

  /** The handler around the cycle: a commit at the head is failed. */
  function HandlerPlan(s: State, x: Fates): seq<Event> {
    if HeadIsCommit(s.local) then FailPlan(x.failing) else []
  }

  /** Pull and prepare; then resume the unresolved commit or make a new one; then reveal it. */
  function CyclePlan(cfg: Config, s: State, x: Fates): seq<Event> {
    var p := PreparePlan(cfg, s, x);
    var ready := Steps(cfg, s, p);
    if !x.pulled then HandlerPlan(s, x)
    else if !Prepared(cfg, s, x) then p
    else if HeadIsCommit(ready.local) then p + RevealPlan(cfg, ready, x)
    else
      var c := CommitPlan(cfg, ready, x);
      if !Committed(cfg, ready, x) then p + c
      else
        var done := Steps(cfg, ready, c);
        p + c + if HeadIsCommit(done.local) then RevealPlan(cfg, done, x) else []
  }

  function CycleEnding(cfg: Config, s: State, x: Fates): Ending {
    var ready := Steps(cfg, s, PreparePlan(cfg, s, x));
    if !x.pulled then (if HeadIsCommit(s.local) then FailEnding(cfg, s, x.failing) else Refused)
    else if !Prepared(cfg, s, x) then Refused
    else if HeadIsCommit(ready.local) then RevealEnding(cfg, ready, x)
    else if !Committed(cfg, ready, x) then CommitEnding(cfg, ready, x)
    else
      var done := Steps(cfg, ready, CommitPlan(cfg, ready, x));
      if HeadIsCommit(done.local) then RevealEnding(cfg, done, x) else Refused
  }

  // ---------------------------------------------------------------- the phases

  lemma {:induction false} StepsKeep(cfg: Config, s: State, events: seq<Event>)
    requires Inv(cfg, s) && NoZeroHash(cfg)
    ensures Inv(cfg, Steps(cfg, s, events)) && s.published <= Steps(cfg, s, events).published
    decreases |events|
  {
    hide Inv, Apply, NoZeroHash;
    if events != [] {
      ApplyKeeps(cfg, s, events[0]);
      LinkedHere(cfg, s);
      PublishedMoves(cfg, s, events[0]);
      StepsKeep(cfg, Apply(cfg, s, events[0]), events[1..]);
    }
  }

  lemma LinkedHere(cfg: Config, s: State)
    requires Inv(cfg, s)
    ensures s.published <= s.local
  {
  }

  /** publish, and finalize if it went through. */
  method Settle(a: Aggregator, luck: Luck)
    requires a.Valid()
    modifies a`published, a`saved, a.host
    ensures a.Valid() && a.View() == Steps(a.cfg, old(a.View()), SettleEvents(luck))
    ensures luck.push.Pushed? && old(a.saved) < |a.local| ==> a.published == a.local
  {
    hide Steps;
    ghost var s := a.View();
    a.Push(luck.push);
    var rest: seq<Event> := if luck.push.Pushed? then [StartFinalize, CallFinalize(luck.finalize)] else [];
    StepsAppend(a.cfg, s, PushEvents(luck.push), rest);
    StepsNone(a.cfg, a.View());
    if luck.push.Pushed? { a.Finalize(luck.finalize); }
  }

  /** fail: mint the failure pulse, publish it, retire the secret; an error at any point ends the cycle. */
  method FailPhase(a: Aggregator, luck: Luck) returns (ending: Ending)
    requires a.Valid()
    modifies a`published, a`local, a`saved, a.host
    ensures a.Valid() && a.View() == Steps(a.cfg, old(a.View()), FailPlan(luck))
    ensures ending == FailEnding(a.cfg, old(a.View()), luck) && !ending.Revealed?
    ensures ending.Failed? ==> HeadIsCommit(old(a.local)) && a.published == a.local && |a.local| == |old(a.local)| + 1
                               && old(a.local) <= a.local && Head(a.local).Failure?
  {
    hide Steps, FailEvents, SettleEvents;
    ghost var s := a.View();
    var minted := a.Fail(luck.delivery, luck.refused, luck.rest);
    StepsAppend(a.cfg, s, FailCommand(luck), SettleEvents(luck));
    Settle(a, luck);
    ending := if !luck.push.Pushed? then NotPushed else if minted then Failed else Refused;
  }

  /** reveal_phase: reveal inside the window, else fail; a refused reveal is failed too. */
  method RevealPhase(a: Aggregator, x: Fates) returns (ending: Ending)
    requires a.Valid() && HeadIsCommit(a.local)
    modifies a`published, a`local, a`saved, a.host
    ensures a.Valid() && a.View() == Steps(a.cfg, old(a.View()), RevealPlan(a.cfg, old(a.View()), x))
    ensures ending == RevealEnding(a.cfg, old(a.View()), x)
    ensures ending.Revealed? || ending.Failed? ==>
              && a.published == a.local && |a.local| == |old(a.local)| + 1 && old(a.local) <= a.local
              && (ending.Failed? ==> Head(a.local).Failure?)
              && (ending.Revealed? ==> Head(a.local).Reveal? && a.cfg.commitOf(Head(a.local).E) == Head(old(a.local)).commitment)
    ensures ending.Revealed? ==> x.observed && x.revealNow <= 1692803367 + (Head(old(a.local)).target - 1) * 3 + 510
  {
    hide Steps, RevealEvents, FailPlan, SettleEvents, FailEnding;
    ghost var s := a.View();
    if !(x.observed && x.revealNow <= ReleaseTime(Head(a.local).target) + REVEAL_DEADLINE_S - REVEAL_ROOM_S) {
      ending := FailPhase(a, x.failing);
      return;
    }
    var minted := a.Reveal(x.revealNow, None, x.released, x.opening.delivery, x.opening.refused, x.opening.rest);
    if minted {
      StepsAppend(a.cfg, s, RevealCommand(x), SettleEvents(x.opening));
      Settle(a, x.opening);
      return if x.opening.push.Pushed? then Ending.Revealed else NotPushed;
    }
    StepsAppend(a.cfg, s, RevealCommand(x), FailPlan(x.failing));
    ending := FailPhase(a, x.failing);
  }

  /** skip: a refusal is minted and published as a pulse of its own. */
  method SkipPhase(a: Aggregator, luck: Luck)
    requires a.Valid()
    modifies a`published, a`local, a`saved
    ensures a.Valid() && a.View() == Steps(a.cfg, old(a.View()), SkipPlan(a.cfg, old(a.View()), luck))
  {
    hide Steps;
    ghost var s := a.View();
    var minted := a.Skip(luck.offline, luck.rest);
    var skip := [MintSkip(luck.offline, luck.rest)];
    assert skip + [] == skip;
    if minted {
      StepsAppend(a.cfg, s, skip, PushEvents(luck.push));
      a.Push(luck.push);
    }
  }

  /** commit_phase. */
  method CommitPhase(a: Aggregator, x: Fates) returns (ending: Option<Ending>)
    requires a.Valid()
    modifies a`published, a`local, a`saved, a.host
    ensures a.Valid() && a.View() == Steps(a.cfg, old(a.View()), CommitPlan(a.cfg, old(a.View()), x))
    ensures ending.None? <==> Committed(a.cfg, old(a.View()), x)
    ensures ending.Some? ==> ending.value == CommitEnding(a.cfg, old(a.View()), x) && !ending.value.Revealed?
    ensures ending.Some? && ending.value.Failed? ==>
              && a.published == a.local && |a.local| >= 2 && a.local[|a.local| - 2].Commit? && Head(a.local).Failure?
    ensures ending.None? ==> a.published == a.local && |a.local| == |old(a.local)| + 1 && old(a.local) <= a.local
                             && Head(a.local).Commit? && Head(a.local).commitment == a.cfg.commitOf(x.E)
                             && Head(a.local).target == x.target
    ensures ending.None? ==>
              && x.commitNow + 50 <= 1692803367 + (x.target - 1) * 3 && x.pushedAt + 20 <= 1692803367 + (x.target - 1) * 3
    ensures x.commitNow + 50 > 1692803367 + (x.target - 1) * 3 ==> ending == Some(Refused)
    ensures x.pushedAt + 20 > 1692803367 + (x.target - 1) * 3 ==> ending.Some?
  {
    hide Steps, CommitEvents, FailPlan, SkipPlan, FailEnding, PushEvents;
    ghost var s := a.View();
    ghost var c := CommitCommand(x);
    var minted := a.Commit(x.commitNow, x.target, x.E, x.commit.delivery, x.commit.refused, x.commit.rest, x.rollback);
    if !minted {
      StepsAppend(a.cfg, s, c, SkipPlan(a.cfg, a.View(), x.commit));
      SkipPhase(a, x.commit);
      return Some(Refused);
    }
    a.Push(x.commit.push);
    PushedEvents();
    StepsAppend(a.cfg, s, c, PushEvents(x.commit.push));
    if !x.commit.push.Pushed? || ReleaseTime(x.target) - x.pushedAt < PUBLISH_MARGIN_S {
      StepsAppend(a.cfg, s, c + PushEvents(x.commit.push), FailPlan(x.failing));
      var failed := FailPhase(a, x.failing);
      return Some(failed);
    }
    return None;
  }

  lemma PushedEvents()
    ensures PushEvents(Pushed) == [Publish]
  {
  }

  /** prepare: go on only when the recover went through to its end. */
  method Prepare(a: Aggregator, x: Fates) returns (go: bool)
    requires a.Valid()
    requires x.listing.Some? ==> |x.calls| == |x.listing.value| && (set n | n in x.listing.value) == Pending(a.host.files)
    modifies a`published, a`local, a`saved, a.host
    ensures a.Valid() && a.View() == Steps(a.cfg, old(a.View()), PreparePlan(a.cfg, old(a.View()), x))
    ensures go <==> Prepared(a.cfg, old(a.View()), x)
    ensures go ==> a.local == old(a.local) == a.published
  {
    hide Steps, ScanEvents, Pending, SkipPlan, PushEvents;
    ghost var s := a.View();
    a.Push(x.pushFirst);
    ghost var caught := a.View();
    go := a.Recover(x.listing, x.calls, true);
    StepsAppend(a.cfg, s, CatchUp(x), ScanEvents(x.listing, x.calls, true));
    ghost var p := CatchUp(x) + ScanEvents(x.listing, x.calls, true);
    if go {
      RecoveredIsSynced(a.cfg, caught, x.listing, x.calls, true);
      return;
    }
    StepsAppend(a.cfg, s, p, SkipPlan(a.cfg, a.View(), x.skip));
    SkipPhase(a, x.skip);
  }

  lemma RecoveredIsSynced(cfg: Config, s: State, listing: Option<seq<Name>>, calls: seq<(Delivery, Delivery)>, resolve: bool)
    requires s.agg.Idle? && Recovered(cfg, s, listing, calls, resolve) && (set n | n in listing.value) == Pending(s.files)
    ensures Synced(s)
  {
    hide Steps, ScanBody, Pending;
    ScanStarts(cfg, s, listing.value, calls, resolve);
  }

  /**
    One whole cycle carries out its plan and reports its ending. The published chain only grows,
    the custody invariant holds afterwards, and a cycle that reports a reveal or a failure leaves
    exactly that at the published head, right after the commit it resolves.
   */
  method OneCycle(a: Aggregator, x: Fates) returns (ending: Ending)
    requires a.Valid() && Inv(a.cfg, a.View()) && NoZeroHash(a.cfg)
    requires x.listing.Some? ==> |x.calls| == |x.listing.value| && (set n | n in x.listing.value) == Pending(a.host.files)
    modifies a`published, a`local, a`saved, a.host
    ensures a.Valid() && a.View() == Steps(a.cfg, old(a.View()), CyclePlan(a.cfg, old(a.View()), x))
    ensures ending == CycleEnding(a.cfg, old(a.View()), x)
    ensures Inv(a.cfg, a.View()) && old(a.published) <= a.published
    ensures ending.Revealed? || ending.Failed? ==>
              && a.published == a.local && |a.local| >= 2 && a.local[|a.local| - 2].Commit?
              && (ending.Failed? ==> Head(a.local).Failure?)
              && (ending.Revealed? ==> Head(a.local).Reveal?)
              && (ending.Revealed? ==> a.cfg.commitOf(Head(a.local).E) == a.local[|a.local| - 2].commitment)
  {
    hide Steps, Inv, NoZeroHash, Pending, PreparePlan, CommitPlan, RevealPlan, RevealEnding, CommitEnding, Prepared,
        Committed, Mints;
    ghost var s := a.View();
    StepsKeep(a.cfg, s, CyclePlan(a.cfg, s, x));
    if !x.pulled {
      StepsNone(a.cfg, s);
      if !HeadIsCommit(a.local) { return Refused; }
      ending := FailPhase(a, x.failing);
      return;
    }
    var go := Prepare(a, x);
    ghost var p := PreparePlan(a.cfg, s, x);
    ghost var ready := a.View();
    if !go { return Refused; }
    if HeadIsCommit(a.local) {
      StepsAppend(a.cfg, s, p, RevealPlan(a.cfg, ready, x));
      ending := RevealPhase(a, x);
      return;
    }
    var refused := CommitPhase(a, x);
    ghost var c := CommitPlan(a.cfg, ready, x);
    StepsAppend(a.cfg, s, p, c);
    if refused.Some? { return refused.value; }
    StepsAppend(a.cfg, s, p + c, RevealPlan(a.cfg, a.View(), x));
    ending := RevealPhase(a, x);
  }
}
