/**
  pulse.py: the aggregator's commands as they run, one after another, against a host whose
  replies can be lost. Each command is proved to be a sequence of the events of the custody
  model, so everything proved about runs holds for it.
 */
module Pulse {
  import opened Hashing
  import opened EntropyHost
  import opened Custody
  import opened CustodyRuns

  /** What one call to the host may do, given how it was delivered. */
  function Seen(delivery: Delivery, reply: Reply): Reply {
    if delivery == Answered then reply else Died
  }

  /**
    How a publish fares: pushed, committed to git and rejected by origin, or not even committed.
    Where git sees nothing new it returns at once, whatever would have come of a push.
   */
  datatype Pushing = Pushed | Rejected | NotSaved

  function PushEvents(p: Pushing): seq<Event> {
    match p
    case Pushed => [Publish]
    case Rejected => [PushFails]
    case NotSaved => []
  }

  /** How the three calls of the rollback fare. */
  datatype Fate = Fate(ask: Delivery, abandon: Delivery, finalize: Delivery)

  function RollbackEvents(f: Fate): seq<Event> {
    [CallRollbackPending(f.ask), CallRollbackAbandon(f.abandon), CallRollbackFinalize(f.finalize)]
  }

  function CommitEvents(now: int, target: nat, E: Bytes, delivery: Delivery, refused: bool, rest: string, f: Fate): seq<Event> {
    [StartCommit(now, target), CallCommit(E, delivery), if refused then RefuseCommit else SealCommit(rest)] + RollbackEvents(f)
  }

  function RevealEvents(now: int, latest: Option<nat>, released: Option<nat>, delivery: Delivery, refused: bool,
      rest: string): seq<Event> {
    [StartReveal(now, latest), CallReveal(released, delivery), if refused then Crash else SealReveal(rest)]
  }

  function FailEvents(delivery: Delivery, refused: bool, rest: string): seq<Event> {
    [StartFail, CallAbandon(delivery), if refused then Crash else SealFailure(rest)]
  }

  /** For every listed file: look at it, abandon it, finalize it; what does not apply does nothing. */
  function ScanBody(calls: seq<(Delivery, Delivery)>): seq<Event> {
    if calls == [] then []
    else [ScanNext, CallScanAbandon(calls[0].0), CallScanFinalize(calls[0].1)] + ScanBody(calls[1..])
  }

  /** One recover or abort-unpublished; `listing` is the answer to "pending", None when that call was lost. */
  function ScanEvents(listing: Option<seq<Name>>, calls: seq<(Delivery, Delivery)>, resolve: bool): seq<Event> {
    if listing.None? then [] else [StartScan(listing.value, resolve)] + ScanBody(calls) + [ScanNext]
  }

  /** The scan got to the end of its list: the checkout was synced and no call it needed was lost. */
  function Recovered(cfg: Config, s: State, listing: Option<seq<Name>>, calls: seq<(Delivery, Delivery)>, resolve: bool): bool {
    listing.Some? && Steps(cfg, s, [StartScan(listing.value, resolve)] + ScanBody(calls)).agg.Scan?
  }

  class Aggregator {
    const cfg: Config
    const host: Host
    var published: Chain
    var local: Chain
    var saved: nat

    constructor (cfg: Config, host: Host, genesis: Chain)
      requires host.commitOf == cfg.commitOf && host.files == map[] && host.signed == []
      ensures this.cfg == cfg && this.host == host && Valid()
      ensures View() == Run(cfg, genesis, [])
    {
      this.cfg, this.host, published, local, saved := cfg, host, genesis, genesis, |genesis|;
    }

    ghost predicate Valid()
      reads this, host
    {
      host.commitOf == cfg.commitOf && |published| <= saved <= |local|
    }

    ghost function During(agg: AggState): State
      reads this, host
    {
      State(published, local, saved, host.files, host.signed, agg)
    }

    ghost function View(): State
      reads this, host
    {
      During(Idle)
    }

    // -------------------------------------------------------------- calls

    method AskCommit(num: nat, target: nat, E: Bytes, delivery: Delivery) returns (reply: Reply)
      requires Valid()
      modifies host
      ensures Valid()
      ensures var o := CommitOutcome(cfg.commitOf, old(host.files), num, target, E);
              && host.files == Reached(delivery, old(host.files), o.files) && reply == Seen(delivery, o.reply)
              && host.signed == if delivery != NotReached && o.reply.CommitStatement?
                                then old(host.signed) + [(num, o.reply.commitment)] else old(host.signed)
    {
      if delivery == NotReached { return Died; }
      reply := host.Commit(num, target, E);
      if delivery == ReplyLost { return Died; }
    }

    method AskAbandon(num: nat, commitHash: Digest, delivery: Delivery) returns (reply: Reply)
      requires Valid()
      modifies host
      ensures Valid() && host.signed == old(host.signed)
      ensures var o := AbandonOutcome(old(host.files), num, commitHash);
              host.files == Reached(delivery, old(host.files), o.files) && reply == Seen(delivery, o.reply)
    {
      if delivery == NotReached { return Died; }
      reply := host.AbandonPrepare(num, commitHash);
      if delivery == ReplyLost { return Died; }
    }

    method AskReveal(num: nat, commitHash: Digest, released: Option<nat>, delivery: Delivery) returns (reply: Reply)
      requires Valid()
      modifies host
      ensures Valid() && host.signed == old(host.signed)
      ensures var o := RevealOutcome(cfg.commitOf, old(host.files), num, commitHash, released);
              host.files == Reached(delivery, old(host.files), o.files) && reply == Seen(delivery, o.reply)
    {
      if delivery == NotReached { return Died; }
      reply := host.RevealPrepare(num, commitHash, released);
      if delivery == ReplyLost { return Died; }
    }

    method AskFinalize(num: nat, resolver: Digest, delivery: Delivery) returns (reply: Reply)
      requires Valid()
      modifies host
      ensures Valid() && host.signed == old(host.signed)
      ensures var o := FinalizeOutcome(old(host.files), num, resolver);
              host.files == Reached(delivery, old(host.files), o.files) && reply == Seen(delivery, o.reply)
    {
      if delivery == NotReached { return Died; }
      reply := host.Finalize(num, resolver);
      if delivery == ReplyLost { return Died; }
    }

    // -------------------------------------------------------------- commands

    method Rollback(num: nat, f: Fate)
      requires Valid()
      modifies host
      ensures Valid()
      ensures View() == Steps(cfg, old(During(RollbackAsk(num))), RollbackEvents(f))
      ensures f.ask != Answered || (Name(num, Secret) !in old(host.files) && Name(num, Abandoning) !in old(host.files)) ==>
                host.files == old(host.files)
      ensures f == Fate(Answered, Answered, Answered) && Name(num, Revealing) !in old(host.files)
              && (Name(num, Secret) in old(host.files) || Name(num, Abandoning) in old(host.files)) ==>
                && Name(num, Secret) !in host.files && Name(num, Abandoning) !in host.files && Name(num, Abandoned) in host.files
                && host.files[Name(num, Abandoned)].E == None && host.files[Name(num, Abandoned)].resolver == Some(ZERO)
    {
      hide Steps, AbandonOutcome, FinalizeOutcome, ApplyCommit, ApplyReveal, ApplyFail, ApplyFinalize, ApplyScan;
      ThreeSteps(cfg, During(RollbackAsk(num)), CallRollbackPending(f.ask), CallRollbackAbandon(f.abandon),
          CallRollbackFinalize(f.finalize));
      RolledBack(host.files, num);
      if f.ask != Answered { return; }
      if Name(num, Secret) !in host.files && Name(num, Abandoning) !in host.files { return; }
      var reply := AskAbandon(num, ZERO, f.abandon);
      if !reply.FailureStatement? { return; }
      var done := AskFinalize(num, ZERO, f.finalize);
    }

    method Commit(now: int, target: nat, E: Bytes, delivery: Delivery, refused: bool, rest: string, f: Fate) returns (minted: bool)
      requires Valid()
      modifies this`local, host
      ensures Valid()
      ensures View() == Steps(cfg, old(View()), CommitEvents(now, target, E, delivery, refused, rest, f))
      ensures minted ==> |local| == |old(local)| + 1 && old(local) <= local
                         && Head(local).Commit? && Head(local).commitment == cfg.commitOf(E) && Head(local).target == target
                         && saved == |old(local)|
      ensures minted ==> now + 50 <= 1692803367 + (target - 1) * 3
      ensures minted ==> old(local) == old(published) && !HeadIsCommit(old(local)) && delivery == Answered && !refused
      ensures !minted ==> local == old(local)
      ensures now + 50 > 1692803367 + (target - 1) * 3 || old(local) != old(published) || HeadIsCommit(old(local)) ==>
                !minted && host.files == old(host.files) && host.signed == old(host.signed)
      ensures now + 50 <= 1692803367 + (target - 1) * 3 && old(local) == old(published) && !HeadIsCommit(old(local))
              && delivery == Answered && !refused && Free(old(host.files), |old(local)| + 1) ==>
                minted && host.signed == old(host.signed) + [(|local|, cfg.commitOf(E))]
    {
      hide Free, Steps, RollbackEvents, CommitEvents, ApplyReveal, ApplyFail, ApplyRollback, ApplyFinalize, ApplyScan,
          CommitOutcome;
      ghost var s := View();
      CommitEventsUnfold(cfg, s, now, target, E, delivery, refused, rest, f);
      IdleRollback(cfg, s, f);
      if local != published || HeadIsCommit(local) || !CommitInTime(now, target) { return false; }
      var num := |local| + 1;
      CommitSignsIff(cfg.commitOf, host.files, num, target, E);
      var reply := AskCommit(num, target, E, delivery);
      if !reply.CommitStatement? || refused {
        Rollback(num, f);
        return false;
      }
      local := local + [Custody.Commit(num, HeadHash(cfg, local), rest, reply.commitment, target)];
      IdleRollback(cfg, View(), f);
      return true;
    }

    method Reveal(now: int, latest: Option<nat>, released: Option<nat>, delivery: Delivery, refused: bool,
        rest: string) returns (minted: bool)
      requires Valid()
      modifies this`local, host
      ensures Valid()
      ensures View() == Steps(cfg, old(View()), RevealEvents(now, latest, released, delivery, refused, rest))
      ensures minted ==> HeadIsCommit(old(local)) && |local| == |old(local)| + 1 && old(local) <= local && Head(local).Reveal?
                         && cfg.commitOf(Head(local).E) == Head(old(local)).commitment
                         && saved == |old(local)|
      ensures minted ==> HeadIsCommit(old(local)) && var target := Head(old(local)).target;
                         && now <= 1692803367 + (target - 1) * 3 + 600
                         && (latest.Some? ==> target <= latest.value && (latest.value - target) * 3 <= 600)
      ensures minted ==> old(local) == old(published) && delivery == Answered && !refused
      ensures !minted ==> local == old(local)
      ensures old(local) != old(published) || !HeadIsCommit(old(local))
              || now > 1692803367 + (Head(old(local)).target - 1) * 3 + 600 ==>
                !minted && host.files == old(host.files)
    {
      hide Steps, ApplyCommit, ApplyFail, ApplyRollback, ApplyFinalize, ApplyScan, RevealOutcome;
      ThreeSteps(cfg, View(), StartReveal(now, latest), CallReveal(released, delivery),
          if refused then Crash else SealReveal(rest));
      if local != published || !HeadIsCommit(local) || !RevealInTime(now, latest, Head(local).target) { return false; }
      var num, commitHash := |local|, HeadHash(cfg, local);
      var reply := AskReveal(num, commitHash, released, delivery);
      if !reply.RevealStatement? || refused { return false; }
      if cfg.commitOf(reply.E) != Head(local).commitment { return false; }
      local := local + [Custody.Reveal(num + 1, commitHash, rest, num, commitHash, Head(local).commitment, reply.E)];
      return true;
    }

    method Fail(delivery: Delivery, refused: bool, rest: string) returns (minted: bool)
      requires Valid()
      modifies this`local, host
      ensures Valid()
      ensures View() == Steps(cfg, old(View()), FailEvents(delivery, refused, rest))
      ensures minted ==> HeadIsCommit(old(local)) && |local| == |old(local)| + 1 && old(local) <= local && Head(local).Failure?
                         && saved == |old(local)|
      ensures !minted ==> local == old(local)
    {
      hide Steps, ApplyCommit, ApplyReveal, ApplyRollback, ApplyFinalize, ApplyScan, AbandonOutcome;
      ThreeSteps(cfg, View(), StartFail, CallAbandon(delivery), if refused then Crash else SealFailure(rest));
      if local != published || !HeadIsCommit(local) { return false; }
      var num, commitHash := |local|, HeadHash(cfg, local);
      var reply := AskAbandon(num, commitHash, delivery);
      if !reply.FailureStatement? || refused { return false; }
      local := local + [Failure(num + 1, commitHash, rest, num, commitHash, Head(local).commitment)];
      return true;
    }

    method Finalize(delivery: Delivery)
      requires Valid()
      modifies host
      ensures Valid()
      ensures View() == Steps(cfg, old(View()), [StartFinalize, CallFinalize(delivery)])
    {
      TwoSteps(cfg, View(), StartFinalize, CallFinalize(delivery));
      if local != published || !HeadIsResolver(local) { return; }
      var reply := AskFinalize(Head(local).commitNum, cfg.hashOf(Head(local)), delivery);
    }

    method Skip(offline: bool, rest: string) returns (minted: bool)
      requires Valid()
      modifies this`local
      ensures Valid()
      ensures View() == Steps(cfg, old(View()), [MintSkip(offline, rest)])
      ensures minted <==> local != old(local)
    {
      OneStep(cfg, View(), MintSkip(offline, rest));
      if (!offline && local != published) || HeadIsCommit(local) { return false; }
      local := local + [Custody.Skip(|local| + 1, HeadHash(cfg, local), rest)];
      return true;
    }

    /** publish: a git commit and a push, if git sees anything new. */
    method Push(p: Pushing)
      requires Valid()
      modifies this`published, this`saved
      ensures Valid() && View() == Steps(cfg, old(View()), PushEvents(p))
      ensures p.Pushed? && old(saved) < |local| ==> published == local
    {
      StepsNone(cfg, View());
      OneStep(cfg, View(), Publish);
      OneStep(cfg, View(), PushFails);
      if saved == |local| || p.NotSaved? { return; }
      saved := |local|;
      if p.Pushed? { published := local; }
    }

    /** One listed file of a scan; `go` is false when a call was lost and the command ends there. */
    method CleanOne(name: Name, todo: seq<Name>, calls: (Delivery, Delivery), resolve: bool) returns (go: bool)
      requires Valid() && local == published
      modifies host
      ensures Valid()
      ensures During(if go then Scan(todo, resolve) else Idle)
              == Apply(cfg, Apply(cfg, Apply(cfg, old(During(Scan([name] + todo, resolve))), ScanNext),
                  CallScanAbandon(calls.0)), CallScanFinalize(calls.1))
    {
      hide Steps, Apply, AbandonOutcome, FinalizeOutcome, Unpublished, HasResolver, CommitOutcome, RevealOutcome;
      CleanUnfold(cfg, During(Scan([name] + todo, resolve)), name, todo, calls, resolve);
      if Unpublished(local, name.num) {
        var a := AskAbandon(name.num, ZERO, calls.0);
        if !a.FailureStatement? { return false; }
        var done := AskFinalize(name.num, ZERO, calls.1);
        return done.Finalized?;
      } else if resolve && name.state != Secret && HasResolver(local, name.num) {
        Resolvable(local, name.num);
        var done := AskFinalize(name.num, cfg.hashOf(local[name.num]), calls.1);
        return done.Finalized?;
      }
      return true;
    }

    /** recover (resolve) and abort-unpublished (not): `listing` is the host's sorted answer to "pending". */
    method Recover(listing: Option<seq<Name>>, calls: seq<(Delivery, Delivery)>, resolve: bool) returns (ok: bool)
      requires Valid()
      requires listing.Some? ==> |calls| == |listing.value| && (set n | n in listing.value) == Pending(host.files)
      modifies host
      ensures Valid()
      ensures View() == Steps(cfg, old(View()), ScanEvents(listing, calls, resolve))
      ensures ok == Recovered(cfg, old(View()), listing, calls, resolve)
    {
      hide Steps, Apply, ScanBody, Pending, CommitOutcome, RevealOutcome, AbandonOutcome, FinalizeOutcome;
      ghost var s := View();
      StepsNone(cfg, s);
      if listing.None? { return false; }
      var order := listing.value;
      ScanStarts(cfg, s, order, calls, resolve);
      ghost var last := Steps(cfg, s, [StartScan(order, resolve)] + ScanBody(calls));
      StepsAppend(cfg, s, [StartScan(order, resolve)] + ScanBody(calls), [ScanNext]);
      ScanLast(cfg, last);
      if local != published { return false; }
      assert order[0..] == order && calls[0..] == calls;
      for i := 0 to |order|
        invariant Valid() && local == published
        invariant Steps(cfg, During(Scan(order[i..], resolve)), ScanBody(calls[i..])) == last
      {
        ScanOne(cfg, During(Scan(order[i..], resolve)), calls[i..]);
        assert order[i..] == [order[i]] + order[i + 1..] && calls[i..][1..] == calls[i + 1..];
        var go := CleanOne(order[i], order[i + 1..], calls[i], resolve);
        if !go {
          IdleScan(cfg, View(), calls[i + 1..]);
          return false;
        }
      }
      assert order[|order|..] == [] && calls[|calls|..] == [];
      BodyEnds(cfg, During(Scan([], resolve)));
      return true;
    }
  }

  lemma StepsNone(cfg: Config, s: State)
    ensures Steps(cfg, s, []) == s
  {
  }

  lemma BodyEnds(cfg: Config, s: State)
    ensures Steps(cfg, s, ScanBody([])) == s
  {
  }

  /** The last step of a scan only closes it. */
  lemma ScanLast(cfg: Config, s: State)
    ensures s.agg.Idle? || s.agg == Scan([], false) || s.agg == Scan([], true) ==> Steps(cfg, s, [ScanNext]) == s.(agg := Idle)
  {
    hide Steps;
    OneStep(cfg, s, ScanNext);
  }

  lemma CleanUnfold(cfg: Config, s: State, name: Name, todo: seq<Name>, calls: (Delivery, Delivery), resolve: bool)
    requires s.agg == Scan([name] + todo, resolve)
    ensures Apply(cfg, Apply(cfg, Apply(cfg, s, ScanNext), CallScanAbandon(calls.0)), CallScanFinalize(calls.1))
            == if Unpublished(s.local, name.num) then
                 var o := AbandonOutcome(s.files, name.num, ZERO);
                 var files := Reached(calls.0, s.files, o.files);
                 if Seen(calls.0, o.reply).FailureStatement? then Finalizing(s, files, name.num, ZERO, todo, calls.1, resolve)
                 else After(s, files, Idle)
               else if resolve && name.state != Secret && HasResolver(s.local, name.num) then
                 Finalizing(s, s.files, name.num, cfg.hashOf(s.local[name.num]), todo, calls.1, resolve)
               else After(s, s.files, Scan(todo, resolve))
  {
    hide Steps, ApplyCommit, ApplyReveal, ApplyFail, ApplyRollback, ApplyFinalize, AbandonOutcome, FinalizeOutcome,
        Unpublished;
    assert ([name] + todo)[1..] == todo;
  }

  function Finalizing(s: State, files: Files, num: nat, resolver: Digest, todo: seq<Name>, delivery: Delivery,
      resolve: bool): State {
    var o := FinalizeOutcome(files, num, resolver);
    After(s, Reached(delivery, files, o.files), if Seen(delivery, o.reply).Finalized? then Scan(todo, resolve) else Idle)
  }

  lemma Resolvable(chain: Chain, num: nat)
    requires HasResolver(chain, num)
    ensures num < |chain|
  {
  }

  lemma ScanStarts(cfg: Config, s: State, order: seq<Name>, calls: seq<(Delivery, Delivery)>, resolve: bool)
    requires s.agg.Idle? && (set n | n in order) == Pending(s.files)
    ensures Steps(cfg, s, [StartScan(order, resolve)] + ScanBody(calls))
            == if Synced(s) then Steps(cfg, s.(agg := Scan(order, resolve)), ScanBody(calls)) else s
  {
    hide Steps, Pending, ScanBody;
    StepsAppend(cfg, s, [StartScan(order, resolve)], ScanBody(calls));
    OneStep(cfg, s, StartScan(order, resolve));
    if !Synced(s) { IdleScan(cfg, s, calls); }
  }

  lemma CommitEventsUnfold(cfg: Config, s: State, now: int, target: nat, E: Bytes, delivery: Delivery, refused: bool,
      rest: string, f: Fate)
    ensures Steps(cfg, s, CommitEvents(now, target, E, delivery, refused, rest, f))
            == Steps(cfg, Apply(cfg, Apply(cfg, Apply(cfg, s, StartCommit(now, target)), CallCommit(E, delivery)),
                                if refused then RefuseCommit else SealCommit(rest)), RollbackEvents(f))
  {
    hide Steps, Apply, RollbackEvents;
    var first := [StartCommit(now, target), CallCommit(E, delivery), if refused then RefuseCommit else SealCommit(rest)];
    StepsAppend(cfg, s, first, RollbackEvents(f));
    ThreeSteps(cfg, s, StartCommit(now, target), CallCommit(E, delivery), if refused then RefuseCommit else SealCommit(rest));
  }

  lemma IdleRollback(cfg: Config, s: State, f: Fate)
    requires s.agg.Idle?
    ensures Steps(cfg, s, RollbackEvents(f)) == s
  {
    hide Steps;
    ThreeSteps(cfg, s, CallRollbackPending(f.ask), CallRollbackAbandon(f.abandon), CallRollbackFinalize(f.finalize));
  }

  lemma ScanOne(cfg: Config, s: State, calls: seq<(Delivery, Delivery)>)
    requires calls != []
    ensures Steps(cfg, s, ScanBody(calls))
            == Steps(cfg, Apply(cfg, Apply(cfg, Apply(cfg, s, ScanNext), CallScanAbandon(calls[0].0)),
                CallScanFinalize(calls[0].1)), ScanBody(calls[1..]))
  {
    hide Steps, Apply;
    StepsAppend(cfg, s, [ScanNext, CallScanAbandon(calls[0].0), CallScanFinalize(calls[0].1)], ScanBody(calls[1..]));
    ThreeSteps(cfg, s, ScanNext, CallScanAbandon(calls[0].0), CallScanFinalize(calls[0].1));
  }

  lemma {:induction false} IdleScan(cfg: Config, s: State, calls: seq<(Delivery, Delivery)>)
    requires s.agg.Idle?
    ensures Steps(cfg, s, ScanBody(calls)) == s
    decreases |calls|
  {
    hide Steps, Apply;
    if calls == [] {
      BodyEnds(cfg, s);
    } else {
      ScanOne(cfg, s, calls);
      IdleIgnores(cfg, s, calls[0]);
      IdleScan(cfg, s, calls[1..]);
    }
  }

  lemma IdleIgnores(cfg: Config, s: State, call: (Delivery, Delivery))
    requires s.agg.Idle?
    ensures Apply(cfg, Apply(cfg, Apply(cfg, s, ScanNext), CallScanAbandon(call.0)), CallScanFinalize(call.1)) == s
  {
    hide ApplyCommit, ApplyReveal, ApplyFail, ApplyRollback, ApplyFinalize;
  }
}
