/**
  What the custody invariant means over whole runs: one secret at a time, an unresolved commit
  that can still be revealed or failed, a published chain that only grows and passes the
  transition test of ci/verify_chain.py, and no second commit statement once the first is public.
 */
module CustodyRuns {
  import opened Hashing
  import opened EntropyHost
  import opened Custody

  // ---------------------------------------------------------------- secrets

  /** The host still has, in a pending file of this seq, an E that opens this commitment. */
  ghost predicate Openable(cfg: Config, files: Files, num: nat, commitment: Digest) {
    exists n :: n in Pending(files) && n.num == num && files[n].E.Some? && cfg.commitOf(files[n].E.value) == commitment
  }

  lemma HeldOpens(cfg: Config, files: Files, num: nat, commitment: Digest, target: nat)
    requires FilesOk(cfg, files) && Held(files, num, commitment, target)
    ensures Openable(cfg, files, num, commitment)
  {
    var n := if Name(num, Secret) in files && HoldsAs(files, Name(num, Secret), commitment, target) then Name(num, Secret)
             else if Name(num, Revealing) in files && HoldsAs(files, Name(num, Revealing), commitment,
                 target) then Name(num, Revealing)
             else Name(num, Abandoning);
    assert IsPending(n) && n in Pending(files);
  }

  /** In every state of every run, whatever was lost or crashed, the host holds at most one secret. */
  lemma OneSecretAtATime(cfg: Config, genesis: Chain, events: seq<Event>)
    requires GenesisOk(cfg, genesis) && NoZeroHash(cfg)
    ensures |Pending(Run(cfg, genesis, events).files)| <= 1
  {
    hide Run, NoZeroHash, GenesisOk;
    RunKeeps(cfg, genesis, events);
    var files := Run(cfg, genesis, events).files;
    assert FilesOk(cfg, files);
    if n :| n in Pending(files) {
      forall m | m in Pending(files) ensures m == n { assert IsPending(m) && IsPending(n); }
      assert Pending(files) == {n};
    }
  }

  /** In every state of every run, a commit at either head, published or local, can still be opened. */
  lemma UnresolvedCommitIsHeld(cfg: Config, genesis: Chain, events: seq<Event>)
    requires GenesisOk(cfg, genesis) && NoZeroHash(cfg)
    ensures var s := Run(cfg, genesis, events);
            && (HeadIsCommit(s.published) ==> Openable(cfg, s.files, |s.published|, Head(s.published).commitment))
            && (HeadIsCommit(s.local) ==> Openable(cfg, s.files, |s.local|, Head(s.local).commitment))
  {
    hide Run, NoZeroHash, GenesisOk, Openable, FilesOk, ChainOk, CommitsOk, AggOk;
    RunKeeps(cfg, genesis, events);
    var s := Run(cfg, genesis, events);
    if HeadIsCommit(s.published) { HeldOpens(cfg, s.files, |s.published|, Head(s.published).commitment, Head(s.published).target); }
    if HeadIsCommit(s.local) { HeldOpens(cfg, s.files, |s.local|, Head(s.local).commitment, Head(s.local).target); }
  }

  // ---------------------------------------------------------------- the published chain and the statements

  lemma PublishedMoves(cfg: Config, s: State, e: Event)
    requires s.published <= s.local
    ensures s.published <= Apply(cfg, s, e).published
  {
  }

  /** Nothing published is ever changed or taken back. */
  lemma {:induction false} PublishedOnlyGrows(cfg: Config, genesis: Chain, events: seq<Event>, k: nat)
    requires GenesisOk(cfg, genesis) && NoZeroHash(cfg) && k <= |events|
    ensures Run(cfg, genesis, events[..k]).published <= Run(cfg, genesis, events).published
    decreases |events|
  {
    hide Inv, Apply, NoZeroHash, GenesisOk;
    if k == |events| {
      assert events[..k] == events;
    } else {
      var before := events[..|events| - 1];
      assert before[..k] == events[..k];
      PublishedOnlyGrows(cfg, genesis, before, k);
      RunIsLinked(cfg, genesis, before);
      PublishedMoves(cfg, Run(cfg, genesis, before), events[|events| - 1]);
    }
  }

  lemma RunIsLinked(cfg: Config, genesis: Chain, events: seq<Event>)
    requires GenesisOk(cfg, genesis) && NoZeroHash(cfg)
    ensures var s := Run(cfg, genesis, events); s.published <= s.local && ChainOk(cfg, s.local) && CommitsOk(s)
  {
    hide Run, ChainOk, CommitsOk, FilesOk, HeadHeld, AggOk, NoZeroHash, GenesisOk;
    RunKeeps(cfg, genesis, events);
  }

  /** The commitments of the statements signed for one seq, oldest first. */
  function SignedFor(signed: seq<(nat, Digest)>, num: nat): seq<Digest> {
    if signed == [] then []
    else
      var last := signed[|signed| - 1];
      SignedFor(signed[..|signed| - 1], num) + if last.0 == num then [last.1] else []
  }

  /** Only the seq after the local head is ever signed for. */
  lemma SigningMoves(cfg: Config, s: State, e: Event, num: nat)
    requires num <= |s.local|
    ensures SignedFor(Apply(cfg, s, e).signed, num) == SignedFor(s.signed, num)
  {
    var s' := Apply(cfg, s, e);
    if s'.signed != s.signed { SigningIsNext(cfg, s, e); }
  }

  lemma SigningIsNext(cfg: Config, s: State, e: Event)
    requires Apply(cfg, s, e).signed != s.signed
    ensures var s' := Apply(cfg, s, e);
            |s'.signed| == |s.signed| + 1 && s'.signed[..|s.signed|] == s.signed && s'.signed[|s.signed|].0 == |s.local| + 1
  {
    assert e.CallCommit?;
  }

  /** Once a commit is public at a seq, no event of the rest of the run signs for that seq again. */
  lemma {:induction false} NoSecondStatement(cfg: Config, genesis: Chain, events: seq<Event>, k: nat, num: nat)
    requires GenesisOk(cfg, genesis) && NoZeroHash(cfg) && k <= |events|
    requires num <= |Run(cfg, genesis, events[..k]).published|
    ensures SignedFor(Run(cfg, genesis, events).signed, num) == SignedFor(Run(cfg, genesis, events[..k]).signed, num)
    decreases |events|
  {
    hide Inv, Apply, NoZeroHash, GenesisOk, SignedFor;
    if k == |events| {
      assert events[..k] == events;
    } else {
      var before := events[..|events| - 1];
      assert before[..k] == events[..k];
      NoSecondStatement(cfg, genesis, before, k, num);
      PublishedOnlyGrows(cfg, genesis, before, k);
      RunIsLinked(cfg, genesis, before);
      SigningMoves(cfg, Run(cfg, genesis, before), events[|events| - 1], num);
    }
  }

  lemma {:induction false} LastSignedIsLast(signed: seq<(nat, Digest)>, num: nat)
    requires LastSigned(signed, num).Some?
    ensures SignedFor(signed, num) != [] && SignedFor(signed, num)[|SignedFor(signed, num)| - 1] == LastSigned(signed, num).value
  {
    if signed[|signed| - 1].0 != num { LastSignedIsLast(signed[..|signed| - 1], num); }
  }

  /**
    A published commit carries the last commitment its host ever signs for that seq, and the
    host would refuse to sign another one for any target and any entropy.
   */
  lemma PublishedCommitIsFinal(cfg: Config, genesis: Chain, events: seq<Event>, num: nat, target: nat, E: Bytes)
    requires GenesisOk(cfg, genesis) && NoZeroHash(cfg)
    requires var s := Run(cfg, genesis, events); 1 <= num <= |s.published| && s.published[num - 1].Commit?
    ensures var s := Run(cfg, genesis, events); var all := SignedFor(s.signed, num);
            && all != [] && all[|all| - 1] == s.published[num - 1].commitment
            && CommitOutcome(cfg.commitOf, s.files, num, target, E).reply == Died
  {
    hide Run, NoZeroHash, GenesisOk, ChainOk, SignedFor, LastSigned;
    RunIsLinked(cfg, genesis, events);
    var s := Run(cfg, genesis, events);
    assert s.local[num - 1] == s.published[num - 1];
    assert Blocked(s.files, num) && LastSigned(s.signed, num) == Some(s.local[num - 1].commitment);
    LastSignedIsLast(s.signed, num);
  }

  // ---------------------------------------------------------------- the transition test of ci/verify_chain.py

  /** Everything but the oldest pulses is of the current version. */
  predicate Current(core: Core) {
    !core.Legacy?
  }

  /** ci/verify_chain.py: the test of one pulse against the one before it. */
  predicate LegalStep(prev: Core, core: Core) {
    (Current(core) || Current(prev)) ==>
      || (core.Commit? && (prev.Legacy? || prev.Reveal? || prev.Failure? || prev.Skip?))
      || ((core.Reveal? || core.Failure?) && prev.Commit?)
      || (core.Skip? && (prev.Legacy? || prev.Reveal? || prev.Failure? || prev.Skip?))
  }

  predicate IllegalStep(chain: Chain, i: nat) {
    0 < i < |chain| && !LegalStep(chain[i - 1], chain[i])
  }

  function IllegalAt(chain: Chain): set<nat> {
    set i: nat | i < |chain| && IllegalStep(chain, i)
  }

  /** The loop over the published pulses: the tally of state machine violations is the number of illegal steps. */
  method CountViolations(chain: Chain) returns (violations: nat)
    ensures violations == |IllegalAt(chain)|
  {
    violations := 0;
    var prev: Option<Core> := None;
    for i := 0 to |chain|
      invariant prev == if i == 0 then None else Some(chain[i - 1])
      invariant violations == |IllegalAt(chain[..i])|
    {
      var core := chain[i];
      ghost var now := IllegalAt(chain[..i]);
      if prev.Some? && (Current(core) || Current(prev.value)) {
        var pt := prev.value;
        var legal := (core.Commit? && (pt.Legacy? || pt.Reveal? || pt.Failure? || pt.Skip?))
                     || ((core.Reveal? || core.Failure?) && pt.Commit?)
                     || (core.Skip? && (pt.Legacy? || pt.Reveal? || pt.Failure? || pt.Skip?));
        if !legal { violations := violations + 1; }
      }
      prev := Some(core);
      IllegalGrows(chain, i);
    }
    assert chain[..|chain|] == chain;
  }

  lemma IllegalGrows(chain: Chain, i: nat)
    requires i < |chain|
    ensures |IllegalAt(chain[..i + 1])| == |IllegalAt(chain[..i])| + if i > 0 && !LegalStep(chain[i - 1], chain[i]) then 1 else 0
  {
    hide LegalStep;
    var now, next := IllegalAt(chain[..i]), IllegalAt(chain[..i + 1]);
    forall j: nat | j < i ensures IllegalStep(chain[..i + 1], j) <==> IllegalStep(chain[..i], j) { }
    assert next == if i > 0 && !LegalStep(chain[i - 1], chain[i]) then now + {i} else now;
  }

  /**
    What passing that test means for a chain of any length: a resolving pulse stands exactly
    after each commit that has a successor, and no old pulse follows a new one.
   */
  lemma NoViolationsMeans(chain: Chain)
    ensures |IllegalAt(chain)| == 0 <==>
            forall i :: 0 < i < |chain| ==>
              && ((chain[i].Reveal? || chain[i].Failure?) <==> chain[i - 1].Commit?)
              && (chain[i].Legacy? ==> chain[i - 1].Legacy?)
  {
    if |IllegalAt(chain)| == 0 {
      forall i | 0 < i < |chain|
        ensures ((chain[i].Reveal? || chain[i].Failure?) <==> chain[i - 1].Commit?) && (chain[i].Legacy? ==> chain[i - 1].Legacy?)
      {
        assert i !in IllegalAt(chain) && !IllegalStep(chain, i);
      }
    } else {
      var i :| i in IllegalAt(chain);
      assert IllegalStep(chain, i);
    }
  }

  predicate NamesThePrevious(cfg: Config, chain: Chain, i: nat)
    requires 0 < i < |chain|
  {
    (chain[i].Reveal? || chain[i].Failure?) ==>
      && chain[i - 1].Commit? && chain[i].commitNum == chain[i - 1].num
      && chain[i].commitHash == cfg.hashOf(chain[i - 1])
      && chain[i].commitment == chain[i - 1].commitment
      && (chain[i].Reveal? ==> cfg.commitOf(chain[i].E) == chain[i - 1].commitment)
  }

  lemma StepIsLegal(cfg: Config, chain: Chain, i: nat)
    requires ChainOk(cfg, chain) && 0 < i < |chain|
    ensures LegalStep(chain[i - 1], chain[i]) && NamesThePrevious(cfg, chain, i)
  {
    assert PulseOk(cfg, chain, i) && PulseOk(cfg, chain, i - 1);
    assert Head(chain[..i]) == chain[i - 1];
  }

  /**
    Every chain any run publishes passes the transition test, and each reveal or failure in it
    names the pulse right before it, by number, by hash and by commitment.
   */
  lemma RunChainIsLegal(cfg: Config, genesis: Chain, events: seq<Event>)
    requires GenesisOk(cfg, genesis) && NoZeroHash(cfg)
    ensures var chain := Run(cfg, genesis, events).published;
            && |IllegalAt(chain)| == 0
            && forall i :: 0 < i < |chain| ==> NamesThePrevious(cfg, chain, i)
  {
    hide Run, NoZeroHash, GenesisOk, CommitsOk, ChainOk, PulseOk, LegalStep, NamesThePrevious;
    RunIsLinked(cfg, genesis, events);
    var s := Run(cfg, genesis, events);
    ChainPrefix(cfg, s.local, s.published);
    forall i: nat | 0 < i < |s.published| ensures !IllegalStep(s.published, i) && NamesThePrevious(cfg, s.published, i) {
      StepIsLegal(cfg, s.published, i);
    }
    assert IllegalAt(s.published) == {};
  }

  // ---------------------------------------------------------------- continuing from a state

  /** Further events from a given state. */
  function Steps(cfg: Config, s: State, events: seq<Event>): State
    decreases |events|
  {
    if events == [] then s else Steps(cfg, Apply(cfg, s, events[0]), events[1..])
  }

  lemma {:induction false} RunThenSteps(cfg: Config, genesis: Chain, events: seq<Event>, more: seq<Event>)
    ensures Run(cfg, genesis, events + more) == Steps(cfg, Run(cfg, genesis, events), more)
    decreases |more|
  {
    hide Apply;
    if more == [] {
      assert events + more == events;
    } else {
      var next := events + [more[0]];
      assert next[..|next| - 1] == events && next + more[1..] == events + more;
      RunThenSteps(cfg, genesis, next, more[1..]);
    }
  }

  lemma OneStep(cfg: Config, s: State, e: Event)
    ensures Steps(cfg, s, [e]) == Apply(cfg, s, e)
  {
    hide Apply;
    assert [e][1..] == [];
  }

  lemma TwoSteps(cfg: Config, s: State, a: Event, b: Event)
    ensures Steps(cfg, s, [a, b]) == Apply(cfg, Apply(cfg, s, a), b)
  {
    hide Apply;
    assert [a, b][1..] == [b];
    OneStep(cfg, Apply(cfg, s, a), b);
  }

  lemma ThreeSteps(cfg: Config, s: State, a: Event, b: Event, c: Event)
    ensures Steps(cfg, s, [a, b, c]) == Apply(cfg, Apply(cfg, Apply(cfg, s, a), b), c)
  {
    hide Apply;
    assert [a, b, c][1..] == [b, c];
    TwoSteps(cfg, Apply(cfg, s, a), b, c);
  }

  lemma FourSteps(cfg: Config, s: State, a: Event, b: Event, c: Event, d: Event)
    ensures Steps(cfg, s, [a, b, c, d]) == Apply(cfg, Apply(cfg, Apply(cfg, Apply(cfg, s, a), b), c), d)
  {
    hide Apply;
    var s1 := Apply(cfg, s, a);
    assert [a, b, c, d][1..] == [b, c, d] && [b, c, d][1..] == [c, d];
    assert Steps(cfg, s, [a, b, c, d]) == Steps(cfg, s1, [b, c, d]) == Steps(cfg, Apply(cfg, s1, b), [c, d]);
    TwoSteps(cfg, Apply(cfg, s1, b), c, d);
  }

  lemma FiveSteps(cfg: Config, s: State, a: Event, b: Event, c: Event, d: Event, e: Event)
    ensures Steps(cfg, s, [a, b, c, d, e]) == Apply(cfg, Apply(cfg, Apply(cfg, Apply(cfg, Apply(cfg, s, a), b), c), d), e)
  {
    hide Apply;
    assert [a, b, c, d, e][1..] == [b, c, d, e];
    FourSteps(cfg, Apply(cfg, s, a), b, c, d, e);
  }

  lemma {:induction false} StepsAppend(cfg: Config, s: State, a: seq<Event>, b: seq<Event>)
    ensures Steps(cfg, s, a + b) == Steps(cfg, Steps(cfg, s, a), b)
    decreases |a|
  {
    hide Apply;
    if a == [] {
      assert a + b == b;
    } else {
      assert (a + b)[1..] == a[1..] + b;
      StepsAppend(cfg, Apply(cfg, s, a[0]), a[1..], b);
    }
  }
}
