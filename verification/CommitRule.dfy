/**
  What the answers of the pre-round rule mean, said of the log, the checks, Rekor and the relays
  themselves with every number written out. CommitBound follows the walk; here is its meaning.
 */
module CommitRule {
  import opened Hashing
  import opened CommitBound

  /** When the commit is known to have been public: Rekor's time, or a local record where Rekor gives no answer. */
  function PublicTime(w: World, num: nat): Option<int> {
    if w.online && w.rekor(num).Found? then Some(w.rekor(num).time)
    else if w.online && w.rekor(num).NoneFound? then None
    else w.check(num).localAnchor
  }

  /** A current commit, not known to be bad, for a round at or after the given time. */
  predicate IsCommitAfter(w: World, num: nat, after: int) {
    && num in w.pulses && w.pulses[num].current && num !in w.known
    && w.pulses[num].body.CommitBody? && w.pulses[num].body.release >= after
  }

  /** Such a commit that verifies, and was stamped and public before its round. */
  predicate Usable(w: World, num: nat, after: int) {
    && IsCommitAfter(w, num, after)
    && var c, release := w.check(num), w.pulses[num].body.release;
    && c.ok && c.tsaLatest.Some? && c.tsaLatest.value < release
    && PublicTime(w, num).Some? && PublicTime(w, num).value < release
  }

  /** Such a commit that fails its own check in an authentic log, or was stamped or public too late or not at all. */
  predicate Unusable(w: World, num: nat, after: int, now: int) {
    && IsCommitAfter(w, num, after)
    && var c, release := w.check(num), w.pulses[num].body.release;
    || (!c.ok && c.tlogOk && !c.structural)
    || (c.ok && c.tsaLatest.Some? && c.tsaLatest.value >= release)
    || (c.ok && c.tsaLatest.Some? && PublicTime(w, num).Some? && PublicTime(w, num).value >= release)
    || (c.ok && c.tsaLatest.Some? && w.online && w.rekor(num).NoneFound? && now - release >= 1500)
  }

  /** Such a commit that Rekor does not have yet, while it still may. */
  predicate Waiting(w: World, num: nat, after: int, now: int) {
    && IsCommitAfter(w, num, after)
    && var c, release := w.check(num), w.pulses[num].body.release;
    && c.ok && c.tsaLatest.Some? && c.tsaLatest.value < release
    && w.online && w.rekor(num).NoneFound? && now - release < 1500
  }

  /** The walk gets past this pulse. */
  predicate GoesPast(w: World, num: nat, after: int, now: int) {
    num in w.pulses && (!IsCommitAfter(w, num, after) || Unusable(w, num, after, now))
  }

  lemma OpenIs(w: World, num: nat, after: int, now: int)
    requires num in w.pulses
    ensures Open(w, num, after, now) <==> !GoesPast(w, num, after, now)
  {
  }

  lemma StopIs(H: HashFn, w: World, after: int, now: int, sel: Selection)
    requires sel != NoCommit && Open(w, sel.num, after, now) && StopsRight(H, w, now, sel)
    ensures sel.Selected? <==> Usable(w, sel.num, after)
    ensures sel.WaitForAnchor? <==> Waiting(w, sel.num, after, now)
  {
    hide Provided;
    var num := sel.num;
    var c, release := w.check(num), w.pulses[num].body.release;
    var verdict := PublicationEvidence(w, num, release, now);
    assert verdict == Eligible <==> PublicTime(w, num).Some? && PublicTime(w, num).value < release;
    if c.ok && c.tsaLatest.Some? && verdict == Eligible { ProvidedIsSelected(H, w, num, now); }
  }

  lemma ProvidedIsSelected(H: HashFn, w: World, num: nat, now: int)
    requires num in w.pulses && w.pulses[num].body.CommitBody?
    ensures Provided(H, w, num, now).Selected? && Provided(H, w, num, now).num == num
  {
  }

  /** The walk gets as far as this seq. */
  predicate Arrives(w: World, num: nat, after: int, now: int) {
    20 <= num && forall s :: 20 <= s < num ==> GoesPast(w, s, after, now)
  }

  lemma StopArrives(H: HashFn, w: World, after: int, now: int, sel: Selection)
    requires IsSelection(H, w, after, now, sel) && sel != NoCommit
    ensures Arrives(w, sel.num, after, now) && sel.num in w.pulses && !GoesPast(w, sel.num, after, now)
    ensures Open(w, sel.num, after, now) && StopsRight(H, w, now, sel)
  {
    hide Open, StopsRight, GoesPast;
    OpenIsCommit(w, sel.num, after, now);
    OpenIs(w, sel.num, after, now);
    forall s | 20 <= s < sel.num ensures GoesPast(w, s, after, now) { OpenIs(w, s, after, now); }
  }

  lemma NothingArrives(H: HashFn, w: World, after: int, now: int)
    requires IsSelection(H, w, after, now, NoCommit)
    ensures exists end: nat :: end !in w.pulses && Arrives(w, end, after, now)
  {
    hide Open, StopsRight, GoesPast;
    var end: nat :| FIRST_ELIGIBLE_COMMIT <= end <= FIRST_ELIGIBLE_COMMIT + |w.pulses| && end !in w.pulses
        && Reaches(w, end) && AllPassed(w, end, after, now);
    forall s | 20 <= s < end ensures GoesPast(w, s, after, now) { OpenIs(w, s, after, now); }
  }

  /** Two places where the walk stops are one. */
  lemma OneStop(w: World, a: nat, b: nat, after: int, now: int)
    requires Arrives(w, a, after, now) && Arrives(w, b, after, now)
    requires !GoesPast(w, a, after, now) && !GoesPast(w, b, after, now)
    ensures a == b
  {
    hide GoesPast;
  }

  /**
    What the rule selects: a commit is the one selected if and only if it is usable and every pulse
    before it, from seq 20 on, is there and is no such commit or an unusable one. The other answers
    mean as exactly: wait at the first commit that is neither when Rekor may still get it, no
    commit when the log ends first, and halt in every other case.
   */
  lemma SelectedIff(H: HashFn, w: World, after: int, now: int, sel: Selection, num: nat)
    requires IsSelection(H, w, after, now, sel)
    ensures (sel.Selected? && sel.num == num) <==> Usable(w, num, after) && Arrives(w, num, after, now)
    ensures (sel.WaitForAnchor? && sel.num == num) <==> Waiting(w, num, after, now) && Arrives(w, num, after, now)
    ensures (sel.Halt? && sel.num == num) <==>
            && num in w.pulses && Arrives(w, num, after, now) && !GoesPast(w, num, after, now)
            && !Usable(w, num, after) && !Waiting(w, num, after, now)
    ensures sel.NoCommit? <==> exists end: nat :: end !in w.pulses && Arrives(w, end, after, now)
  {
    hide *;
    NotPast(w, num, after, now);
    if sel.NoCommit? {
      NothingArrives(H, w, after, now);
      var end: nat :| end !in w.pulses && Arrives(w, end, after, now);
      if Arrives(w, num, after, now) && num in w.pulses && !GoesPast(w, num, after, now) {
        EndIsNoStop(w, num, end, after, now);
        OneStop(w, num, end, after, now);
      }
    } else {
      StopArrives(H, w, after, now, sel);
      StopIs(H, w, after, now, sel);
      NotPast(w, sel.num, after, now);
      if Arrives(w, num, after, now) && num in w.pulses && !GoesPast(w, num, after, now) {
        OneStop(w, num, sel.num, after, now);
      }
      forall end: nat | Arrives(w, end, after, now) && end !in w.pulses ensures false {
        EndIsNoStop(w, sel.num, end, after, now);
        OneStop(w, sel.num, end, after, now);
      }
    }
  }

  lemma EndIsNoStop(w: World, num: nat, end: nat, after: int, now: int)
    requires end !in w.pulses
    ensures !GoesPast(w, end, after, now)
  {
  }

  lemma NotPast(w: World, num: nat, after: int, now: int)
    ensures Usable(w, num, after) || Waiting(w, num, after, now) ==> num in w.pulses && !GoesPast(w, num, after, now)
    ensures !(Usable(w, num, after) && Waiting(w, num, after, now))
  {
  }

  /**
    What a selected commit gives: the reveal right after it if that is a verifying reveal of it; else
    a wait for 600 seconds after the round, unless a failure or a skip follows; else the round's
    own verified signature, hashed; else nothing.
   */
  lemma SelectedGives(H: HashFn, w: World, after: int, now: int, sel: Selection)
    requires IsSelection(H, w, after, now, sel) && sel.Selected?
    ensures sel.num in w.pulses && w.pulses[sel.num].body.CommitBody?
    ensures var c, next := w.pulses[sel.num].body, if sel.num + 1 in w.pulses then Some(w.pulses[sel.num + 1].body) else None;
            var revealed := next.Some? && next.value.RevealBody? && next.value.commitSeq == sel.num && w.pairOk(sel.num + 1);
            var closed := next.Some? && (next.value.FailureBody? || next.value.SkipBody?);
            var verified := w.online && w.relay(c.target).Some? && w.validRound(c.chain, c.target, w.relay(c.target).value);
            && (sel.provenance == FullAttested <==> revealed)
            && (sel.provenance == WaitForReveal <==> !revealed && !closed && now < c.release + 600)
            && (sel.provenance == CommitmentFallback <==> !revealed && (closed || now >= c.release + 600) && verified)
            && sel.rho == (if revealed then Some(next.value.randomness)
                           else if sel.provenance == CommitmentFallback then Some(H(w.relay(c.target).value)) else None)
  {
    StopArrives(H, w, after, now, sel);
    SelectedIsProvided(H, w, now, sel);
  }
}
