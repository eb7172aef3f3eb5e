/**
  cli/notbefore/commitbound.py: which commit a contract consumes and the value it gives. The
  walk over the log, the publication evidence, and why nothing done after the round moves either.
 */
module CommitBound {
  import opened Hashing
  import opened Derive

  const FIRST_ELIGIBLE_COMMIT: nat := 20
  const ANCHOR_GRACE_S := 1500
  const REVEAL_DEADLINE_S := 600

  // ---------------------------------------------------------------- what the walk looks at

  datatype Body =
    | CommitBody(release: int, target: nat, commitment: Digest, chain: Digest)
    | RevealBody(commitSeq: nat, randomness: Digest, signature: Bytes)
    | FailureBody
    | SkipBody
    | OtherBody

  datatype Pulse = Pulse(current: bool, body: Body)

  /** check_commit: `structural` when the failure names the tree, the checkpoint or the anchor. */
  datatype Check = Check(ok: bool, tlogOk: bool, structural: bool, tsaLatest: Option<int>, localAnchor: Option<int>)

  datatype RekorAnswer = Found(time: int) | NoneFound | NoAnswer

  /** Everything outside the walk: the log source, the verifiers' answers, Rekor, the drand relays. */
  datatype World = World(
    pulses: map<nat, Pulse>, known: set<nat>, check: nat -> Check, rekor: nat -> RekorAnswer,
    pairOk: nat -> bool, online: bool, relay: nat -> Option<Bytes>, validRound: (Digest, nat, Bytes) -> bool)

  datatype Verdict = Eligible | Ineligible | NotYet | Unavailable

  /** publication_evidence. */
  function PublicationEvidence(w: World, num: nat, release: int, now: int): Verdict {
    var local := w.check(num).localAnchor;
    if w.online then
      match w.rekor(num)
      case Found(t) => if t < release then Eligible else Ineligible
      case NoneFound => if now - release < ANCHOR_GRACE_S then NotYet else Ineligible
      case NoAnswer => if local.None? then Unavailable else if local.value < release then Eligible else Ineligible
    else if local.None? then Unavailable
    else if local.value < release then Eligible else Ineligible
  }

  datatype Provenance = FullAttested | CommitmentFallback | WaitForReveal | NoRound

  /** rho is known for the two provenances that give a value. */
  datatype Selection =
    | NoCommit
    | WaitForAnchor(num: nat)
    | Halt(num: nat)
    | Selected(num: nat, provenance: Provenance, rho: Option<Digest>)

  predicate Candidate(w: World, num: nat, after: int) {
    && num in w.pulses && w.pulses[num].body.CommitBody? && w.pulses[num].current && num !in w.known
    && w.pulses[num].body.release >= after
  }

  /** Passed over: proved not eligible by something nobody can change after the round. */
  predicate ProvedIneligible(w: World, num: nat, now: int)
    requires num in w.pulses && w.pulses[num].body.CommitBody?
  {
    var c, release := w.check(num), w.pulses[num].body.release;
    if !c.ok then c.tlogOk && !c.structural
    else c.tsaLatest.Some? && (c.tsaLatest.value >= release || PublicationEvidence(w, num, release, now) == Ineligible)
  }

  /** What the walk does at a candidate it does not pass over. */
  predicate StopsRight(H: HashFn, w: World, now: int, sel: Selection)
    requires sel != NoCommit && sel.num in w.pulses && w.pulses[sel.num].body.CommitBody?
  {
    var c, release := w.check(sel.num), w.pulses[sel.num].body.release;
    if !c.ok || c.tsaLatest.None? then sel.Halt?
    else
      match PublicationEvidence(w, sel.num, release, now)
      case Eligible => sel == Provided(H, w, sel.num, now)
      case Ineligible => false
      case NotYet => sel.WaitForAnchor?
      case Unavailable => sel.Halt?
  }

  predicate Revealed(w: World, num: nat) {
    num + 1 in w.pulses && w.pulses[num + 1].body.RevealBody? && w.pulses[num + 1].body.commitSeq == num && w.pairOk(num + 1)
  }

  predicate GivenUp(w: World, num: nat) {
    num + 1 in w.pulses && (w.pulses[num + 1].body.FailureBody? || w.pulses[num + 1].body.SkipBody?)
  }

  /** The provenance of an eligible commit: the verifying reveal, the open window, or the round itself. */
  function Provided(H: HashFn, w: World, num: nat, now: int): Selection
    requires num in w.pulses && w.pulses[num].body.CommitBody?
  {
    var c := w.pulses[num].body;
    if Revealed(w, num) then Selected(num, FullAttested, Some(w.pulses[num + 1].body.randomness))
    else if now < c.release + REVEAL_DEADLINE_S && !GivenUp(w, num) then Selected(num, WaitForReveal, None)
    else if !w.online then Selected(num, NoRound, None)
    else
      var sig := w.relay(c.target);
      if sig.None? || !w.validRound(c.chain, c.target, sig.value) then Selected(num, NoRound, None)
      else Selected(num, CommitmentFallback, Some(H(sig.value)))
  }

  /** The pulses from the first eligible seq up to `end` are all there. */
  predicate Reaches(w: World, end: nat) {
    forall s :: FIRST_ELIGIBLE_COMMIT <= s < end ==> s in w.pulses
  }

  /** A candidate that was not proved ineligible: the walk may not pass it. */
  predicate Open(w: World, num: nat, after: int, now: int) {
    Candidate(w, num, after) && !ProvedIneligible(w, num, now)
  }

  /** Every candidate before `end` was proved ineligible. */
  predicate AllPassed(w: World, end: nat, after: int, now: int) {
    forall s :: FIRST_ELIGIBLE_COMMIT <= s < end ==> !Open(w, s, after, now)
  }

  /**
    The rule: the least candidate that was not proved ineligible, and at it exactly what its
    evidence says; no commit only when every candidate of the log was proved ineligible.
   */
  predicate IsSelection(H: HashFn, w: World, after: int, now: int, sel: Selection) {
    if sel.NoCommit? then
      exists end: nat ::
        && FIRST_ELIGIBLE_COMMIT <= end <= FIRST_ELIGIBLE_COMMIT + |w.pulses| && end !in w.pulses
        && Reaches(w, end) && AllPassed(w, end, after, now)
    else
      && FIRST_ELIGIBLE_COMMIT <= sel.num && Reaches(w, sel.num) && AllPassed(w, sel.num, after, now)
      && Open(w, sel.num, after, now) && StopsRight(H, w, now, sel)
  }

  /** The body of the walk at one pulse: None to pass it over. */
  method Judge(H: HashFn, w: World, num: nat, after: int, now: int) returns (stop: Option<Selection>)
    requires num in w.pulses
    ensures stop.None? <==> !Open(w, num, after, now)
    ensures stop.Some? ==> stop.value != NoCommit && stop.value.num == num && w.pulses[num].body.CommitBody?
    ensures stop.Some? ==> StopsRight(H, w, now, stop.value)
    ensures var p, c, rekor := w.pulses[num], w.check(num), w.rekor(num);
            var asked := p.current && num !in w.known && p.body.CommitBody? && p.body.release >= after;
            && (!asked ==> stop.None?)
            && (asked && !c.ok ==> stop == if c.tlogOk && !c.structural then None else Some(Halt(num)))
            && (asked && c.ok && c.tsaLatest.None? ==> stop == Some(Halt(num)))
            && (asked && c.ok && c.tsaLatest.Some? && c.tsaLatest.value >= p.body.release ==> stop == None)
            && (asked && c.ok && c.tsaLatest.Some? && c.tsaLatest.value < p.body.release ==>
                  && (w.online && rekor.Found? && rekor.time < p.body.release ==> stop.Some? && stop.value.Selected?)
                  && (w.online && rekor.Found? && rekor.time >= p.body.release ==> stop == None)
                  && (w.online && rekor.NoneFound? ==>
                        stop == if now - p.body.release < 1500 then Some(WaitForAnchor(num)) else None)
                  && (!w.online || rekor.NoAnswer? ==>
                        if c.localAnchor.None? then stop == Some(Halt(num))
                        else if c.localAnchor.value < p.body.release then stop.Some? && stop.value.Selected?
                        else stop == None))
  {
    var p := w.pulses[num];
    if !(p.body.CommitBody? && p.current && num !in w.known) { return None; }
    var release := p.body.release;
    if release < after { return None; }
    var c := w.check(num);
    if !c.ok {
      if c.tlogOk && !c.structural { return None; }
      return Some(Halt(num));
    }
    if c.tsaLatest.None? { return Some(Halt(num)); }
    if c.tsaLatest.value >= release { return None; }
    var verdict := PublicationEvidence(w, num, release, now);
    match verdict
    case Ineligible => return None;
    case NotYet => return Some(WaitForAnchor(num));
    case Unavailable => return Some(Halt(num));
    case Eligible =>
      var sel := Provenanced(H, w, num, now);
      return Some(sel);
  }

  /** select_commit. */
  method SelectCommit(H: HashFn, w: World, after: int, now: int) returns (sel: Selection)
    ensures IsSelection(H, w, after, now, sel)
    ensures sel.Selected? ==>
              && sel.num >= 20 && sel.num in w.pulses && w.pulses[sel.num].current && sel.num !in w.known
              && w.pulses[sel.num].body.CommitBody? && w.pulses[sel.num].body.release >= after
              && w.check(sel.num).ok && w.check(sel.num).tsaLatest.Some?
              && w.check(sel.num).tsaLatest.value < w.pulses[sel.num].body.release
              && (if w.online && !w.rekor(sel.num).NoAnswer? then
                    w.rekor(sel.num).Found? && w.rekor(sel.num).time < w.pulses[sel.num].body.release
                  else
                    && w.check(sel.num).localAnchor.Some?
                    && w.check(sel.num).localAnchor.value < w.pulses[sel.num].body.release)
  {
    hide Open, StopsRight, Reaches, AllPassed;
    var num := FIRST_ELIGIBLE_COMMIT;
    NothingPassed(w, after, now);
    ghost var seen: set<nat> := {};
    while num in w.pulses
      invariant FIRST_ELIGIBLE_COMMIT <= num && Reaches(w, num) && AllPassed(w, num, after, now)
      invariant seen <= w.pulses.Keys && |seen| == num - FIRST_ELIGIBLE_COMMIT && forall s :: s in seen ==> s < num
      decreases |w.pulses.Keys - seen|
    {
      SeenGrows(w.pulses.Keys, seen, num);
      var stop := Judge(H, w, num, after, now);
      if stop.Some? { return stop.value; }
      OneMorePassed(w, num, after, now);
      seen := seen + {num};
      num := num + 1;
    }
    SubsetSize(seen, w.pulses.Keys);
    return NoCommit;
  }

  lemma NothingPassed(w: World, after: int, now: int)
    ensures Reaches(w, FIRST_ELIGIBLE_COMMIT) && AllPassed(w, FIRST_ELIGIBLE_COMMIT, after, now)
  {
  }

  lemma OneMorePassed(w: World, num: nat, after: int, now: int)
    requires Reaches(w, num) && AllPassed(w, num, after, now) && num in w.pulses && !Open(w, num, after, now)
    ensures Reaches(w, num + 1) && AllPassed(w, num + 1, after, now)
  {
    hide Open;
  }

  lemma SeenGrows(keys: set<nat>, seen: set<nat>, num: nat)
    requires num in keys && num !in seen && seen <= keys
    ensures |keys - (seen + {num})| < |keys - seen|
  {
    assert keys - seen == (keys - (seen + {num})) + {num};
  }

  lemma SubsetSize(small: set<nat>, large: set<nat>)
    requires small <= large
    ensures |small| <= |large|
  {
    assert large == small + (large - small);
  }

  /** The tail of select_commit, once the commit is chosen. */
  method Provenanced(H: HashFn, w: World, num: nat, now: int) returns (sel: Selection)
    requires num in w.pulses && w.pulses[num].body.CommitBody?
    ensures sel == Provided(H, w, num, now)
  {
    var c := w.pulses[num].body;
    var next: Option<Pulse> := if num + 1 in w.pulses then Some(w.pulses[num + 1]) else None;
    if next.Some? && next.value.body.RevealBody? && next.value.body.commitSeq == num {
      if w.pairOk(num + 1) { return Selected(num, FullAttested, Some(next.value.body.randomness)); }
    }
    if now < c.release + REVEAL_DEADLINE_S && !(next.Some? && (next.value.body.FailureBody? || next.value.body.SkipBody?)) {
      return Selected(num, WaitForReveal, None);
    }
    if !w.online { return Selected(num, NoRound, None); }
    var sig := w.relay(c.target);
    if sig.None? || !w.validRound(c.chain, c.target, sig.value) { return Selected(num, NoRound, None); }
    return Selected(num, CommitmentFallback, Some(H(sig.value)));
  }

  // ---------------------------------------------------------------- the selection is one, and cannot be steered

  /** Two answers that both follow the rule are the same answer. */
  lemma SelectionIsOne(H: HashFn, w: World, after: int, now: int, a: Selection, b: Selection)
    requires IsSelection(H, w, after, now, a) && IsSelection(H, w, after, now, b)
    ensures a == b
  {
    hide Open, StopsRight;
    if a != NoCommit { OpenIsCommit(w, a.num, after, now); }
    if b != NoCommit { OpenIsCommit(w, b.num, after, now); }
    if a != NoCommit && b != NoCommit && a.num == b.num { SameStop(H, w, now, a, b); }
  }

  lemma OpenIsCommit(w: World, num: nat, after: int, now: int)
    requires Open(w, num, after, now)
    ensures num in w.pulses && w.pulses[num].body.CommitBody?
  {
  }

  lemma SameStop(H: HashFn, w: World, now: int, a: Selection, b: Selection)
    requires a != NoCommit && b != NoCommit && a.num == b.num && a.num in w.pulses && w.pulses[a.num].body.CommitBody?
    requires StopsRight(H, w, now, a) && StopsRight(H, w, now, b)
    ensures a == b
  {
  }

  predicate SamePulse(w: World, v: World, num: nat) {
    && (num in w.pulses <==> num in v.pulses) && (num in w.pulses ==> w.pulses[num] == v.pulses[num])
    && w.check(num) == v.check(num) && w.rekor(num) == v.rekor(num)
  }

  /** The two worlds differ only after seq `num`: the next pulse, its check, anything later. */
  ghost predicate SameUpTo(w: World, v: World, num: nat) {
    w.known == v.known && w.online == v.online && forall s: nat :: s <= num ==> SamePulse(w, v, s)
  }

  lemma SameOpen(w: World, v: World, num: nat, after: int, now: int)
    requires w.known == v.known && w.online == v.online && SamePulse(w, v, num)
    ensures Open(w, num, after, now) <==> Open(v, num, after, now)
  {
  }

  /** Whatever comes after the commit that stops the walk, the walk stops there, and for the same reason. */
  lemma NextPulseCannotMoveIt(H: HashFn, w: World, v: World, after: int, now: int, a: Selection, b: Selection)
    requires IsSelection(H, w, after, now, a) && IsSelection(H, v, after, now, b) && a != NoCommit && SameUpTo(w, v, a.num)
    ensures b != NoCommit && b.num == a.num && a.Selected? == b.Selected? && a.Halt? == b.Halt?
  {
    hide Open, StopsRight, SamePulse;
    SameStopPoint(H, w, v, after, now, a, b);
    OpenIsCommit(w, a.num, after, now);
    SameReason(H, w, v, now, a, b);
  }

  lemma SameStopPoint(H: HashFn, w: World, v: World, after: int, now: int, a: Selection, b: Selection)
    requires IsSelection(H, w, after, now, a) && IsSelection(H, v, after, now, b) && a != NoCommit && SameUpTo(w, v, a.num)
    ensures b != NoCommit && b.num == a.num && b.num in v.pulses && v.pulses[b.num].body.CommitBody?
  {
    hide Open, StopsRight, SamePulse;
    forall s: nat | s <= a.num ensures (Open(w, s, after, now) <==> Open(v, s, after, now)) && (s in w.pulses <==> s in v.pulses) {
      SameOpen(w, v, s, after, now);
      SamePresence(w, v, s);
    }
    OpenIsCommit(w, a.num, after, now);
    if b != NoCommit { OpenIsCommit(v, b.num, after, now); }
  }

  lemma SamePresence(w: World, v: World, num: nat)
    requires SamePulse(w, v, num)
    ensures num in w.pulses <==> num in v.pulses
  {
  }

  lemma SameReason(H: HashFn, w: World, v: World, now: int, a: Selection, b: Selection)
    requires a != NoCommit && b != NoCommit && a.num == b.num && SameUpTo(w, v, a.num)
    requires a.num in w.pulses && w.pulses[a.num].body.CommitBody? && a.num in v.pulses && v.pulses[a.num].body.CommitBody?
    requires StopsRight(H, w, now, a) && StopsRight(H, v, now, b)
    ensures a.Selected? == b.Selected? && a.Halt? == b.Halt?
  {
    assert SamePulse(w, v, a.num);
  }

  // ---------------------------------------------------------------- the value

  const DOMAIN: Bytes := [110, 111, 116, 98, 101, 102, 111, 114, 101, 47, 99, 111, 109, 109, 105, 116, 45, 98, 111, 117, 110, 100, 47, 118, 49]

  function ValueInput(commitment: Digest, rho: Digest, chain: Digest, target: nat): Bytes {
    DOMAIN + commitment + rho + chain + BigEndian(target, 8)
  }

  /** V*: the hash of 129 bytes; the source raises when the round does not fit in eight. */
  function Value(H: HashFn, commitment: Digest, rho: Digest, chain: Digest, target: nat): Digest
    requires target < TWO64
  {
    H(ValueInput(commitment, rho, chain, target))
  }

  /** Two equal values come from the same commitment, randomness, chain and round, or collide. */
  lemma ValueBinds(H: HashFn, c: Digest, rho: Digest, chain: Digest, target: nat, c': Digest, rho': Digest,
      chain': Digest, target': nat)
    requires target < TWO64 && target' < TWO64
    requires Value(H, c, rho, chain, target) == Value(H, c', rho', chain', target')
    ensures (c == c' && rho == rho' && chain == chain' && target == target')
            || CollisionIn(H, {ValueInput(c, rho, chain, target), ValueInput(c', rho', chain', target')})
  {
    var a, b := ValueInput(c, rho, chain, target), ValueInput(c', rho', chain', target');
    if a == b {
      InputFields(c, rho, chain, target);
      InputFields(c', rho', chain', target');
      EightBytes();
      BigEndianInjective(target, target', 8);
    } else {
      assert a in {a, b} && b in {a, b};
    }
  }

  /** What is hashed: 129 bytes, the domain, the commitment, the randomness, the chain and the round in eight bytes. */
  lemma InputFields(c: Digest, rho: Digest, chain: Digest, target: nat)
    ensures |DOMAIN| == 25 && forall i :: 0 <= i < 25 ==> DOMAIN[i] as int == "notbefore/commit-bound/v1"[i] as int
    ensures var a := ValueInput(c, rho, chain, target);
            && |a| == 129 && a[..25] == DOMAIN
            && a[25..57] == c && a[57..89] == rho && a[89..121] == chain && a[121..129] == BigEndian(target, 8)
  {
    hide BigEndian;
  }

  /** At most one signature verifies for a round. */
  ghost predicate OneSignature(w: World) {
    forall chain, round, s, t :: w.validRound(chain, round, s) && w.validRound(chain, round, t) ==> s == t
  }

  /** A verifying reveal carries the randomness of a signature that verifies for its commit's round. */
  ghost predicate RevealsVerified(H: HashFn, w: World) {
    forall num :: num in w.pulses && w.pulses[num].body.CommitBody? && Revealed(w, num) ==>
      var c, r := w.pulses[num].body, w.pulses[num + 1].body;
      w.validRound(c.chain, c.target, r.signature) && r.randomness == H(r.signature)
  }

  /** The commit-bound value a selection gives, if its randomness is known. */
  function SelectedValue(H: HashFn, w: World, sel: Selection): Option<Digest> {
    if && sel.Selected? && sel.rho.Some? && sel.num in w.pulses
       && w.pulses[sel.num].body.CommitBody? && w.pulses[sel.num].body.target < TWO64
    then
      var c := w.pulses[sel.num].body;
      Some(Value(H, c.commitment, sel.rho.value, c.chain, c.target))
    else None
  }

  lemma RhoIsTheRounds(H: HashFn, w: World, num: nat, now: int)
    requires num in w.pulses && w.pulses[num].body.CommitBody? && RevealsVerified(H, w) && Provided(H, w, num, now).rho.Some?
    ensures exists s :: w.validRound(w.pulses[num].body.chain, w.pulses[num].body.target, s) && Provided(H, w, num,
        now).rho.value == H(s)
  {
    if Revealed(w, num) { assert w.pulses[num + 1].body.randomness == H(w.pulses[num + 1].body.signature); }
  }

  /**
    At one time, the value is the same whether the next pulse is a verifying reveal, a bad one, a
    failure, a skip or absent, whenever the randomness can be had.
   */
  lemma ValueCannotBeSteered(H: HashFn, w: World, v: World, after: int, now: int, a: Selection, b: Selection)
    requires IsSelection(H, w, after, now, a) && IsSelection(H, v, after, now, b) && a != NoCommit && SameUpTo(w, v, a.num)
    requires w.validRound == v.validRound && OneSignature(w) && RevealsVerified(H, w) && RevealsVerified(H, v)
    requires SelectedValue(H, w, a).Some? && SelectedValue(H, v, b).Some?
    ensures b.num == a.num && SelectedValue(H, w, a) == SelectedValue(H, v, b)
  {
    hide Open, Provided, RevealsVerified, Value, SamePulse;
    SameStopPoint(H, w, v, after, now, a, b);
    SelectedIsProvided(H, w, now, a);
    SelectedIsProvided(H, v, now, b);
    RhoIsTheRounds(H, w, a.num, now);
    RhoIsTheRounds(H, v, b.num, now);
    SameBody(w, v, a.num);
  }

  lemma SelectedIsProvided(H: HashFn, w: World, now: int, a: Selection)
    requires a.Selected? && a.num in w.pulses && w.pulses[a.num].body.CommitBody? && StopsRight(H, w, now, a)
    ensures a == Provided(H, w, a.num, now)
  {
    hide Provided;
  }

  lemma SameBody(w: World, v: World, num: nat)
    requires SameUpTo(w, v, num) && num in w.pulses
    ensures num in v.pulses && w.pulses[num] == v.pulses[num]
  {
    assert SamePulse(w, v, num);
  }

  // ---------------------------------------------------------------- verdicts do not change

  /** The earliest of the valid entries Rekor has for a statement. */
  function Answer(times: seq<int>): RekorAnswer {
    if times == [] then NoneFound
    else
      match Answer(times[1..])
      case Found(t) => Found(if times[0] < t then times[0] else t)
      case _ => Found(times[0])
  }

  lemma {:induction false} AnswerIsEarliest(times: seq<int>)
    ensures times == [] ==> Answer(times) == NoneFound
    ensures times != [] ==> Answer(times).Found? && Answer(times).time in times
    ensures times != [] ==> forall t :: t in times ==> Answer(times).time <= t
  {
    if times != [] {
      AnswerIsEarliest(times[1..]);
      assert forall t :: t in times ==> t == times[0] || t in times[1..];
    }
  }

  /** Append-only, with entry times no earlier than their appending: what was added since `now` is later than it. */
  ghost predicate Appended(before: seq<int>, later: seq<int>, now: int) {
    before <= later && (forall t :: t in before ==> t <= now) && forall i :: |before| <= i < |later| ==> later[i] > now
  }

  /** With Rekor answering, what was eligible or ineligible once stays so at every later time. */
  lemma VerdictIsStable(w: World, v: World, num: nat, release: int, before: seq<int>, later: seq<int>, now: int,
      afterwards: int)
    requires w.online && v.online && now <= afterwards && Appended(before, later, now)
    requires w.rekor(num) == Answer(before) && v.rekor(num) == Answer(later)
    requires PublicationEvidence(w, num, release, now) != NotYet
    ensures PublicationEvidence(w, num, release, now) == PublicationEvidence(v, num, release, afterwards)
  {
    hide Answer;
    AnswerIsEarliest(before);
    AnswerIsEarliest(later);
    if before != [] {
      assert before[0] in later;
      EarliestStays(before, later, now);
    } else if later != [] {
      assert forall t :: t in later ==> t > now;
    }
  }

  lemma EarliestStays(before: seq<int>, later: seq<int>, now: int)
    requires before != [] && Appended(before, later, now)
    ensures Answer(before) == Answer(later)
  {
    hide Answer;
    AnswerIsEarliest(before);
    AnswerIsEarliest(later);
    var a, b := Answer(before).time, Answer(later).time;
    var i :| 0 <= i < |before| && before[i] == a;
    assert later[i] == a && a in later;
    var j :| 0 <= j < |later| && later[j] == b;
    assert j < |before| ==> before[j] == b && b in before;
    assert a == b && Answer(before) == Found(a) && Answer(later) == Found(b);
  }

  /** A commit that is not eligible once its round is out never becomes eligible. */
  lemma NoLateEligibility(w: World, v: World, num: nat, release: int, before: seq<int>, later: seq<int>, now: int,
      afterwards: int)
    requires w.online && v.online && release <= now <= afterwards && Appended(before, later, now)
    requires w.rekor(num) == Answer(before) && v.rekor(num) == Answer(later)
    ensures PublicationEvidence(w, num, release, now) == Eligible <==> PublicationEvidence(v, num, release, afterwards) == Eligible
  {
    hide Answer;
    AnswerIsEarliest(before);
    AnswerIsEarliest(later);
    if before != [] {
      EarliestStays(before, later, now);
    } else if later != [] {
      assert forall t :: t in later ==> t > now;
    }
  }

  /** The same log up to `num`, with Rekor asked at both times and only appended to in between. */
  ghost predicate SameLogLater(w: World, v: World, num: nat, before: nat -> seq<int>, later: nat -> seq<int>, now: int) {
    && w.online && v.online && w.known == v.known
    && forall s: nat :: s <= num ==> LaterPulse(w, v, s, before, later, now)
  }

  ghost predicate LaterPulse(w: World, v: World, num: nat, before: nat -> seq<int>, later: nat -> seq<int>, now: int) {
    && (num in w.pulses <==> num in v.pulses) && (num in w.pulses ==> w.pulses[num] == v.pulses[num])
    && w.check(num) == v.check(num) && Appended(before(num), later(num), now)
    && w.rekor(num) == Answer(before(num)) && v.rekor(num) == Answer(later(num))
  }

  lemma PassedStaysPassed(w: World, v: World, num: nat, after: int, now: int, afterwards: int, before: nat -> seq<int>,
      later: nat -> seq<int>)
    requires w.online && v.online && w.known == v.known && LaterPulse(w, v, num, before, later, now) && now <= afterwards
    ensures Candidate(w, num, after) <==> Candidate(v, num, after)
    ensures Candidate(w, num, after) && ProvedIneligible(w, num, now) ==> ProvedIneligible(v, num, afterwards)
    ensures Candidate(w, num, after) && PublicationEvidence(w, num, w.pulses[num].body.release, now) == Eligible ==>
              PublicationEvidence(v, num, v.pulses[num].body.release, afterwards) == Eligible
  {
    hide PublicationEvidence, Appended, Answer;
    if Candidate(w, num, after) {
      var release := w.pulses[num].body.release;
      if PublicationEvidence(w, num, release, now) != NotYet {
        VerdictIsStable(w, v, num, release, before(num), later(num), now, afterwards);
      }
    }
  }

  /** A commit once selected is the one selected at every later time. */
  lemma SelectionIsStable(H: HashFn, w: World, v: World, after: int, now: int, afterwards: int,
                          before: nat -> seq<int>, later: nat -> seq<int>, a: Selection, b: Selection)
    requires now <= afterwards && a.Selected? && SameLogLater(w, v, a.num, before, later, now)
    requires IsSelection(H, w, after, now, a) && IsSelection(H, v, after, afterwards, b)
    ensures b.Selected? && b.num == a.num
  {
    hide ProvedIneligible, PublicationEvidence, LaterPulse, StopsRight, Candidate;
    OpenIsCommit(w, a.num, after, now);
    forall s: nat | s <= a.num
      ensures (s in w.pulses <==> s in v.pulses) && (s < a.num && !Open(w, s, after, now) ==> !Open(v, s, after, afterwards))
    {
      LaterPresence(w, v, s, before, later, now);
      PassedStaysPassed(w, v, s, after, now, afterwards, before, later);
    }
    StillSelected(H, w, v, after, now, afterwards, before, later, a);
    if b != NoCommit {
      OpenIsCommit(v, b.num, after, afterwards);
      if b.num == a.num { StopsSelected(H, v, after, afterwards, b); }
    }
  }

  lemma LaterPresence(w: World, v: World, num: nat, before: nat -> seq<int>, later: nat -> seq<int>, now: int)
    requires LaterPulse(w, v, num, before, later, now)
    ensures num in w.pulses <==> num in v.pulses
  {
  }

  /** Open and eligible. */
  predicate Chosen(w: World, num: nat, after: int, now: int) {
    Open(w, num, after, now) && w.check(num).ok && w.check(num).tsaLatest.Some?
    && PublicationEvidence(w, num, w.pulses[num].body.release, now) == Eligible
  }

  lemma StillSelected(H: HashFn, w: World, v: World, after: int, now: int, afterwards: int,
                      before: nat -> seq<int>, later: nat -> seq<int>, a: Selection)
    requires now <= afterwards && a.Selected? && SameLogLater(w, v, a.num, before, later, now) && IsSelection(H, w, after, now, a)
    ensures Chosen(v, a.num, after, afterwards)
  {
    hide PublicationEvidence, Appended, Answer, Provided, Reaches, AllPassed;
    assert LaterPulse(w, v, a.num, before, later, now);
    PassedStaysPassed(w, v, a.num, after, now, afterwards, before, later);
  }

  lemma StopsSelected(H: HashFn, w: World, after: int, now: int, a: Selection)
    requires a != NoCommit && Chosen(w, a.num, after, now) && StopsRight(H, w, now, a)
    ensures a.Selected?
  {
    hide PublicationEvidence;
  }

  /**
    The same for two clients at two times: whatever was appended to the log after the selected
    commit in between, and whichever of the two sees it, the value is the same.
   */
  lemma ValueIsTheSameLater(H: HashFn, w: World, v: World, after: int, now: int, afterwards: int,
                            before: nat -> seq<int>, later: nat -> seq<int>, a: Selection, b: Selection)
    requires now <= afterwards && a.Selected? && SameLogLater(w, v, a.num, before, later, now)
    requires IsSelection(H, w, after, now, a) && IsSelection(H, v, after, afterwards, b)
    requires w.validRound == v.validRound && OneSignature(w) && RevealsVerified(H, w) && RevealsVerified(H, v)
    requires SelectedValue(H, w, a).Some? && SelectedValue(H, v, b).Some?
    ensures b.num == a.num && SelectedValue(H, w, a) == SelectedValue(H, v, b)
  {
    hide Open, Provided, RevealsVerified, Value, Appended, Answer, Reaches, AllPassed;
    SelectionIsStable(H, w, v, after, now, afterwards, before, later, a, b);
    assert LaterPulse(w, v, a.num, before, later, now);
    OpenIsCommit(w, a.num, after, now);
    SelectedIsProvided(H, w, now, a);
    SelectedIsProvided(H, v, afterwards, b);
    RhoIsTheRounds(H, w, a.num, now);
    RhoIsTheRounds(H, v, b.num, afterwards);
  }

  // ---------------------------------------------------------------- what the label does over time

  /** The commit and whatever came next when first looked at are still there later. */
  predicate NextKept(w: World, v: World, num: nat) {
    && num in w.pulses && num in v.pulses && v.pulses[num] == w.pulses[num]
    && (num + 1 in w.pulses ==> num + 1 in v.pulses && v.pulses[num + 1] == w.pulses[num + 1])
    && (num + 1 in w.pulses ==> v.pairOk(num + 1) == w.pairOk(num + 1))
  }

  /**
    A label of an append-only log only settles: a full attestation stays with its randomness, no
    client waits for a reveal once the deadline is past, and a fallback behind a pulse that is not
    a verifying reveal never turns into an attestation.
   */
  lemma LabelSettles(H: HashFn, w: World, v: World, num: nat, now: int, afterwards: int)
    requires NextKept(w, v, num) && w.pulses[num].body.CommitBody? && now <= afterwards
    ensures var a, b := Provided(H, w, num, now), Provided(H, v, num, afterwards);
            && a.num == num == b.num
            && (a.provenance == FullAttested ==> b == a)
            && (afterwards >= w.pulses[num].body.release + REVEAL_DEADLINE_S ==> b.provenance != WaitForReveal)
            && (a.provenance == CommitmentFallback && num + 1 in w.pulses ==> b.provenance in {CommitmentFallback, NoRound})
            && (a.rho.Some? <==> a.provenance in {FullAttested, CommitmentFallback})
  {
  }
}
