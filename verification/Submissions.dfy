/**
  worker/decisions.js, appendEntry: what a submission is answered with, over every interleaving.
  Everything is said of the leaf text that is served, read back field by field.
 */
module Submissions {
  import opened Hashing
  import opened MerkleTree
  import opened DecisionLog
  import opened Receipts

  // ---------------------------------------------------------------- whose submission a request carries

  /** The submission a request is about. */
  function About(r: Request): Option<Submission> {
    match r
    case Begun(req) => Some(req)
    case Counting(req, _) => Some(req)
    case HaveN(req, _, _) => Some(req)
    case HaveBoth(req, _, _, _) => Some(req)
    case Raced(req, _) => Some(req)
    case NeedRows(purpose) => if purpose.ForSubmit? then Some(purpose.req) else None
    case HaveRows(purpose, _) => if purpose.ForSubmit? then Some(purpose.req) else None
    case Signed(purpose, _, _) => if purpose.ForSubmit? then Some(purpose.req) else None
    case Answered(purpose, _, _) => if purpose.ForSubmit? then Some(purpose.req) else None
    case GaveUp => None
  }

  /** One event leaves every request about the submission it came with, or begins one. */
  lemma StepAbout(cfg: Config, s: State, e: Event, p: nat)
    requires p in Apply(cfg, s, e).requests && About(Apply(cfg, s, e).requests[p]).Some?
    ensures var now := About(Apply(cfg, s, e).requests[p]);
            || (p in s.requests && About(s.requests[p]) == now)
            || (p !in s.requests && e == Submit(p, now.value) && cfg.statementOk(now.value.statement, now.value.signature))
  {
    hide NewRow, NewLeaf, IdxOrder, SeqOrder, Matches, RowsIn;
  }

  lemma {:induction false} RequestIsSubmission(cfg: Config, events: seq<Event>, p: nat)
    requires p in Run(cfg, events).requests && About(Run(cfg, events).requests[p]).Some?
    ensures var req := About(Run(cfg, events).requests[p]).value;
            Submit(p, req) in events && cfg.statementOk(req.statement, req.signature)
    decreases |events|
  {
    hide Apply, About;
    if events != [] {
      var before, e := events[..|events| - 1], events[|events| - 1];
      StepAbout(cfg, Run(cfg, before), e, p);
      if p in Run(cfg, before).requests { RequestIsSubmission(cfg, before, p); }
    }
  }

  /**
    Under every interleaving, an answered submission is one that was posted and verifies, and the
    leaf it is answered with is a row of the table that reads back with the submitted key id,
    decision id and contract, at its own index, under a statement that verifies. If the row was made
    for it, the leaf carries the submitted statement, signature and attachments.
   */
  lemma AnswerIsForTheSubmission(cfg: Config, events: seq<Event>, p: nat)
    requires Lossless(cfg) && p in Run(cfg, events).requests
    requires Run(cfg, events).requests[p].Answered? && Run(cfg, events).requests[p].purpose.ForSubmit?
    ensures var s := Run(cfg, events);
            var Answered(ForSubmit(req, e), hs, note) := s.requests[p];
            && Submit(p, req) in events && cfg.statementOk(req.statement, req.signature)
            && e.idx in s.entries && s.entries[e.idx].leafText == e.leafText && e.idx < |hs| <= |s.entries|
            && cfg.read(e.leafText).Some?
            && var leaf := cfg.read(e.leafText).value;
            && leaf.statement.namespace.keyId == req.statement.namespace.keyId
            && leaf.statement.namespace.decisionId == req.statement.namespace.decisionId
            && leaf.statement.contract == req.statement.contract
            && leaf.index == e.idx && leaf.seqInNs == e.seqInNs && cfg.statementOk(leaf.statement, leaf.signature)
            && (!e.existed ==> leaf.statement == req.statement && leaf.signature == req.signature && leaf.attached == req.attached)
  {
    var s := Run(cfg, events);
    hide Run, NoteOk, Root, Hashes, CountBefore, Lossless, LeafHash;
    RequestIsSubmission(cfg, events, p);
    AnswerAt(cfg, events, p);
    var Answered(ForSubmit(req, e), hs, note) := s.requests[p];
    assert RowOk(cfg, s.entries, e.idx);
  }

  // ---------------------------------------------------------------- the lookup before an append

  /**
    In every state of every run, the lookup of a submission finds a row exactly if that row's leaf
    names its key, decision and contract, and finds nothing exactly if no row's leaf does. Then
    it appends: at first, and after each of the first three races, but not after the fourth.
   */
  lemma LookupFindsIff(cfg: Config, events: seq<Event>, p: nat, req: Submission, idx: nat)
    requires Lossless(cfg) && p in Run(cfg, events).requests
    requires var r := Run(cfg, events).requests[p]; r == Begun(req) || (r.Raced? && r.req == req)
    ensures var s := Run(cfg, events);
            var found, nothing := Run(cfg, events + [FindExisting(p, idx)]), Run(cfg, events + [FindNothing(p)]);
            var none := forall i :: i in s.entries ==> !SameContract(cfg, s.entries[i].leafText, req.statement);
            && found == (if idx in s.entries && SameContract(cfg, s.entries[idx].leafText, req.statement) then
                           Put(s, p, NeedRows(ForSubmit(req, Entry(idx, s.entries[idx].seqInNs, s.entries[idx].leafText, true))))
                         else s)
            && nothing == (if !none then s
                           else if s.requests[p].Begun? then Put(s, p, Counting(req, 0))
                           else if s.requests[p].attempt < 3 then Put(s, p, Counting(req, s.requests[p].attempt + 1))
                           else Put(s, p, GaveUp))
  {
    var s := Run(cfg, events);
    hide Run, RowOk, NoteOk, RequestOk, Matches, SameContract, Put, Lossless;
    RunKeeps(cfg, events);
    RunStep(cfg, events, FindExisting(p, idx));
    RunStep(cfg, events, FindNothing(p));
    forall i | i in s.entries
      ensures Matches(s.entries[i], req.statement) <==> SameContract(cfg, s.entries[i].leafText, req.statement)
    {
      RowMatches(cfg, s.entries, i, req.statement);
    }
  }

  /** Rows whose leaf is of this namespace. */
  function LeavesOf(cfg: Config, entries: map<nat, Row>, ns: Namespace): set<nat> {
    set i | i in entries && cfg.read(entries[i].leafText).Some? && cfg.read(entries[i].leafText).value.statement.namespace == ns
  }

  function Undisturbed(p: nat, req: Submission, received: string): seq<Event> {
    [Submit(p, req), FindNothing(p), CountAll(p), CountNamespace(p), Insert(p, received, false)]
  }

  /**
    A submission of a contract that no row of the namespace carries, undisturbed, adds exactly one
    row at the end and changes no other. Its leaf reads back as the submission, with the number of
    rows as its index and one more than the rows of the namespace as its number in it.
   */
  lemma NewContractIsAppended(cfg: Config, events: seq<Event>, p: nat, req: Submission, received: string)
    requires Lossless(cfg) && p !in Run(cfg, events).requests && cfg.statementOk(req.statement, req.signature)
    requires var entries := Run(cfg, events).entries;
             forall i :: i in entries ==> !SameContract(cfg, entries[i].leafText, req.statement)
    ensures var s, t := Run(cfg, events), Run(cfg, events + Undisturbed(p, req, received));
            var n := |s.entries|;
            && t.entries.Keys == s.entries.Keys + {n} && n !in s.entries
            && (forall i :: i in s.entries ==> t.entries[i] == s.entries[i])
            && cfg.read(t.entries[n].leafText)
               == Some(Leaf(n, received, |LeavesOf(cfg, s.entries, req.statement.namespace)| + 1, req.statement, req.signature,
                   req.attached))
            && p in t.requests
            && t.requests[p] == NeedRows(ForSubmit(req, Entry(n, |LeavesOf(cfg, s.entries, req.statement.namespace)| + 1,
                t.entries[n].leafText, false)))
  {
    var s := Run(cfg, events);
    hide *;
    RunKeeps(cfg, events);
    InvRows(cfg, s);
    Appended(cfg, events, p, req, received);
    AppendedMeans(cfg, s, Run(cfg, events + Undisturbed(p, req, received)), p, req, received);
  }

  lemma AppendedMeans(cfg: Config, s: State, t: State, p: nat, req: Submission, received: string)
    requires Lossless(cfg) && (forall i :: i in s.entries ==> RowOk(cfg, s.entries, i)) && |s.entries| !in s.entries
    requires var n, k := |s.entries|, |RowsIn(s.entries, req.statement.namespace)| + 1;
             var row := NewRow(cfg, NewLeaf(req, n, k, received));
             t == State(s.entries[n := row], s.checkpoints,
                        s.requests[p := NeedRows(ForSubmit(req, Entry(n, k, row.leafText, false)))])
    ensures var n, k := |s.entries|, |LeavesOf(cfg, s.entries, req.statement.namespace)| + 1;
            && t.entries.Keys == s.entries.Keys + {n}
            && (forall i :: i in s.entries ==> t.entries[i] == s.entries[i])
            && cfg.read(t.entries[n].leafText) == Some(Leaf(n, received, k, req.statement, req.signature, req.attached))
            && p in t.requests && t.requests[p] == NeedRows(ForSubmit(req, Entry(n, k, t.entries[n].leafText, false)))
  {
    hide *;
    LeavesAreRows(cfg, s.entries, req.statement.namespace);
    ReadsBack(cfg, req, |s.entries|, |RowsIn(s.entries, req.statement.namespace)| + 1, received);
  }

  lemma ReadsBack(cfg: Config, req: Submission, n: nat, k: nat, received: string)
    requires Lossless(cfg)
    ensures cfg.read(NewRow(cfg, NewLeaf(req, n, k, received)).leafText)
            == Some(Leaf(n, received, k, req.statement, req.signature, req.attached))
  {
  }

  lemma InvRows(cfg: Config, s: State)
    requires Inv(cfg, s)
    ensures forall i :: i in s.entries ==> RowOk(cfg, s.entries, i)
  {
  }

  lemma LeavesAreRows(cfg: Config, entries: map<nat, Row>, ns: Namespace)
    requires forall i :: i in entries ==> RowOk(cfg, entries, i)
    ensures LeavesOf(cfg, entries, ns) == RowsIn(entries, ns)
  {
    hide CountBefore, LeafHash;
  }

  lemma Appended(cfg: Config, events: seq<Event>, p: nat, req: Submission, received: string)
    requires Inv(cfg, Run(cfg, events))
    requires p !in Run(cfg, events).requests && cfg.statementOk(req.statement, req.signature)
    requires var entries := Run(cfg, events).entries;
             forall i :: i in entries ==> !SameContract(cfg, entries[i].leafText, req.statement)
    ensures var s := Run(cfg, events);
            var n, k := |s.entries|, |RowsIn(s.entries, req.statement.namespace)| + 1;
            var row := NewRow(cfg, NewLeaf(req, n, k, received));
            && n !in s.entries
            && Run(cfg, events + Undisturbed(p, req, received))
               == State(s.entries[n := row], s.checkpoints,
                        s.requests[p := NeedRows(ForSubmit(req, Entry(n, k, row.leafText, false)))])
  {
    var s := Run(cfg, events);
    hide Run, RowOk, NoteOk, RequestOk, NewRow, NewLeaf, SameContract, Matches;
    forall i | i in s.entries ensures !Matches(s.entries[i], req.statement) { RowMatches(cfg, s.entries, i, req.statement); }
    var e1 := events + [Submit(p, req)];
    RunStep(cfg, events, Submit(p, req));
    var e2 := e1 + [FindNothing(p)];
    RunStep(cfg, e1, FindNothing(p));
    assert Run(cfg, e2) == Put(s, p, Counting(req, 0));
    CountsAndInserts(cfg, e2, s, p, req, received);
    assert e2 + [CountAll(p)] + [CountNamespace(p)] + [Insert(p, received, false)] == events + Undisturbed(p, req, received);
  }

  lemma CountsAndInserts(cfg: Config, e2: seq<Event>, s: State, p: nat, req: Submission, received: string)
    requires Run(cfg, e2) == Put(s, p, Counting(req, 0)) && |s.entries| !in s.entries
    ensures var n, k := |s.entries|, |RowsIn(s.entries, req.statement.namespace)| + 1;
            var row := NewRow(cfg, NewLeaf(req, n, k, received));
            Run(cfg, e2 + [CountAll(p)] + [CountNamespace(p)] + [Insert(p, received, false)])
            == State(s.entries[n := row], s.checkpoints,
                     s.requests[p := NeedRows(ForSubmit(req, Entry(n, k, row.leafText, false)))])
  {
    hide Run, NewRow, NewLeaf, RowsIn;
    var n, k := |s.entries|, |RowsIn(s.entries, req.statement.namespace)| + 1;
    var e3 := e2 + [CountAll(p)];
    RunStep(cfg, e2, CountAll(p));
    assert Run(cfg, e3) == Put(s, p, HaveN(req, 0, n));
    var e4 := e3 + [CountNamespace(p)];
    RunStep(cfg, e3, CountNamespace(p));
    assert Run(cfg, e4) == Put(s, p, HaveBoth(req, 0, n, k));
    RunStep(cfg, e4, Insert(p, received, false));
  }

  /**
    In every state of every run, an insert makes its row exactly if the table does not refuse it and no
    other row was made since the rows were counted. Otherwise no row is made and the lookup comes again.
   */
  lemma InsertsIff(cfg: Config, events: seq<Event>, p: nat, req: Submission, attempt: nat, n: nat, k: nat, received: string,
      refused: bool)
    requires Lossless(cfg) && p in Run(cfg, events).requests && Run(cfg, events).requests[p] == HaveBoth(req, attempt, n, k)
    ensures var s, t := Run(cfg, events), Run(cfg, events + [Insert(p, received, refused)]);
            && t.checkpoints == s.checkpoints && p in t.requests
            && (refused || |s.entries| != n ==> t.entries == s.entries && t.requests[p] == Raced(req, attempt))
            && (!refused && |s.entries| == n ==>
                  && t.entries.Keys == s.entries.Keys + {n} && n !in s.entries
                  && cfg.read(t.entries[n].leafText) == Some(Leaf(n, received, k, req.statement, req.signature, req.attached)))
  {
    hide Run, RowOk, NoteOk, CountBefore, NewRow, Lossless, IdxOrder, SeqOrder, Look;
    RunKeeps(cfg, events);
    RequestAt(cfg, Run(cfg, events), p);
    RunStep(cfg, events, Insert(p, received, refused));
    ReadsBack(cfg, req, n, k, received);
  }

  // ---------------------------------------------------------------- four attempts

  /** How many inserts of the request are among the events. */
  function InsertsOf(events: seq<Event>, p: nat): nat {
    if events == [] then 0
    else
      var e := events[|events| - 1];
      InsertsOf(events[..|events| - 1], p) + if e.Insert? && e.p == p then 1 else 0
  }

  predicate AttemptOk(r: Request, inserts: nat) {
    match r
    case Counting(_, attempt) => attempt <= 3 && attempt <= inserts
    case HaveN(_, attempt, _) => attempt <= 3 && attempt <= inserts
    case HaveBoth(_, attempt, _, _) => attempt <= 3 && attempt <= inserts
    case Raced(_, attempt) => attempt <= 3 && attempt + 1 <= inserts
    case GaveUp => inserts >= 4
    case _ => true
  }

  lemma StepAttempts(cfg: Config, s: State, e: Event, p: nat, inserts: nat)
    requires p in s.requests ==> AttemptOk(s.requests[p], inserts)
    ensures p in Apply(cfg, s, e).requests ==>
              AttemptOk(Apply(cfg, s, e).requests[p], inserts + if e.Insert? && e.p == p then 1 else 0)
  {
    hide NewRow, NewLeaf, IdxOrder, SeqOrder, Matches, RowsIn;
  }

  /** A submission never gets a fifth attempt, and is given up only after four inserts were refused. */
  lemma {:induction false} FourAttempts(cfg: Config, events: seq<Event>, p: nat)
    requires p in Run(cfg, events).requests
    ensures AttemptOk(Run(cfg, events).requests[p], InsertsOf(events, p))
    decreases |events|
  {
    hide Apply, AttemptOk;
    if events != [] {
      var before, e := events[..|events| - 1], events[|events| - 1];
      if p in Run(cfg, before).requests { FourAttempts(cfg, before, p); }
      StepAttempts(cfg, Run(cfg, before), e, p, InsertsOf(before, p));
    }
  }
}
