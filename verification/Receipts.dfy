/**
  cli/notbefore/decisionlog.py, online: what a receipt must show before the client believes it,
  and that the receipts and lookups of every run of the log do show it.
 */
module Receipts {
  import opened Hashing
  import opened MerkleTree
  import opened Inclusion
  import opened DecisionLog
  import T = TLog

  datatype Receipt = Receipt(index: nat, size: nat, note: Note, leaf: Bytes, proof: seq<Bytes>)

  /** All checks of verify_receipt, in its order; `st` is the statement just submitted, if any. */
  predicate VerifyReceipt(cfg: Config, r: Receipt, st: Option<Statement>) {
    && r.note.signed
    && r.size == r.note.size
    && var leaf := cfg.read(r.leaf);
    && leaf.Some?
    && leaf.value.index == r.index
    && cfg.statementOk(leaf.value.statement, leaf.value.signature)
    && (st.Some? ==> leaf.value.statement == st.value)
    && r.index < r.size
    && T.IncludedAt(cfg.H, LeafHash(cfg.H, r.leaf), r.index, r.size, r.proof, r.note.root)
  }

  /** The response of the submit branch. */
  function SubmitReply(cfg: Config, e: Entry, hs: seq<Digest>, note: Note): Receipt {
    Receipt(e.idx, |hs|, note, e.leafText, if e.idx < |hs| then Path(cfg.H, e.idx, hs) else [])
  }

  lemma AnswerAt(cfg: Config, events: seq<Event>, p: nat)
    requires Lossless(cfg) && p in Run(cfg, events).requests && Run(cfg, events).requests[p].Answered?
    ensures var s := Run(cfg, events);
            Inv(cfg, s) && Dense(s.entries) && RequestOk(cfg, s.entries, s.requests[p])
  {
    hide Run;
    RunKeeps(cfg, events);
    RequestAt(cfg, Run(cfg, events), p);
  }

  /** A row served with the path over any later set of rows proves its own inclusion. */
  lemma RowProves(cfg: Config, entries: map<nat, Row>, i: nat, hs: seq<Digest>, note: Note)
    requires Dense(entries) && i in entries && RowOk(cfg, entries, i)
    requires i < |hs| <= |entries| && hs == Hashes(entries, |hs|)
    requires note == Note(true, |hs|, Root(cfg.H, hs))
    ensures var r := Receipt(i, |hs|, note, entries[i].leafText, Path(cfg.H, i, hs));
            && VerifyReceipt(cfg, r, None)
            && (forall st :: VerifyReceipt(cfg, r, Some(st)) <==> cfg.read(r.leaf).value.statement == st)
  {
    hide LeafHash, Root, Path, Climb, CountBefore;
    ClimbComplete(cfg.H, i, hs);
  }

  /** Under every interleaving, every receipt returned verifies; against the statement submitted
      it verifies exactly when the entry found or made carries that very statement, which an
      entry made for this submission always does. */
  lemma ReceiptsVerify(cfg: Config, events: seq<Event>, p: nat)
    requires Lossless(cfg) && p in Run(cfg, events).requests
    requires Run(cfg, events).requests[p].Answered? && Run(cfg, events).requests[p].purpose.ForSubmit?
    ensures var Answered(ForSubmit(req, e), hs, note) := Run(cfg, events).requests[p];
            var r := SubmitReply(cfg, e, hs, note);
            && VerifyReceipt(cfg, r, None)
            && (VerifyReceipt(cfg, r, Some(req.statement)) <==> cfg.read(e.leafText).value.statement == req.statement)
            && (!e.existed ==> VerifyReceipt(cfg, r, Some(req.statement)))
  {
    var s := Run(cfg, events);
    hide Run, RowOk, NoteOk, Root, Path, Hashes, CountBefore, VerifyReceipt, Lossless;
    AnswerAt(cfg, events, p);
    var Answered(ForSubmit(req, e), hs, note) := s.requests[p];
    RowProves(cfg, s.entries, e.idx, hs, note);
    assert VerifyReceipt(cfg, SubmitReply(cfg, e, hs, note), None);
  }

  /** The strings hashed in checking a receipt, and in computing the tree behind its root. */
  function ReceiptInputs(cfg: Config, r: Receipt, leaves: seq<Bytes>): set<Bytes> {
    T.MthInputs(cfg.H, leaves) + ClimbInputs(cfg.H, r.index, |leaves| - 1, LeafHash(cfg.H, r.leaf), r.proof)
    + {LeafInput(r.leaf)}
  }

  /**
    What a receipt that verifies proves, whoever sent it: its note is signed, and the leaf it shows
    is the leaf at that index of the tree under the note's root, or strings hashed collide. The
    leaf reads back at its own index, its statement verifies, and it is the one submitted, if any.
   */
  lemma ReceiptIsOfTheTree(cfg: Config, r: Receipt, st: Option<Statement>, leaves: seq<Bytes>)
    requires VerifyReceipt(cfg, r, st)
    requires r.note.root == T.Mth(cfg.H, leaves) && r.note.size == |leaves|
    ensures r.note.signed && r.size == |leaves| && r.index < |leaves|
    ensures r.leaf == leaves[r.index] || CollisionIn(cfg.H, ReceiptInputs(cfg, r, leaves))
    ensures cfg.read(r.leaf).Some?
    ensures var leaf := cfg.read(r.leaf).value;
            && leaf.index == r.index && cfg.statementOk(leaf.statement, leaf.signature)
            && (st.Some? ==> leaf.statement == st.value)
  {
    hide T.Mth, T.MthInputs, Climb, ClimbInputs, CollisionIn, LeafHash, LeafInput, T.IncludedAt;
    T.InclusionSoundData(cfg.H, r.leaf, r.index, r.proof, leaves);
  }

  /** Nothing more is asked: a receipt for the leaf at its index, with that leaf's audit path, verifies. */
  lemma ReceiptOfLeafVerifies(cfg: Config, leaves: seq<Bytes>, i: nat)
    requires i < |leaves| && cfg.read(leaves[i]).Some?
    requires var leaf := cfg.read(leaves[i]).value; leaf.index == i && cfg.statementOk(leaf.statement, leaf.signature)
    ensures var r := Receipt(i, |leaves|, Note(true, |leaves|, T.Mth(cfg.H, leaves)), leaves[i],
                T.InclusionPath(cfg.H, i, leaves));
            VerifyReceipt(cfg, r, None) && VerifyReceipt(cfg, r, Some(cfg.read(leaves[i]).value.statement))
  {
    hide T.Mth, T.InclusionPath, T.IncludedAt, LeafHash;
    T.InclusionComplete(cfg.H, i, leaves);
  }

  lemma RunStep(cfg: Config, events: seq<Event>, e: Event)
    ensures Run(cfg, events + [e]) == Apply(cfg, Run(cfg, events), e)
  {
    assert (events + [e])[..|events|] == events;
  }

  /** The events of a submission to an empty log followed by a second one for the same contract. */
  function Resubmission(first: Submission, second: Submission): seq<Event> {
    [Submit(0, first), FindNothing(0), CountAll(0), CountNamespace(0), Insert(0, "", false)]
    + [Submit(1, second), FindExisting(1, 0), ReadRows(1, [0]), SignNote(1), StoreNote(1)]
  }

  /** Resubmitting a contract under a statement that differs elsewhere (its time, say) is answered
      with the old entry, and the client then rejects the receipt it gets. */
  lemma ResubmissionIsRejected(cfg: Config, first: Submission, second: Submission)
    requires Lossless(cfg)
    requires cfg.statementOk(first.statement, first.signature) && cfg.statementOk(second.statement, second.signature)
    requires first.statement.namespace == second.statement.namespace
    requires first.statement.contract == second.statement.contract && first.statement != second.statement
    ensures var s := Run(cfg, Resubmission(first, second));
            1 in s.requests && s.requests[1].Answered? && s.requests[1].purpose.ForSubmit?
            && s.requests[1].purpose.req == second
            && !VerifyReceipt(cfg, SubmitReply(cfg, s.requests[1].purpose.entry, s.requests[1].hs, s.requests[1].note),
                Some(second.statement))
  {
    SecondAnswered(cfg, first, second);
    var row := NewRow(cfg, NewLeaf(first, 0, 1, ""));
    assert cfg.read(row.leafText) == Some(NewLeaf(first, 0, 1, ""));
  }

  lemma FirstAppend(cfg: Config, first: Submission)
    requires cfg.statementOk(first.statement, first.signature)
    ensures var row := NewRow(cfg, NewLeaf(first, 0, 1, ""));
            Run(cfg, [Submit(0, first), FindNothing(0), CountAll(0), CountNamespace(0), Insert(0, "", false)])
            == State(map[0 := row], map[], map[0 := NeedRows(ForSubmit(first, Entry(0, 1, row.leafText, false)))])
  {
    hide NewRow, Run;
    var e1: seq<Event> := [] + [Submit(0, first)];
    RunNothing(cfg);
    RunStep(cfg, [], Submit(0, first));
    assert Run(cfg, e1) == State(map[], map[], map[0 := Begun(first)]);
    var e2 := e1 + [FindNothing(0)];
    RunStep(cfg, e1, FindNothing(0));
    assert Run(cfg, e2) == State(map[], map[], map[0 := Counting(first, 0)]);
    CountAndInsert(cfg, e2, first);
    assert e2 + [CountAll(0)] + [CountNamespace(0)] + [Insert(0, "", false)]
        == [Submit(0, first), FindNothing(0), CountAll(0), CountNamespace(0), Insert(0, "", false)];
  }

  lemma CountAndInsert(cfg: Config, e2: seq<Event>, first: Submission)
    requires Run(cfg, e2) == State(map[], map[], map[0 := Counting(first, 0)])
    ensures var row := NewRow(cfg, NewLeaf(first, 0, 1, ""));
            Run(cfg, e2 + [CountAll(0)] + [CountNamespace(0)] + [Insert(0, "", false)])
            == State(map[0 := row], map[], map[0 := NeedRows(ForSubmit(first, Entry(0, 1, row.leafText, false)))])
  {
    hide NewRow, Run;
    var e3 := e2 + [CountAll(0)];
    RunStep(cfg, e2, CountAll(0));
    assert Run(cfg, e3) == State(map[], map[], map[0 := HaveN(first, 0, 0)]);
    var e4 := e3 + [CountNamespace(0)];
    RunStep(cfg, e3, CountNamespace(0));
    assert RowsIn(map[], first.statement.namespace) == {};
    assert Run(cfg, e4) == State(map[], map[], map[0 := HaveBoth(first, 0, 0, 1)]);
    RunStep(cfg, e4, Insert(0, "", false));
  }

  lemma SecondAnswered(cfg: Config, first: Submission, second: Submission)
    requires cfg.statementOk(first.statement, first.signature) && cfg.statementOk(second.statement, second.signature)
    requires first.statement.namespace == second.statement.namespace
    requires first.statement.contract == second.statement.contract
    ensures var row := NewRow(cfg, NewLeaf(first, 0, 1, ""));
            var s := Run(cfg, Resubmission(first, second));
            1 in s.requests
            && s.requests[1] == Answered(ForSubmit(second, Entry(0, 1, row.leafText, true)), [row.leafHash],
                Note(true, 1, Root(cfg.H, [row.leafHash])))
  {
    hide Run, Root, LeafHash, Apply, IdxOrder;
    var row := NewRow(cfg, NewLeaf(first, 0, 1, ""));
    var e0 := [Submit(0, first), FindNothing(0), CountAll(0), CountNamespace(0), Insert(0, "", false)];
    FirstAppend(cfg, first);
    var done := NeedRows(ForSubmit(first, Entry(0, 1, row.leafText, false)));
    var found := ForSubmit(second, Entry(0, 1, row.leafText, true));
    var table := map[0 := row];
    SecondFinds(cfg, e0, first, second);
    var e2 := e0 + [Submit(1, second)] + [FindExisting(1, 0)];
    ReadOne(cfg, e2, table, done, found);
    var e3 := e2 + [ReadRows(1, [0])];
    SignAndStore(cfg, e3, table, done, found, row.leafHash);
    assert Resubmission(first, second) == e3 + [SignNote(1)] + [StoreNote(1)];
  }

  lemma SecondFinds(cfg: Config, e0: seq<Event>, first: Submission, second: Submission)
    requires cfg.statementOk(second.statement, second.signature)
    requires first.statement.namespace == second.statement.namespace
    requires first.statement.contract == second.statement.contract
    requires var row := NewRow(cfg, NewLeaf(first, 0, 1, ""));
             Run(cfg, e0) == State(map[0 := row], map[], map[0 := NeedRows(ForSubmit(first, Entry(0, 1, row.leafText, false)))])
    ensures var row := NewRow(cfg, NewLeaf(first, 0, 1, ""));
            Run(cfg, e0 + [Submit(1, second)] + [FindExisting(1, 0)])
            == State(map[0 := row], map[], map[0 := NeedRows(ForSubmit(first, Entry(0, 1, row.leafText, false))),
                                               1 := NeedRows(ForSubmit(second, Entry(0, 1, row.leafText, true)))])
  {
    hide Run, Root, LeafHash, IdxOrder;
    RunStep(cfg, e0, Submit(1, second));
    RunStep(cfg, e0 + [Submit(1, second)], FindExisting(1, 0));
  }

  lemma SignAndStore(cfg: Config, events: seq<Event>, table: map<nat, Row>, done: Request, found: Purpose, h: Digest)
    requires Run(cfg, events) == State(table, map[], map[0 := done, 1 := HaveRows(found, [h])])
    ensures var s := Run(cfg, events + [SignNote(1)] + [StoreNote(1)]);
            1 in s.requests && s.requests[1] == Answered(found, [h], Note(true, 1, Root(cfg.H, [h])))
  {
    hide Run, Root, LeafHash, IdxOrder;
    RunStep(cfg, events, SignNote(1));
    RunStep(cfg, events + [SignNote(1)], StoreNote(1));
  }

  lemma ReadOne(cfg: Config, events: seq<Event>, table: map<nat, Row>, done: Request, found: Purpose)
    requires Run(cfg, events) == State(table, map[], map[0 := done, 1 := NeedRows(found)]) && table.Keys == {0}
    ensures Run(cfg, events + [ReadRows(1, [0])])
            == State(table, map[], map[0 := done, 1 := HaveRows(found, [table[0].leafHash])])
  {
    hide Run;
    var order: seq<nat> := [0];
    var s := Run(cfg, events);
    RunStep(cfg, events, ReadRows(1, order));
    assert IdxOrder(table, order);
    var hs := seq(|order|, i requires 0 <= i < |order| => s.entries[order[i]].leafHash);
    assert hs == [table[0].leafHash];
  }

  lemma RunNothing(cfg: Config)
    ensures Run(cfg, []) == Empty
  {
  }
}
