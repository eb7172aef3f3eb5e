/**
  worker/decisions.js: the write-once decision log. Any number of requests run at once; each
  database statement is one event, and a run is any sequence of events. The table refuses a
  second row with the same idx; it may refuse an insert for other reasons too.
 */
module DecisionLog {
  import opened Hashing
  import opened MerkleTree
  import opened Inclusion
  import T = TLog

  datatype Namespace = Namespace(keyId: string, decisionId: string)

  datatype Statement = Statement(namespace: Namespace, publicKey: string, contract: string, created: string)

  datatype Leaf = Leaf(index: nat, received: string, seqInNs: nat, statement: Statement, signature: string, attached: string)

  /** What the log does not decide itself: the hash, the canonical text of a leaf with its strict
      reader, the test of a statement under its signature, and the mirror's shorter test of only
      the key id and the signature. */
  datatype Config = Config(
    H: HashFn,
    write: Leaf -> Bytes,
    read: Bytes -> Option<Leaf>,
    statementOk: (Statement, string) -> bool,
    signatureOk: (Statement, string) -> bool)

  /** Canonical text: every leaf reads back, and nothing but a leaf's own text reads as it. */
  ghost predicate Lossless(cfg: Config) {
    && (forall l :: cfg.read(cfg.write(l)) == Some(l))
    && (forall b :: cfg.read(b).Some? ==> cfg.write(cfg.read(b).value) == b)
  }

  // ---------------------------------------------------------------- state

  datatype Row = Row(namespace: Namespace, seqInNs: nat, contract: string, leafText: Bytes, leafHash: Digest)

  datatype Note = Note(signed: bool, size: nat, root: Bytes)

  datatype Submission = Submission(statement: Statement, signature: string, attached: string)

  /** The entry a submission is answered with. */
  datatype Entry = Entry(idx: nat, seqInNs: nat, leafText: Bytes, existed: bool)

  datatype Purpose =
    | ForSubmit(req: Submission, entry: Entry)
    | ForLookup(namespace: Namespace, found: seq<nat>)
    | ForCheckpoint

  /** Where a request stands between two database statements. */
  datatype Request =
    | Begun(req: Submission)
    | Counting(req: Submission, attempt: nat)
    | HaveN(req: Submission, attempt: nat, n: nat)
    | HaveBoth(req: Submission, attempt: nat, n: nat, k: nat)
    | Raced(req: Submission, attempt: nat)
    | NeedRows(purpose: Purpose)
    | HaveRows(purpose: Purpose, hs: seq<Digest>)
    | Signed(purpose: Purpose, hs: seq<Digest>, note: Note)
    | Answered(purpose: Purpose, hs: seq<Digest>, note: Note)
    | GaveUp

  datatype State = State(entries: map<nat, Row>, checkpoints: map<nat, Note>, requests: map<nat, Request>)

  const Empty := State(map[], map[], map[])

  const MAX_ATTEMPTS: nat := 4

  datatype Event =
    | Submit(p: nat, req: Submission)
    | AskLookup(p: nat, namespace: Namespace, found: seq<nat>)
    | AskCheckpoint(p: nat)
    | FindExisting(p: nat, idx: nat)
    | FindNothing(p: nat)
    | CountAll(p: nat)
    | CountNamespace(p: nat)
    | Insert(p: nat, received: string, refused: bool)
    | ReadRows(p: nat, order: seq<nat>)
    | FindNote(p: nat)
    | SignNote(p: nat)
    | StoreNote(p: nat)

  // ---------------------------------------------------------------- what the statements return

  function RowsIn(entries: map<nat, Row>, ns: Namespace): set<nat> {
    set i | i in entries && entries[i].namespace == ns
  }

  predicate Matches(row: Row, st: Statement) {
    row.namespace == st.namespace && row.contract == st.contract
  }

  predicate Increasing(order: seq<nat>) {
    forall i, j :: 0 <= i < j < |order| ==> order[i] < order[j]
  }

  /** The keys of the table in idx order. */
  predicate IdxOrder(entries: map<nat, Row>, order: seq<nat>) {
    && Increasing(order)
    && (forall i :: i in order ==> i in entries)
    && (forall i :: i in entries ==> i in order)
  }

  /** The rows of one namespace in the order of seq_in_ns. */
  predicate SeqOrder(entries: map<nat, Row>, ns: Namespace, found: seq<nat>) {
    && (forall i :: i in found ==> i in entries && entries[i].namespace == ns)
    && (forall i :: i in entries && entries[i].namespace == ns ==> i in found)
    && (forall a, b :: 0 <= a < b < |found| ==> entries[found[a]].seqInNs <= entries[found[b]].seqInNs)
  }

  function NewLeaf(req: Submission, n: nat, k: nat, received: string): Leaf {
    Leaf(n, received, k, req.statement, req.signature, req.attached)
  }

  function NewRow(cfg: Config, leaf: Leaf): Row {
    var text := cfg.write(leaf);
    Row(leaf.statement.namespace, leaf.seqInNs, leaf.statement.contract, text, LeafHash(cfg.H, text))
  }

  function Put(s: State, p: nat, r: Request): State {
    s.(requests := s.requests[p := r])
  }

  /** One event; an event that does not fit the request's position changes nothing. */
  function Apply(cfg: Config, s: State, e: Event): State {
    if e.Submit? then
      if e.p in s.requests || !cfg.statementOk(e.req.statement, e.req.signature) then s
      else Put(s, e.p, Begun(e.req))
    else if e.AskLookup? then
      if e.p in s.requests || !SeqOrder(s.entries, e.namespace, e.found) then s
      else Put(s, e.p, NeedRows(ForLookup(e.namespace, e.found)))
    else if e.AskCheckpoint? then
      if e.p in s.requests then s else Put(s, e.p, NeedRows(ForCheckpoint))
    else if e.p !in s.requests then s
    else
      match s.requests[e.p]
      case Begun(req) => Look(s, e, req, 0)
      case Counting(req, attempt) =>
        if e.CountAll? then Put(s, e.p, HaveN(req, attempt, |s.entries|)) else s
      case HaveN(req, attempt, n) =>
        if e.CountNamespace? then Put(s, e.p, HaveBoth(req, attempt, n, |RowsIn(s.entries, req.statement.namespace)| + 1)) else s
      case HaveBoth(req, attempt, n, k) =>
        if !e.Insert? then s
        else if n in s.entries || e.refused then Put(s, e.p, Raced(req, attempt))
        else
          var row := NewRow(cfg, NewLeaf(req, n, k, e.received));
          Put(s.(entries := s.entries[n := row]), e.p, NeedRows(ForSubmit(req, Entry(n, k, row.leafText, false))))
      case Raced(req, attempt) => Look(s, e, req, attempt + 1)
      case NeedRows(purpose) =>
        if e.ReadRows? && IdxOrder(s.entries, e.order) then
          Put(s, e.p, HaveRows(purpose, seq(|e.order|, i requires 0 <= i < |e.order| => s.entries[e.order[i]].leafHash)))
        else s
      case HaveRows(purpose, hs) =>
        if e.FindNote? && |hs| in s.checkpoints then Put(s, e.p, Answered(purpose, hs, s.checkpoints[|hs|]))
        else if e.SignNote? && |hs| !in s.checkpoints then Put(s, e.p, Signed(purpose, hs, Note(true, |hs|, Root(cfg.H, hs))))
        else s
      case Signed(purpose, hs, note) =>
        if !e.StoreNote? then s
        else
          var kept := if |hs| in s.checkpoints then s.checkpoints else s.checkpoints[|hs| := note];
          Put(s.(checkpoints := kept), e.p, Answered(purpose, hs, note))
      case Answered(_, _, _) => s
      case GaveUp => s
  }

  /** The existence lookup: answer with the row found, or go on to the given attempt. */
  function Look(s: State, e: Event, req: Submission, attempt: nat): State {
    if e.FindExisting? then
      if e.idx in s.entries && Matches(s.entries[e.idx], req.statement) then
        var row := s.entries[e.idx];
        Put(s, e.p, NeedRows(ForSubmit(req, Entry(e.idx, row.seqInNs, row.leafText, true))))
      else s
    else if e.FindNothing? && (forall i :: i in s.entries ==> !Matches(s.entries[i], req.statement)) then
      Put(s, e.p, if attempt < MAX_ATTEMPTS then Counting(req, attempt) else GaveUp)
    else s
  }

  function Run(cfg: Config, events: seq<Event>): State {
    if events == [] then Empty else Apply(cfg, Run(cfg, events[..|events| - 1]), events[|events| - 1])
  }

  // ---------------------------------------------------------------- the invariant

  /** Rows occupy exactly the indices below their number. */
  ghost predicate Dense(entries: map<nat, Row>) {
    forall i: nat :: i in entries <==> i < |entries|
  }

  /** How many of the rows below i belong to the namespace. */
  function CountBefore(entries: map<nat, Row>, i: nat, ns: Namespace): nat {
    if i == 0 then 0
    else CountBefore(entries, i - 1, ns) + if i - 1 in entries && entries[i - 1].namespace == ns then 1 else 0
  }

  ghost predicate RowOk(cfg: Config, entries: map<nat, Row>, i: nat)
    requires i in entries
  {
    var row := entries[i];
    var read := cfg.read(row.leafText);
    && read.Some?
    && read.value.index == i
    && read.value.seqInNs == row.seqInNs == CountBefore(entries, i, row.namespace) + 1
    && read.value.statement.namespace == row.namespace
    && read.value.statement.contract == row.contract
    && cfg.statementOk(read.value.statement, read.value.signature)
    && row.leafHash == LeafHash(cfg.H, row.leafText)
  }

  function Hashes(entries: map<nat, Row>, size: nat): seq<Digest>
    requires forall i: nat :: i < size ==> i in entries
  {
    seq(size, i requires 0 <= i < size => entries[i].leafHash)
  }

  /** The leaf names the key, the decision and the contract of the statement. */
  predicate SameContract(cfg: Config, b: Bytes, st: Statement) {
    && cfg.read(b).Some?
    && var found := cfg.read(b).value.statement;
    && found.namespace.keyId == st.namespace.keyId && found.namespace.decisionId == st.namespace.decisionId
    && found.contract == st.contract
  }

  predicate CarriesSubmission(leaf: Leaf, req: Submission) {
    leaf.statement == req.statement && leaf.signature == req.signature && leaf.attached == req.attached
  }

  ghost predicate PurposeOk(cfg: Config, entries: map<nat, Row>, purpose: Purpose, limit: nat) {
    match purpose
    case ForSubmit(req, e) =>
      && e.idx < limit && e.idx in entries && SameContract(cfg, e.leafText, req.statement)
      && entries[e.idx].leafText == e.leafText && entries[e.idx].seqInNs == e.seqInNs
      && (!e.existed ==> cfg.read(e.leafText).Some? && CarriesSubmission(cfg.read(e.leafText).value, req))
    case ForLookup(ns, found) =>
      && (forall j :: j in found ==> j < limit && j in entries && entries[j].namespace == ns)
      && (found != [] ==> CountBefore(entries, found[0], ns) == 0)
    case ForCheckpoint => true
  }

  ghost predicate RequestOk(cfg: Config, entries: map<nat, Row>, r: Request)
    requires Dense(entries)
  {
    match r
    case Begun(req) => cfg.statementOk(req.statement, req.signature)
    case Counting(req, _) => cfg.statementOk(req.statement, req.signature)
    case HaveN(req, _, n) => cfg.statementOk(req.statement, req.signature) && n <= |entries|
    case HaveBoth(req, _, n, k) =>
      && cfg.statementOk(req.statement, req.signature) && n <= |entries|
      && (n == |entries| ==> k == CountBefore(entries, n, req.statement.namespace) + 1)
    case Raced(req, _) => cfg.statementOk(req.statement, req.signature)
    case NeedRows(purpose) => PurposeOk(cfg, entries, purpose, |entries|)
    case HaveRows(purpose, hs) =>
      |hs| <= |entries| && hs == Hashes(entries, |hs|) && PurposeOk(cfg, entries, purpose, |hs|)
    case Signed(purpose, hs, note) =>
      |hs| <= |entries| && hs == Hashes(entries, |hs|) && PurposeOk(cfg, entries, purpose, |hs|)
      && note == Note(true, |hs|, Root(cfg.H, hs))
    case Answered(purpose, hs, note) =>
      |hs| <= |entries| && hs == Hashes(entries, |hs|) && PurposeOk(cfg, entries, purpose, |hs|)
      && note == Note(true, |hs|, Root(cfg.H, hs))
    case GaveUp => true
  }

  ghost predicate NoteOk(cfg: Config, entries: map<nat, Row>, size: nat, note: Note)
    requires Dense(entries)
  {
    size <= |entries| && note == Note(true, size, Root(cfg.H, Hashes(entries, size)))
  }

  ghost predicate Inv(cfg: Config, s: State) {
    && Dense(s.entries)
    && (forall i :: i in s.entries ==> RowOk(cfg, s.entries, i))
    && (forall size :: size in s.checkpoints ==> NoteOk(cfg, s.entries, size, s.checkpoints[size]))
    && (forall p :: p in s.requests ==> RequestOk(cfg, s.entries, s.requests[p]))
  }

  // ---------------------------------------------------------------- counting

  lemma {:induction false} CountIsCardinality(entries: map<nat, Row>, i: nat, ns: Namespace)
    requires Dense(entries) && i <= |entries|
    ensures |set j: nat | j < i && j in entries && entries[j].namespace == ns| == CountBefore(entries, i, ns)
  {
    var all := set j: nat | j < i && j in entries && entries[j].namespace == ns;
    if i == 0 {
      assert all == {};
    } else {
      var rest := set j: nat | j < i - 1 && j in entries && entries[j].namespace == ns;
      CountIsCardinality(entries, i - 1, ns);
      if entries[i - 1].namespace == ns {
        assert all == rest + {i - 1};
      } else {
        assert all == rest;
      }
    }
  }

  lemma RowsInCount(entries: map<nat, Row>, ns: Namespace)
    requires Dense(entries)
    ensures |RowsIn(entries, ns)| == CountBefore(entries, |entries|, ns)
  {
    CountIsCardinality(entries, |entries|, ns);
    assert RowsIn(entries, ns) == set j: nat | j < |entries| && j in entries && entries[j].namespace == ns;
  }

  /** A row is the first of its namespace exactly when no earlier row is in it. */
  lemma {:induction false} CountZero(entries: map<nat, Row>, i: nat, ns: Namespace)
    requires forall j: nat :: j < i ==> j in entries
    ensures CountBefore(entries, i, ns) == 0 <==> forall j: nat :: j < i ==> entries[j].namespace != ns
  {
    if i > 0 { CountZero(entries, i - 1, ns); }
  }

  lemma {:induction false} CountMonotone(entries: map<nat, Row>, i: nat, j: nat, ns: Namespace)
    requires i <= j
    ensures CountBefore(entries, i, ns) <= CountBefore(entries, j, ns)
    ensures i < j && i in entries && entries[i].namespace == ns ==> CountBefore(entries, i, ns) < CountBefore(entries, j, ns)
    decreases j
  {
    if i < j { CountMonotone(entries, i, j - 1, ns); }
  }

  // ---------------------------------------------------------------- what an insert keeps

  ghost predicate Extends(small: map<nat, Row>, large: map<nat, Row>) {
    |small| <= |large| && forall i :: i in small ==> i in large && large[i] == small[i]
  }

  lemma {:induction false} CountExtends(small: map<nat, Row>, large: map<nat, Row>, i: nat, ns: Namespace)
    requires Dense(small) && Extends(small, large) && i <= |small|
    ensures CountBefore(small, i, ns) == CountBefore(large, i, ns)
  {
    if i > 0 { CountExtends(small, large, i - 1, ns); }
  }

  lemma HashesExtend(small: map<nat, Row>, large: map<nat, Row>, size: nat)
    requires Dense(small) && Dense(large) && Extends(small, large) && size <= |small|
    ensures Hashes(small, size) == Hashes(large, size)
  {
  }

  lemma RowKept(cfg: Config, small: map<nat, Row>, large: map<nat, Row>, i: nat)
    requires Dense(small) && Extends(small, large) && i in small && RowOk(cfg, small, i)
    ensures RowOk(cfg, large, i)
  {
    hide CountBefore, LeafHash;
    CountExtends(small, large, i, small[i].namespace);
  }

  lemma PurposeKept(cfg: Config, small: map<nat, Row>, large: map<nat, Row>, purpose: Purpose, limit: nat)
    requires Dense(small) && Extends(small, large) && PurposeOk(cfg, small, purpose, limit) && limit <= |small|
    ensures PurposeOk(cfg, large, purpose, limit)
  {
    hide CountBefore;
    if purpose.ForLookup? && purpose.found != [] {
      assert purpose.found[0] in purpose.found;
      CountExtends(small, large, purpose.found[0], purpose.namespace);
    }
  }

  lemma PurposeWider(cfg: Config, entries: map<nat, Row>, purpose: Purpose, limit: nat, limit': nat)
    requires PurposeOk(cfg, entries, purpose, limit) && limit <= limit'
    ensures PurposeOk(cfg, entries, purpose, limit')
  {
  }

  lemma RequestKept(cfg: Config, small: map<nat, Row>, large: map<nat, Row>, r: Request)
    requires Dense(small) && Dense(large) && Extends(small, large) && RequestOk(cfg, small, r)
    requires |large| == |small| ==> large == small
    ensures RequestOk(cfg, large, r)
  {
    hide CountBefore, PurposeOk, Hashes;
    match r {
      case NeedRows(purpose) =>
        PurposeKept(cfg, small, large, purpose, |small|);
        PurposeWider(cfg, large, purpose, |small|, |large|);
      case HaveRows(purpose, hs) =>
        HashesExtend(small, large, |hs|);
        PurposeKept(cfg, small, large, purpose, |hs|);
      case Signed(purpose, hs, note) =>
        HashesExtend(small, large, |hs|);
        PurposeKept(cfg, small, large, purpose, |hs|);
      case Answered(purpose, hs, note) =>
        HashesExtend(small, large, |hs|);
        PurposeKept(cfg, small, large, purpose, |hs|);
      case _ =>
    }
  }

  lemma NoteKept(cfg: Config, small: map<nat, Row>, large: map<nat, Row>, size: nat, note: Note)
    requires Dense(small) && Dense(large) && Extends(small, large) && NoteOk(cfg, small, size, note)
    ensures NoteOk(cfg, large, size, note)
  {
    hide Hashes, Root;
    HashesExtend(small, large, size);
  }

  /** Replacing one request and leaving the tables alone. */
  lemma PutKeeps(cfg: Config, s: State, p: nat, r: Request)
    requires Inv(cfg, s) && RequestOk(cfg, s.entries, r)
    ensures Inv(cfg, Put(s, p, r))
  {
    hide RequestOk, RowOk, NoteOk, Dense;
  }

  /** The one insert that can succeed: at the first free index, with the count still right. */
  lemma InsertKeeps(cfg: Config, s: State, p: nat, req: Submission, n: nat, k: nat, received: string)
    requires Inv(cfg, s) && Lossless(cfg) && n !in s.entries
    requires cfg.statementOk(req.statement, req.signature) && n <= |s.entries|
    requires n == |s.entries| ==> k == CountBefore(s.entries, n, req.statement.namespace) + 1
    ensures var row := NewRow(cfg, NewLeaf(req, n, k, received));
            var entries := s.entries[n := row];
            Extends(s.entries, entries)
            && Inv(cfg, Put(s.(entries := entries), p, NeedRows(ForSubmit(req, Entry(n, k, row.leafText, false)))))
  {
    hide RequestOk, NoteOk, RowOk, CountBefore, LeafHash;
    var row := NewRow(cfg, NewLeaf(req, n, k, received));
    var entries := s.entries[n := row];
    assert n == |s.entries| && |entries| == n + 1;
    var s' := s.(entries := entries);
    forall i | i in entries ensures RowOk(cfg, entries, i) {
      if i == n {
        NewRowOk(cfg, s.entries, req, n, k, received);
      } else {
        RowKept(cfg, s.entries, entries, i);
      }
    }
    forall size | size in s'.checkpoints ensures NoteOk(cfg, entries, size, s'.checkpoints[size]) {
      NoteKept(cfg, s.entries, entries, size, s.checkpoints[size]);
    }
    forall q | q in s'.requests ensures RequestOk(cfg, entries, s'.requests[q]) {
      RequestKept(cfg, s.entries, entries, s.requests[q]);
    }
    NewRequestOk(cfg, entries, req, n, k, received);
    PutKeeps(cfg, s', p, NeedRows(ForSubmit(req, Entry(n, k, row.leafText, false))));
  }

  lemma NewRowOk(cfg: Config, entries: map<nat, Row>, req: Submission, n: nat, k: nat, received: string)
    requires Dense(entries) && Lossless(cfg) && n == |entries|
    requires cfg.statementOk(req.statement, req.signature)
    requires k == CountBefore(entries, n, req.statement.namespace) + 1
    ensures RowOk(cfg, entries[n := NewRow(cfg, NewLeaf(req, n, k, received))], n)
  {
    hide CountBefore, LeafHash;
    var large := entries[n := NewRow(cfg, NewLeaf(req, n, k, received))];
    CountExtends(entries, large, n, req.statement.namespace);
  }

  lemma NewRequestOk(cfg: Config, entries: map<nat, Row>, req: Submission, n: nat, k: nat, received: string)
    requires Dense(entries) && Lossless(cfg) && n < |entries|
    requires entries[n] == NewRow(cfg, NewLeaf(req, n, k, received))
    ensures RequestOk(cfg, entries, NeedRows(ForSubmit(req, Entry(n, k, entries[n].leafText, false))))
  {
    hide LeafHash;
  }

  // ---------------------------------------------------------------- every event keeps it

  lemma {:induction false} IncreasingAtLeast(order: seq<nat>, i: nat)
    requires Increasing(order) && i < |order|
    ensures order[i] >= i
  {
    if i > 0 { IncreasingAtLeast(order, i - 1); }
  }

  /** In a dense table idx order is counting. */
  lemma {:induction false} OrderIsCounting(entries: map<nat, Row>, order: seq<nat>, i: nat)
    requires Dense(entries) && IdxOrder(entries, order) && i < |entries|
    ensures i < |order| && forall j :: 0 <= j <= i ==> order[j] == j
  {
    if i > 0 { OrderIsCounting(entries, order, i - 1); }
    assert i in order;
    var j :| 0 <= j < |order| && order[j] == i;
    IncreasingAtLeast(order, j);
  }

  lemma OrderIsAll(entries: map<nat, Row>, order: seq<nat>)
    requires Dense(entries) && IdxOrder(entries, order)
    ensures |order| == |entries| && forall j :: 0 <= j < |order| ==> order[j] == j
  {
    if |entries| > 0 { OrderIsCounting(entries, order, |entries| - 1); }
    if |order| > 0 {
      IncreasingAtLeast(order, |order| - 1);
      assert order[|order| - 1] in order;
    }
  }

  /** The row with the least seq_in_ns is the earliest of its namespace. */
  lemma LeastSeqIsEarliest(cfg: Config, entries: map<nat, Row>, ns: Namespace, found: seq<nat>)
    requires Dense(entries) && SeqOrder(entries, ns, found) && found != []
    requires forall i :: i in entries ==> RowOk(cfg, entries, i)
    ensures found[0] in entries && CountBefore(entries, found[0], ns) == 0
  {
    hide CountBefore, LeafHash;
    assert found[0] in found;
    CountZero(entries, found[0], ns);
    forall j: nat | j < found[0] ensures entries[j].namespace != ns {
      if entries[j].namespace == ns {
        assert RowOk(cfg, entries, j) && RowOk(cfg, entries, found[0]);
        var b :| 0 <= b < |found| && found[b] == j;
        CountMonotone(entries, j, found[0], ns);
      }
    }
  }

  /** What the lookup compares is what the leaf says. */
  lemma RowMatches(cfg: Config, entries: map<nat, Row>, i: nat, st: Statement)
    requires i in entries && RowOk(cfg, entries, i)
    ensures Matches(entries[i], st) <==> SameContract(cfg, entries[i].leafText, st)
  {
    hide CountBefore, LeafHash;
  }

  lemma LookKeeps(cfg: Config, s: State, e: Event, req: Submission, attempt: nat)
    requires Inv(cfg, s) && cfg.statementOk(req.statement, req.signature)
    ensures Inv(cfg, Look(s, e, req, attempt)) && Look(s, e, req, attempt).entries == s.entries
  {
    hide RowOk, NoteOk, CountBefore;
    if e.FindExisting? && e.idx in s.entries && Matches(s.entries[e.idx], req.statement) {
      var row := s.entries[e.idx];
      RowMatches(cfg, s.entries, e.idx, req.statement);
      PutKeeps(cfg, s, e.p, NeedRows(ForSubmit(req, Entry(e.idx, row.seqInNs, row.leafText, true))));
    } else if e.FindNothing? {
      PutKeeps(cfg, s, e.p, if attempt < MAX_ATTEMPTS then Counting(req, attempt) else GaveUp);
    }
  }

  lemma ArrivalKeeps(cfg: Config, s: State, e: Event)
    requires Inv(cfg, s) && (e.Submit? || e.AskLookup? || e.AskCheckpoint?)
    ensures Inv(cfg, Apply(cfg, s, e)) && Apply(cfg, s, e).entries == s.entries
  {
    hide NoteOk, CountBefore, RowOk;
    if e.Submit? {
      if e.p !in s.requests && cfg.statementOk(e.req.statement, e.req.signature) { PutKeeps(cfg, s, e.p, Begun(e.req)); }
    } else if e.AskLookup? {
      if e.p !in s.requests && SeqOrder(s.entries, e.namespace, e.found) {
        if e.found != [] { LeastSeqIsEarliest(cfg, s.entries, e.namespace, e.found); }
        LookupPurposeOk(cfg, s.entries, e.namespace, e.found);
        PutKeeps(cfg, s, e.p, NeedRows(ForLookup(e.namespace, e.found)));
      }
    } else if e.p !in s.requests {
      PutKeeps(cfg, s, e.p, NeedRows(ForCheckpoint));
    }
  }

  lemma LookupPurposeOk(cfg: Config, entries: map<nat, Row>, ns: Namespace, found: seq<nat>)
    requires Dense(entries) && SeqOrder(entries, ns, found)
    requires found != [] ==> CountBefore(entries, found[0], ns) == 0
    ensures PurposeOk(cfg, entries, ForLookup(ns, found), |entries|)
  {
    hide CountBefore;
  }

  /** The steps of a submission between its lookups and its insert. */
  lemma AppendKeeps(cfg: Config, s: State, e: Event)
    requires Inv(cfg, s) && Lossless(cfg) && e.p in s.requests
    requires !(e.Submit? || e.AskLookup? || e.AskCheckpoint?)
    requires var r := s.requests[e.p]; r.Begun? || r.Counting? || r.HaveN? || r.HaveBoth? || r.Raced?
    ensures Inv(cfg, Apply(cfg, s, e)) && Extends(s.entries, Apply(cfg, s, e).entries)
  {
    hide Inv, CountBefore, NewRow, NewLeaf, Put, Look, PurposeOk, Hashes, Lossless;
    RequestAt(cfg, s, e.p);
    PutEntries(s, e.p);
    match s.requests[e.p] {
      case Begun(req) => LookKeeps(cfg, s, e, req, 0);
      case Raced(req, attempt) => LookKeeps(cfg, s, e, req, attempt + 1);
      case Counting(req, attempt) => PutKeeps(cfg, s, e.p, HaveN(req, attempt, |s.entries|));
      case HaveN(req, attempt, n) =>
        RowsInCount(s.entries, req.statement.namespace);
        PutKeeps(cfg, s, e.p, HaveBoth(req, attempt, n, |RowsIn(s.entries, req.statement.namespace)| + 1));
      case HaveBoth(req, attempt, n, k) =>
        if e.Insert? {
          if n in s.entries || e.refused {
            PutKeeps(cfg, s, e.p, Raced(req, attempt));
          } else {
            InsertKeeps(cfg, s, e.p, req, n, k, e.received);
            PutEntries(s.(entries := s.entries[n := NewRow(cfg, NewLeaf(req, n, k, e.received))]), e.p);
          }
        }
      case _ =>
    }
  }

  lemma RequestAt(cfg: Config, s: State, p: nat)
    requires Inv(cfg, s) && p in s.requests
    ensures Dense(s.entries) && RequestOk(cfg, s.entries, s.requests[p])
  {
  }

  lemma NoteAt(cfg: Config, s: State, size: nat)
    requires Inv(cfg, s) && size in s.checkpoints
    ensures Dense(s.entries) && size <= |s.entries|
    ensures s.checkpoints[size] == Note(true, size, Root(cfg.H, Hashes(s.entries, size)))
  {
    assert NoteOk(cfg, s.entries, size, s.checkpoints[size]);
  }

  lemma ReadIsHashes(entries: map<nat, Row>, order: seq<nat>, hs: seq<Digest>)
    requires Dense(entries) && |order| == |entries| == |hs|
    requires forall j :: 0 <= j < |order| ==> order[j] == j && order[j] in entries && hs[j] == entries[order[j]].leafHash
    ensures hs == Hashes(entries, |hs|)
  {
  }

  lemma PutEntries(s: State, p: nat)
    ensures forall r :: Put(s, p, r).entries == s.entries
  {
  }

  /** The steps that read the rows, find or sign a checkpoint, and answer. */
  lemma AnswerKeeps(cfg: Config, s: State, e: Event)
    requires Inv(cfg, s) && e.p in s.requests
    requires !(e.Submit? || e.AskLookup? || e.AskCheckpoint?)
    requires var r := s.requests[e.p]; r.NeedRows? || r.HaveRows? || r.Signed? || r.Answered? || r.GaveUp?
    ensures Inv(cfg, Apply(cfg, s, e)) && Apply(cfg, s, e).entries == s.entries
  {
    hide Inv, PurposeOk, Root, Look, Put, Hashes, RequestOk;
    match s.requests[e.p] {
      case NeedRows(purpose) =>
        if e.ReadRows? { ReadKeeps(cfg, s, e.p, e.order, purpose); }
      case HaveRows(purpose, hs) =>
        if e.FindNote? || e.SignNote? { NoteKeeps(cfg, s, e.p, purpose, hs); }
      case Signed(purpose, hs, note) =>
        if e.StoreNote? { StoreKeeps(cfg, s, e.p, purpose, hs, note); }
      case _ =>
    }
  }

  lemma ReadKeeps(cfg: Config, s: State, p: nat, order: seq<nat>, purpose: Purpose)
    requires Inv(cfg, s) && p in s.requests && s.requests[p] == NeedRows(purpose)
    ensures IdxOrder(s.entries, order) ==>
              var hs := seq(|order|, i requires 0 <= i < |order| => s.entries[order[i]].leafHash);
              var s' := Put(s, p, HaveRows(purpose, hs));
              Inv(cfg, s') && s'.entries == s.entries
  {
    hide Inv, PurposeOk;
    RequestAt(cfg, s, p);
    if IdxOrder(s.entries, order) {
      OrderIsAll(s.entries, order);
      var hs := seq(|order|, i requires 0 <= i < |order| => s.entries[order[i]].leafHash);
      ReadIsHashes(s.entries, order, hs);
      PutKeeps(cfg, s, p, HaveRows(purpose, hs));
    }
  }

  lemma NoteKeeps(cfg: Config, s: State, p: nat, purpose: Purpose, hs: seq<Digest>)
    requires Inv(cfg, s) && p in s.requests && s.requests[p] == HaveRows(purpose, hs)
    ensures |hs| in s.checkpoints ==>
              var s' := Put(s, p, Answered(purpose, hs, s.checkpoints[|hs|]));
              Inv(cfg, s') && s'.entries == s.entries
    ensures var s' := Put(s, p, Signed(purpose, hs, Note(true, |hs|, Root(cfg.H, hs))));
            Inv(cfg, s') && s'.entries == s.entries
  {
    hide Inv, PurposeOk, Root, Hashes;
    RequestAt(cfg, s, p);
    if |hs| in s.checkpoints {
      NoteAt(cfg, s, |hs|);
      PutKeeps(cfg, s, p, Answered(purpose, hs, s.checkpoints[|hs|]));
    }
    PutKeeps(cfg, s, p, Signed(purpose, hs, Note(true, |hs|, Root(cfg.H, hs))));
  }

  lemma StoreKeeps(cfg: Config, s: State, p: nat, purpose: Purpose, hs: seq<Digest>, note: Note)
    requires Inv(cfg, s) && p in s.requests && s.requests[p] == Signed(purpose, hs, note)
    ensures var kept := if |hs| in s.checkpoints then s.checkpoints else s.checkpoints[|hs| := note];
            var s' := Put(s.(checkpoints := kept), p, Answered(purpose, hs, note));
            Inv(cfg, s') && s'.entries == s.entries
  {
    hide RowOk, CountBefore, PurposeOk, Root;
    assert RequestOk(cfg, s.entries, s.requests[p]);
    var kept := if |hs| in s.checkpoints then s.checkpoints else s.checkpoints[|hs| := note];
    PutKeeps(cfg, s.(checkpoints := kept), p, Answered(purpose, hs, note));
  }

  lemma ApplyKeeps(cfg: Config, s: State, e: Event)
    requires Inv(cfg, s) && Lossless(cfg)
    ensures Inv(cfg, Apply(cfg, s, e)) && Extends(s.entries, Apply(cfg, s, e).entries)
  {
    hide Inv, RequestOk, Look, Put, Lossless;
    if e.Submit? || e.AskLookup? || e.AskCheckpoint? {
      ArrivalKeeps(cfg, s, e);
    } else if e.p in s.requests {
      var r := s.requests[e.p];
      if r.Begun? || r.Counting? || r.HaveN? || r.HaveBoth? || r.Raced? {
        AppendKeeps(cfg, s, e);
      } else {
        AnswerKeeps(cfg, s, e);
      }
    }
  }

  /** Write-once under any interleaving: every reachable state has dense rows, each leaf indexed
      by its row and numbered by the earlier rows of its namespace, and truthful checkpoints. */
  lemma {:induction false} RunKeeps(cfg: Config, events: seq<Event>)
    requires Lossless(cfg)
    ensures Inv(cfg, Run(cfg, events))
    decreases |events|
  {
    hide Inv, Apply;
    if events == [] {
      EmptyOk(cfg);
    } else {
      RunKeeps(cfg, events[..|events| - 1]);
      ApplyKeeps(cfg, Run(cfg, events[..|events| - 1]), events[|events| - 1]);
    }
  }

  lemma EmptyOk(cfg: Config)
    ensures Inv(cfg, Empty)
  {
  }

  /** No row is ever changed or removed. */
  lemma {:induction false} RowsNeverChange(cfg: Config, events: seq<Event>, k: nat)
    requires Lossless(cfg) && k <= |events|
    ensures Extends(Run(cfg, events[..k]).entries, Run(cfg, events).entries)
    decreases |events|
  {
    hide Inv, Apply, Lossless;
    if k == |events| {
      assert events[..k] == events;
    } else {
      var earlier := events[..|events| - 1];
      assert earlier[..k] == events[..k];
      RowsNeverChange(cfg, earlier, k);
      RunKeeps(cfg, earlier);
      ApplyKeeps(cfg, Run(cfg, earlier), events[|events| - 1]);
    }
  }

  /** The entry numbered 1 of a namespace is its earliest row, there is one as soon as the
      namespace has any row, and it stays the same row for ever. */
  lemma AuthoritativeNeverChanges(cfg: Config, events: seq<Event>, k: nat, i: nat)
    requires Lossless(cfg) && k <= |events|
    requires i in Run(cfg, events[..k]).entries && Run(cfg, events[..k]).entries[i].seqInNs == 1
    ensures var before, after := Run(cfg, events[..k]).entries, Run(cfg, events).entries;
            && i in after && after[i] == before[i]
            && (forall j: nat :: j < i && j in after ==> after[j].namespace != after[i].namespace)
            && (forall j :: j in after && after[j].namespace == after[i].namespace && after[j].seqInNs == 1 ==> j == i)
  {
    hide Run;
    RunKeeps(cfg, events);
    RowsNeverChange(cfg, events, k);
    SeqOneIsFirst(cfg, Run(cfg, events).entries, i);
  }

  lemma SeqOneIsFirst(cfg: Config, entries: map<nat, Row>, i: nat)
    requires Dense(entries) && (forall j :: j in entries ==> RowOk(cfg, entries, j)) && i in entries
    ensures entries[i].seqInNs == 1 <==> forall j: nat :: j < i && j in entries ==> entries[j].namespace != entries[i].namespace
    ensures entries[i].seqInNs == 1 ==>
              forall j :: j in entries && entries[j].namespace == entries[i].namespace && entries[j].seqInNs == 1 ==> j == i
  {
    hide CountBefore, LeafHash;
    var ns := entries[i].namespace;
    assert RowOk(cfg, entries, i);
    CountZero(entries, i, ns);
    forall j | j in entries && entries[j].namespace == ns && entries[j].seqInNs == 1 && entries[i].seqInNs == 1 ensures j == i {
      assert RowOk(cfg, entries, j);
      CountZero(entries, j, ns);
    }
  }
}
