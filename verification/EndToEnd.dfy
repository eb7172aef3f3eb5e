/**
  From submission to verdict: a mirror run again and again while the log takes submissions in
  any interleaving, and a client who asks the mirror offline after each run.
 */
module EndToEnd {
  import opened Hashing
  import opened MerkleTree
  import opened DecisionLog
  import opened Mirror
  import opened Authority
  import T = TLog

  ghost predicate HasRows(entries: map<nat, Row>) {
    forall i: nat :: i < |entries| ==> i in entries
  }

  /** A checkpoint over the first rows of the table, and pages of all of them. */
  ghost predicate ServedBy(cfg: Config, entries: map<nat, Row>, note: Note, serve: Server) {
    && HasRows(entries) && note.size <= |entries|
    && note == Note(true, note.size, Root(cfg.H, Hashes(entries, note.size)))
    && forall from: nat, to: nat :: from <= to <= |entries| ==> serve(from, to) == Texts(entries, |entries|)[from..to]
  }

  /** What the earliest row of the namespace says about a statement. */
  function FromRow(cfg: Config, row: Row, i: nat, st: Statement): Answer {
    if cfg.read(row.leafText).None? || cfg.read(row.leafText).value.statement.publicKey != st.publicKey then Unreachable
    else if row.contract == st.contract then Authoritative(i)
    else Superseded(i)
  }

  /** The answer is that of the earliest of the first `size` rows of the namespace, unregistered if there is none. */
  ghost predicate RightAnswer(cfg: Config, entries: map<nat, Row>, size: nat, st: Statement, answer: Answer) {
    && (forall i :: Earliest(entries, size, st.namespace, i) ==> answer == FromRow(cfg, entries[i], i, st))
    && (answer == Unregistered <==> !exists i :: Earliest(entries, size, st.namespace, i))
  }

  /** At each cut of one run of the log, what is served; later cuts and checkpoints are no smaller. */
  ghost predicate ServedAlong(cfg: Config, events: seq<Event>, cuts: seq<nat>, notes: seq<Note>, serves: seq<Server>) {
    && |cuts| == |notes| == |serves|
    && (forall k :: 0 <= k < |cuts| ==> cuts[k] <= |events| && ServedBy(cfg, Run(cfg, events[..cuts[k]]).entries,
        notes[k], serves[k]))
    && (forall j, k :: 0 <= j <= k < |cuts| ==> cuts[j] <= cuts[k] && notes[j].size <= notes[k].size)
  }

  /** The tests and readers of the parties agree with each other. */
  ghost predicate Compatible(cfg: Config, peek: Peek) {
    Lossless(cfg) && KeyIdsSized(cfg) && SignatureIsPart(cfg) && PeekAgrees(cfg, peek)
  }

  /** One run of the mirror and one question, on a mirror that holds the first rows of an earlier table. */
  method SyncAndAsk(m: Mirror, peek: Peek, st: Statement, note: Note, serve: Server,
                    ghost events: seq<Event>, ghost c: nat, ghost d: nat, ghost held: nat)
    returns (result: SyncResult, answer: Answer)
    requires Compatible(m.cfg, peek) && |st.namespace.keyId| == 16 && m.Valid()
    requires c <= d <= |events| && held <= note.size && ServedBy(m.cfg, Run(m.cfg, events[..d]).entries, note, serve)
    requires m.entries == [] || MirrorsRows(Run(m.cfg, events[..c]).entries, m, held)
    modifies m
    ensures m.Valid() && m.checkpoint.Some? && result == Mirrored
    ensures MirrorsRows(Run(m.cfg, events[..d]).entries, m, note.size)
    ensures RightAnswer(m.cfg, Run(m.cfg, events[..d]).entries, note.size, st, answer)
  {
    hide Run, Compatible, RightAnswer, ServedBy, Texts, MirrorsRows, MirrorAnswer, Honest;
    var cfg := m.cfg;
    ghost var log := WholeLog(Run(cfg, events[..d]).entries);
    ServedIsHonest(cfg, peek, events[..d], note, serve);
    if m.entries != [] { HeldIsPrefix(cfg, peek, events, c, d, m, held, note.size); }
    result := m.Sync(note, serve, log);
    MirrorsNow(cfg, events[..d], m, note.size);
    var files := Files(Some(m.index), m.checkpoint, map i: int | 0 <= i < |m.entries| :: m.entries[i]);
    answer := CheckMirror(cfg, peek, files, st);
    AnswersRightly(cfg, peek, events[..d], m, note.size, st);
  }

  /**
    Every mirror run succeeds, and after each the client's offline answer is that of the earliest
    row of the namespace among the rows mirrored. Once some row answers, the answer never changes.
   */
  method MirrorAndAsk(cfg: Config, peek: Peek, st: Statement, notes: seq<Note>, serves: seq<Server>,
                      ghost events: seq<Event>, ghost cuts: seq<nat>)
    returns (results: seq<SyncResult>, answers: seq<Answer>)
    requires Compatible(cfg, peek) && |st.namespace.keyId| == 16
    requires ServedAlong(cfg, events, cuts, notes, serves)
    ensures |results| == |answers| == |notes| && forall k :: 0 <= k < |results| ==> results[k] == Mirrored
    ensures forall k :: 0 <= k < |answers| ==> RightAnswer(cfg, Run(cfg, events[..cuts[k]]).entries, notes[k].size, st, answers[k])
    ensures forall j, k :: 0 <= j <= k < |answers| && answers[j] != Unregistered ==> answers[k] == answers[j]
  {
    hide Run, Compatible, RightAnswer, ServedBy, MirrorsRows;
    var m := new Mirror(cfg);
    results, answers := [], [];
    for k := 0 to |notes|
      invariant fresh(m) && m.Valid() && m.cfg == cfg && |results| == |answers| == k
      invariant k == 0 ==> m.entries == []
      invariant k > 0 ==> MirrorsRows(Run(cfg, events[..cuts[k - 1]]).entries, m, notes[k - 1].size)
      invariant forall i :: 0 <= i < k ==> results[i] == Mirrored
      invariant forall i :: 0 <= i < k ==> RightAnswer(cfg, Run(cfg, events[..cuts[i]]).entries, notes[i].size, st, answers[i])
    {
      ghost var c, held := if k == 0 then 0 else cuts[k - 1], if k == 0 then 0 else notes[k - 1].size;
      var result, answer := SyncAndAsk(m, peek, st, notes[k], serves[k], events, c, cuts[k], held);
      results, answers := results + [result], answers + [answer];
    }
    forall j, k | 0 <= j <= k < |answers| && answers[j] != Unregistered ensures answers[k] == answers[j] {
      AnswerStays(cfg, peek, events, cuts[j], cuts[k], notes[j].size, notes[k].size, st, answers[j], answers[k]);
    }
  }

  ghost function WholeLog(entries: map<nat, Row>): seq<Bytes> {
    if HasRows(entries) then Texts(entries, |entries|) else []
  }

  lemma ServedIsHonest(cfg: Config, peek: Peek, events: seq<Event>, note: Note, serve: Server)
    requires Compatible(cfg, peek) && ServedBy(cfg, Run(cfg, events).entries, note, serve)
    ensures var entries := Run(cfg, events).entries;
            && HasRows(entries) && note.size <= |entries| && Honest(cfg, WholeLog(entries), note, serve)
            && WholeLog(entries)[..note.size] == Texts(entries, note.size)
  {
    hide Run, Honest, Lossless, Root, Hashes;
    RunServesHonestly(cfg, events, note.size, serve);
  }

  /** The rows mirrored at an earlier cut are still the first rows later. */
  lemma HeldIsPrefix(cfg: Config, peek: Peek, events: seq<Event>, c: nat, d: nat, m: Mirror, size: nat, larger: nat)
    requires Compatible(cfg, peek) && c <= d <= |events| && size <= larger
    requires MirrorsRows(Run(cfg, events[..c]).entries, m, size)
    requires HasRows(Run(cfg, events[..d]).entries) && larger <= |Run(cfg, events[..d]).entries|
    ensures m.entries <= WholeLog(Run(cfg, events[..d]).entries) && |m.entries| == size
  {
    hide Run, Lossless, m.Valid;
    assert events[..d][..c] == events[..c];
    RowsNeverChange(cfg, events[..d], c);
  }

  lemma MirrorsNow(cfg: Config, events: seq<Event>, m: Mirror, size: nat)
    requires HasRows(Run(cfg, events).entries) && size <= |Run(cfg, events).entries|
    requires m.entries == Texts(Run(cfg, events).entries, size)
    ensures MirrorsRows(Run(cfg, events).entries, m, size)
  {
    hide Run;
  }

  lemma AnswersRightly(cfg: Config, peek: Peek, events: seq<Event>, m: Mirror, size: nat, st: Statement)
    requires Compatible(cfg, peek) && |st.namespace.keyId| == 16
    requires m.Valid() && m.cfg == cfg && m.checkpoint.Some? && MirrorsRows(Run(cfg, events).entries, m, size)
    ensures RightAnswer(cfg, Run(cfg, events).entries, size, st, MirrorAnswer(cfg, peek, Checkout(m), st))
  {
    hide Run, Lossless, MirrorAnswer, MirrorsRows, Checkout, m.Valid, KeyIdsSized, PeekAgrees;
    MirrorAnswersUnregistered(cfg, peek, events, m, size, st);
    forall i | Earliest(Run(cfg, events).entries, size, st.namespace, i)
      ensures MirrorAnswer(cfg, peek, Checkout(m), st) == FromRow(cfg, Run(cfg, events).entries[i], i, st)
    {
      MirrorAnswersEarliest(cfg, peek, events, m, size, st, i);
    }
  }

  lemma AnswerStays(cfg: Config, peek: Peek, events: seq<Event>, c: nat, d: nat, size: nat, larger: nat, st: Statement,
      a: Answer, b: Answer)
    requires Compatible(cfg, peek) && c <= d <= |events| && size <= larger && a != Unregistered
    requires RightAnswer(cfg, Run(cfg, events[..c]).entries, size, st, a)
    requires RightAnswer(cfg, Run(cfg, events[..d]).entries, larger, st, b)
    ensures b == a
  {
    hide Run, Lossless, FromRow;
    assert events[..d][..c] == events[..c];
    var before, after := Run(cfg, events[..c]).entries, Run(cfg, events[..d]).entries;
    var i :| Earliest(before, size, st.namespace, i);
    RunKeeps(cfg, events[..c]);
    RowsNeverChange(cfg, events[..d], c);
    StaysEarliest(cfg, before, after, size, larger, st.namespace, i);
  }

  lemma StaysEarliest(cfg: Config, before: map<nat, Row>, after: map<nat, Row>, size: nat, larger: nat, ns: Namespace, i: nat)
    requires Dense(before) && Extends(before, after) && size <= larger && Earliest(before, size, ns, i)
    ensures Earliest(after, larger, ns, i) && after[i] == before[i]
  {
  }
}
