/**
  cli/notbefore/decisionlog.py, check_authoritative: is this statement the preregistration of
  its namespace? Asked of the live log, or of the mirror in a checkout. The namespace index of a
  mirror is not authenticated; the leaves under the signed root are.
 */
module Authority {
  import opened Hashing
  import opened MerkleTree
  import opened DecisionLog
  import opened Receipts
  import opened Mirror
  import T = TLog

  datatype Answer =
    | MirrorAbsent | Unregistered | Unreachable
    | Authoritative(index: int) | Superseded(index: int)

  /**
    What the client finds in a checkout: any index file, any note, any entry files. Index numbers
    and file names are whatever integers were written there, negative ones included.
   */
  datatype Files = Files(index: Option<map<string, seq<int>>>, note: Option<Note>, entries: map<int, Bytes>)

  /** How a leaf file that need not be canonical names its namespace; None if it is not JSON. */
  type Peek = Bytes -> Option<Option<Namespace>>

  /** Reading strictly and reading loosely agree on what is canonical. */
  ghost predicate PeekAgrees(cfg: Config, peek: Peek) {
    forall b :: cfg.read(b).Some? ==> peek(b) == Some(Some(cfg.read(b).value.statement.namespace))
  }

  // ---------------------------------------------------------------- offline

  predicate LeafNames(cfg: Config, b: Bytes, st: Statement) {
    var leaf := cfg.read(b);
    && leaf.Some?
    && cfg.statementOk(leaf.value.statement, leaf.value.signature)
    && leaf.value.statement.namespace == st.namespace
    && leaf.value.statement.publicKey == st.publicKey
    && leaf.value.seqInNs == 1
  }

  /** The scan of the leaves before `first`: a missing file reads as an object without statement. */
  predicate EarlierClear(peek: Peek, entries: map<int, Bytes>, first: int, ns: Namespace) {
    forall i :: 0 <= i < first ==> i !in entries || (peek(entries[i]).Some? && peek(entries[i]).value != Some(ns))
  }

  predicate Complete(entries: map<int, Bytes>, size: nat) {
    forall i: nat :: i < size ==> i in entries
  }

  function Tree(entries: map<int, Bytes>, size: nat): seq<Bytes>
    requires Complete(entries, size)
  {
    seq(size, i requires 0 <= i < size => entries[i])
  }

  function MirrorAnswer(cfg: Config, peek: Peek, files: Files, st: Statement): Answer {
    if files.index.None? then MirrorAbsent
    else if files.note.None? || !files.note.value.signed then Unreachable
    else
      var key := IndexKey(st.namespace);
      var size := files.note.value.size;
      if key !in files.index.value || files.index.value[key] == [] then Unregistered
      else
        var first := files.index.value[key][0];
        if first !in files.entries || first >= size then Unreachable
        else if !LeafNames(cfg, files.entries[first], st) then Unreachable
        else if !EarlierClear(peek, files.entries, first, st.namespace) then Unreachable
        else if !Complete(files.entries, size) || T.Mth(cfg.H, Tree(files.entries, size)) != files.note.value.root then Unreachable
        else if cfg.read(files.entries[first]).value.statement.contract == st.contract then Authoritative(first)
        else Superseded(first)
  }

  method CheckMirror(cfg: Config, peek: Peek, files: Files, st: Statement) returns (answer: Answer)
    ensures answer == MirrorAnswer(cfg, peek, files, st)
    ensures answer.MirrorAbsent? <==> files.index.None?
    ensures answer.Unregistered? <==>
              && files.index.Some? && files.note.Some? && files.note.value.signed
              && (IndexKey(st.namespace) in files.index.value ==> files.index.value[IndexKey(st.namespace)] == [])
  {
    hide T.Mth;
    if files.index.None? { return MirrorAbsent; }
    if files.note.None? || !files.note.value.signed { return Unreachable; }
    var size, root := files.note.value.size, files.note.value.root;
    var key := IndexKey(st.namespace);
    if key !in files.index.value || files.index.value[key] == [] { return Unregistered; }
    var first := files.index.value[key][0];
    if first !in files.entries || first >= size || !LeafNames(cfg, files.entries[first], st) { return Unreachable; }
    var i := 0;
    while i < first
      invariant i <= first || i == 0
      invariant EarlierClear(peek, files.entries, i, st.namespace)
    {
      if i in files.entries {
        var named := peek(files.entries[i]);
        if named.None? || named.value == Some(st.namespace) { return Unreachable; }
      }
      i := i + 1;
    }
    var leaves := [];
    for j := 0 to size
      invariant Complete(files.entries, j) && leaves == Tree(files.entries, j)
    {
      if j !in files.entries { return Unreachable; }
      leaves := leaves + [files.entries[j]];
    }
    if T.Mth(cfg.H, leaves) != root { return Unreachable; }
    var contract := cfg.read(files.entries[first]).value.statement.contract;
    answer := if contract == st.contract then Authoritative(first) else Superseded(first);
  }

  /** The number the index file lists first for the namespace. */
  function Listed(files: Files, ns: Namespace): int
    requires files.index.Some? && IndexKey(ns) in files.index.value && files.index.value[IndexKey(ns)] != []
  {
    files.index.value[IndexKey(ns)][0]
  }

  /** A leaf signed for the namespace under the key asked about as its first entry, with the contract the answer says. */
  predicate SignedFirst(cfg: Config, b: Bytes, st: Statement, a: Answer) {
    && cfg.read(b).Some?
    && var leaf := cfg.read(b).value;
    && cfg.statementOk(leaf.statement, leaf.signature) && leaf.seqInNs == 1
    && leaf.statement.namespace == st.namespace && leaf.statement.publicKey == st.publicKey
    && (a.Authoritative? <==> leaf.statement.contract == st.contract)
  }

  /** The answer is about the first leaf of the namespace in these leaves, and that leaf is signed as its first. */
  ghost predicate AboutLeast(cfg: Config, leaves: seq<Bytes>, st: Statement, a: Answer)
    requires a.Authoritative? || a.Superseded?
  {
    && 0 <= a.index < |leaves| && NamespaceOf(cfg, leaves[a.index]) == Some(st.namespace)
    && SignedFirst(cfg, leaves[a.index], st, a)
    && forall i :: 0 <= i < a.index ==> NamespaceOf(cfg, leaves[i]) != Some(st.namespace)
  }

  /** An answer of authority is about the listed leaf file, signed as the first entry of the namespace,
      beside a complete tree under the signed root. */
  lemma AnswerIsSigned(cfg: Config, peek: Peek, files: Files, st: Statement)
    requires var a := MirrorAnswer(cfg, peek, files, st); a.Authoritative? || a.Superseded?
    ensures files.index.Some? && IndexKey(st.namespace) in files.index.value && files.index.value[IndexKey(st.namespace)] != []
    ensures MirrorAnswer(cfg, peek, files, st).index == Listed(files, st.namespace)
    ensures Listed(files, st.namespace) in files.entries
    ensures SignedFirst(cfg, files.entries[Listed(files, st.namespace)], st, MirrorAnswer(cfg, peek, files, st))
    ensures forall i :: 0 <= i < Listed(files, st.namespace) && i in files.entries ==>
              peek(files.entries[i]).Some? && peek(files.entries[i]).value != Some(st.namespace)
    ensures files.note.Some? && files.note.value.signed && Complete(files.entries, files.note.value.size)
    ensures T.Mth(cfg.H, Tree(files.entries, files.note.value.size)) == files.note.value.root
  {
    hide T.Mth, IndexKey;
  }

  /**
    An answer of authority, from any checkout at all, is about the least leaf of the namespace in
    the one tree under the signed root if and only if the number listed first is not negative.
   */
  lemma AnswerIsLeastIff(cfg: Config, peek: Peek, files: Files, st: Statement)
    requires PeekAgrees(cfg, peek)
    requires var a := MirrorAnswer(cfg, peek, files, st); a.Authoritative? || a.Superseded?
    ensures var a := MirrorAnswer(cfg, peek, files, st);
            && Complete(files.entries, files.note.value.size)
            && (AboutLeast(cfg, Tree(files.entries, files.note.value.size), st, a) <==> 0 <= Listed(files, st.namespace))
  {
    hide T.Mth, IndexKey;
    AnswerIsSigned(cfg, peek, files, st);
  }

  /**
    The scan cannot see a negative number: any leaf signed for the namespace as its first entry,
    in a file of a negative number, is made authoritative beside any checkout that has an answer.
    The note, the tree and every leaf in it are untouched.
   */
  lemma ForgedIndexAnswers(cfg: Config, peek: Peek, files: Files, st: Statement, forged: Statement, leaf: Bytes, n: int)
    requires var a := MirrorAnswer(cfg, peek, files, st); a.Authoritative? || a.Superseded?
    requires n < 0 && forged.namespace == st.namespace && LeafNames(cfg, leaf, forged)
    requires cfg.read(leaf).value.statement.contract == forged.contract
    ensures files.index.Some?
    ensures var index := files.index.value[IndexKey(st.namespace) := [n]];
            MirrorAnswer(cfg, peek, Files(Some(index), files.note, files.entries[n := leaf]), forged) == Authoritative(n)
  {
    hide T.Mth, LeafNames, IndexKey;
    AnswerIsSigned(cfg, peek, files, st);
    var size := files.note.value.size;
    assert Tree(files.entries[n := leaf], size) == Tree(files.entries, size);
  }

  /**
    One root never makes two contracts authoritative for a namespace, whatever the two index
    files, checkouts and tree sizes, as long as neither index lists a negative number first, or
    strings hashed in recomputing the two trees collide.
   */
  lemma OneAuthority(cfg: Config, peek: Peek, a: Files, b: Files, st: Statement, st': Statement)
    requires PeekAgrees(cfg, peek) && st.namespace == st'.namespace
    requires MirrorAnswer(cfg, peek, a, st).Authoritative? && MirrorAnswer(cfg, peek, b, st').Authoritative?
    requires 0 <= MirrorAnswer(cfg, peek, a, st).index && 0 <= MirrorAnswer(cfg, peek, b, st').index
    requires a.note.value.root == b.note.value.root
    ensures Complete(a.entries, a.note.value.size) && Complete(b.entries, b.note.value.size)
    ensures st.contract == st'.contract
            || CollisionIn(cfg.H, T.MthInputs(cfg.H, Tree(a.entries, a.note.value.size))
                                  + T.MthInputs(cfg.H, Tree(b.entries, b.note.value.size)))
  {
    hide T.Mth, T.MthInputs, MirrorAnswer, Tree;
    AnswerIsSigned(cfg, peek, a, st);
    AnswerIsSigned(cfg, peek, b, st');
    AnswerIsLeastIff(cfg, peek, a, st);
    AnswerIsLeastIff(cfg, peek, b, st');
    var x, y := Tree(a.entries, a.note.value.size), Tree(b.entries, b.note.value.size);
    var strings := T.MthInputs(cfg.H, x) + T.MthInputs(cfg.H, y);
    if !CollisionIn(cfg.H, strings) { T.MthInjective(cfg.H, x, y, strings); }
  }

  // ---------------------------------------------------------------- end to end

  /** The leaf texts of the table, in idx order. */
  function Texts(entries: map<nat, Row>, size: nat): seq<Bytes>
    requires forall i: nat :: i < size ==> i in entries
  {
    seq(size, i requires 0 <= i < size => entries[i].leafText)
  }

  /** The checkout a mirror run leaves behind. */
  ghost function Checkout(m: Mirror): Files
    reads m
  {
    Files(Some(m.index), m.checkpoint, map i: int | 0 <= i < |m.entries| :: m.entries[i])
  }

  /** The earliest row of a namespace below a size. */
  ghost predicate Earliest(entries: map<nat, Row>, size: nat, ns: Namespace, i: nat) {
    i < size && i in entries && entries[i].namespace == ns
    && forall j: nat :: j < i && j in entries ==> entries[j].namespace != ns
  }

  /** The mirror holds the first `size` rows of some run of the log. */
  ghost predicate MirrorsRun(cfg: Config, events: seq<Event>, m: Mirror, size: nat)
    reads m
  {
    && m.Valid() && m.cfg == cfg && m.checkpoint.Some?
    && MirrorsRows(Run(cfg, events).entries, m, size)
  }

  ghost predicate MirrorsRows(entries: map<nat, Row>, m: Mirror, size: nat)
    reads m
  {
    && size <= |entries| && (forall i: nat :: i < size ==> i in entries)
    && m.entries == Texts(entries, size)
  }

  /** After any interleaving of submits, a mirror of the log answers authoritative exactly when the
      earliest row of the namespace carries this contract (and is under the key asked about). */
  lemma MirrorAnswersEarliest(cfg: Config, peek: Peek, events: seq<Event>, m: Mirror, size: nat, st: Statement, i: nat)
    requires Lossless(cfg) && KeyIdsSized(cfg) && PeekAgrees(cfg, peek) && |st.namespace.keyId| == 16
    requires MirrorsRun(cfg, events, m, size)
    requires Earliest(Run(cfg, events).entries, size, st.namespace, i)
    ensures var row := Run(cfg, events).entries[i];
            && cfg.read(row.leafText).Some?
            && MirrorAnswer(cfg, peek, Checkout(m), st)
               == if cfg.read(row.leafText).value.statement.publicKey != st.publicKey then Unreachable
                  else if row.contract == st.contract then Authoritative(i)
                  else Superseded(i)
  {
    var entries := Run(cfg, events).entries;
    hide Run, IndexOf, MirrorAnswer, CountBefore, LeafHash, RowOk, m.Valid, MirrorsRows;
    RunKeeps(cfg, events);
    EarliestListed(cfg, entries, m, size, st, i);
    EarliestAnswered(cfg, peek, entries, m, size, st, i);
  }

  /** And it answers not registered exactly when no mirrored row is of the namespace. */
  lemma MirrorAnswersUnregistered(cfg: Config, peek: Peek, events: seq<Event>, m: Mirror, size: nat, st: Statement)
    requires Lossless(cfg) && KeyIdsSized(cfg) && |st.namespace.keyId| == 16
    requires MirrorsRun(cfg, events, m, size)
    ensures MirrorAnswer(cfg, peek, Checkout(m), st) == Unregistered
            <==> !exists i :: Earliest(Run(cfg, events).entries, size, st.namespace, i)
  {
    var entries := Run(cfg, events).entries;
    hide Run, IndexOf, CountBefore, LeafHash, RowOk, Earliest, m.Valid, MirrorsRows, T.Mth;
    RunKeeps(cfg, events);
    var key := IndexKey(st.namespace);
    MirrorShape(m);
    IndexFirst(cfg, m.entries, key);
    if key in m.index {
      ListedHasEarliest(cfg, entries, m, size, st);
    } else if i :| Earliest(entries, size, st.namespace, i) {
      EarliestListed(cfg, entries, m, size, st, i);
    }
  }

  lemma MirrorShape(m: Mirror)
    requires m.Valid() && m.checkpoint.Some?
    ensures VerifiedLeaves(m.cfg, m.entries) && m.index == IndexOf(m.cfg, m.entries)
    ensures m.checkpoint.value == Note(true, |m.entries|, T.Mth(m.cfg.H, m.entries))
  {
  }

  lemma RowNamespace(cfg: Config, entries: map<nat, Row>, i: nat)
    requires i in entries && RowOk(cfg, entries, i)
    ensures NamespaceOf(cfg, entries[i].leafText) == Some(entries[i].namespace)
    ensures var leaf := cfg.read(entries[i].leafText);
            leaf.Some? && leaf.value.statement.contract == entries[i].contract
            && cfg.statementOk(leaf.value.statement, leaf.value.signature) && leaf.value.seqInNs == entries[i].seqInNs
  {
    hide CountBefore, LeafHash;
  }

  /** Rows and leaf files agree on who has an index key. */
  lemma KeyIsNamespace(cfg: Config, entries: map<nat, Row>, i: nat, ns: Namespace)
    requires KeyIdsSized(cfg) && |ns.keyId| == 16 && i in entries && RowOk(cfg, entries, i)
    ensures HasKey(cfg, entries[i].leafText, IndexKey(ns)) <==> entries[i].namespace == ns
  {
    hide RowOk, IndexKey;
    RowNamespace(cfg, entries, i);
    if IndexKey(entries[i].namespace) == IndexKey(ns) { IndexKeyInjective(entries[i].namespace, ns); }
  }

  lemma EarliestListed(cfg: Config, entries: map<nat, Row>, m: Mirror, size: nat, st: Statement, i: nat)
    requires KeyIdsSized(cfg) && |st.namespace.keyId| == 16
    requires (forall j :: j in entries ==> RowOk(cfg, entries, j)) && Earliest(entries, size, st.namespace, i)
    requires m.Valid() && m.checkpoint.Some? && m.cfg == cfg && MirrorsRows(entries, m, size)
    ensures IndexKey(st.namespace) in m.index && m.index[IndexKey(st.namespace)] != []
    ensures m.index[IndexKey(st.namespace)][0] == i
  {
    hide IndexOf, RowOk, T.Mth, HasKey, IndexKey, VerifiedLeaf, m.Valid;
    MirrorShape(m);
    var key := IndexKey(st.namespace);
    IndexFirst(cfg, m.entries, key);
    KeyIsNamespace(cfg, entries, i, st.namespace);
    assert HasKey(cfg, m.entries[i], key);
    var first := m.index[key][0];
    KeyIsNamespace(cfg, entries, first, st.namespace);
  }

  lemma ListedHasEarliest(cfg: Config, entries: map<nat, Row>, m: Mirror, size: nat, st: Statement)
    requires KeyIdsSized(cfg) && |st.namespace.keyId| == 16
    requires Dense(entries) && (forall j :: j in entries ==> RowOk(cfg, entries, j))
    requires m.Valid() && m.checkpoint.Some? && m.cfg == cfg && MirrorsRows(entries, m, size)
    requires IndexKey(st.namespace) in m.index
    ensures exists i :: Earliest(entries, size, st.namespace, i)
  {
    hide IndexOf, RowOk, T.Mth, HasKey, IndexKey, VerifiedLeaf, m.Valid;
    MirrorShape(m);
    var key := IndexKey(st.namespace);
    IndexFirst(cfg, m.entries, key);
    var first := m.index[key][0];
    KeyIsNamespace(cfg, entries, first, st.namespace);
    forall j: nat | j < first && j in entries ensures entries[j].namespace != st.namespace {
      KeyIsNamespace(cfg, entries, j, st.namespace);
      assert !HasKey(cfg, m.entries[j], key);
    }
    assert Earliest(entries, size, st.namespace, first);
  }

  lemma EarliestAnswered(cfg: Config, peek: Peek, entries: map<nat, Row>, m: Mirror, size: nat, st: Statement, i: nat)
    requires PeekAgrees(cfg, peek) && Dense(entries)
    requires (forall j :: j in entries ==> RowOk(cfg, entries, j)) && Earliest(entries, size, st.namespace, i)
    requires m.Valid() && m.cfg == cfg && m.checkpoint.Some? && MirrorsRows(entries, m, size)
    requires IndexKey(st.namespace) in m.index && m.index[IndexKey(st.namespace)] != [] && m.index[IndexKey(st.namespace)][0] == i
    ensures cfg.read(entries[i].leafText).Some?
    ensures MirrorAnswer(cfg, peek, Checkout(m), st)
            == if cfg.read(entries[i].leafText).value.statement.publicKey != st.publicKey then Unreachable
               else if entries[i].contract == st.contract then Authoritative(i)
               else Superseded(i)
  {
    hide IndexOf, RowOk, T.Mth, IndexKey, VerifiedLeaves, m.Valid;
    MirrorShape(m);
    var files := Checkout(m);
    RowNamespace(cfg, entries, i);
    SeqOneIsFirst(cfg, entries, i);
    forall j | 0 <= j < i
      ensures j !in files.entries || (peek(files.entries[j]).Some? && peek(files.entries[j]).value != Some(st.namespace))
    {
      RowNamespace(cfg, entries, j);
    }
    assert Tree(files.entries, size) == m.entries;
  }

  /** What the log serves of any run is what a mirror run needs to succeed: the checkpoint of a
      prefix of the rows, and pages of their texts. */
  lemma RunServesHonestly(cfg: Config, events: seq<Event>, size: nat, serve: Server)
    requires Lossless(cfg) && SignatureIsPart(cfg) && size <= |Run(cfg, events).entries|
    requires forall i: nat :: i < |Run(cfg, events).entries| ==> i in Run(cfg, events).entries
    requires var entries := Run(cfg, events).entries;
             forall from: nat, to: nat :: from <= to <= |entries| ==> serve(from, to) == Texts(entries, |entries|)[from..to]
    ensures var entries := Run(cfg, events).entries;
            var log := Texts(entries, |entries|);
            && Honest(cfg, log, Note(true, size, Root(cfg.H, Hashes(entries, size))), serve)
            && log[..size] == Texts(entries, size)
  {
    var entries := Run(cfg, events).entries;
    hide Run, Root, T.Mth, RowOk, CountBefore, LeafHash, VerifiedLeaf;
    RunKeeps(cfg, events);
    var log := Texts(entries, |entries|);
    forall i | 0 <= i < |log| ensures VerifiedLeaf(cfg, log[i], i) {
      TextVerified(cfg, entries, i);
    }
    T.MthIsRoot(cfg.H, log[..size]);
    forall i | 0 <= i < size ensures LeafHashes(cfg.H, log[..size])[i] == Hashes(entries, size)[i] {
      TextVerified(cfg, entries, i);
    }
    assert LeafHashes(cfg.H, log[..size]) == Hashes(entries, size);
  }

  lemma TextVerified(cfg: Config, entries: map<nat, Row>, i: nat)
    requires SignatureIsPart(cfg) && i in entries && RowOk(cfg, entries, i)
    ensures VerifiedLeaf(cfg, entries[i].leafText, i) && entries[i].leafHash == LeafHash(cfg.H, entries[i].leafText)
  {
  }

  // ---------------------------------------------------------------- online

  /** The reply of the lookup branch: the entries' indices and sequence numbers, and the first
      entry's leaf with its path. */
  datatype Reply = Reply(entries: seq<(nat, nat)>, size: nat, note: Note, leaf: Bytes, proof: seq<Bytes>)

  function OnlineAnswer(cfg: Config, reply: Option<Reply>, st: Statement): Answer {
    if reply.None? then Unreachable
    else if reply.value.entries == [] then Unregistered
    else
      var first := reply.value.entries[0];
      var r := Receipt(first.0, reply.value.size, reply.value.note, reply.value.leaf, reply.value.proof);
      if !VerifyReceipt(cfg, r, None) then Unreachable
      else
        var leaf := cfg.read(r.leaf).value;
        if leaf.statement.namespace != st.namespace || leaf.statement.publicKey != st.publicKey then Unreachable
        else if leaf.seqInNs != 1 || first.1 != 1 then Unreachable
        else if leaf.statement.contract == st.contract then Authoritative(first.0)
        else Superseded(first.0)
  }

  /**
    Whatever the server sends: an online answer of authority is about the leaf at that index of the
    tree under the signed root, or strings hashed collide. The leaf is signed for this namespace
    under this key as its first entry, and the answer says whether it carries the contract.
   */
  lemma OnlineAnswerIsSigned(cfg: Config, reply: Option<Reply>, st: Statement, leaves: seq<Bytes>)
    requires var a := OnlineAnswer(cfg, reply, st); a.Authoritative? || a.Superseded?
    requires reply.value.note.root == T.Mth(cfg.H, leaves) && reply.value.note.size == |leaves|
    ensures var a, leaf := OnlineAnswer(cfg, reply, st), cfg.read(reply.value.leaf);
            && reply.value.note.signed && reply.value.entries != [] && reply.value.entries[0] == (a.index, 1)
            && 0 <= a.index < |leaves| && leaf.Some?
            && (reply.value.leaf == leaves[a.index]
                || CollisionIn(cfg.H, ReceiptInputs(cfg, Receipt(a.index, |leaves|, reply.value.note, reply.value.leaf,
                    reply.value.proof), leaves)))
            && leaf.value.index == a.index && leaf.value.seqInNs == 1
            && cfg.statementOk(leaf.value.statement, leaf.value.signature)
            && leaf.value.statement.namespace == st.namespace && leaf.value.statement.publicKey == st.publicKey
            && (a.Authoritative? <==> leaf.value.statement.contract == st.contract)
  {
    hide T.Mth, VerifyReceipt, ReceiptInputs, CollisionIn;
    var v := reply.value;
    ReceiptIsOfTheTree(cfg, Receipt(v.entries[0].0, v.size, v.note, v.leaf, v.proof), None, leaves);
  }

  /** What the worker sends for the rows it found. */
  function LookupReply(cfg: Config, entries: map<nat, Row>, found: seq<nat>, hs: seq<Digest>, note: Note): Reply
    requires forall i :: i in found ==> i in entries
  {
    Reply(seq(|found|, i requires 0 <= i < |found| => (found[i], entries[found[i]].seqInNs)), |hs|, note,
          if found == [] then [] else entries[found[0]].leafText,
          if found != [] && found[0] < |hs| then Path(cfg.H, found[0], hs) else [])
  }

  /** Under every interleaving a lookup that finds rows is answered from the earliest row of the
      namespace, and that row stays the earliest whatever is appended later. */
  lemma LookupAnswersEarliest(cfg: Config, events: seq<Event>, p: nat, st: Statement)
    requires Lossless(cfg) && p in Run(cfg, events).requests
    requires var r := Run(cfg, events).requests[p];
             r.Answered? && r.purpose.ForLookup? && r.purpose.namespace == st.namespace && r.purpose.found != []
    ensures var s := Run(cfg, events);
            var Answered(ForLookup(_, found), hs, note) := s.requests[p];
            && (forall i :: i in found ==> i in s.entries)
            && Earliest(s.entries, |s.entries|, st.namespace, found[0])
            && var row := s.entries[found[0]];
            && cfg.read(row.leafText).Some?
            && OnlineAnswer(cfg, Some(LookupReply(cfg, s.entries, found, hs, note)), st)
               == if cfg.read(row.leafText).value.statement.publicKey != st.publicKey then Unreachable
                  else if row.contract == st.contract then Authoritative(found[0])
                  else Superseded(found[0])
  {
    var s := Run(cfg, events);
    hide Run, RowOk, NoteOk, Root, Path, Hashes, CountBefore, VerifyReceipt, Lossless;
    AnswerAt(cfg, events, p);
    var Answered(ForLookup(ns, found), hs, note) := s.requests[p];
    var i := found[0];
    assert i in found;
    CountZero(s.entries, i, ns);
    RowNamespace(cfg, s.entries, i);
    SeqOneIsFirst(cfg, s.entries, i);
    RowProves(cfg, s.entries, i, hs, note);
  }
}
