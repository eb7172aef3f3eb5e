/**
  decisions_mirror.py: the repository copy of the decision log, grown page by page under checks,
  and its namespace index.
 */
module Mirror {
  import opened Hashing
  import opened DecisionLog
  import C = Consistency
  import T = TLog

  /** The key of a namespace in INDEX.json. */
  function IndexKey(ns: Namespace): string { ns.keyId + "/" + ns.decisionId }

  /** Key ids have 16 characters, which is what keeps index keys of different namespaces apart. */
  lemma IndexKeyInjective(a: Namespace, b: Namespace)
    requires |a.keyId| == |b.keyId| && IndexKey(a) == IndexKey(b)
    ensures a == b
    ensures |IndexKey(a)| == |a.keyId| + 1 + |a.decisionId| && IndexKey(a)[|a.keyId|] == '/'
  {
    assert a.keyId == IndexKey(a)[..|a.keyId|] && b.keyId == IndexKey(b)[..|b.keyId|];
    assert a.decisionId == IndexKey(a)[|a.keyId| + 1..] && b.decisionId == IndexKey(b)[|b.keyId| + 1..];
  }

  /** A statement is accepted only under the key its key id names. */
  ghost predicate KeyIdsSized(cfg: Config) {
    forall st, sig :: cfg.statementOk(st, sig) ==> |st.namespace.keyId| == 16
  }

  /** Whatever passes the full test of a statement passes the test of its key id and signature. */
  ghost predicate SignatureIsPart(cfg: Config) {
    forall st, sig :: cfg.statementOk(st, sig) ==> cfg.signatureOk(st, sig)
  }

  /** verify_leaf: canonical, at its index, its key id and signature right; no other field is tested. */
  predicate VerifiedLeaf(cfg: Config, b: Bytes, i: nat) {
    var leaf := cfg.read(b);
    leaf.Some? && leaf.value.index == i && cfg.signatureOk(leaf.value.statement, leaf.value.signature)
  }

  predicate VerifiedLeaves(cfg: Config, leaves: seq<Bytes>) {
    forall i :: 0 <= i < |leaves| ==> VerifiedLeaf(cfg, leaves[i], i)
  }

  function NamespaceOf(cfg: Config, b: Bytes): Option<Namespace> {
    var leaf := cfg.read(b);
    if leaf.Some? then Some(leaf.value.statement.namespace) else None
  }

  // ---------------------------------------------------------------- the namespace index

  function AddToIndex(index: map<string, seq<nat>>, key: string, i: nat): map<string, seq<nat>> {
    index[key := (if key in index then index[key] else []) + [i]]
  }

  function IndexOf(cfg: Config, leaves: seq<Bytes>): map<string, seq<nat>>
    requires VerifiedLeaves(cfg, leaves)
  {
    if leaves == [] then map[]
    else
      var n := |leaves| - 1;
      assert VerifiedLeaf(cfg, leaves[n], n);
      AddToIndex(IndexOf(cfg, leaves[..n]), IndexKey(cfg.read(leaves[n]).value.statement.namespace), n)
  }

  ghost predicate HasKey(cfg: Config, b: Bytes, key: string) {
    NamespaceOf(cfg, b).Some? && IndexKey(NamespaceOf(cfg, b).value) == key
  }

  /** A key is listed exactly when some leaf has it, and its first number is the earliest such leaf. */
  lemma {:induction false} IndexFirst(cfg: Config, leaves: seq<Bytes>, key: string)
    requires VerifiedLeaves(cfg, leaves)
    ensures key in IndexOf(cfg, leaves) <==> exists i :: 0 <= i < |leaves| && HasKey(cfg, leaves[i], key)
    ensures key in IndexOf(cfg, leaves) ==>
              && IndexOf(cfg, leaves)[key] != []
              && var first := IndexOf(cfg, leaves)[key][0];
              && first < |leaves| && HasKey(cfg, leaves[first], key)
              && forall i :: 0 <= i < first ==> !HasKey(cfg, leaves[i], key)
    decreases |leaves|
  {
    if leaves != [] {
      var n := |leaves| - 1;
      IndexFirst(cfg, leaves[..n], key);
      assert VerifiedLeaf(cfg, leaves[n], n);
      assert forall i :: 0 <= i < n ==> leaves[..n][i] == leaves[i];
      if HasKey(cfg, leaves[n], key) {
      } else {
        assert key in IndexOf(cfg, leaves) <==> key in IndexOf(cfg, leaves[..n]);
      }
    }
  }

  // ---------------------------------------------------------------- the mirror

  datatype SyncResult = BadCheckpoint | Rollback | NoLeavesServed | BadLeaf | RootDiffers | SplitView | Mirrored

  /** What a log hands out: the leaves from one index up to another, as far as it serves them. */
  type Server = (nat, nat) -> seq<Bytes>

  const PAGE: nat := 500

  class Mirror {
    const cfg: Config
    var entries: seq<Bytes>
    var checkpoint: Option<Note>
    var index: map<string, seq<nat>>

    ghost predicate Valid()
      reads this
    {
      && VerifiedLeaves(cfg, entries)
      && (checkpoint.None? ==> entries == [])
      && (checkpoint.Some? ==> checkpoint.value == Note(true, |entries|, T.Mth(cfg.H, entries)))
      && index == IndexOf(cfg, entries)
    }

    constructor (cfg: Config)
      ensures Valid() && this.cfg == cfg && entries == [] && checkpoint == None
    {
      this.cfg, entries, checkpoint, index := cfg, [], None, map[];
    }

    /** `log` stands for any log the server may be honest about. */
    method Sync(note: Note, serve: Server, ghost log: seq<Bytes>) returns (result: SyncResult)
      requires Valid()
      modifies this
      ensures Valid() && old(entries) <= entries
      ensures result.Mirrored? ==>
                && note.signed && checkpoint == Some(note) && |entries| == note.size && T.Mth(cfg.H, entries) == note.root
                && forall i :: 0 <= i < |entries| ==>
                     && cfg.read(entries[i]).Some? && cfg.read(entries[i]).value.index == i
                     && cfg.signatureOk(cfg.read(entries[i]).value.statement, cfg.read(entries[i]).value.signature)
      ensures result.BadCheckpoint? <==> !note.signed
      ensures result.Rollback? <==> note.signed && note.size < |old(entries)|
      ensures !result.SplitView?
      ensures !result.Mirrored? ==> entries == old(entries) && checkpoint == old(checkpoint) && index == old(index)
      ensures Honest(cfg, log, note, serve) && old(entries) <= log && |old(entries)| <= note.size ==>
                result.Mirrored? && entries == log[..note.size]
    {
      hide T.Mth, T.ConsistencyProof, C.Accepts, IndexOf;
      if !note.signed { return BadCheckpoint; }
      if note.size < |entries| { return Rollback; }
      var fetched, leaves := Fetch(cfg, entries, note.size, serve, log);
      if fetched != Mirrored { return fetched; }
      leaves := leaves[..note.size];
      if T.Mth(cfg.H, leaves) != note.root { return RootDiffers; }
      if checkpoint.Some? {
        var prev := checkpoint.value;
        var proof := if 0 < prev.size < note.size then T.ConsistencyProof(cfg.H, prev.size, leaves) else [];
        var ok := T.VerifyConsistency(cfg.H, prev.size, note.size, proof, prev.root, note.root);
        OwnProofOfSize(cfg.H, prev.size, leaves);
        assert leaves[..prev.size] == entries;
        if !ok { return SplitView; }
      }
      entries := leaves;
      checkpoint := Some(note);
      index := BuildIndex(cfg, leaves);
      return Mirrored;
    }
  }

  /** The log as its own server: a signed checkpoint of a prefix, and pages cut from the leaves. */
  ghost predicate Honest(cfg: Config, log: seq<Bytes>, note: Note, serve: Server) {
    && VerifiedLeaves(cfg, log)
    && note.signed && note.size <= |log| && note.root == T.Mth(cfg.H, log[..note.size])
    && forall from: nat, to: nat :: from <= to <= |log| ==> serve(from, to) == log[from..to]
  }

  lemma OwnProofOfSize(H: HashFn, m: nat, leaves: seq<Bytes>)
    requires m <= |leaves|
    ensures C.Accepts(H, m, |leaves|, if 0 < m < |leaves| then T.ConsistencyProof(H, m, leaves) else [],
                      T.Mth(H, leaves[..m]), T.Mth(H, leaves))
  {
    T.ConsistencyComplete(H, m, leaves);
  }

  /** Read pages from what is held up to the size, checking every leaf. */
  method Fetch(cfg: Config, held: seq<Bytes>, size: nat, serve: Server, ghost log: seq<Bytes>)
    returns (result: SyncResult, leaves: seq<Bytes>)
    requires VerifiedLeaves(cfg, held) && |held| <= size
    ensures result in {Mirrored, NoLeavesServed, BadLeaf}
    ensures held <= leaves
    ensures result == Mirrored ==> |leaves| >= size && VerifiedLeaves(cfg, leaves)
    ensures Serves(cfg, log, size, serve) && held <= log ==> result == Mirrored && leaves[..size] == log[..size]
  {
    ghost var honest := Serves(cfg, log, size, serve) && held <= log;
    leaves := held;
    result := Mirrored;
    while |leaves| < size
      invariant held <= leaves && VerifiedLeaves(cfg, leaves)
      invariant honest ==> leaves <= log && |leaves| <= size
      decreases size - |leaves|
    {
      var from := |leaves|;
      var to := if size < from + PAGE then size else from + PAGE;
      var got := serve(from, to);
      if got == [] { return NoLeavesServed, leaves; }
      var good := VerifyPage(cfg, got, from);
      if honest { PageVerified(cfg, log, from, to); }
      if !good { return BadLeaf, leaves; }
      assert forall i :: from <= i < from + |got| ==> (leaves + got)[i] == got[i - from];
      leaves := leaves + got;
    }
  }

  method VerifyPage(cfg: Config, got: seq<Bytes>, from: nat) returns (good: bool)
    ensures good <==> forall j :: 0 <= j < |got| ==> VerifiedLeaf(cfg, got[j], from + j)
  {
    for j := 0 to |got|
      invariant forall k :: 0 <= k < j ==> VerifiedLeaf(cfg, got[k], from + k)
    {
      if !VerifiedLeaf(cfg, got[j], from + j) { return false; }
    }
    return true;
  }

  lemma PageVerified(cfg: Config, log: seq<Bytes>, from: nat, to: nat)
    requires VerifiedLeaves(cfg, log) && from <= to <= |log|
    ensures forall j :: 0 <= j < to - from ==> VerifiedLeaf(cfg, log[from..to][j], from + j)
  {
    forall j | 0 <= j < to - from ensures VerifiedLeaf(cfg, log[from..to][j], from + j) {
      assert VerifiedLeaf(cfg, log[from + j], from + j);
    }
  }

  ghost predicate Serves(cfg: Config, log: seq<Bytes>, size: nat, serve: Server) {
    && VerifiedLeaves(cfg, log) && size <= |log|
    && forall from: nat, to: nat :: from <= to <= |log| ==> serve(from, to) == log[from..to]
  }

  method BuildIndex(cfg: Config, leaves: seq<Bytes>) returns (index: map<string, seq<nat>>)
    requires VerifiedLeaves(cfg, leaves)
    ensures index == IndexOf(cfg, leaves)
  {
    index := map[];
    for i := 0 to |leaves|
      invariant index == IndexOf(cfg, leaves[..i])
    {
      assert VerifiedLeaf(cfg, leaves[i], i);
      assert leaves[..i + 1][..i] == leaves[..i];
      index := AddToIndex(index, IndexKey(cfg.read(leaves[i]).value.statement.namespace), i);
    }
    assert leaves[..|leaves|] == leaves;
  }
}
