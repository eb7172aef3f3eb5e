/**
  hosts/entropy_host.py: the host that generates each secret, holds it, and signs what it does
  with it. Every command creates, renames or overwrites the files of one seq.
 */
module EntropyHost {
  import opened Hashing

  datatype FileState = Secret | Revealing | Abandoning | Revealed | Abandoned

  datatype Name = Name(num: nat, state: FileState)

  /** E is removed when a record is finalized; the resolver is recorded then. */
  datatype Record = Record(commitment: Digest, E: Option<Bytes>, target: nat, resolver: Option<Digest>)

  type Files = map<Name, Record>

  /** The all-zero hash that stands for "never entered the published chain". */
  const ZERO: Digest := [0, 0, 0, 0, 0, 0, 0, 0, 0, 0, 0, 0, 0, 0, 0, 0, 0, 0, 0, 0, 0, 0, 0, 0, 0, 0, 0, 0, 0, 0, 0, 0]

  datatype Reply =
    | Died
    | CommitStatement(num: nat, commitment: Digest, target: nat)
    | RevealStatement(num: nat, commitHash: Digest, E: Bytes, commitment: Digest, target: nat)
    | FailureStatement(num: nat, commitHash: Digest, commitment: Digest, target: nat)
    | Finalized(already: bool)

  datatype Outcome = Outcome(files: Files, reply: Reply)

  function Pending(files: Files): set<Name> {
    set n | n in files && (n.state == Secret || n.state == Revealing || n.state == Abandoning)
  }

  /** The record says a published commit was resolved. */
  predicate ResolvedPublished(rec: Record) {
    rec.resolver.Some? && rec.resolver.value != ZERO
  }

  /** refuse_if_seq_resolved_a_published_commit. */
  predicate Refuses(files: Files, num: nat) {
    || Name(num, Revealing) in files
    || Name(num, Abandoning) in files
    || (Name(num, Revealed) in files && ResolvedPublished(files[Name(num, Revealed)]))
    || (Name(num, Abandoned) in files && ResolvedPublished(files[Name(num, Abandoned)]))
  }

  /** Nothing is held, and the seq did not resolve a published commit: its next commit will be signed. */
  predicate Free(files: Files, num: nat) {
    && (forall n :: n in files ==> n.state == Revealed || n.state == Abandoned)
    && (Name(num, Revealed) in files ==> !ResolvedPublished(files[Name(num, Revealed)]))
    && (Name(num, Abandoned) in files ==> !ResolvedPublished(files[Name(num, Abandoned)]))
  }

  function Find(files: Files, num: nat, states: seq<FileState>): (found: Option<FileState>)
    ensures found.Some? ==> found.value in states && Name(num, found.value) in files
    ensures found.None? ==> forall st :: st in states ==> Name(num, st) !in files
  {
    if states == [] then None
    else if Name(num, states[0]) in files then Some(states[0])
    else Find(files, num, states[1..])
  }

  function Rename(files: Files, a: Name, b: Name): Files
    requires a in files
  {
    if a == b then files else (files - {a})[b := files[a]]
  }

  // ---------------------------------------------------------------- what each command does

  function CommitOutcome(commitOf: HashFn, files: Files, num: nat, target: nat, E: Bytes): Outcome {
    if Name(num, Secret) in files || Pending(files) != {} || Refuses(files, num) then Outcome(files, Died)
    else
      Outcome(files[Name(num, Secret) := Record(commitOf(E), Some(E), target, None)],
              CommitStatement(num, commitOf(E), target))
  }

  /** A commit is signed exactly when the seq is free, and changes no other file. */
  lemma CommitSignsIff(commitOf: HashFn, files: Files, num: nat, target: nat, E: Bytes)
    ensures var o := CommitOutcome(commitOf, files, num, target, E);
            && (o.reply.CommitStatement? <==> Free(files, num))
            && (o.reply.CommitStatement? ==>
                  && o.reply == CommitStatement(num, commitOf(E), target)
                  && o.files == files[Name(num, Secret) := Record(commitOf(E), Some(E), target, None)])
            && (!o.reply.CommitStatement? ==> o.files == files)
  {
    assert forall n :: n in files && (n.state == Secret || n.state == Revealing || n.state == Abandoning) ==> n in Pending(files);
    if Pending(files) != {} {
      var n :| n in Pending(files);
    }
  }

  /** `released` is the newest drand round the host can see, None when it cannot ask. */
  function RevealOutcome(commitOf: HashFn, files: Files, num: nat, commitHash: Digest, released: Option<nat>): Outcome {
    var found := Find(files, num, [Secret, Revealing]);
    if found.None? then Outcome(files, Died)
    else
      var rec := files[Name(num, found.value)];
      var moved := Rename(files, Name(num, found.value), Name(num, Revealing));
      if rec.E.None? || commitOf(rec.E.value) != rec.commitment then Outcome(moved, Died)
      else if released.None? || released.value < rec.target then Outcome(moved, Died)
      else Outcome(moved, RevealStatement(num, commitHash, rec.E.value, rec.commitment, rec.target))
  }

  function AbandonOutcome(files: Files, num: nat, commitHash: Digest): Outcome {
    var found := Find(files, num, [Secret, Revealing, Abandoning]);
    if found.None? then Outcome(files, Died)
    else
      var rec := files[Name(num, found.value)];
      Outcome(Rename(files, Name(num, found.value), Name(num, Abandoning)),
              FailureStatement(num, commitHash, rec.commitment, rec.target))
  }

  function FinalName(num: nat, st: FileState): Name {
    Name(num, if st == Revealing then Revealed else Abandoned)
  }

  function FinalizeOutcome(files: Files, num: nat, resolver: Digest): Outcome {
    var found := Find(files, num, [Revealing, Abandoning, Revealed, Abandoned]);
    if found.None? then Outcome(files, Died)
    else if found.value == Revealed || found.value == Abandoned then Outcome(files, Finalized(true))
    else
      var rec := files[Name(num, found.value)];
      Outcome((files - {Name(num, found.value)})[FinalName(num, found.value) := Record(rec.commitment, None,
          rec.target, Some(resolver))],
              Finalized(false))
  }

  /** Abandoned and finalized against the zero hash, a seq is held no more and its E is gone. */
  lemma RolledBack(files: Files, num: nat)
    ensures var a := AbandonOutcome(files, num, ZERO);
            var b := FinalizeOutcome(a.files, num, ZERO);
            Name(num, Revealing) !in files && (Name(num, Secret) in files || Name(num, Abandoning) in files) ==>
              && a.reply.FailureStatement?
              && Name(num, Secret) !in b.files && Name(num, Abandoning) !in b.files && Name(num, Abandoned) in b.files
              && b.files[Name(num, Abandoned)].E == None && b.files[Name(num, Abandoned)].resolver == Some(ZERO)
  {
    if Name(num, Revealing) !in files && (Name(num, Secret) in files || Name(num, Abandoning) in files) {
      var found := Find(files, num, [Secret, Revealing, Abandoning]);
      var a := Rename(files, Name(num, found.value), Name(num, Abandoning));
      assert found.value == Secret || found.value == Abandoning;
      assert [Revealing, Abandoning, Revealed, Abandoned][1..] == [Abandoning, Revealed, Abandoned];
      assert Find(a, num, [Abandoning, Revealed, Abandoned]) == Some(Abandoning);
    }
  }

  // ---------------------------------------------------------------- the commands

  class Host {
    const commitOf: HashFn
    var files: Files
    /** Every commit statement ever signed. */
    ghost var signed: seq<(nat, Digest)>

    constructor (commitOf: HashFn)
      ensures this.commitOf == commitOf && files == map[] && signed == []
    {
      this.commitOf, files, signed := commitOf, map[], [];
    }

    /** _find: the first of the states under which the seq has a file. */
    method FindFile(num: nat, states: seq<FileState>) returns (found: Option<FileState>)
      ensures found == Find(files, num, states)
    {
      for i := 0 to |states|
        invariant Find(files, num, states) == Find(files, num, states[i..])
      {
        if Name(num, states[i]) in files { return Some(states[i]); }
        assert states[i..][1..] == states[i + 1..];
      }
      return None;
    }

    /** The equivocation guard, over the four states a resolved or resolving seq can have. */
    method MustRefuse(num: nat) returns (refuse: bool)
      ensures refuse == Refuses(files, num)
    {
      var states := [Revealing, Abandoning, Revealed, Abandoned];
      for i := 0 to 4
        invariant i >= 1 ==> Name(num, Revealing) !in files
        invariant i >= 2 ==> Name(num, Abandoning) !in files
        invariant i >= 3 ==> !(Name(num, Revealed) in files && ResolvedPublished(files[Name(num, Revealed)]))
        invariant i >= 4 ==> !(Name(num, Abandoned) in files && ResolvedPublished(files[Name(num, Abandoned)]))
      {
        var name := Name(num, states[i]);
        if name in files {
          var rec := files[name];
          if states[i] == Revealing || states[i] == Abandoning || ResolvedPublished(rec) { return true; }
        }
      }
      return false;
    }

    method Commit(num: nat, target: nat, E: Bytes) returns (reply: Reply)
      modifies this
      ensures Outcome(files, reply) == CommitOutcome(commitOf, old(files), num, target, E)
      ensures signed == if reply.CommitStatement? then old(signed) + [(num, reply.commitment)] else old(signed)
      ensures reply.CommitStatement? <==> Free(old(files), num)
    {
      if Name(num, Secret) in files { return Died; }
      if Pending(files) != {} { return Died; }
      var refuse := MustRefuse(num);
      CommitSignsIff(commitOf, files, num, target, E);
      if refuse { return Died; }
      var commitment := commitOf(E);
      files := files[Name(num, Secret) := Record(commitment, Some(E), target, None)];
      signed := signed + [(num, commitment)];
      return CommitStatement(num, commitment, target);
    }

    method RevealPrepare(num: nat, commitHash: Digest, released: Option<nat>) returns (reply: Reply)
      modifies this
      ensures Outcome(files, reply) == RevealOutcome(commitOf, old(files), num, commitHash, released)
      ensures reply.RevealStatement? ==>
                && released.Some? && released.value >= reply.target && commitOf(reply.E) == reply.commitment
                && reply.num == num && reply.commitHash == commitHash
                && Name(num, Revealing) in files && files[Name(num, Revealing)].E == Some(reply.E)
                && files[Name(num, Revealing)].commitment == reply.commitment
                && files[Name(num, Revealing)].target == reply.target
      ensures Name(num, Secret) in old(files) ==>
                && Name(num, Secret) !in files && Name(num, Revealing) in files
                && files[Name(num, Revealing)] == old(files)[Name(num, Secret)]
      ensures signed == old(signed)
    {
      var found := FindFile(num, [Secret, Revealing]);
      if found.None? { return Died; }
      var rec := files[Name(num, found.value)];
      if found.value == Secret { files := (files - {Name(num, Secret)})[Name(num, Revealing) := rec]; }
      if rec.E.None? || commitOf(rec.E.value) != rec.commitment { return Died; }
      if released.None? || released.value < rec.target { return Died; }
      return RevealStatement(num, commitHash, rec.E.value, rec.commitment, rec.target);
    }

    method AbandonPrepare(num: nat, commitHash: Digest) returns (reply: Reply)
      modifies this
      ensures Outcome(files, reply) == AbandonOutcome(old(files), num, commitHash)
      ensures reply.FailureStatement? <==>
                Name(num, Secret) in old(files) || Name(num, Revealing) in old(files) || Name(num, Abandoning) in old(files)
      ensures reply.FailureStatement? ==>
                && Name(num, Abandoning) in files && reply.num == num && reply.commitHash == commitHash
                && files[Name(num, Abandoning)].commitment == reply.commitment
      ensures signed == old(signed)
    {
      var found := FindFile(num, [Secret, Revealing, Abandoning]);
      if found.None? { return Died; }
      var rec := files[Name(num, found.value)];
      if found.value != Abandoning { files := (files - {Name(num, found.value)})[Name(num, Abandoning) := rec]; }
      return FailureStatement(num, commitHash, rec.commitment, rec.target);
    }

    method Finalize(num: nat, resolver: Digest) returns (reply: Reply)
      modifies this
      ensures Outcome(files, reply) == FinalizeOutcome(old(files), num, resolver)
      ensures reply == Finalized(false) <==> Name(num, Revealing) in old(files) || Name(num, Abandoning) in old(files)
      ensures reply == Finalized(false) ==>
                var final := Name(num, if Name(num, Revealing) in old(files) then Revealed else Abandoned);
                final in files && files[final].E == None && files[final].resolver == Some(resolver)
      ensures reply != Finalized(false) ==>
                && files == old(files)
                && reply == (if Name(num, Revealed) in files || Name(num, Abandoned) in files then Finalized(true) else Died)
      ensures signed == old(signed)
    {
      var found := FindFile(num, [Revealing, Abandoning, Revealed, Abandoned]);
      if found.None? { return Died; }
      if found.value == Revealed || found.value == Abandoned { return Finalized(true); }
      var rec := files[Name(num, found.value)];
      files := (files - {Name(num, found.value)})[FinalName(num, found.value) := Record(rec.commitment, None,
          rec.target, Some(resolver))];
      return Finalized(false);
    }
  }
}
