/**
  Bytes, digests and the hash function. The hash is a parameter: every result holds for
  every function from byte strings to 32-byte strings. Nothing is assumed about collisions;
  a soundness result says "or two of the strings hashed here collide".
 */
module Hashing {
  type byte = b: int | 0 <= b < 256
  type Bytes = seq<byte>
  type Digest = d: Bytes | |d| == 32 witness seq(32, _ => 0)
  type HashFn = Bytes -> Digest

  datatype Option<+T> = None | Some(value: T)

  function LeafInput(data: Bytes): Bytes { [0] + data }

  function NodeInput(left: Bytes, right: Bytes): Bytes { [1] + left + right }

  function LeafHash(H: HashFn, data: Bytes): Digest { H(LeafInput(data)) }

  function NodeHash(H: HashFn, left: Bytes, right: Bytes): Digest { H(NodeInput(left, right)) }

  function LeafHashes(H: HashFn, leaves: seq<Bytes>): (hs: seq<Digest>)
    ensures |hs| == |leaves|
    ensures forall i :: 0 <= i < |hs| ==> hs[i] == LeafHash(H, leaves[i])
  {
    seq(|leaves|, i requires 0 <= i < |leaves| => LeafHash(H, leaves[i]))
  }

  /** Two different members of `strings` have the same hash. */
  ghost predicate CollisionIn(H: HashFn, strings: set<Bytes>) {
    exists a, b :: a in strings && b in strings && a != b && H(a) == H(b)
  }

  lemma NoCollision(H: HashFn, strings: set<Bytes>, a: Bytes, b: Bytes)
    requires !CollisionIn(H, strings) && a in strings && b in strings && H(a) == H(b)
    ensures a == b
  {
  }

  lemma CollisionGrows(H: HashFn, small: set<Bytes>, large: set<Bytes>)
    requires small <= large && CollisionIn(H, small)
    ensures CollisionIn(H, large)
  {
    var a, b :| a in small && b in small && a != b && H(a) == H(b);
    assert a in large && b in large;
  }

  /** A node preimage splits uniquely once one side is known to have the same length. */
  lemma NodeInputSplits(l: Bytes, r: Bytes, l': Bytes, r': Bytes)
    requires NodeInput(l, r) == NodeInput(l', r')
    requires |l| == |l'| || |r| == |r'|
    ensures l == l' && r == r'
  {
    assert |l| + |r| == |l'| + |r'|;
    assert l == NodeInput(l, r)[1..1 + |l|] && l' == NodeInput(l', r')[1..1 + |l'|];
    assert r == NodeInput(l, r)[1 + |l|..] && r' == NodeInput(l', r')[1 + |l'|..];
  }

  lemma NodeNoCollision(H: HashFn, strings: set<Bytes>, l: Bytes, r: Bytes, l': Bytes, r': Bytes)
    requires !CollisionIn(H, strings)
    requires NodeInput(l, r) in strings && NodeInput(l', r') in strings
    requires NodeHash(H, l, r) == NodeHash(H, l', r')
    requires |l| == |l'| || |r| == |r'|
    ensures l == l' && r == r'
  {
    NoCollision(H, strings, NodeInput(l, r), NodeInput(l', r'));
    NodeInputSplits(l, r, l', r');
  }
}
