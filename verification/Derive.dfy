/**
  cli/notbefore/derive.py: what a seed decides. Counter-mode bytes, unbiased integers by
  rejection, and an order of records that does not depend on how they are sorted.
 */
module Derive {
  import opened Hashing

  const TWO64: nat := 0x1_0000_0000_0000_0000

  // ---------------------------------------------------------------- counter mode

  function Pow256(n: nat): nat {
    if n == 0 then 1 else 256 * Pow256(n - 1)
  }

  /** The big-endian bytes of a counter; the source raises when it does not fit. */
  function BigEndian(c: nat, width: nat): (s: Bytes)
    ensures |s| == width
  {
    if width == 0 then [] else BigEndian(c / 256, width - 1) + [(c % 256) as byte]
  }

  function FromBigEndian(s: Bytes): nat {
    if s == [] then 0 else FromBigEndian(s[..|s| - 1]) * 256 + s[|s| - 1] as nat
  }

  lemma {:induction false} FromBigEndianBound(s: Bytes)
    ensures FromBigEndian(s) < Pow256(|s|)
  {
    if s != [] { FromBigEndianBound(s[..|s| - 1]); }
  }

  lemma {:induction false} BigEndianInjective(a: nat, b: nat, width: nat)
    requires a < Pow256(width) && b < Pow256(width) && BigEndian(a, width) == BigEndian(b, width)
    ensures a == b
  {
    if width > 0 {
      var s, t := BigEndian(a, width), BigEndian(b, width);
      assert s[..width - 1] == BigEndian(a / 256, width - 1) && t[..width - 1] == BigEndian(b / 256, width - 1);
      assert s[width - 1] == (a % 256) as byte && t[width - 1] == (b % 256) as byte;
      BigEndianInjective(a / 256, b / 256, width - 1);
    }
  }

  /** Eight bytes, the first the most significant. */
  lemma CounterBytes(c: nat)
    requires c < TWO64
    ensures var s := BigEndian(c, 8);
            c == s[0] as nat * 0x100_0000_0000_0000 + s[1] as nat * 0x1_0000_0000_0000 + s[2] as nat * 0x100_0000_0000
                 + s[3] as nat * 0x1_0000_0000 + s[4] as nat * 0x100_0000 + s[5] as nat * 0x1_0000 + s[6] as nat * 0x100
                 + s[7] as nat
  {
    var d := c / 0x1_0000_0000;
    Shifted(c, 8);
    Shifted(c / 256, 7);
    Shifted(c / 256 / 256, 6);
    Shifted(c / 256 / 256 / 256, 5);
    FourBytes(d);
    assert c / 256 / 256 / 256 / 256 == d && BigEndian(c, 8)[..4] == BigEndian(d, 4);
  }

  lemma Shifted(c: nat, width: nat)
    requires width >= 1
    ensures BigEndian(c, width)[..width - 1] == BigEndian(c / 256, width - 1)
    ensures c == (c / 256) * 256 + BigEndian(c, width)[width - 1] as nat
  {
  }

  lemma FourBytes(d: nat)
    requires d < 0x1_0000_0000
    ensures var s := BigEndian(d, 4);
            d == s[0] as nat * 0x100_0000 + s[1] as nat * 0x1_0000 + s[2] as nat * 0x100 + s[3] as nat
  {
    Shifted(d, 4);
    Shifted(d / 256, 3);
    Shifted(d / 256 / 256, 2);
    Shifted(d / 256 / 256 / 256, 1);
  }

  function Block(H: HashFn, domain: Bytes, key: Bytes, c: nat): Digest
    requires c < TWO64
  {
    H(domain + key + BigEndian(c, 8))
  }

  /** The first `count` blocks. */
  function Blocks(H: HashFn, domain: Bytes, key: Bytes, count: nat): (s: Bytes)
    requires count <= TWO64
    ensures |s| == 32 * count
  {
    if count == 0 then [] else Blocks(H, domain, key, count - 1) + Block(H, domain, key, count - 1)
  }

  lemma {:induction false} BlocksPrefix(H: HashFn, domain: Bytes, key: Bytes, a: nat, b: nat)
    requires a <= b <= TWO64
    ensures Blocks(H, domain, key, a) <= Blocks(H, domain, key, b)
    decreases b
  {
    if a < b { BlocksPrefix(H, domain, key, a, b - 1); }
  }

  /** The first n bytes of the key stream: `count` blocks are enough of it for every such count. */
  ghost predicate IsStream(H: HashFn, domain: Bytes, key: Bytes, n: nat, s: Bytes) {
    |s| == n && forall count :: (n + 31) / 32 <= count <= TWO64 ==> s <= Blocks(H, domain, key, count)
  }

  method Stream(H: HashFn, domain: Bytes, key: Bytes, n: nat) returns (s: Bytes)
    requires n <= 32 * TWO64
    ensures IsStream(H, domain, key, n, s)
  {
    var out: Bytes, c := [], 0;
    while |out| < n
      invariant c <= TWO64 && out == Blocks(H, domain, key, c) && c <= (n + 31) / 32
      decreases n - |out|
    {
      out := out + Block(H, domain, key, c);
      c := c + 1;
    }
    s := out[..n];
    forall count | (n + 31) / 32 <= count <= TWO64 ensures s <= Blocks(H, domain, key, count) {
      BlocksPrefix(H, domain, key, c, count);
    }
  }

  /** Asking for more bytes only appends. */
  lemma StreamGrows(H: HashFn, domain: Bytes, key: Bytes, n: nat, m: nat, s: Bytes, t: Bytes)
    requires n <= m <= 32 * TWO64 && IsStream(H, domain, key, n, s) && IsStream(H, domain, key, m, t)
    ensures s <= t
  {
    var count := (m + 31) / 32;
    assert s <= Blocks(H, domain, key, count) && t <= Blocks(H, domain, key, count);
  }

  lemma {:induction false} BlocksByte(H: HashFn, domain: Bytes, key: Bytes, count: nat, k: nat)
    requires count <= TWO64 && k < 32 * count
    ensures Blocks(H, domain, key, count)[k] == H(domain + key + BigEndian(k / 32, 8))[k % 32]
  {
    if k < 32 * (count - 1) {
      BlocksByte(H, domain, key, count - 1, k);
    } else {
      assert k == 32 * (count - 1) + (k - 32 * (count - 1));
      assert k / 32 == count - 1 && k % 32 == k - 32 * (count - 1);
    }
  }

  /** The stream byte by byte: byte k is byte k mod 32 of the hash of domain, key and the counter k div 32. */
  lemma StreamBytes(H: HashFn, domain: Bytes, key: Bytes, n: nat, s: Bytes)
    requires n <= 32 * TWO64
    ensures IsStream(H, domain, key, n, s)
            <==> |s| == n && forall k :: 0 <= k < n ==> s[k] == H(domain + key + BigEndian(k / 32, 8))[k % 32]
  {
    forall count: nat, k: nat | (n + 31) / 32 <= count <= TWO64 && k < n
      ensures Blocks(H, domain, key, count)[k] == H(domain + key + BigEndian(k / 32, 8))[k % 32]
    {
      BlocksByte(H, domain, key, count, k);
    }
    var count := (n + 31) / 32;
    assert s <= Blocks(H, domain, key, count) ==> forall k :: 0 <= k < |s| ==> s[k] == Blocks(H, domain, key, count)[k];
  }

  // ---------------------------------------------------------------- rand_range

  const D_RANGE: Bytes := [110, 111, 116, 98, 101, 102, 111, 114, 101, 47, 114, 97, 110, 103, 101, 47, 118, 49]

  function Chunk(H: HashFn, key: Bytes, c: nat): (r: nat)
    requires c < TWO64
    ensures r < TWO64
  {
    var s := Block(H, D_RANGE, key, c)[..8];
    FromBigEndianBound(s);
    assert Pow256(8) == TWO64 by { EightBytes(); }
    FromBigEndian(s)
  }

  lemma EightBytes()
    ensures Pow256(8) == TWO64
  {
    assert Pow256(4) == 0x1_0000_0000;
    assert Pow256(8) == 256 * (256 * (256 * (256 * Pow256(4))));
  }

  /** A chunk is the number whose eight bytes, the most significant first, start the hash of its counter. */
  lemma ChunkBytes(H: HashFn, key: Bytes, c: nat)
    requires c < TWO64
    ensures BigEndian(Chunk(H, key, c), 8) == H(D_RANGE + key + BigEndian(c, 8))[..8]
    ensures |D_RANGE| == 18 && forall i :: 0 <= i < 18 ==> D_RANGE[i] as int == "notbefore/range/v1"[i] as int
  {
    var s := Block(H, D_RANGE, key, c)[..8];
    BytesBack(s);
  }

  lemma {:induction false} BytesBack(s: Bytes)
    ensures BigEndian(FromBigEndian(s), |s|) == s
  {
    if s != [] {
      BytesBack(s[..|s| - 1]);
      assert s == s[..|s| - 1] + [s[|s| - 1]];
    }
  }

  /** Chunks below this are accepted. */
  function Limit(span: nat): nat
    requires 1 <= span <= TWO64
  {
    (TWO64 / span) * span
  }

  datatype Range = Value(value: int) | BadOrder | TooWide

  /** No counter before c gives an accepted chunk. */
  predicate RejectedBefore(H: HashFn, key: Bytes, span: nat, c: nat)
    requires 1 <= span <= TWO64 && c <= TWO64
  {
    forall d :: 0 <= d < c ==> Chunk(H, key, d) >= Limit(span)
  }

  /** The loop ends because some counter is accepted (`hit`); its value is the first accepted one's. */
  method RandRange(H: HashFn, key: Bytes, lo: int, hi: int, ghost hit: nat) returns (r: Range, c: nat)
    requires 1 < hi - lo + 1 <= TWO64 ==> hit < TWO64 && Chunk(H, key, hit) < Limit(hi - lo + 1)
    ensures r.BadOrder? <==> lo > hi
    ensures r.TooWide? <==> hi - lo + 1 > TWO64
    ensures r.Value? ==> lo <= r.value <= hi
    ensures 1 < hi - lo + 1 <= TWO64 ==>
              && c <= hit && RejectedBefore(H, key, hi - lo + 1, c) && Chunk(H, key, c) < Limit(hi - lo + 1)
              && r == Value(lo + Chunk(H, key, c) % (hi - lo + 1))
  {
    c := 0;
    if lo > hi { return BadOrder, 0; }
    var span := hi - lo + 1;
    if span > TWO64 { return TooWide, 0; }
    if span == 1 { return Value(lo), 0; }
    var limit := Limit(span);
    while true
      invariant c <= hit && RejectedBefore(H, key, span, c)
      decreases hit - c
    {
      var chunk := Chunk(H, key, c);
      if chunk < limit { return Value(lo + chunk % span), c; }
      c := c + 1;
    }
  }

  /** The accepted chunks that give lo + v. */
  function Giving(span: nat, v: nat): set<nat>
    requires 1 <= span <= TWO64
  {
    set r: nat | r < Limit(span) && r % span == v
  }

  function Residue(q: nat, span: nat, v: nat): set<nat>
    requires 1 <= span
  {
    set r: nat | r < q * span && r % span == v
  }

  lemma {:induction false} ResidueCount(q: nat, span: nat, v: nat)
    requires v < span
    ensures |Residue(q, span, v)| == q
  {
    if q == 0 {
      assert Residue(0, span, v) == {};
    } else {
      ResidueCount(q - 1, span, v);
      var before, r := Residue(q - 1, span, v), (q - 1) * span + v;
      assert (q - 1) * span + span == q * span;
      ModOf(q - 1, span, v);
      forall x: nat | x < q * span && x % span == v && x >= (q - 1) * span ensures x == r {
        ModOf(q - 1, span, x - (q - 1) * span);
      }
      assert Residue(q, span, v) == before + {r};
    }
  }

  lemma ModOf(q: nat, span: nat, v: nat)
    requires v < span
    ensures (q * span + v) % span == v
  {
    var x := q * span + v;
    SameQuotient(q, x / span, span, v, x % span);
  }

  lemma SameQuotient(q: nat, p: nat, span: nat, v: nat, r: nat)
    requires q * span + v == p * span + r && v < span && r < span
    ensures v == r
  {
    if q < p {
      MoreIsMore(q, p, span);
    } else if p < q {
      MoreIsMore(p, q, span);
    }
  }

  lemma {:induction false} MoreIsMore(q: nat, p: nat, span: nat)
    requires q < p
    ensures q * span + span <= p * span
  {
    assert p * span == (p - 1) * span + span;
    if q < p - 1 { MoreIsMore(q, p - 1, span); }
  }

  /**
    rand_range is unbiased: every value of the range is given by exactly floor(2^64 / span)
    accepted chunks, and more than half of all chunks are accepted.
   */
  lemma RangeIsUnbiased(span: nat, v: nat)
    requires 1 <= span <= TWO64 && v < span
    ensures |Giving(span, v)| == TWO64 / span >= 1
    ensures TWO64 / 2 < Limit(span) <= TWO64
  {
    assert Giving(span, v) == Residue(TWO64 / span, span, v);
    ResidueCount(TWO64 / span, span, v);
    MoreThanHalf(span);
  }

  lemma MoreThanHalf(span: nat)
    requires 1 <= span <= TWO64
    ensures TWO64 / span >= 1 && TWO64 / 2 < Limit(span) <= TWO64
  {
    var q, rest := TWO64 / span, TWO64 % span;
    assert TWO64 == q * span + rest && rest < span;
    assert q >= 1 ==> q * span >= span;
  }

  // ---------------------------------------------------------------- shuffle, split, assign

  const D_SHUFFLE: Bytes := [110, 111, 116, 98, 101, 102, 111, 114, 101, 47, 115, 104, 117, 102, 102, 108, 101, 47, 118, 49]

  /** A record with its sort key; the hex of its bytes sorts as the bytes do. */
  datatype Ranked = Ranked(rank: Digest, record: Bytes)

  function RankedFrom(H: HashFn, key: Bytes, records: seq<Bytes>, count: nat): (r: seq<Ranked>)
    requires count <= |records| <= TWO64
    ensures |r| == count
  {
    if count == 0 then []
    else RankedFrom(H, key, records, count - 1)
         + [Ranked(H(D_SHUFFLE + key + BigEndian(count - 1, 8) + records[count - 1]), records[count - 1])]
  }

  predicate BytesLess(a: Bytes, b: Bytes) {
    b != [] && (a == [] || a[0] < b[0] || (a[0] == b[0] && BytesLess(a[1..], b[1..])))
  }

  /** One string is before another if it is a proper prefix or has the smaller byte where they first differ. */
  lemma {:induction false} BytesLessIff(a: Bytes, b: Bytes)
    ensures BytesLess(a, b) <==> a < b || exists k :: 0 <= k < |a| && k < |b| && a[..k] == b[..k] && a[k] < b[k]
    decreases |a|
  {
    if a != [] && b != [] && a[0] == b[0] {
      BytesLessIff(a[1..], b[1..]);
      assert a == [a[0]] + a[1..] && b == [b[0]] + b[1..];
      assert a < b <==> a[1..] < b[1..];
      if k :| 0 <= k < |a[1..]| && k < |b[1..]| && a[1..][..k] == b[1..][..k] && a[1..][k] < b[1..][k] {
        assert a[..k + 1] == [a[0]] + a[1..][..k] && b[..k + 1] == [b[0]] + b[1..][..k];
        assert a[k + 1] < b[k + 1];
      }
      if k :| 0 <= k < |a| && k < |b| && a[..k] == b[..k] && a[k] < b[k] {
        assert k > 0 && a[1..][..k - 1] == a[..k][1..] && b[1..][..k - 1] == b[..k][1..];
        assert a[1..][k - 1] < b[1..][k - 1];
      }
    } else if a != [] && b != [] {
      if a[0] < b[0] { assert a[..0] == b[..0]; }
      forall k | 0 < k <= |a| && k <= |b| ensures a[..k] != b[..k] {
        assert a[..k][0] != b[..k][0];
      }
    }
  }

  lemma {:induction false} BytesLessTotal(a: Bytes, b: Bytes)
    ensures BytesLess(a, b) || BytesLess(b, a) || a == b
    ensures !(BytesLess(a, b) && BytesLess(b, a)) && !BytesLess(a, a)
  {
    if a != [] && b != [] && a[0] == b[0] {
      BytesLessTotal(a[1..], b[1..]);
      assert a == [a[0]] + a[1..] && b == [b[0]] + b[1..];
    }
    if a != [] { BytesLessTotal(a[1..], a[1..]); }
  }

  lemma {:induction false} BytesLessTransitive(a: Bytes, b: Bytes, c: Bytes)
    requires BytesLess(a, b) && BytesLess(b, c)
    ensures BytesLess(a, c)
  {
    if a != [] && a[0] == b[0] == c[0] { BytesLessTransitive(a[1..], b[1..], c[1..]); }
  }

  /** By rank, ties by the bytes of the record. */
  predicate Before(a: Ranked, b: Ranked) {
    BytesLess(a.rank, b.rank) || (a.rank == b.rank && BytesLess(a.record, b.record))
  }

  lemma BeforeTotal(a: Ranked, b: Ranked)
    ensures Before(a, b) || Before(b, a) || a == b
    ensures !(Before(a, b) && Before(b, a)) && !Before(a, a)
  {
    hide BytesLess;
    BytesLessTotal(a.rank, b.rank);
    BytesLessTotal(a.record, b.record);
  }

  lemma BeforeTransitive(a: Ranked, b: Ranked, c: Ranked)
    requires Before(a, b) && !Before(c, b)
    ensures Before(a, c)
  {
    hide BytesLess;
    BytesLessTotal(a.rank, b.rank);
    BytesLessTotal(b.rank, c.rank);
    BytesLessTotal(b.record, c.record);
    if BytesLess(a.rank, b.rank) && BytesLess(b.rank, c.rank) { BytesLessTransitive(a.rank, b.rank, c.rank); }
    if BytesLess(a.record, b.record) && BytesLess(b.record, c.record) { BytesLessTransitive(a.record, b.record, c.record); }
  }

  predicate SortedRanks(s: seq<Ranked>) {
    forall i, j :: 0 <= i < j < |s| ==> !Before(s[j], s[i])
  }

  /** Whatever sorts the ranked records correctly gives the same list. */
  lemma {:induction false} SortIsUnique(a: seq<Ranked>, b: seq<Ranked>)
    requires SortedRanks(a) && SortedRanks(b) && multiset(a) == multiset(b)
    ensures a == b
    decreases |a|
  {
    hide SortedRanks;
    assert |multiset(a)| == |a| && |multiset(b)| == |b|;
    if a != [] {
      FirstAgrees(a, b);
      SortedTail(a);
      SortedTail(b);
      SortIsUnique(a[1..], b[1..]);
      assert a == [a[0]] + a[1..] && b == [b[0]] + b[1..];
    }
  }

  lemma SortedTail(s: seq<Ranked>)
    requires s != [] && SortedRanks(s)
    ensures SortedRanks(s[1..]) && multiset(s[1..]) == multiset(s) - multiset{s[0]}
  {
    hide Before;
    assert s == [s[0]] + s[1..];
  }

  lemma FirstAgrees(a: seq<Ranked>, b: seq<Ranked>)
    requires a != [] && b != [] && SortedRanks(a) && SortedRanks(b) && multiset(a) == multiset(b)
    ensures a[0] == b[0]
  {
    hide Before;
    assert a[0] in multiset(b) && b[0] in multiset(a);
    var i :| 0 <= i < |b| && b[i] == a[0];
    var j :| 0 <= j < |a| && a[j] == b[0];
    BeforeTotal(a[0], b[0]);
  }

  function InsertRanked(x: Ranked, s: seq<Ranked>): seq<Ranked> {
    if s == [] || Before(x, s[0]) then [x] + s else [s[0]] + InsertRanked(x, s[1..])
  }

  function SortRanked(s: seq<Ranked>): seq<Ranked> {
    if s == [] then [] else InsertRanked(s[0], SortRanked(s[1..]))
  }

  lemma {:induction false} InsertRankedSorts(x: Ranked, s: seq<Ranked>)
    requires SortedRanks(s)
    ensures SortedRanks(InsertRanked(x, s)) && multiset(InsertRanked(x, s)) == multiset(s) + multiset{x}
  {
    hide Before;
    if s == [] {
    } else if Before(x, s[0]) {
      forall j | 0 <= j < |s| ensures !Before(s[j], x) {
        if j > 0 { BeforeTransitive(x, s[0], s[j]); }
        BeforeTotal(x, s[j]);
      }
    } else {
      var rest := InsertRanked(x, s[1..]);
      InsertRankedSorts(x, s[1..]);
      assert s == [s[0]] + s[1..];
      forall j | 0 <= j < |rest| ensures !Before(rest[j], s[0]) {
        assert rest[j] in multiset(rest);
        if rest[j] != x { assert rest[j] in multiset(s[1..]); }
      }
    }
  }

  lemma {:induction false} SortRankedSorts(s: seq<Ranked>)
    ensures SortedRanks(SortRanked(s)) && multiset(SortRanked(s)) == multiset(s)
  {
    if s != [] {
      SortRankedSorts(s[1..]);
      InsertRankedSorts(s[0], SortRanked(s[1..]));
      assert s == [s[0]] + s[1..];
    }
  }

  function Records(s: seq<Ranked>): (r: seq<Bytes>)
    ensures |r| == |s|
  {
    if s == [] then [] else [s[0].record] + Records(s[1..])
  }

  function Shuffle(H: HashFn, key: Bytes, records: seq<Bytes>): seq<Bytes>
    requires |records| <= TWO64
  {
    Records(SortRanked(RankedFrom(H, key, records, |records|)))
  }

  lemma {:induction false} RecordsAppend(a: seq<Ranked>, b: seq<Ranked>)
    ensures Records(a + b) == Records(a) + Records(b)
  {
    if a == [] {
      assert a + b == b;
    } else {
      assert (a + b)[1..] == a[1..] + b;
      RecordsAppend(a[1..], b);
    }
  }

  lemma {:induction false} RankedKeepsRecords(H: HashFn, key: Bytes, records: seq<Bytes>, count: nat)
    requires count <= |records| <= TWO64
    ensures Records(RankedFrom(H, key, records, count)) == records[..count]
  {
    if count > 0 {
      RankedKeepsRecords(H, key, records, count - 1);
      var last := RankedFrom(H, key, records, count)[count - 1];
      RecordsAppend(RankedFrom(H, key, records, count - 1), [last]);
      assert [last][1..] == [] && Records([last]) == [last.record];
      assert records[..count] == records[..count - 1] + [records[count - 1]];
    }
  }

  lemma {:induction false} InsertRankedRecords(x: Ranked, s: seq<Ranked>)
    ensures multiset(Records(InsertRanked(x, s))) == multiset(Records(s)) + multiset{x.record}
  {
    hide Before;
    if s == [] || Before(x, s[0]) {
      assert ([x] + s)[1..] == s;
    } else {
      InsertRankedRecords(x, s[1..]);
      assert ([s[0]] + InsertRanked(x, s[1..]))[1..] == InsertRanked(x, s[1..]);
    }
  }

  lemma {:induction false} SortRankedRecords(s: seq<Ranked>)
    ensures multiset(Records(SortRanked(s))) == multiset(Records(s))
  {
    if s != [] {
      SortRankedRecords(s[1..]);
      InsertRankedRecords(s[0], SortRanked(s[1..]));
    }
  }

  lemma {:induction false} RankedIs(H: HashFn, key: Bytes, records: seq<Bytes>, count: nat, ranked: seq<Ranked>)
    requires count <= |records| <= TWO64 && |ranked| == count
    requires forall i :: 0 <= i < count ==> ranked[i] == Ranked(H(D_SHUFFLE + key + BigEndian(i, 8) + records[i]), records[i])
    ensures ranked == RankedFrom(H, key, records, count)
  {
    hide BigEndian;
    if count > 0 {
      RankedIs(H, key, records, count - 1, ranked[..count - 1]);
      assert ranked == ranked[..count - 1] + [ranked[count - 1]];
    }
  }

  lemma ShuffleDomain()
    ensures |D_SHUFFLE| == 20 && forall i :: 0 <= i < 20 ==> D_SHUFFLE[i] as int == "notbefore/shuffle/v1"[i] as int
  {
  }

  /**
    The shuffle is a rearrangement of the records, in the order of their ranks, ties by the record.
    The rank of record i is the hash of the domain, the key, i in eight bytes and the record; any
    other correct sort of the ranked records gives the same list.
   */
  lemma ShuffleIsDetermined(H: HashFn, key: Bytes, records: seq<Bytes>, ranked: seq<Ranked>, sorted: seq<Ranked>)
    requires |ranked| == |records| <= TWO64
    requires forall i :: 0 <= i < |ranked| ==> ranked[i] == Ranked(H(D_SHUFFLE + key + BigEndian(i, 8) + records[i]), records[i])
    requires multiset(sorted) == multiset(ranked)
    requires forall i, j :: 0 <= i < j < |sorted| ==> !BytesLess(sorted[j].rank, sorted[i].rank)
    requires forall i, j :: 0 <= i < j < |sorted| && sorted[i].rank == sorted[j].rank ==>
                              !BytesLess(sorted[j].record, sorted[i].record)
    ensures |Shuffle(H, key, records)| == |sorted|
    ensures forall i :: 0 <= i < |sorted| ==> Shuffle(H, key, records)[i] == sorted[i].record
    ensures multiset(Shuffle(H, key, records)) == multiset(records)
    ensures |D_SHUFFLE| == 20 && forall i :: 0 <= i < 20 ==> D_SHUFFLE[i] as int == "notbefore/shuffle/v1"[i] as int
  {
    hide RankedFrom, SortedRanks, BytesLess, BigEndian, Shuffle;
    ShuffleDomain();
    RankedIs(H, key, records, |records|, ranked);
    SortedByParts(sorted);
    AnySortGives(H, key, records, sorted);
    RecordsAt(sorted);
  }

  lemma {:induction false} RecordsAt(s: seq<Ranked>)
    ensures forall i :: 0 <= i < |s| ==> Records(s)[i] == s[i].record
  {
    if s != [] { RecordsAt(s[1..]); }
  }

  lemma SortedByParts(sorted: seq<Ranked>)
    requires forall i, j :: 0 <= i < j < |sorted| ==> !BytesLess(sorted[j].rank, sorted[i].rank)
    requires forall i, j :: 0 <= i < j < |sorted| && sorted[i].rank == sorted[j].rank ==>
                              !BytesLess(sorted[j].record, sorted[i].record)
    ensures SortedRanks(sorted)
  {
    hide BytesLess;
  }

  lemma AnySortGives(H: HashFn, key: Bytes, records: seq<Bytes>, sorted: seq<Ranked>)
    requires |records| <= TWO64
    requires SortedRanks(sorted) && multiset(sorted) == multiset(RankedFrom(H, key, records, |records|))
    ensures Records(sorted) == Shuffle(H, key, records)
    ensures multiset(Shuffle(H, key, records)) == multiset(records)
  {
    hide SortedRanks, Before;
    var ranked := RankedFrom(H, key, records, |records|);
    SortRankedSorts(ranked);
    SortIsUnique(sorted, SortRanked(ranked));
    RankedKeepsRecords(H, key, records, |records|);
    assert records[..|records|] == records;
    SortRankedRecords(ranked);
  }

  /** The positions given arm `arm` out of n: shuffled position i goes to arm i mod arms. */
  function ArmOf(n: nat, arms: nat, arm: nat): set<nat>
    requires arms >= 1
  {
    set i: nat | i < n && i % arms == arm
  }

  /** Arms are balanced: their sizes differ by at most one, the first n mod arms of them being the larger. */
  lemma ArmsBalanced(n: nat, arms: nat, arm: nat)
    requires arms >= 1 && arm < arms
    ensures |ArmOf(n, arms, arm)| == n / arms + if arm < n % arms then 1 else 0
  {
    var q, rest := n / arms, n % arms;
    var full, all, last := Residue(q, arms, arm), ArmOf(n, arms, arm), q * arms + arm;
    assert n == q * arms + rest;
    ResidueCount(q, arms, arm);
    ModOf(q, arms, arm);
    forall x: nat | q * arms <= x < n && x % arms == arm ensures x == last { ModOf(q, arms, x - q * arms); }
    assert all == if arm < rest then full + {last} else full;
  }

  /** assign: the shuffled records with their arms; None when it raises. */
  function Assign(H: HashFn, key: Bytes, records: seq<Bytes>, arms: int): Option<seq<(Bytes, nat)>>
    requires |records| <= TWO64
  {
    if arms < 1 then None
    else
      var s := Shuffle(H, key, records);
      Some(seq(|s|, i requires 0 <= i < |s| => (s[i], i % arms)))
  }

  /** The places of the returned list that carry an arm. */
  function InArm(dealt: seq<(Bytes, nat)>, arm: nat): set<nat> {
    set i: nat | i < |dealt| && dealt[i].1 == arm
  }

  function Dealt(dealt: seq<(Bytes, nat)>): (records: seq<Bytes>)
    ensures |records| == |dealt| && forall i :: 0 <= i < |dealt| ==> records[i] == dealt[i].0
  {
    seq(|dealt|, i requires 0 <= i < |dealt| => dealt[i].0)
  }

  /**
    The list assign returns is the shuffle: every record once, each in an arm that exists, and
    the arms as even as they can be. It raises exactly for fewer than one arm.
   */
  lemma AssignIsBalanced(H: HashFn, key: Bytes, records: seq<Bytes>, arms: int)
    requires |records| <= TWO64
    ensures Assign(H, key, records, arms).None? <==> arms < 1
    ensures arms >= 1 ==>
              var dealt := Assign(H, key, records, arms).value;
              && Dealt(dealt) == Shuffle(H, key, records) && multiset(Dealt(dealt)) == multiset(records)
              && |dealt| == |records| && (forall i :: 0 <= i < |dealt| ==> dealt[i].1 == i % arms)
              && forall arm: nat :: arm < arms ==>
                   |InArm(dealt, arm)| == |records| / arms + if arm < |records| % arms then 1 else 0
  {
    hide Shuffle, RankedFrom, SortedRanks, SortRanked;
    if arms >= 1 {
      var dealt := Assign(H, key, records, arms).value;
      SortRankedSorts(RankedFrom(H, key, records, |records|));
      AnySortGives(H, key, records, SortRanked(RankedFrom(H, key, records, |records|)));
      assert |multiset(Shuffle(H, key, records))| == |Shuffle(H, key, records)| && |multiset(records)| == |records|;
      assert Dealt(dealt) == Shuffle(H, key, records);
      forall arm: nat | arm < arms
        ensures |InArm(dealt, arm)| == |records| / arms + if arm < |records| % arms then 1 else 0
      {
        assert InArm(dealt, arm) == ArmOf(|dealt|, arms, arm);
        ArmsBalanced(|dealt|, arms, arm);
      }
    }
  }
}
