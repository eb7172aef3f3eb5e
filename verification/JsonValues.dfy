/**
  hosts/attest_lib.py: the values statements are made of, their normal form, and their one
  canonical text. Text is a sequence of Unicode scalar values; its UTF-8 bytes determine it.
 */
module JsonValues {
  import opened Hashing

  /** The largest integer every JSON reader keeps exactly. */
  const SAFE := 9007199254740991

  /** A dictionary key: a string, or something else that str() would print as `text`. */
  datatype Key = StringKey(text: string) | OtherKey(text: string)

  /** A Python value. Dictionaries keep insertion order; a float is known by its repr. */
  datatype Json =
    | Null
    | Bool(b: bool)
    | Int(n: int)
    | Str(s: string)
    | Float(repr: string)
    | NonFinite
    | Array(items: Items)
    | Tuple(items: Items)
    | Object(members: Members)
    | Unsupported

  datatype Items = NoItems | Item(head: Json, tail: Items)

  datatype Members = NoMembers | Member(key: Key, value: Json, tail: Members)

  // ---------------------------------------------------------------- normalize and _check

  function Keys(m: Members): set<Key> {
    if m.NoMembers? then {} else {m.key} + Keys(m.tail)
  }

  /** No Python dictionary holds a key twice. */
  predicate WellFormed(x: Json) {
    match x
    case Array(items) => WellFormedItems(items)
    case Tuple(items) => WellFormedItems(items)
    case Object(members) => WellFormedMembers(members)
    case _ => true
  }

  predicate WellFormedItems(items: Items) {
    items.NoItems? || (WellFormed(items.head) && WellFormedItems(items.tail))
  }

  predicate WellFormedMembers(m: Members) {
    m.NoMembers? || (m.key !in Keys(m.tail) && WellFormed(m.value) && WellFormedMembers(m.tail))
  }

  /** A dictionary assignment: an existing key keeps its place. */
  function Put(m: Members, key: Key, value: Json): Members {
    if m.NoMembers? then Member(key, value, NoMembers)
    else if m.key == key then Member(key, value, m.tail)
    else Member(m.key, m.value, Put(m.tail, key, value))
  }

  /** normalize; None when it raises. */
  function Normalize(x: Json): Option<Json> {
    match x
    case Int(n) => if -SAFE <= n <= SAFE then Some(x) else Some(Str(Decimal(n)))
    case Float(repr) => Some(Str(repr))
    case NonFinite => None
    case Unsupported => None
    case Array(items) => NormalArray(NormalizeItems(items))
    case Tuple(items) => NormalArray(NormalizeItems(items))
    case Object(members) =>
      var r := NormalizeMembers(members, NoMembers);
      if r.None? then None else Some(Object(r.value))
    case _ => Some(x)
  }

  function NormalArray(items: Option<Items>): Option<Json> {
    if items.None? then None else Some(Array(items.value))
  }

  function NormalizeItems(items: Items): Option<Items> {
    if items.NoItems? then Some(NoItems)
    else
      var h, t := Normalize(items.head), NormalizeItems(items.tail);
      if h.None? || t.None? then None else Some(Item(h.value, t.value))
  }

  /** The comprehension over the items, adding to what it has built. */
  function NormalizeMembers(m: Members, built: Members): Option<Members> {
    if m.NoMembers? then Some(built)
    else
      var v := Normalize(m.value);
      if v.None? then None else NormalizeMembers(m.tail, Put(built, StringKey(m.key.text), v.value))
  }

  /** _check: what canon accepts. */
  predicate Accepted(x: Json) {
    match x
    case Int(n) => -SAFE <= n <= SAFE
    case Float(_) => false
    case NonFinite => false
    case Unsupported => false
    case Tuple(_) => false
    case Array(items) => AcceptedItems(items)
    case Object(members) => AcceptedMembers(members)
    case _ => true
  }

  predicate AcceptedItems(items: Items) {
    items.NoItems? || (Accepted(items.head) && AcceptedItems(items.tail))
  }

  predicate AcceptedMembers(m: Members) {
    m.NoMembers? || (m.key.StringKey? && Accepted(m.value) && AcceptedMembers(m.tail))
  }

  lemma {:induction false} PutKeys(m: Members, key: Key, value: Json)
    ensures Keys(Put(m, key, value)) == Keys(m) + {key}
  {
    if !m.NoMembers? && m.key != key { PutKeys(m.tail, key, value); }
  }

  lemma {:induction false} PutKeeps(m: Members, key: Key, value: Json)
    requires AcceptedMembers(m) && WellFormedMembers(m) && key.StringKey? && Accepted(value) && WellFormed(value)
    ensures AcceptedMembers(Put(m, key, value)) && WellFormedMembers(Put(m, key, value))
  {
    if !m.NoMembers? && m.key != key {
      PutKeeps(m.tail, key, value);
      PutKeys(m.tail, key, value);
    }
  }

  /** Whatever normalize returns, canon accepts. */
  lemma {:induction false} NormalizedIsAccepted(x: Json)
    requires Normalize(x).Some?
    ensures Accepted(Normalize(x).value) && WellFormed(Normalize(x).value)
    decreases x
  {
    match x
    case Array(items) => NormalizedItemsAreAccepted(items);
    case Tuple(items) => NormalizedItemsAreAccepted(items);
    case Object(members) => NormalizedMembersAreAccepted(members, NoMembers);
    case _ =>
  }

  lemma {:induction false} NormalizedItemsAreAccepted(items: Items)
    requires NormalizeItems(items).Some?
    ensures AcceptedItems(NormalizeItems(items).value) && WellFormedItems(NormalizeItems(items).value)
    decreases items
  {
    if !items.NoItems? {
      NormalizedIsAccepted(items.head);
      NormalizedItemsAreAccepted(items.tail);
    }
  }

  lemma {:induction false} NormalizedMembersAreAccepted(m: Members, built: Members)
    requires NormalizeMembers(m, built).Some? && AcceptedMembers(built) && WellFormedMembers(built)
    ensures AcceptedMembers(NormalizeMembers(m, built).value) && WellFormedMembers(NormalizeMembers(m, built).value)
    decreases m
  {
    if !m.NoMembers? {
      NormalizedIsAccepted(m.value);
      PutKeeps(built, StringKey(m.key.text), Normalize(m.value).value);
      NormalizedMembersAreAccepted(m.tail, Put(built, StringKey(m.key.text), Normalize(m.value).value));
    }
  }

  function Append(a: Members, b: Members): Members {
    if a.NoMembers? then b else Member(a.key, a.value, Append(a.tail, b))
  }

  lemma {:induction false} PutNew(m: Members, key: Key, value: Json)
    requires key !in Keys(m)
    ensures Put(m, key, value) == Append(m, Member(key, value, NoMembers))
  {
    if !m.NoMembers? { PutNew(m.tail, key, value); }
  }

  lemma {:induction false} AppendKeys(a: Members, b: Members)
    ensures Keys(Append(a, b)) == Keys(a) + Keys(b)
  {
    if !a.NoMembers? { AppendKeys(a.tail, b); }
  }

  lemma {:induction false} AppendOne(a: Members, m: Members)
    requires m.Member?
    ensures Append(Append(a, Member(m.key, m.value, NoMembers)), m.tail) == Append(a, m)
  {
    if !a.NoMembers? { AppendOne(a.tail, m); }
  }

  /** An accepted value is its own normal form. */
  lemma {:induction false} AcceptedIsNormal(x: Json)
    requires Accepted(x) && WellFormed(x)
    ensures Normalize(x) == Some(x)
    decreases x
  {
    match x
    case Array(items) => AcceptedItemsAreNormal(items);
    case Object(members) => AcceptedMembersAreNormal(members, NoMembers);
    case _ =>
  }

  lemma {:induction false} AcceptedItemsAreNormal(items: Items)
    requires AcceptedItems(items) && WellFormedItems(items)
    ensures NormalizeItems(items) == Some(items)
    decreases items
  {
    if !items.NoItems? {
      AcceptedIsNormal(items.head);
      AcceptedItemsAreNormal(items.tail);
    }
  }

  lemma {:induction false} AcceptedMembersAreNormal(m: Members, built: Members)
    requires AcceptedMembers(m) && WellFormedMembers(m) && Keys(built) !! Keys(m)
    ensures NormalizeMembers(m, built) == Some(Append(built, m))
    decreases m
  {
    if m.NoMembers? {
      AppendNone(built);
    } else {
      AcceptedIsNormal(m.value);
      PutNew(built, m.key, m.value);
      PutKeys(built, m.key, m.value);
      AppendOne(built, m);
      AcceptedMembersAreNormal(m.tail, Put(built, m.key, m.value));
    }
  }

  lemma {:induction false} AppendNone(a: Members)
    ensures Append(a, NoMembers) == a
  {
    if !a.NoMembers? { AppendNone(a.tail); }
  }

  /** normalize is idempotent: normalizing its result changes nothing. */
  lemma NormalizeIdempotent(x: Json)
    requires Normalize(x).Some?
    ensures Normalize(Normalize(x).value) == Normalize(x)
  {
    NormalizedIsAccepted(x);
    AcceptedIsNormal(Normalize(x).value);
  }

  // ---------------------------------------------------------------- decimal text

  function Digit(d: nat): char
    requires d < 10
  {
    "0123456789"[d]
  }

  predicate IsDigit(c: char) {
    '0' <= c <= '9'
  }

  function DecimalNat(n: nat): (s: string)
    ensures s != [] && forall i :: 0 <= i < |s| ==> IsDigit(s[i])
  {
    if n < 10 then [Digit(n)] else DecimalNat(n / 10) + [Digit(n % 10)]
  }

  function Decimal(n: int): string {
    if n < 0 then "-" + DecimalNat(-n) else DecimalNat(n)
  }

  lemma {:induction false} DecimalNatInjective(a: nat, b: nat)
    requires DecimalNat(a) == DecimalNat(b)
    ensures a == b
  {
    if a >= 10 && b >= 10 {
      var s := DecimalNat(a);
      assert s[..|s| - 1] == DecimalNat(a / 10) && s[..|s| - 1] == DecimalNat(b / 10);
      assert s[|s| - 1] == Digit(a % 10) == Digit(b % 10);
      DecimalNatInjective(a / 10, b / 10);
    } else {
      assert DecimalNat(a)[|DecimalNat(a)| - 1] == DecimalNat(b)[|DecimalNat(b)| - 1];
    }
  }
}
