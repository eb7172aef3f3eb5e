/**
  The canonical text (hosts/attest_lib.py canon, worker/decisions.js canon; section 3.2 of
  RFC 8785): keys sorted, no white space, every character escaped one way. Two accepted values
  have the same text exactly when they mean the same.
 */
module Canonical {
  import opened Hashing
  import opened JsonValues

  // ---------------------------------------------------------------- what a value means

  /** A value as its readers see it: key order is gone. */
  datatype Value =
    | VNull
    | VBool(b: bool)
    | VInt(n: int)
    | VString(s: string)
    | VArray(items: seq<Value>)
    | VObject(members: map<string, Value>)

  function Meaning(x: Json): Value
    requires Accepted(x)
  {
    match x
    case Null => VNull
    case Bool(b) => VBool(b)
    case Int(n) => VInt(n)
    case Str(s) => VString(s)
    case Array(items) => VArray(ItemsMeaning(items))
    case Object(members) => VObject(MembersMeaning(members))
  }

  function ItemsMeaning(items: Items): seq<Value>
    requires AcceptedItems(items)
  {
    if items.NoItems? then [] else [Meaning(items.head)] + ItemsMeaning(items.tail)
  }

  /** Keys are distinct, so the order of the updates does not matter. */
  function MembersMeaning(m: Members): map<string, Value>
    requires AcceptedMembers(m)
  {
    if m.NoMembers? then map[] else MembersMeaning(m.tail)[m.key.text := Meaning(m.value)]
  }

  // ---------------------------------------------------------------- sorted keys

  /** Strings compare by their first differing character. */
  predicate Less(a: string, b: string) {
    b != [] && (a == [] || a[0] < b[0] || (a[0] == b[0] && Less(a[1..], b[1..])))
  }

  lemma {:induction false} LessTotal(a: string, b: string)
    ensures Less(a, b) || Less(b, a) || a == b
    ensures !(Less(a, b) && Less(b, a)) && !Less(a, a)
  {
    if a != [] && b != [] && a[0] == b[0] {
      LessTotal(a[1..], b[1..]);
      assert a == [a[0]] + a[1..] && b == [b[0]] + b[1..];
    }
    if a != [] { LessTotal(a[1..], a[1..]); }
  }

  lemma {:induction false} LessTransitive(a: string, b: string, c: string)
    requires Less(a, b) && Less(b, c)
    ensures Less(a, c)
  {
    if a != [] && a[0] == b[0] == c[0] { LessTransitive(a[1..], b[1..], c[1..]); }
  }

  predicate Sorted(m: Members) {
    m.NoMembers? || m.tail.NoMembers? || (Less(m.key.text, m.tail.key.text) && Sorted(m.tail))
  }

  function Insert(key: Key, value: Json, m: Members): Members {
    if m.NoMembers? || Less(key.text, m.key.text) then Member(key, value, m)
    else Member(m.key, m.value, Insert(key, value, m.tail))
  }

  /** sort_keys at every level. */
  function SortKeys(x: Json): Json {
    match x
    case Array(items) => Array(SortItems(items))
    case Object(members) => Object(SortMembers(members))
    case _ => x
  }

  function SortItems(items: Items): Items {
    if items.NoItems? then NoItems else Item(SortKeys(items.head), SortItems(items.tail))
  }

  function SortMembers(m: Members): Members {
    if m.NoMembers? then NoMembers else Insert(m.key, SortKeys(m.value), SortMembers(m.tail))
  }

  /** Accepted, with the keys of every object strictly ascending. */
  predicate Ordered(x: Json) {
    match x
    case Array(items) => OrderedItems(items)
    case Object(members) => Sorted(members) && OrderedMembers(members)
    case _ => Accepted(x)
  }

  predicate OrderedItems(items: Items) {
    items.NoItems? || (Ordered(items.head) && OrderedItems(items.tail))
  }

  predicate OrderedMembers(m: Members) {
    m.NoMembers? || (m.key.StringKey? && Ordered(m.value) && OrderedMembers(m.tail))
  }

  lemma {:induction false} OrderedIsAccepted(x: Json)
    requires Ordered(x)
    ensures Accepted(x)
    decreases x
  {
    match x
    case Array(items) => OrderedItemsAreAccepted(items);
    case Object(members) => OrderedMembersAreAccepted(members);
    case _ =>
  }

  lemma {:induction false} OrderedItemsAreAccepted(items: Items)
    requires OrderedItems(items)
    ensures AcceptedItems(items)
    decreases items
  {
    if !items.NoItems? {
      OrderedIsAccepted(items.head);
      OrderedItemsAreAccepted(items.tail);
    }
  }

  lemma {:induction false} OrderedMembersAreAccepted(m: Members)
    requires OrderedMembers(m)
    ensures AcceptedMembers(m)
    decreases m
  {
    if !m.NoMembers? {
      OrderedIsAccepted(m.value);
      OrderedMembersAreAccepted(m.tail);
    }
  }

  function Texts(m: Members): set<string> {
    if m.NoMembers? then {} else {m.key.text} + Texts(m.tail)
  }

  lemma {:induction false} InsertKeeps(key: Key, value: Json, m: Members)
    requires key.StringKey? && Ordered(value) && Sorted(m) && OrderedMembers(m) && key.text !in Texts(m)
    ensures var r := Insert(key, value, m);
            Sorted(r) && OrderedMembers(r) && Texts(r) == Texts(m) + {key.text}
  {
    if !m.NoMembers? {
      LessTotal(key.text, m.key.text);
      if !Less(key.text, m.key.text) { InsertKeeps(key, value, m.tail); }
    }
  }

  lemma {:induction false} InsertMeaning(key: Key, value: Json, m: Members)
    requires key.StringKey? && Accepted(value) && AcceptedMembers(m) && key.text !in Texts(m)
    ensures AcceptedMembers(Insert(key, value, m))
    ensures MembersMeaning(Insert(key, value, m)) == MembersMeaning(m)[key.text := Meaning(value)]
  {
    if !m.NoMembers? && !Less(key.text, m.key.text) { InsertMeaning(key, value, m.tail); }
  }

  lemma {:induction false} KeysAreTexts(m: Members, key: Key)
    requires AcceptedMembers(m) && key.StringKey?
    ensures key.text in Texts(m) <==> key in Keys(m)
  {
    if !m.NoMembers? { KeysAreTexts(m.tail, key); }
  }

  /** Sorting orders every object and changes no meaning. */
  lemma {:induction false} SortKeysOrders(x: Json)
    requires Accepted(x) && WellFormed(x)
    ensures Ordered(SortKeys(x)) && Accepted(SortKeys(x)) && Meaning(SortKeys(x)) == Meaning(x)
    decreases x
  {
    match x
    case Array(items) => SortItemsOrders(items);
    case Object(members) => SortMembersOrders(members);
    case _ =>
  }

  lemma {:induction false} SortItemsOrders(items: Items)
    requires AcceptedItems(items) && WellFormedItems(items)
    ensures OrderedItems(SortItems(items)) && AcceptedItems(SortItems(items))
    ensures ItemsMeaning(SortItems(items)) == ItemsMeaning(items)
    decreases items
  {
    if !items.NoItems? {
      SortKeysOrders(items.head);
      SortItemsOrders(items.tail);
    }
  }

  lemma {:induction false} SortMembersOrders(m: Members)
    requires AcceptedMembers(m) && WellFormedMembers(m)
    ensures var r := SortMembers(m);
            && Sorted(r) && OrderedMembers(r) && AcceptedMembers(r) && Texts(r) == Texts(m)
            && MembersMeaning(r) == MembersMeaning(m)
    decreases m
  {
    if !m.NoMembers? {
      SortKeysOrders(m.value);
      SortMembersOrders(m.tail);
      KeysAreTexts(m.tail, m.key);
      InsertKeeps(m.key, SortKeys(m.value), SortMembers(m.tail));
      InsertMeaning(m.key, SortKeys(m.value), SortMembers(m.tail));
    }
  }

  // ---------------------------------------------------------------- one ordered value per meaning

  lemma {:induction false} MeaningKeys(m: Members)
    requires AcceptedMembers(m)
    ensures MembersMeaning(m).Keys == Texts(m)
  {
    if !m.NoMembers? { MeaningKeys(m.tail); }
  }

  lemma {:induction false} FirstIsLeast(m: Members, text: string)
    requires m.Member? && Sorted(m) && text in Texts(m.tail)
    ensures Less(m.key.text, text)
  {
    if m.tail.key.text != text {
      FirstIsLeast(m.tail, text);
      LessTransitive(m.key.text, m.tail.key.text, text);
    }
  }

  lemma {:induction false} OrderedUnique(x: Json, y: Json)
    requires Ordered(x) && Ordered(y) && Accepted(x) && Accepted(y) && Meaning(x) == Meaning(y)
    ensures x == y
    decreases x
  {
    match x
    case Array(items) => OrderedItemsUnique(items, y.items);
    case Object(members) => OrderedMembersUnique(members, y.members);
    case _ =>
  }

  lemma {:induction false} OrderedItemsUnique(a: Items, b: Items)
    requires OrderedItems(a) && OrderedItems(b) && AcceptedItems(a) && AcceptedItems(b) && ItemsMeaning(a) == ItemsMeaning(b)
    ensures a == b
    decreases a
  {
    if !a.NoItems? && !b.NoItems? {
      assert ItemsMeaning(a)[0] == ItemsMeaning(b)[0];
      assert ItemsMeaning(a)[1..] == ItemsMeaning(a.tail) && ItemsMeaning(b)[1..] == ItemsMeaning(b.tail);
      OrderedUnique(a.head, b.head);
      OrderedItemsUnique(a.tail, b.tail);
    }
  }

  lemma {:induction false} OrderedMembersUnique(a: Members, b: Members)
    requires Sorted(a) && Sorted(b) && OrderedMembers(a) && OrderedMembers(b) && AcceptedMembers(a) && AcceptedMembers(b)
    requires MembersMeaning(a) == MembersMeaning(b)
    ensures a == b
    decreases a
  {
    MeaningKeys(a);
    MeaningKeys(b);
    if a.NoMembers? || b.NoMembers? {
      assert Texts(a) == Texts(b);
    } else {
      SameFirst(a, b);
      OrderedUnique(a.value, b.value);
      TailMeaning(a);
      TailMeaning(b);
      OrderedMembersUnique(a.tail, b.tail);
    }
  }

  lemma SameFirst(a: Members, b: Members)
    requires a.Member? && b.Member? && Sorted(a) && Sorted(b) && AcceptedMembers(a) && AcceptedMembers(b)
    requires MembersMeaning(a) == MembersMeaning(b)
    ensures a.key == b.key && Meaning(a.value) == Meaning(b.value)
  {
    MeaningKeys(a);
    MeaningKeys(b);
    assert a.key.text in Texts(b) && b.key.text in Texts(a);
    if a.key.text != b.key.text {
      FirstIsLeast(a, b.key.text);
      FirstIsLeast(b, a.key.text);
      LessTotal(a.key.text, b.key.text);
    } else {
      assert MembersMeaning(a)[a.key.text] == MembersMeaning(b)[a.key.text];
    }
  }

  lemma TailMeaning(m: Members)
    requires m.Member? && Sorted(m) && AcceptedMembers(m)
    ensures MembersMeaning(m.tail) == MembersMeaning(m) - {m.key.text}
  {
    MeaningKeys(m.tail);
    if m.key.text in Texts(m.tail) {
      FirstIsLeast(m, m.key.text);
      LessTotal(m.key.text, m.key.text);
    }
  }
}
