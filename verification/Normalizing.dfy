/**
  hosts/attest_lib.py, normalize and _check, said of every value that stands inside another: which
  values they take, and where each part of one is found again after normalizing.
 */
module Normalizing {
  import opened Hashing
  import opened JsonValues
  import opened JsonReader

  /** A value and all values inside it. */
  function Nodes(x: Json): set<Json> {
    match x
    case Array(items) => {x} + ItemNodes(items)
    case Tuple(items) => {x} + ItemNodes(items)
    case Object(members) => {x} + MemberNodes(members)
    case _ => {x}
  }

  function ItemNodes(items: Items): set<Json> {
    if items.NoItems? then {} else Nodes(items.head) + ItemNodes(items.tail)
  }

  function MemberNodes(m: Members): set<Json> {
    if m.NoMembers? then {} else Nodes(m.value) + MemberNodes(m.tail)
  }

  /** Nothing about this one value keeps canon from taking it. */
  predicate PlainNode(y: Json) {
    && !y.Float? && !y.NonFinite? && !y.Tuple? && !y.Unsupported?
    && (y.Int? ==> -9007199254740991 <= y.n <= 9007199254740991)
    && (y.Object? ==> forall key :: key in Keys(y.members) ==> key.StringKey?)
  }

  /** _check takes a value exactly if every value inside it is plain. */
  lemma {:induction false} AcceptedIff(x: Json)
    ensures Accepted(x) <==> forall y :: y in Nodes(x) ==> PlainNode(y)
    decreases x
  {
    hide PlainNode;
    assert x in Nodes(x);
    match x
    case Array(items) => ItemsAcceptedIff(items); PlainIs(x);
    case Object(members) => MembersAcceptedIff(members); PlainIs(x);
    case _ => PlainIs(x);
  }

  lemma PlainIs(x: Json)
    ensures PlainNode(x) <==>
            match x
            case Int(n) => -9007199254740991 <= n <= 9007199254740991
            case Array(_) => true
            case Object(members) => forall key :: key in Keys(members) ==> key.StringKey?
            case Null => true
            case Bool(_) => true
            case Str(_) => true
            case _ => false
  {
  }

  lemma {:induction false} ItemsAcceptedIff(items: Items)
    ensures AcceptedItems(items) <==> forall y :: y in ItemNodes(items) ==> PlainNode(y)
    decreases items
  {
    hide PlainNode;
    if items.Item? {
      AcceptedIff(items.head);
      ItemsAcceptedIff(items.tail);
    }
  }

  lemma {:induction false} MembersAcceptedIff(m: Members)
    ensures AcceptedMembers(m) <==>
            (forall key :: key in Keys(m) ==> key.StringKey?) && forall y :: y in MemberNodes(m) ==> PlainNode(y)
    decreases m
  {
    hide PlainNode;
    if m.Member? {
      AcceptedIff(m.value);
      MembersAcceptedIff(m.tail);
    }
  }

  /** normalize raises exactly on a value with a non-finite float or an unsupported object somewhere in it. */
  lemma {:induction false} NormalizesIff(x: Json)
    ensures Normalize(x).Some? <==> forall y :: y in Nodes(x) ==> !y.NonFinite? && !y.Unsupported?
    decreases x
  {
    assert x in Nodes(x);
    match x
    case Array(items) => ItemsNormalizeIff(items);
    case Tuple(items) => ItemsNormalizeIff(items);
    case Object(members) => MembersNormalizeIff(members, NoMembers);
    case _ =>
  }

  lemma {:induction false} ItemsNormalizeIff(items: Items)
    ensures NormalizeItems(items).Some? <==> forall y :: y in ItemNodes(items) ==> !y.NonFinite? && !y.Unsupported?
    decreases items
  {
    if items.Item? {
      NormalizesIff(items.head);
      ItemsNormalizeIff(items.tail);
    }
  }

  lemma {:induction false} MembersNormalizeIff(m: Members, built: Members)
    ensures NormalizeMembers(m, built).Some? <==> forall y :: y in MemberNodes(m) ==> !y.NonFinite? && !y.Unsupported?
    decreases m
  {
    if m.Member? {
      NormalizesIff(m.value);
      var v := Normalize(m.value);
      if v.Some? { MembersNormalizeIff(m.tail, Put(built, StringKey(m.key.text), v.value)); }
    }
  }

  /** An integer keeps its value: as it is up to 2^53 - 1, beyond that as a string that reads as it. A float becomes its repr. */
  lemma ScalarsKeepTheirValue(n: int, repr: string)
    ensures var r := Normalize(Int(n));
            if -9007199254740991 <= n <= 9007199254740991 then r == Some(Int(n))
            else r.Some? && r.value.Str? && ReadInteger(r.value.s) == Some(Got(n, ""))
    ensures Normalize(Float(repr)) == Some(Str(repr)) == Normalize(Str(repr))
  {
    hide Decimal, ReadInteger;
    ReadsDecimal(n, "");
    assert Decimal(n) + "" == Decimal(n);
  }

  function ListOf(items: Items): seq<Json> {
    if items.NoItems? then [] else [items.head] + ListOf(items.tail)
  }

  /** A list or a tuple becomes a list of as many values, each the normal form of the one at its place. */
  lemma ListsKeepPlaces(x: Json)
    requires (x.Array? || x.Tuple?) && Normalize(x).Some?
    ensures var y := Normalize(x).value;
            && y.Array? && |ListOf(y.items)| == |ListOf(x.items)|
            && forall i :: 0 <= i < |ListOf(x.items)| ==> Normalize(ListOf(x.items)[i]) == Some(ListOf(y.items)[i])
  {
    ItemsKeepPlaces(x.items);
  }

  lemma {:induction false} ItemsKeepPlaces(items: Items)
    requires NormalizeItems(items).Some?
    ensures var a, b := ListOf(items), ListOf(NormalizeItems(items).value);
            |a| == |b| && forall i :: 0 <= i < |a| ==> Normalize(a[i]) == Some(b[i])
    decreases items
  {
    hide Normalize;
    if items.Item? { ItemsKeepPlaces(items.tail); }
  }

  /** The value of the last key that prints as this text. */
  function LastWith(m: Members, text: string): Option<Json> {
    if m.NoMembers? then None
    else
      var later := LastWith(m.tail, text);
      if later.Some? then later else if m.key.text == text then Some(m.value) else None
  }

  /** What a dictionary holds under a key. */
  function Under(m: Members, key: Key): Option<Json> {
    if m.NoMembers? then None else if m.key == key then Some(m.value) else Under(m.tail, key)
  }

  lemma {:induction false} UnderPut(m: Members, key: Key, value: Json, other: Key)
    ensures Under(Put(m, key, value), other) == if other == key then Some(value) else Under(m, other)
  {
    if m.Member? && m.key != key { UnderPut(m.tail, key, value, other); }
  }

  /** After normalizing, a dictionary holds under each string the normal form of the last value whose key prints as it. */
  lemma LastKeyWins(x: Json, text: string)
    requires x.Object? && Normalize(x).Some?
    ensures var y, last := Normalize(x).value, LastWith(x.members, text);
            && y.Object?
            && Under(y.members, StringKey(text)) == if last.Some? then Normalize(last.value) else None
  {
    MembersLastWins(x.members, NoMembers, text);
  }

  lemma {:induction false} MembersLastWins(m: Members, built: Members, text: string)
    requires NormalizeMembers(m, built).Some?
    ensures var last := LastWith(m, text);
            Under(NormalizeMembers(m, built).value, StringKey(text))
            == if last.Some? then Normalize(last.value) else Under(built, StringKey(text))
    decreases m
  {
    if m.Member? {
      var v := Normalize(m.value).value;
      UnderPut(built, StringKey(m.key.text), v, StringKey(text));
      MembersLastWins(m.tail, Put(built, StringKey(m.key.text), v), text);
    }
  }
}
