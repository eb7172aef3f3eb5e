/**
  json.dumps with sorted keys, (",", ":") separators and ensure_ascii off: the text of a value,
  and the proof that the text can be read back in only one way.
 */
module CanonicalText {
  import opened Hashing
  import opened JsonValues
  import opened Canonical

  // ---------------------------------------------------------------- printing

  const QUOTE: string := "\""

  function HexDigit(d: nat): char
    requires d < 16
  {
    "0123456789abcdef"[d]
  }

  function EscapeChar(c: char): string {
    if c == '\"' then "\\\""
    else if c == '\\' then "\\\\"
    else if c == '\n' then "\\n"
    else if c == '\r' then "\\r"
    else if c == '\t' then "\\t"
    else if c as int == 8 then "\\b"
    else if c as int == 12 then "\\f"
    else if (c as int) < 32 then "\\u00" + [HexDigit(c as int / 16), HexDigit(c as int % 16)]
    else [c]
  }

  function Escape(s: string): string {
    if s == [] then [] else EscapeChar(s[0]) + Escape(s[1..])
  }

  function Quoted(s: string): string {
    QUOTE + Escape(s) + QUOTE
  }

  function Text(x: Json): string
    requires Accepted(x)
  {
    match x
    case Null => "null"
    case Bool(b) => if b then "true" else "false"
    case Int(n) => Decimal(n)
    case Str(s) => Quoted(s)
    case Array(items) =>
      assert AcceptedItems(items);
      if items.NoItems? then "[]" else "[" + Text(items.head) + MoreItems(items.tail)
    case Object(members) =>
      assert AcceptedMembers(members);
      if members.NoMembers? then "{}"
      else "{" + Quoted(members.key.text) + ":" + Text(members.value) + MoreMembers(members.tail)
  }

  function MoreItems(items: Items): string
    requires AcceptedItems(items)
  {
    if items.NoItems? then "]" else "," + Text(items.head) + MoreItems(items.tail)
  }

  function MoreMembers(m: Members): string
    requires AcceptedMembers(m)
  {
    if m.NoMembers? then "}" else "," + Quoted(m.key.text) + ":" + Text(m.value) + MoreMembers(m.tail)
  }

  /** canon: None when _check refuses. */
  function Canon(x: Json): Option<string>
    requires WellFormed(x)
  {
    if !Accepted(x) then None
    else
      SortKeysOrders(x);
      Some(Text(SortKeys(x)))
  }

  // ---------------------------------------------------------------- reading back

  /** What can stand right after a value. */
  predicate Ends(t: string) {
    t == [] || t[0] == ',' || t[0] == ']' || t[0] == '}'
  }

  lemma AppendCancel(a: string, b: string, t: string, u: string)
    requires a + t == b + u && |a| == |b|
    ensures a == b && t == u
  {
    assert (a + t)[..|a|] == a && (b + u)[..|b|] == b;
    assert (a + t)[|a|..] == t && (b + u)[|b|..] == u;
  }

  lemma TailEqual(p: string, t: string, u: string)
    requires p + t == p + u
    ensures t == u
  {
    AppendCancel(p, p, t, u);
  }

  lemma {:induction false} EscapeCharSplits(c: char, d: char, t: string, u: string)
    requires EscapeChar(c) + t == EscapeChar(d) + u
    ensures c == d && t == u
  {
    var a, b := EscapeChar(c) + t, EscapeChar(d) + u;
    assert a[0] == EscapeChar(c)[0] && b[0] == EscapeChar(d)[0];
    assert |EscapeChar(c)| > 1 ==> a[1] == EscapeChar(c)[1];
    assert |EscapeChar(d)| > 1 ==> b[1] == EscapeChar(d)[1];
    if |EscapeChar(c)| == 6 && |EscapeChar(d)| == 6 {
      assert a[4] == HexDigit(c as int / 16) && b[4] == HexDigit(d as int / 16);
      assert a[5] == HexDigit(c as int % 16) && b[5] == HexDigit(d as int % 16);
      HexDigitInjective(c as int / 16, d as int / 16);
      HexDigitInjective(c as int % 16, d as int % 16);
    }
    assert c == d;
    AppendCancel(EscapeChar(c), EscapeChar(d), t, u);
  }

  lemma HexDigitInjective(d: nat, e: nat)
    requires d < 16 && e < 16 && HexDigit(d) == HexDigit(e)
    ensures d == e
  {
  }

  lemma EscapeCharFirst(c: char)
    ensures EscapeChar(c) != [] && EscapeChar(c)[0] != '\"'
  {
  }

  lemma EscapeFirst(s: string, t: string)
    ensures (Escape(s) + (QUOTE + t))[0] == '\"' <==> s == []
    ensures s == [] ==> Escape(s) + (QUOTE + t) == QUOTE + t
    ensures s != [] ==> Escape(s) + (QUOTE + t) == EscapeChar(s[0]) + (Escape(s[1..]) + (QUOTE + t))
  {
    hide EscapeChar;
    if s != [] { EscapeCharFirst(s[0]); }
  }

  lemma {:induction false} EscapeSplits(a: string, b: string, t: string, u: string)
    requires Escape(a) + (QUOTE + t) == Escape(b) + (QUOTE + u)
    ensures a == b && t == u
    decreases |a|
  {
    hide EscapeChar, Escape;
    EscapeFirst(a, t);
    EscapeFirst(b, u);
    if a == [] {
      TailEqual(QUOTE, t, u);
    } else {
      EscapeCharSplits(a[0], b[0], Escape(a[1..]) + (QUOTE + t), Escape(b[1..]) + (QUOTE + u));
      EscapeSplits(a[1..], b[1..], t, u);
    }
  }

  lemma QuotedSplits(a: string, b: string, t: string, u: string)
    requires Quoted(a) + t == Quoted(b) + u
    ensures a == b && t == u
  {
    hide Escape;
    assert Quoted(a) + t == QUOTE + (Escape(a) + (QUOTE + t));
    assert Quoted(b) + u == QUOTE + (Escape(b) + (QUOTE + u));
    TailEqual(QUOTE, Escape(a) + (QUOTE + t), Escape(b) + (QUOTE + u));
    EscapeSplits(a, b, t, u);
  }

  predicate AllDigits(s: string) {
    forall i :: 0 <= i < |s| ==> IsDigit(s[i])
  }

  lemma DigitsSplit(a: string, b: string, t: string, u: string)
    requires a + t == b + u && AllDigits(a) && AllDigits(b) && Ends(t) && Ends(u)
    ensures a == b && t == u
  {
    assert |t| > 0 ==> (a + t)[|a|] == t[0];
    assert |u| > 0 ==> (b + u)[|b|] == u[0];
    AppendCancel(a, b, t, u);
  }

  lemma DecimalSign(n: int, t: string)
    ensures Decimal(n) + t == (if n < 0 then "-" else "") + (DecimalNat(if n < 0 then -n else n) + t)
    ensures (Decimal(n) + t)[0] == '-' <==> n < 0
  {
    assert IsDigit(DecimalNat(if n < 0 then -n else n)[0]);
  }

  lemma DecimalSplits(a: int, b: int, t: string, u: string)
    requires Decimal(a) + t == Decimal(b) + u && Ends(t) && Ends(u)
    ensures a == b && t == u
  {
    hide DecimalNat, Decimal;
    DecimalSign(a, t);
    DecimalSign(b, u);
    var na: nat, nb: nat := if a < 0 then -a else a, if b < 0 then -b else b;
    TailEqual(if a < 0 then "-" else "", DecimalNat(na) + t, DecimalNat(nb) + u);
    DigitsSplit(DecimalNat(na), DecimalNat(nb), t, u);
    DecimalNatInjective(na, nb);
  }

  /** The first character tells the kinds of value apart. */
  function Kind(x: Json): nat {
    match x
    case Null => 0
    case Bool(b) => if b then 1 else 2
    case Int(_) => 3
    case Str(_) => 4
    case Array(_) => 5
    case Object(_) => 6
    case _ => 7
  }

  function KindOf(c: char): nat {
    if c == 'n' then 0 else if c == 't' then 1 else if c == 'f' then 2
    else if c == '-' || IsDigit(c) then 3
    else if c == '\"' then 4 else if c == '[' then 5 else if c == '{' then 6 else 7
  }

  lemma TextKind(x: Json)
    requires Accepted(x)
    ensures Text(x) != [] && KindOf(Text(x)[0]) == Kind(x) < 7
  {
    hide DecimalNat, Escape, MoreItems, MoreMembers;
  }

  lemma SameKind(x: Json, y: Json, t: string, u: string)
    requires Accepted(x) && Accepted(y) && Text(x) + t == Text(y) + u
    ensures Kind(x) == Kind(y)
  {
    hide Text, Kind, KindOf;
    TextKind(x);
    TextKind(y);
    assert (Text(x) + t)[0] == Text(x)[0] && (Text(y) + u)[0] == Text(y)[0];
  }

  lemma EndsMore(items: Items, m: Members, t: string)
    requires AcceptedItems(items) && AcceptedMembers(m)
    ensures Ends(MoreItems(items) + t) && Ends(MoreMembers(m) + t)
  {
    hide Text, Quoted;
  }

  /** A value's text, followed by whatever may follow, can be read in only one way. */
  lemma {:induction false} TextSplits(x: Json, y: Json, t: string, u: string)
    requires Accepted(x) && Accepted(y) && Text(x) + t == Text(y) + u && Ends(t) && Ends(u)
    ensures x == y && t == u
    decreases x
  {
    hide Escape, DecimalNat, Quoted, Decimal, MoreItems, MoreMembers;
    SameKind(x, y, t, u);
    match x
    case Int(n) => DecimalSplits(n, y.n, t, u);
    case Str(s) => QuotedSplits(s, y.s, t, u);
    case Array(items) => ItemsSplit(items, y.items, t, u);
    case Object(members) => MembersSplit(members, y.members, t, u);
    case Null => TailEqual("null", t, u);
    case Bool(b) => TailEqual(if b then "true" else "false", t, u);
    case _ =>
  }

  /** After an opening bracket, a value does not start like the closing one. */
  lemma NotClosing(x: Json, p: string, t: string, u: string, closing: char)
    requires Accepted(x) && (closing == ']' || closing == '}')
    ensures p + Text(x) + t != p + [closing] + u
  {
    hide Text, Kind;
    TextKind(x);
    var left, right := p + Text(x) + t, p + [closing] + u;
    assert left[|p|] == Text(x)[0] && right[|p|] == closing;
  }

  lemma {:induction false} ItemsSplit(a: Items, b: Items, t: string, u: string)
    requires AcceptedItems(a) && AcceptedItems(b)
    requires Text(Array(a)) + t == Text(Array(b)) + u
    ensures a == b && t == u
    decreases a
  {
    hide Quoted, Decimal, MoreItems, MoreMembers;
    if a.NoItems? && b.NoItems? {
      TailEqual("[]", t, u);
    } else if a.NoItems? {
      assert Text(Array(b)) + u == "[" + Text(b.head) + (MoreItems(b.tail) + u) && Text(Array(a)) + t == "[" + [']'] + t;
      NotClosing(b.head, "[", MoreItems(b.tail) + u, t, ']');
    } else if b.NoItems? {
      assert Text(Array(a)) + t == "[" + Text(a.head) + (MoreItems(a.tail) + t) && Text(Array(b)) + u == "[" + [']'] + u;
      NotClosing(a.head, "[", MoreItems(a.tail) + t, u, ']');
    } else {
      var ta, tb := Text(a.head) + (MoreItems(a.tail) + t), Text(b.head) + (MoreItems(b.tail) + u);
      assert Text(Array(a)) + t == "[" + ta && Text(Array(b)) + u == "[" + tb;
      TailEqual("[", ta, tb);
      ItemSplits(a, b, t, u);
    }
  }

  lemma {:induction false} ItemSplits(a: Items, b: Items, t: string, u: string)
    requires AcceptedItems(a) && AcceptedItems(b) && a.Item? && b.Item?
    requires Text(a.head) + (MoreItems(a.tail) + t) == Text(b.head) + (MoreItems(b.tail) + u)
    ensures a == b && t == u
    decreases a, 0
  {
    hide Text, MoreItems, MoreMembers, Quoted;
    EndsMore(a.tail, NoMembers, t);
    EndsMore(b.tail, NoMembers, u);
    TextSplits(a.head, b.head, MoreItems(a.tail) + t, MoreItems(b.tail) + u);
    MoreItemsSplit(a.tail, b.tail, t, u);
  }

  lemma {:induction false} MoreItemsSplit(a: Items, b: Items, t: string, u: string)
    requires AcceptedItems(a) && AcceptedItems(b) && MoreItems(a) + t == MoreItems(b) + u
    ensures a == b && t == u
    decreases a, 1
  {
    hide Text, MoreMembers, Quoted;
    assert (MoreItems(a) + t)[0] == (if a.NoItems? then ']' else ',') && (MoreItems(b) + u)[0] == (if b.NoItems? then ']' else ',');
    if a.NoItems? {
      TailEqual("]", t, u);
    } else {
      var ta, tb := Text(a.head) + (MoreItems(a.tail) + t), Text(b.head) + (MoreItems(b.tail) + u);
      assert MoreItems(a) + t == "," + ta && MoreItems(b) + u == "," + tb;
      TailEqual(",", ta, tb);
      ItemSplits(a, b, t, u);
    }
  }

  lemma {:induction false} MembersSplit(a: Members, b: Members, t: string, u: string)
    requires AcceptedMembers(a) && AcceptedMembers(b)
    requires Text(Object(a)) + t == Text(Object(b)) + u
    ensures a == b && t == u
    decreases a
  {
    hide Text, MemberText;
    ObjectText(a, t);
    ObjectText(b, u);
    if a.NoMembers? {
      TailEqual("{}", t, u);
    } else {
      TailEqual("{", MemberText(a, t), MemberText(b, u));
      MemberSplits(a, b, t, u);
    }
  }

  lemma ObjectText(m: Members, t: string)
    requires AcceptedMembers(m)
    ensures m.NoMembers? ==> Text(Object(m)) + t == "{}" + t && (Text(Object(m)) + t)[1] == '}'
    ensures m.Member? ==> Text(Object(m)) + t == "{" + MemberText(m, t) && (Text(Object(m)) + t)[1] == '\"'
  {
    hide Escape, MoreMembers;
  }

  function MemberText(m: Members, t: string): string
    requires AcceptedMembers(m) && m.Member?
  {
    Quoted(m.key.text) + (":" + (Text(m.value) + (MoreMembers(m.tail) + t)))
  }

  lemma {:induction false} MemberSplits(a: Members, b: Members, t: string, u: string)
    requires AcceptedMembers(a) && AcceptedMembers(b) && a.Member? && b.Member?
    requires MemberText(a, t) == MemberText(b, u)
    ensures a == b && t == u
    decreases a, 0
  {
    hide Text, MoreItems, MoreMembers, Quoted;
    var va, vb := Text(a.value) + (MoreMembers(a.tail) + t), Text(b.value) + (MoreMembers(b.tail) + u);
    QuotedSplits(a.key.text, b.key.text, ":" + va, ":" + vb);
    TailEqual(":", va, vb);
    EndsMore(NoItems, a.tail, t);
    EndsMore(NoItems, b.tail, u);
    TextSplits(a.value, b.value, MoreMembers(a.tail) + t, MoreMembers(b.tail) + u);
    MoreMembersSplit(a.tail, b.tail, t, u);
  }

  lemma {:induction false} MoreMembersSplit(a: Members, b: Members, t: string, u: string)
    requires AcceptedMembers(a) && AcceptedMembers(b) && MoreMembers(a) + t == MoreMembers(b) + u
    ensures a == b && t == u
    decreases a, 1
  {
    hide Text, MoreItems, Quoted;
    assert (MoreMembers(a) + t)[0] == (if a.NoMembers? then '}' else ',');
    assert (MoreMembers(b) + u)[0] == (if b.NoMembers? then '}' else ',');
    if a.NoMembers? {
      TailEqual("}", t, u);
    } else {
      assert MoreMembers(a) + t == "," + MemberText(a, t) && MoreMembers(b) + u == "," + MemberText(b, u);
      TailEqual(",", MemberText(a, t), MemberText(b, u));
      MemberSplits(a, b, t, u);
    }
  }

  // ---------------------------------------------------------------- the encoding is exact

  /** Two accepted values have the same canonical text if and only if they mean the same. */
  lemma CanonIffSameMeaning(x: Json, y: Json)
    requires WellFormed(x) && WellFormed(y) && Accepted(x) && Accepted(y)
    ensures Canon(x) == Canon(y) <==> Meaning(x) == Meaning(y)
  {
    hide Text, Meaning, SortKeys;
    SortKeysOrders(x);
    SortKeysOrders(y);
    if Canon(x) == Canon(y) {
      var t, u := Text(SortKeys(x)), Text(SortKeys(y));
      assert t + [] == t && u + [] == u;
      TextSplits(SortKeys(x), SortKeys(y), [], []);
    } else if Meaning(x) == Meaning(y) {
      OrderedUnique(SortKeys(x), SortKeys(y));
    }
  }

  /** The contents of a dictionary, whatever the order. */
  function Pairs(m: Members): map<Key, Json> {
    if m.NoMembers? then map[] else Pairs(m.tail)[m.key := m.value]
  }

  lemma {:induction false} PairsMeaning(m: Members, text: string)
    requires AcceptedMembers(m)
    ensures text in MembersMeaning(m) <==> StringKey(text) in Pairs(m)
    ensures text in MembersMeaning(m) ==> Accepted(Pairs(m)[StringKey(text)])
    ensures text in MembersMeaning(m) ==> MembersMeaning(m)[text] == Meaning(Pairs(m)[StringKey(text)])
  {
    if m.Member? { PairsMeaning(m.tail, text); }
  }

  /** The text of an object does not depend on the order its keys were inserted in. */
  lemma InsertionOrderIsInvisible(a: Members, b: Members)
    requires AcceptedMembers(a) && AcceptedMembers(b) && WellFormedMembers(a) && WellFormedMembers(b)
    requires Pairs(a) == Pairs(b)
    ensures Canon(Object(a)) == Canon(Object(b))
  {
    hide Canon, Pairs;
    forall text | text in MembersMeaning(a) || text in MembersMeaning(b)
      ensures text in MembersMeaning(a) && text in MembersMeaning(b) && MembersMeaning(a)[text] == MembersMeaning(b)[text]
    {
      PairsMeaning(a, text);
      PairsMeaning(b, text);
    }
    assert MembersMeaning(a) == MembersMeaning(b);
    CanonIffSameMeaning(Object(a), Object(b));
  }

  /** canon never refuses what normalize returned. */
  lemma NormalizedHasText(x: Json)
    requires Normalize(x).Some?
    ensures WellFormed(Normalize(x).value) && Canon(Normalize(x).value).Some?
  {
    NormalizedIsAccepted(x);
  }
}
