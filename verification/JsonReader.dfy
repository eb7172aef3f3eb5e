/**
  A reader of JSON text, written from its grammar (sections 2 to 7 of RFC 8259) for text without
  white space whose numbers are integers, and the proof that it reads a canonical text as the value.
 */
module JsonReader {
  import opened Hashing
  import opened JsonValues
  import opened Canonical
  import opened CanonicalText

  /** Something read and the text after it. */
  datatype Got<T> = Got(value: T, rest: string)

  function HexValue(c: char): Option<nat> {
    if '0' <= c <= '9' then Some(c as int - '0' as int)
    else if 'a' <= c <= 'f' then Some(c as int - 'a' as int + 10)
    else if 'A' <= c <= 'F' then Some(c as int - 'A' as int + 10)
    else None
  }

  /** Four hex digits; code units of surrogate pairs are not read. */
  function ReadUnit(t: string): Option<Got<char>>
    requires |t| >= 4
  {
    var a, b, c, d := HexValue(t[0]), HexValue(t[1]), HexValue(t[2]), HexValue(t[3]);
    if a.None? || b.None? || c.None? || d.None? then None
    else
      var n := ((a.value * 16 + b.value) * 16 + c.value) * 16 + d.value;
      if 0 <= n < 0xD800 then Some(Got(n as char, t[4..])) else None
  }

  /** What follows a backslash. */
  function ReadEscape(t: string): (r: Option<Got<char>>)
    ensures r.Some? ==> |r.value.rest| < |t|
  {
    if t == "" then None
    else if t[0] == '\"' || t[0] == '\\' || t[0] == '/' then Some(Got(t[0], t[1..]))
    else if t[0] == 'b' then Some(Got(8 as char, t[1..]))
    else if t[0] == 't' then Some(Got(9 as char, t[1..]))
    else if t[0] == 'n' then Some(Got(10 as char, t[1..]))
    else if t[0] == 'f' then Some(Got(12 as char, t[1..]))
    else if t[0] == 'r' then Some(Got(13 as char, t[1..]))
    else if t[0] == 'u' && |t| >= 5 then ReadUnit(t[1..])
    else None
  }

  /** The rest of a string, up to and with its closing quote. */
  function ReadString(t: string): (r: Option<Got<string>>)
    ensures r.Some? ==> |r.value.rest| < |t|
    decreases |t|
  {
    if t == "" then None
    else if t[0] == '\"' then Some(Got("", t[1..]))
    else if t[0] as int < 32 then None
    else
      var first := if t[0] == '\\' then ReadEscape(t[1..]) else Some(Got(t[0], t[1..]));
      if first.None? then None
      else
        var more := ReadString(first.value.rest);
        if more.None? then None else Some(Got([first.value.value] + more.value.value, more.value.rest))
  }

  /** Digits from the left. */
  function ReadDigits(t: string, before: nat): (r: Got<nat>)
    ensures |r.rest| <= |t|
    decreases |t|
  {
    if t != "" && '0' <= t[0] <= '9' then ReadDigits(t[1..], before * 10 + (t[0] as int - '0' as int)) else Got(before, t)
  }

  /** One digit or more, no zero in front of others, no fraction or exponent after. */
  function ReadNatural(t: string): (r: Option<Got<nat>>)
    ensures r.Some? ==> |r.value.rest| < |t|
  {
    if t == "" || !('0' <= t[0] <= '9') then None
    else
      var got := ReadDigits(t[1..], t[0] as int - '0' as int);
      if t[0] == '0' && |got.rest| < |t| - 1 then None
      else if got.rest != "" && (got.rest[0] == '.' || got.rest[0] == 'e' || got.rest[0] == 'E') then None
      else Some(got)
  }

  function ReadInteger(t: string): (r: Option<Got<int>>)
    ensures r.Some? ==> |r.value.rest| < |t|
  {
    var negative := t != "" && t[0] == '-';
    var got := ReadNatural(if negative then t[1..] else t);
    if got.None? then None
    else
      var n: int := got.value.value;
      Some(Got(if negative then -n else n, got.value.rest))
  }

  function ReadValue(t: string): (r: Option<Got<Value>>)
    ensures r.Some? ==> |r.value.rest| < |t|
    decreases |t|, 0
  {
    if t == "" then None
    else if "null" <= t then Some(Got(VNull, t[4..]))
    else if "true" <= t then Some(Got(VBool(true), t[4..]))
    else if "false" <= t then Some(Got(VBool(false), t[5..]))
    else if t[0] == '\"' then
      var s := ReadString(t[1..]);
      if s.None? then None else Some(Got(VString(s.value.value), s.value.rest))
    else if "[]" <= t then Some(Got(VArray([]), t[2..]))
    else if t[0] == '[' then
      var items := ReadItems(t[1..]);
      if items.None? then None else Some(Got(VArray(items.value.value), items.value.rest))
    else if "{}" <= t then Some(Got(VObject(map[]), t[2..]))
    else if t[0] == '{' then
      var members := ReadMembers(t[1..]);
      if members.None? then None else Some(Got(VObject(members.value.value), members.value.rest))
    else
      var n := ReadInteger(t);
      if n.None? then None else Some(Got(VInt(n.value.value), n.value.rest))
  }

  /** Values between commas, up to the closing bracket. */
  function ReadItems(t: string): (r: Option<Got<seq<Value>>>)
    ensures r.Some? ==> |r.value.rest| < |t|
    decreases |t|, 1
  {
    var first := ReadValue(t);
    if first.None? || first.value.rest == "" then None
    else
      var rest := first.value.rest;
      if rest[0] == ']' then Some(Got([first.value.value], rest[1..]))
      else if rest[0] != ',' then None
      else
        var more := ReadItems(rest[1..]);
        if more.None? then None else Some(Got([first.value.value] + more.value.value, more.value.rest))
  }

  /** Quoted keys with their values between commas, up to the closing brace. Of equal keys the last counts. */
  function ReadMembers(t: string): (r: Option<Got<map<string, Value>>>)
    ensures r.Some? ==> |r.value.rest| < |t|
    decreases |t|, 1
  {
    if t == "" || t[0] != '\"' then None
    else
      var key := ReadString(t[1..]);
      if key.None? || key.value.rest == "" || key.value.rest[0] != ':' then None
      else
        var first := ReadValue(key.value.rest[1..]);
        if first.None? || first.value.rest == "" then None
        else
          var rest := first.value.rest;
          if rest[0] == '}' then Some(Got(map[key.value.value := first.value.value], rest[1..]))
          else if rest[0] != ',' then None
          else
            var more := ReadMembers(rest[1..]);
            if more.None? then None
            else Some(Got(map[key.value.value := first.value.value] + more.value.value, more.value.rest))
  }

  // ---------------------------------------------------------------- strings

  lemma ReadsEscape(c: char, u: string)
    ensures |EscapeChar(c)| >= 2 <==> c == '\"' || c == '\\' || (c as int) < 32
    ensures |EscapeChar(c)| >= 2 ==> EscapeChar(c)[0] == '\\' && ReadEscape(EscapeChar(c)[1..] + u) == Some(Got(c, u))
    ensures |EscapeChar(c)| < 2 ==> EscapeChar(c) == [c]
  {
    if |EscapeChar(c)| == 6 {
      ReadsUnit(c, u);
    } else if |EscapeChar(c)| == 2 {
      var t := EscapeChar(c)[1..] + u;
      assert t == [EscapeChar(c)[1]] + u && t[1..] == u;
    }
  }

  lemma ReadsUnit(c: char, u: string)
    requires |EscapeChar(c)| == 6
    ensures ReadEscape(EscapeChar(c)[1..] + u) == Some(Got(c, u))
  {
    var n := c as int;
    assert n < 32 && EscapeChar(c) == "\\u00" + [HexDigit(n / 16), HexDigit(n % 16)];
    var t := EscapeChar(c)[1..] + u;
    assert t[0] == 'u' && t[1] == '0' && t[2] == '0' && t[3] == HexDigit(n / 16) && t[4] == HexDigit(n % 16);
    var v := t[1..];
    assert v[0] == '0' && v[1] == '0' && v[2] == HexDigit(n / 16) && v[3] == HexDigit(n % 16) && v[4..] == u;
    HexBack(n / 16);
    HexBack(n % 16);
    assert n == n / 16 * 16 + n % 16;
  }

  lemma HexBack(d: nat)
    requires d < 16
    ensures HexValue(HexDigit(d)) == Some(d)
  {
  }

  /** Characters are escaped where JSON asks for it and in the shortest way, hex digits in lower case. */
  lemma ShortestEscape(c: char)
    ensures (|EscapeChar(c)| == 2 <==> c == '\"' || c == '\\' || c as int in {8, 9, 10, 12, 13})
            && (|EscapeChar(c)| == 6 <==> (c as int) < 32 && c as int !in {8, 9, 10, 12, 13})
            && (|EscapeChar(c)| == 1 <==> (c as int) >= 32 && c != '\"' && c != '\\')
    ensures forall i :: 0 <= i < |EscapeChar(c)| && |EscapeChar(c)| == 6 ==> !('A' <= EscapeChar(c)[i] <= 'F')
  {
  }

  lemma {:induction false} ReadsString(s: string, u: string)
    ensures ReadString(Escape(s) + (QUOTE + u)) == Some(Got(s, u))
    decreases |s|
  {
    hide EscapeChar, ReadEscape;
    EscapeFirst(s, u);
    if s == [] {
      assert (QUOTE + u)[1..] == u;
    } else {
      var after := Escape(s[1..]) + (QUOTE + u);
      ReadsEscape(s[0], after);
      ReadsString(s[1..], u);
      assert Escape(s) + (QUOTE + u) == EscapeChar(s[0]) + after;
      assert (EscapeChar(s[0]) + after)[1..] == EscapeChar(s[0])[1..] + after;
      if |EscapeChar(s[0])| < 2 { assert EscapeChar(s[0])[1..] + after == after; }
      assert s == [s[0]] + s[1..];
    }
  }

  lemma ReadsQuoted(s: string, u: string)
    ensures Quoted(s) + u != "" && (Quoted(s) + u)[0] == '\"' && ReadString((Quoted(s) + u)[1..]) == Some(Got(s, u))
  {
    hide Escape, ReadString;
    ReadsString(s, u);
    assert (Quoted(s) + u)[1..] == Escape(s) + (QUOTE + u);
  }

  // ---------------------------------------------------------------- numbers

  lemma {:induction false} ReadsDigits(s: string, before: nat, u: string)
    requires u != "" ==> !('0' <= u[0] <= '9')
    requires forall i :: 0 <= i < |s| ==> IsDigit(s[i])
    ensures ReadDigits(s + u, before).rest == u
    ensures s != "" ==>
              var most := ReadDigits(s[..|s| - 1] + u, before).value;
              ReadDigits(s + u, before) == Got(most * 10 + (s[|s| - 1] as int - '0' as int), u)
    decreases |s|
  {
    if s == "" {
      assert s + u == u;
    } else if |s| == 1 {
      assert (s + u)[1..] == u && s[..0] + u == u;
    } else {
      var next := before * 10 + (s[0] as int - '0' as int);
      ReadsDigits(s[1..], next, u);
      assert (s + u)[1..] == s[1..] + u;
      assert s[1..][..|s| - 2] == s[..|s| - 1][1..];
      assert (s[..|s| - 1] + u)[1..] == s[..|s| - 1][1..] + u;
    }
  }

  lemma ReadsNoDigits(before: nat, u: string)
    requires u != "" ==> !('0' <= u[0] <= '9')
    ensures ReadDigits(u, before) == Got(before, u)
  {
  }

  lemma {:induction false} ReadsDecimalNat(n: nat, u: string)
    requires u != "" ==> !('0' <= u[0] <= '9')
    ensures ReadDigits(DecimalNat(n) + u, 0) == Got(n, u)
    ensures DecimalNat(n)[0] == '0' ==> n == 0 && |DecimalNat(n)| == 1
    decreases n
  {
    hide ReadDigits;
    var s := DecimalNat(n);
    ReadsDigits(s, 0, u);
    ReadsNoDigits(0, u);
    assert Digit(n % 10) as int - '0' as int == n % 10;
    if n >= 10 {
      ReadsDecimalNat(n / 10, u);
      assert s[..|s| - 1] == DecimalNat(n / 10);
    } else {
      assert s[..0] + u == u && n % 10 == n;
    }
  }

  /** What may follow a number in JSON text, as far as its reader looks. */
  predicate AfterNumber(u: string) {
    u != "" ==> !('0' <= u[0] <= '9') && u[0] != '.' && u[0] != 'e' && u[0] != 'E'
  }

  lemma ReadsNatural(n: nat, u: string)
    requires AfterNumber(u)
    ensures ReadNatural(DecimalNat(n) + u) == Some(Got(n, u))
  {
    hide DecimalNat;
    ReadsDecimalNat(n, u);
    var t := DecimalNat(n) + u;
    assert IsDigit(DecimalNat(n)[0]) && t[0] == DecimalNat(n)[0];
    assert ReadDigits(t, 0) == ReadDigits(t[1..], t[0] as int - '0' as int);
  }

  /** The decimal text of any integer reads back as that integer. */
  lemma ReadsDecimal(n: int, u: string)
    requires AfterNumber(u)
    ensures ReadInteger(Decimal(n) + u) == Some(Got(n, u))
  {
    hide DecimalNat, ReadNatural;
    var m: nat := if n < 0 then -n else n;
    ReadsNatural(m, u);
    DecimalSign(n, u);
    if n < 0 {
      assert (Decimal(n) + u)[1..] == DecimalNat(m) + u;
    } else {
      assert "" + (DecimalNat(m) + u) == DecimalNat(m) + u;
    }
  }

  // ---------------------------------------------------------------- values

  lemma ReadsInt(n: int, u: string)
    requires Ends(u)
    ensures ReadValue(Decimal(n) + u) == Some(Got(VInt(n), u))
  {
    hide Decimal, ReadInteger, ReadString;
    ReadsDecimal(n, u);
    TextKindInt(n);
    assert (Decimal(n) + u)[0] == Decimal(n)[0];
  }

  lemma TextKindInt(n: int)
    ensures Decimal(n) != "" && (Decimal(n)[0] == '-' || IsDigit(Decimal(n)[0]))
  {
  }

  lemma ReadsWords(u: string)
    ensures ReadValue("null" + u) == Some(Got(VNull, u))
    ensures ReadValue("true" + u) == Some(Got(VBool(true), u))
    ensures ReadValue("false" + u) == Some(Got(VBool(false), u))
  {
    hide ReadString, ReadInteger, ReadItems, ReadMembers;
    var n, t, f := "null" + u, "true" + u, "false" + u;
    assert n[..4] == "null" && n[4..] == u && "null" <= n;
    assert t[0] == 't' && t[..4] == "true" && t[4..] == u && "true" <= t;
    assert f[0] == 'f' && f[..5] == "false" && f[5..] == u && "false" <= f;
  }

  /** The reader reads the text of a value as its meaning, and stops right after it. */
  lemma {:induction false} ReadsText(x: Json, u: string)
    requires Accepted(x) && WellFormed(x) && Ends(u)
    ensures ReadValue(Text(x) + u) == Some(Got(Meaning(x), u))
    decreases x
  {
    hide Escape, Decimal, ReadString, ReadInteger, Quoted, MoreItems, MoreMembers, ReadItems, ReadMembers;
    match x
    case Null => ReadsWords(u);
    case Bool(b) => ReadsWords(u);
    case Int(n) => ReadsInt(n, u);
    case Str(s) => ReadsQuoted(s, u);
    case Array(items) => ReadsArray(items, u);
    case Object(members) => ReadsObject(members, u);
    case _ =>
  }

  lemma OpensArray(inside: string)
    requires inside != "" && inside[0] != ']'
    ensures var items := ReadItems(inside);
            ReadValue("[" + inside) == if items.None? then None else Some(Got(VArray(items.value.value), items.value.rest))
  {
    hide ReadItems, ReadMembers, ReadString, ReadInteger;
    var t := "[" + inside;
    assert t[0] == '[' && t[1] == inside[0] && t[1..] == inside;
  }

  lemma ReadsEmpty(u: string)
    ensures ReadValue("[]" + u) == Some(Got(VArray([]), u)) && ReadValue("{}" + u) == Some(Got(VObject(map[]), u))
  {
    hide ReadItems, ReadMembers, ReadString, ReadInteger;
    var t, v := "[]" + u, "{}" + u;
    assert t[0] == '[' && t[..2] == "[]" && t[2..] == u && "[]" <= t;
    assert v[0] == '{' && v[..2] == "{}" && v[2..] == u && "{}" <= v;
  }

  lemma ArrayText(items: Items, u: string)
    requires AcceptedItems(items)
    ensures items.NoItems? ==> Text(Array(items)) + u == "[]" + u && ItemsMeaning(items) == []
    ensures items.Item? ==> Accepted(items.head) && AcceptedItems(items.tail)
    ensures items.Item? ==>
              var inside := Text(items.head) + (MoreItems(items.tail) + u);
              Text(Array(items)) + u == "[" + inside && inside != "" && inside[0] != ']'
  {
    hide MoreItems, MoreMembers;
    if items.Item? {
      TextKind(items.head);
      var inside := Text(items.head) + (MoreItems(items.tail) + u);
      assert inside[0] == Text(items.head)[0];
      assert Text(Array(items)) + u == "[" + inside;
    }
  }

  lemma {:induction false} ReadsArray(items: Items, u: string)
    requires AcceptedItems(items) && WellFormedItems(items)
    ensures ReadValue(Text(Array(items)) + u) == Some(Got(VArray(ItemsMeaning(items)), u))
    decreases items
  {
    hide *;
    ArrayText(items, u);
    if items.NoItems? {
      ReadsEmpty(u);
    } else {
      OpensArray(Text(items.head) + (MoreItems(items.tail) + u));
      ReadsItems(items, u);
    }
  }

  lemma {:induction false} ReadsItems(items: Items, u: string)
    requires AcceptedItems(items) && WellFormedItems(items) && items.Item?
    ensures ReadItems(Text(items.head) + (MoreItems(items.tail) + u)) == Some(Got(ItemsMeaning(items), u))
    decreases items, 0
  {
    hide Text, Meaning, ReadValue, MoreMembers;
    var after := MoreItems(items.tail) + u;
    EndsMore(items.tail, NoMembers, u);
    ReadsText(items.head, after);
    if items.tail.NoItems? {
      assert after == "]" + u && after[1..] == u;
      assert [Meaning(items.head)] + [] == [Meaning(items.head)];
    } else {
      var more := Text(items.tail.head) + (MoreItems(items.tail.tail) + u);
      assert after == "," + more && after[1..] == more;
      ReadsItems(items.tail, u);
    }
  }

  lemma OpensObject(inside: string)
    requires inside != "" && inside[0] == '\"'
    ensures var members := ReadMembers(inside);
            ReadValue("{" + inside) == if members.None? then None else Some(Got(VObject(members.value.value), members.value.rest))
  {
    hide ReadItems, ReadMembers, ReadString, ReadInteger;
    var t := "{" + inside;
    assert t[0] == '{' && t[1] == inside[0] && t[1..] == inside;
  }

  lemma MemberTextStarts(m: Members, u: string)
    requires AcceptedMembers(m)
    ensures m.Member? ==> MemberText(m, u) != "" && MemberText(m, u)[0] == '\"'
    ensures m.NoMembers? ==> MembersMeaning(m) == map[]
  {
    hide Escape, Text, MoreMembers;
  }

  lemma {:induction false} ReadsObject(members: Members, u: string)
    requires AcceptedMembers(members) && WellFormedMembers(members)
    ensures ReadValue(Text(Object(members)) + u) == Some(Got(VObject(MembersMeaning(members)), u))
    decreases members
  {
    hide *;
    ObjectText(members, u);
    MemberTextStarts(members, u);
    if members.NoMembers? {
      ReadsEmpty(u);
    } else {
      OpensObject(MemberText(members, u));
      ReadsMembers(members, u);
    }
  }

  lemma {:induction false} ReadsMembers(m: Members, u: string)
    requires AcceptedMembers(m) && WellFormedMembers(m) && m.Member?
    ensures ReadMembers(MemberText(m, u)) == Some(Got(MembersMeaning(m), u))
    decreases m, 0
  {
    hide Text, Meaning, ReadValue, MoreItems, Quoted, ReadString;
    var after := MoreMembers(m.tail) + u;
    var value := ":" + (Text(m.value) + after);
    ReadsQuoted(m.key.text, value);
    assert value[1..] == Text(m.value) + after;
    EndsMore(NoItems, m.tail, u);
    ReadsText(m.value, after);
    KeyIsNew(m);
    if m.tail.NoMembers? {
      assert after == "}" + u && after[1..] == u;
    } else {
      assert after == "," + MemberText(m.tail, u) && after[1..] == MemberText(m.tail, u);
      ReadsMembers(m.tail, u);
      assert map[m.key.text := Meaning(m.value)] + MembersMeaning(m.tail) == MembersMeaning(m.tail)[m.key.text := Meaning(m.value)];
    }
  }

  lemma KeyIsNew(m: Members)
    requires AcceptedMembers(m) && WellFormedMembers(m) && m.Member?
    ensures m.key.text !in MembersMeaning(m.tail)
  {
    hide Meaning;
    MeaningKeys(m.tail);
    KeysAreTexts(m.tail, m.key);
  }

  /**
    canon is JSON for the value: a reader written from the grammar alone reads the whole canonical
    text of any value canon accepts, and reads it as what the value means.
   */
  lemma CanonReadsBack(x: Json)
    requires WellFormed(x) && Accepted(x)
    ensures Canon(x).Some? && ReadValue(Canon(x).value) == Some(Got(Meaning(x), ""))
  {
    hide Text, Meaning, ReadValue, SortKeys;
    SortKeysOrders(x);
    SortedWellFormed(x);
    ReadsText(SortKeys(x), "");
    assert Text(SortKeys(x)) + "" == Text(SortKeys(x));
  }

  lemma {:induction false} SortedWellFormed(x: Json)
    requires Accepted(x) && WellFormed(x)
    ensures WellFormed(SortKeys(x))
    decreases x
  {
    match x
    case Array(items) => SortedItemsWellFormed(items);
    case Object(members) => SortedMembersWellFormed(members);
    case _ =>
  }

  lemma {:induction false} SortedItemsWellFormed(items: Items)
    requires AcceptedItems(items) && WellFormedItems(items)
    ensures WellFormedItems(SortItems(items))
    decreases items
  {
    if !items.NoItems? {
      SortedWellFormed(items.head);
      SortedItemsWellFormed(items.tail);
    }
  }

  lemma {:induction false} SortedMembersWellFormed(m: Members)
    requires AcceptedMembers(m) && WellFormedMembers(m)
    ensures WellFormedMembers(SortMembers(m)) && Keys(SortMembers(m)) == Keys(m)
    decreases m
  {
    if !m.NoMembers? {
      SortedWellFormed(m.value);
      SortedMembersWellFormed(m.tail);
      InsertWellFormed(m.key, SortKeys(m.value), SortMembers(m.tail));
    }
  }

  lemma {:induction false} InsertWellFormed(key: Key, value: Json, m: Members)
    requires WellFormed(value) && WellFormedMembers(m) && key !in Keys(m)
    ensures WellFormedMembers(Insert(key, value, m)) && Keys(Insert(key, value, m)) == Keys(m) + {key}
  {
    hide Less;
    if !m.NoMembers? && !Less(key.text, m.key.text) { InsertWellFormed(key, value, m.tail); }
  }

  /** Keys are compared at the first character where they differ, a proper prefix first. */
  lemma {:induction false} LessIff(a: string, b: string)
    ensures Less(a, b) <==> a < b || exists k :: 0 <= k < |a| && k < |b| && a[..k] == b[..k] && a[k] < b[k]
    decreases |a|
  {
    if a != [] && b != [] && a[0] == b[0] {
      LessIff(a[1..], b[1..]);
      assert a == [a[0]] + a[1..] && b == [b[0]] + b[1..];
      assert a < b <==> a[1..] < b[1..];
      if k :| 0 <= k < |a[1..]| && k < |b[1..]| && a[1..][..k] == b[1..][..k] && a[1..][k] < b[1..][k] {
        assert a[..k + 1] == [a[0]] + a[1..][..k] && b[..k + 1] == [b[0]] + b[1..][..k];
        assert a[k + 1] < b[k + 1];
      }
      if k :| 0 <= k < |a| && k < |b| && a[..k] == b[..k] && a[k] < b[k] {
        assert k > 0 && a[1..][..k - 1] == a[..k][1..] && b[1..][..k - 1] == b[..k][1..];
        assert a[1..][k - 1] < b[1..][k - 1];
      }
    } else if a != [] && b != [] {
      if a[0] < b[0] { assert a[..0] == b[..0]; }
      forall k | 0 < k <= |a| && k <= |b| ensures a[..k] != b[..k] {
        assert a[..k][0] != b[..k][0];
      }
    }
  }
}
