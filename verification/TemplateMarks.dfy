/**
  Where a sentinel can stand in a canonical text. Sentinels hold none of the punctuation of JSON,
  so none of them lies across two strings, numbers or keys; one that is the whole of a string or a
  number stands there as a value.
 */
module TemplateMarks {
  import opened Hashing
  import opened JsonValues
  import opened Canonical
  import opened CanonicalText
  import opened Template
  import opened TemplateExact

  // ---------------------------------------------------------------- sentinels inside a text

  /** No sentinel stands anywhere in the text. */
  ghost predicate Bare(s: string, toks: seq<string>) {
    forall t, i: nat :: t in toks ==> !OccursAt(s, t, i)
  }

  predicate IsMark(c: char) {
    c in "\",:{}[]"
  }

  /** Sentinels hold no punctuation of JSON, and none stands inside another. */
  ghost predicate Separate(toks: seq<string>) {
    && NonEmpty(toks)
    && (forall t, k :: t in toks && 0 <= k < |t| ==> !IsMark(t[k]))
    && (forall s, t, i: nat :: s in toks && t in toks && OccursAt(s, t, i) ==> s == t && i == 0)
  }

  lemma SeparateIsNonEmpty(toks: seq<string>)
    requires Separate(toks)
    ensures NonEmpty(toks)
  {
  }

  lemma NoMarkInside(text: string, t: string, i: nat, k: nat)
    requires OccursAt(text, t, i) && i <= k < i + |t|
    ensures k < |text| && text[k] == t[k - i]
  {
    assert text[k] == text[i..i + |t|][k - i];
  }

  /** An occurrence in two texts joined at a punctuation mark lies in one of them. */
  lemma OneSide(a: string, b: string, t: string, toks: seq<string>, i: nat)
    requires Separate(toks) && t in toks && OccursAt(a + b, t, i)
    requires a == "" || b == "" || IsMark(a[|a| - 1]) || IsMark(b[0])
    ensures (i + |t| <= |a| && OccursAt(a, t, i)) || (i >= |a| && OccursAt(b, t, i - |a|))
  {
    if i + |t| <= |a| {
      assert (a + b)[i..i + |t|] == a[i..i + |t|];
    } else if i >= |a| {
      assert (a + b)[i..i + |t|] == b[i - |a|..i - |a| + |t|];
    } else {
      NoMarkInside(a + b, t, i, |a| - 1);
      NoMarkInside(a + b, t, i, |a|);
      assert false;
    }
  }

  lemma BareJoined(a: string, b: string, toks: seq<string>)
    requires Separate(toks) && Bare(a, toks) && Bare(b, toks)
    requires a == "" || b == "" || IsMark(a[|a| - 1]) || IsMark(b[0])
    ensures Bare(a + b, toks)
  {
    hide Separate, OccursAt;
    forall t, i: nat | t in toks ensures !OccursAt(a + b, t, i) {
      if OccursAt(a + b, t, i) { OneSide(a, b, t, toks, i); }
    }
  }

  lemma MarkIsBare(c: char, toks: seq<string>)
    requires Separate(toks) && IsMark(c)
    ensures Bare([c], toks)
  {
    forall t, i: nat | t in toks ensures !OccursAt([c], t, i) {
      assert !IsMark(t[0]);
    }
  }

  lemma QuotedIsBare(s: string, toks: seq<string>)
    requires Separate(toks) && Bare(Escape(s), toks)
    ensures Bare(Quoted(s), toks) && Quoted(s)[0] == '\"' && Quoted(s)[|Quoted(s)| - 1] == '\"'
  {
    hide Bare, Separate, Escape;
    MarkIsBare('\"', toks);
    BareJoined(QUOTE, Escape(s), toks);
    BareJoined(QUOTE + Escape(s), QUOTE, toks);
  }

  /** A mark, a key, a colon. */
  lemma KeyIsBare(c: char, key: string, toks: seq<string>)
    requires Separate(toks) && IsMark(c) && Bare(Escape(key), toks)
    ensures Bare([c] + Quoted(key) + ":", toks)
  {
    hide Bare, Separate, Escape;
    QuotedIsBare(key, toks);
    MarkIsBare(c, toks);
    MarkIsBare(':', toks);
    BareJoined([c], Quoted(key), toks);
    BareJoined([c] + Quoted(key), ":", toks);
  }

  // ---------------------------------------------------------------- pieces joined at punctuation

  lemma {:induction false} SlotAtAppend(a: seq<Piece>, b: seq<Piece>, t: string, i: nat)
    ensures SlotAt(a, t, i) ==> SlotAt(a + b, t, i)
    ensures SlotAt(b, t, i) ==> SlotAt(a + b, t, |Render(a)| + i)
  {
    if a == [] {
      assert a + b == b;
    } else {
      assert (a + b)[1..] == a[1..] + b;
      if SlotAt(a, t, i) && !(a[0] == Slot(t) && i == 0) { SlotAtAppend(a[1..], b, t, i - |a[0].text|); }
      SlotAtAppend(a[1..], b, t, i);
    }
  }

  lemma OnlySlotsJoined(a: seq<Piece>, b: seq<Piece>, toks: seq<string>)
    requires Separate(toks) && OnlySlots(a, toks) && OnlySlots(b, toks)
    requires Render(a) == "" || Render(b) == "" || IsMark(Render(a)[|Render(a)| - 1]) || IsMark(Render(b)[0])
    ensures OnlySlots(a + b, toks)
  {
    hide Separate, OccursAt, Render, SlotAt;
    RenderAppend(a, b);
    forall t, i: nat | t in toks && OccursAt(Render(a + b), t, i) ensures SlotAt(a + b, t, i) {
      OneSide(Render(a), Render(b), t, toks, i);
      SlotAtAppend(a, b, t, i);
      if i >= |Render(a)| { SlotAtAppend(a, b, t, i - |Render(a)|); }
    }
  }

  lemma LitOnly(lit: string, toks: seq<string>)
    requires Bare(lit, toks)
    ensures OnlySlots([Lit(lit)], toks) && Render([Lit(lit)]) == lit
  {
    assert [Lit(lit)][1..] == [] && lit + "" == lit;
  }

  lemma SlotOnly(s: string, toks: seq<string>)
    requires Separate(toks) && s in toks
    ensures OnlySlots([Slot(s)], toks) && Render([Slot(s)]) == s
  {
    assert [Slot(s)][1..] == [] && s + "" == s;
    forall t, i | t in toks && OccursAt(s, t, i) ensures SlotAt([Slot(s)], t, i) {
      assert t == s && i == 0;
    }
  }

  /** A literal that ends in a mark, a value, and a rest that begins with one. */
  lemma LitValueOnly(lit: string, a: seq<Piece>, b: seq<Piece>, toks: seq<string>)
    requires Separate(toks) && Bare(lit, toks) && lit != "" && IsMark(lit[|lit| - 1])
    requires OnlySlots(a, toks) && OnlySlots(b, toks) && Render(b) != "" && IsMark(Render(b)[0])
    ensures OnlySlots([Lit(lit)] + a + b, toks)
  {
    hide Separate, OnlySlots, Bare, Render;
    LitOnly(lit, toks);
    OnlySlotsJoined([Lit(lit)], a, toks);
    OnlySlotsJoined([Lit(lit)] + a, b, toks);
  }

  // ---------------------------------------------------------------- a condition on the value

  /** A sentinel is the whole of a string or an integer, or stands in none, and in no key. */
  ghost predicate Quiet(x: Json, toks: seq<string>)
    requires Accepted(x)
  {
    match x
    case Int(n) => Decimal(n) in toks || Bare(Decimal(n), toks)
    case Str(s) => s in toks || Bare(Escape(s), toks)
    case Array(items) => QuietItems(items, toks)
    case Object(members) => QuietMembers(members, toks)
    case _ => Bare(Text(x), toks)
  }

  ghost predicate QuietItems(items: Items, toks: seq<string>)
    requires AcceptedItems(items)
  {
    items.NoItems? || (Quiet(items.head, toks) && QuietItems(items.tail, toks))
  }

  ghost predicate QuietMembers(m: Members, toks: seq<string>)
    requires AcceptedMembers(m)
  {
    m.NoMembers? || (Bare(Escape(m.key.text), toks) && Quiet(m.value, toks) && QuietMembers(m.tail, toks))
  }

  lemma StrOnly(s: string, toks: seq<string>)
    requires Separate(toks) && (s in toks || Bare(Escape(s), toks))
    ensures OnlySlots(PiecesOf(Str(s), toks), toks)
  {
    hide Separate, OnlySlots, Bare, Escape, Render, Quoted;
    if s in toks {
      var a, b := [Slot(s)], [Lit(QUOTE)];
      MarkIsBare('\"', toks);
      SlotOnly(s, toks);
      LitOnly(QUOTE, toks);
      LitValueOnly(QUOTE, a, b, toks);
      assert [Lit(QUOTE)] + a + b == PiecesOf(Str(s), toks);
    } else {
      QuotedIsBare(s, toks);
      LitOnly(Quoted(s), toks);
    }
  }

  lemma IntOnly(n: int, toks: seq<string>)
    requires Separate(toks) && -SAFE <= n <= SAFE && (Decimal(n) in toks || Bare(Decimal(n), toks))
    ensures OnlySlots(PiecesOf(Int(n), toks), toks)
  {
    hide Separate, OnlySlots, Bare, Decimal;
    if Decimal(n) in toks { SlotOnly(Decimal(n), toks); } else { LitOnly(Decimal(n), toks); }
  }

  lemma TwoMarks(c: char, d: char, toks: seq<string>)
    requires Separate(toks) && IsMark(c) && IsMark(d)
    ensures Bare([c] + [d], toks)
  {
    hide Separate, Bare;
    MarkIsBare(c, toks);
    MarkIsBare(d, toks);
    BareJoined([c], [d], toks);
  }

  lemma RestBegins(items: Items, m: Members, toks: seq<string>)
    requires AcceptedItems(items) && AcceptedMembers(m)
    ensures Render(MorePieces(items, toks)) != "" && IsMark(Render(MorePieces(items, toks))[0])
    ensures Render(MoreMemberPieces(m, toks)) != "" && IsMark(Render(MoreMemberPieces(m, toks))[0])
  {
    hide PiecesOf, Quoted;
  }

  lemma {:induction false} QuietOnlyAsValues(x: Json, toks: seq<string>)
    requires Accepted(x) && Separate(toks) && Quiet(x, toks)
    ensures OnlySlots(PiecesOf(x, toks), toks)
    decreases x
  {
    hide Separate, OnlySlots, Bare, Decimal, Quoted, Escape, MorePieces, MoreMemberPieces, Render;
    match x
    case Int(n) => IntOnly(n, toks);
    case Str(s) => StrOnly(s, toks);
    case Array(items) =>
      if items.NoItems? {
        TwoMarks('[', ']', toks);
        assert "[" + "]" == "[]";
        LitOnly("[]", toks);
      } else {
        MarkIsBare('[', toks);
        QuietOnlyAsValues(items.head, toks);
        MoreOnly(items.tail, toks);
        RestBegins(items.tail, NoMembers, toks);
        LitValueOnly("[", PiecesOf(items.head, toks), MorePieces(items.tail, toks), toks);
      }
    case Object(members) =>
      if members.NoMembers? {
        TwoMarks('{', '}', toks);
        assert "{" + "}" == "{}";
        LitOnly("{}", toks);
      } else {
        KeyIsBare('{', members.key.text, toks);
        QuietOnlyAsValues(members.value, toks);
        MoreMembersOnly(members.tail, toks);
        RestBegins(NoItems, members.tail, toks);
        LitValueOnly("{" + Quoted(members.key.text) + ":", PiecesOf(members.value, toks),
            MoreMemberPieces(members.tail, toks), toks);
      }
    case Null => LitOnly("null", toks);
    case Bool(b) => LitOnly(if b then "true" else "false", toks);
    case _ =>
  }

  lemma {:induction false} MoreOnly(items: Items, toks: seq<string>)
    requires AcceptedItems(items) && Separate(toks) && QuietItems(items, toks)
    ensures OnlySlots(MorePieces(items, toks), toks)
    decreases items
  {
    hide Separate, OnlySlots, Bare, PiecesOf, Quiet, Render;
    if items.NoItems? {
      MarkIsBare(']', toks);
      LitOnly("]", toks);
    } else {
      MarkIsBare(',', toks);
      QuietOnlyAsValues(items.head, toks);
      MoreOnly(items.tail, toks);
      RestBegins(items.tail, NoMembers, toks);
      LitValueOnly(",", PiecesOf(items.head, toks), MorePieces(items.tail, toks), toks);
    }
  }

  lemma {:induction false} MoreMembersOnly(m: Members, toks: seq<string>)
    requires AcceptedMembers(m) && Separate(toks) && QuietMembers(m, toks)
    ensures OnlySlots(MoreMemberPieces(m, toks), toks)
    decreases m
  {
    hide Separate, OnlySlots, Bare, PiecesOf, Quiet, Render, Quoted, Escape;
    if m.NoMembers? {
      MarkIsBare('}', toks);
      LitOnly("}", toks);
    } else {
      KeyIsBare(',', m.key.text, toks);
      QuietOnlyAsValues(m.value, toks);
      MoreMembersOnly(m.tail, toks);
      RestBegins(NoItems, m.tail, toks);
      LitValueOnly("," + Quoted(m.key.text) + ":", PiecesOf(m.value, toks), MoreMemberPieces(m.tail, toks), toks);
    }
  }
}
