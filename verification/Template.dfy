/**
  hosts/beacon-cadence.py: a statement is canonicalized before the instant with sentinels in the
  places of the event numbers, split on the sentinels, and filled after it by writing into the
  parts. The filled text is the fresh canonical text when each sentinel stands in it exactly once.
 */
module Template {
  import opened Hashing
  import opened JsonValues
  import opened Canonical
  import opened CanonicalText

  // ---------------------------------------------------------------- splitting

  function Join(parts: seq<string>): string {
    if parts == [] then "" else parts[0] + Join(parts[1..])
  }

  predicate OccursAt(text: string, tok: string, i: nat) {
    i + |tok| <= |text| && text[i..i + |tok|] == tok
  }

  /** The first alternative of the pattern that matches at the start of the text. */
  function MatchHere(text: string, toks: seq<string>): (r: Option<string>)
    ensures r.Some? ==> r.value in toks && OccursAt(text, r.value, 0)
    ensures r.None? ==> forall t :: t in toks ==> !OccursAt(text, t, 0)
  {
    if toks == [] then None
    else if OccursAt(text, toks[0], 0) then Some(toks[0])
    else MatchHere(text, toks[1..])
  }

  predicate NonEmpty(toks: seq<string>) {
    forall t :: t in toks ==> t != []
  }

  /** re.split with the pattern captured: text, match, text, ..., text; `lit` is the text since the last match. */
  function Parts(text: string, toks: seq<string>, lit: string): seq<string>
    requires NonEmpty(toks)
    decreases |text|
  {
    if text == [] then [lit]
    else
      var m := MatchHere(text, toks);
      if m.Some? then [lit, m.value] + Parts(text[|m.value|..], toks, "")
      else Parts(text[1..], toks, lit + [text[0]])
  }

  lemma {:induction false} PartsJoin(text: string, toks: seq<string>, lit: string)
    requires NonEmpty(toks)
    ensures Join(Parts(text, toks, lit)) == lit + text
    decreases |text|
  {
    if text != [] {
      var m := MatchHere(text, toks);
      if m.Some? {
        PartsJoin(text[|m.value|..], toks, "");
        JoinTwo(lit, m.value, Parts(text[|m.value|..], toks, ""));
        assert text == m.value + text[|m.value|..];
      } else {
        PartsJoin(text[1..], toks, lit + [text[0]]);
        assert lit + [text[0]] + text[1..] == lit + text;
      }
    }
  }

  lemma JoinTwo(a: string, b: string, rest: seq<string>)
    ensures Join([a, b] + rest) == a + (b + Join(rest))
  {
    assert ([a, b] + rest)[1..] == [b] + rest && ([b] + rest)[1..] == rest;
  }

  // ---------------------------------------------------------------- the prebuilt dictionary

  /** Where each sentinel stands among the parts; a later one replaces an earlier one. */
  function SlotsOf(parts: seq<string>, toks: seq<string>): map<string, nat> {
    if parts == [] then map[]
    else
      var before, last := SlotsOf(parts[..|parts| - 1], toks), parts[|parts| - 1];
      if last in toks then before[last := |parts| - 1] else before
  }

  /** Every slot that has a value is overwritten. */
  function Overwritten(parts: seq<string>, slots: map<string, nat>, values: seq<(string, string)>): seq<string> {
    if values == [] then parts
    else
      var done, last := Overwritten(parts, slots, values[..|values| - 1]), values[|values| - 1];
      if last.0 in slots && slots[last.0] < |done| then done[slots[last.0] := last.1] else done
  }

  class Prebuilt {
    var parts: seq<string>
    var slots: map<string, nat>

    constructor ()
      ensures parts == [] && slots == map[]
    {
      parts, slots := [], map[];
    }

    /** build_template; `ok` is the assertion that there are as many slots as sentinels. */
    method Build(text: string, toks: seq<string>) returns (ok: bool)
      requires NonEmpty(toks)
      modifies this
      ensures parts == Parts(text, toks, "") && slots == SlotsOf(parts, toks)
      ensures ok <==> |slots| == |toks|
    {
      parts := Parts(text, toks, "");
      var found: map<string, nat> := map[];
      for i := 0 to |parts|
        invariant parts == Parts(text, toks, "") && found == SlotsOf(parts[..i], toks)
      {
        assert parts[..i + 1][..i] == parts[..i];
        if parts[i] in toks { found := found[parts[i] := i]; }
      }
      assert parts[..|parts|] == parts;
      slots := found;
      ok := |found| == |toks|;
    }

    /** fast_datagram: a copy of the parts, its slots overwritten, joined. */
    method Fill(values: seq<(string, string)>) returns (text: string)
      requires forall v :: v in values ==> v.0 in slots && slots[v.0] < |parts|
      ensures text == Join(Overwritten(parts, slots, values))
    {
      var copy := parts;
      for i := 0 to |values|
        invariant |copy| == |parts| && copy == Overwritten(parts, slots, values[..i])
      {
        assert values[i] in values && values[..i + 1][..i] == values[..i];
        copy := copy[slots[values[i].0] := values[i].1];
      }
      assert values[..|values|] == values;
      text := "";
      for i := 0 to |copy|
        invariant text == Join(copy[..i])
      {
        JoinSnoc(copy[..i], copy[i]);
        assert copy[..i + 1] == copy[..i] + [copy[i]];
        text := text + copy[i];
      }
      assert copy[..|copy|] == copy;
    }
  }

  lemma {:induction false} JoinSnoc(parts: seq<string>, last: string)
    ensures Join(parts + [last]) == Join(parts) + last
  {
    if parts == [] {
      assert [] + [last] == [last] && [last][1..] == [];
    } else {
      assert (parts + [last])[1..] == parts[1..] + [last];
      JoinSnoc(parts[1..], last);
    }
  }

  // ---------------------------------------------------------------- a text as literals and slots

  datatype Piece = Lit(text: string) | Slot(text: string)

  function Render(pieces: seq<Piece>): string {
    if pieces == [] then "" else pieces[0].text + Render(pieces[1..])
  }

  /** The text with every slot filled. */
  function Filled(pieces: seq<Piece>, values: map<string, string>): string {
    if pieces == [] then ""
    else
      var first := pieces[0];
      (if first.Slot? && first.text in values then values[first.text] else first.text) + Filled(pieces[1..], values)
  }

  predicate SlotAt(pieces: seq<Piece>, tok: string, i: nat) {
    pieces != [] && ((pieces[0] == Slot(tok) && i == 0) || (i >= |pieces[0].text| && SlotAt(pieces[1..], tok,
        i - |pieces[0].text|)))
  }

  /** The only occurrences of sentinels in the text are the slots. */
  ghost predicate OnlySlots(pieces: seq<Piece>, toks: seq<string>) {
    forall t, i :: t in toks && OccursAt(Render(pieces), t, i) ==> SlotAt(pieces, t, i)
  }

  /** What re.split makes of the pieces: adjacent literals are one. */
  function Merge(pieces: seq<Piece>, lit: string): seq<string> {
    if pieces == [] then [lit]
    else if pieces[0].Lit? then Merge(pieces[1..], lit + pieces[0].text)
    else [lit, pieces[0].text] + Merge(pieces[1..], "")
  }

  predicate SlotsAmong(pieces: seq<Piece>, toks: seq<string>) {
    forall p :: p in pieces && p.Slot? ==> p.text in toks
  }

  lemma ShiftOccurs(a: string, b: string, tok: string, i: nat)
    requires OccursAt(b, tok, i)
    ensures OccursAt(a + b, tok, |a| + i)
  {
    assert (a + b)[|a| + i..|a| + i + |tok|] == b[i..i + |tok|];
  }

  lemma OnlySlotsTail(pieces: seq<Piece>, toks: seq<string>)
    requires pieces != [] && OnlySlots(pieces, toks) && NonEmpty(toks)
    ensures OnlySlots(pieces[1..], toks)
  {
    var first, rest := pieces[0], pieces[1..];
    forall t, i | t in toks && OccursAt(Render(rest), t, i) ensures SlotAt(rest, t, i) {
      ShiftOccurs(first.text, Render(rest), t, i);
      assert SlotAt(pieces, t, |first.text| + i);
      SlotInTail(pieces, t, i);
    }
  }

  lemma SlotInTail(pieces: seq<Piece>, tok: string, i: nat)
    requires pieces != [] && tok != [] && SlotAt(pieces, tok, |pieces[0].text| + i)
    ensures SlotAt(pieces[1..], tok, i)
  {
  }

  /** A literal is passed over character by character. */
  lemma {:induction false} PassLiteral(k: nat, pieces: seq<Piece>, toks: seq<string>, lit: string)
    requires pieces != [] && pieces[0].Lit? && k <= |pieces[0].text| && NonEmpty(toks) && OnlySlots(pieces, toks)
    ensures Parts(pieces[0].text[k..] + Render(pieces[1..]), toks, lit)
            == Parts(Render(pieces[1..]), toks, lit + pieces[0].text[k..])
    decreases |pieces[0].text| - k
  {
    hide OnlySlots, Render;
    var first, rest := pieces[0].text, Render(pieces[1..]);
    var text := first[k..] + rest;
    if k == |first| {
      assert text == rest && lit + first[k..] == lit;
    } else {
      NoMatchInLiteral(k, pieces, toks);
      assert text[1..] == first[k + 1..] + rest && text[0] == first[k];
      PassLiteral(k + 1, pieces, toks, lit + [first[k]]);
      assert lit + [first[k]] + first[k + 1..] == lit + first[k..];
    }
  }

  lemma NoMatchInLiteral(k: nat, pieces: seq<Piece>, toks: seq<string>)
    requires pieces != [] && pieces[0].Lit? && k < |pieces[0].text| && OnlySlots(pieces, toks)
    ensures MatchHere(pieces[0].text[k..] + Render(pieces[1..]), toks).None?
  {
    var first, rest := pieces[0].text, Render(pieces[1..]);
    var m := MatchHere(first[k..] + rest, toks);
    assert first[..k] + (first[k..] + rest) == Render(pieces);
    if m.Some? {
      assert !SlotAt(pieces, m.value, k);
      ShiftOccurs(first[..k], first[k..] + rest, m.value, 0);
    }
  }

  /** re.split finds exactly the slots. */
  lemma {:induction false} PartsOfPieces(pieces: seq<Piece>, toks: seq<string>, lit: string)
    requires NonEmpty(toks) && OnlySlots(pieces, toks) && SlotsAmong(pieces, toks)
    ensures Parts(Render(pieces), toks, lit) == Merge(pieces, lit)
    decreases |pieces|
  {
    hide OnlySlots;
    if pieces != [] {
      var first, rest := pieces[0], pieces[1..];
      OnlySlotsTail(pieces, toks);
      if first.Lit? {
        PassLiteral(0, pieces, toks, lit);
        assert first.text[0..] == first.text;
        PartsOfPieces(rest, toks, lit + first.text);
      } else {
        SlotMatches(pieces, toks);
        PartsOfPieces(rest, toks, "");
        assert Render(pieces)[|first.text|..] == Render(rest);
      }
    }
  }

  lemma SlotMatches(pieces: seq<Piece>, toks: seq<string>)
    requires pieces != [] && pieces[0].Slot? && NonEmpty(toks) && OnlySlots(pieces, toks) && SlotsAmong(pieces, toks)
    ensures MatchHere(Render(pieces), toks) == Some(pieces[0].text) && Render(pieces) != []
  {
    var tok := pieces[0].text;
    assert tok in toks by { assert pieces[0] in pieces; }
    assert OccursAt(Render(pieces), tok, 0);
    var m := MatchHere(Render(pieces), toks);
    assert SlotAt(pieces, m.value, 0);
  }

  // ---------------------------------------------------------------- filling

  /** A sentinel stands at one place at most. */
  ghost predicate AtMostOnce(text: string, tok: string) {
    forall i, j :: OccursAt(text, tok, i) && OccursAt(text, tok, j) ==> i == j
  }

  function ValueMap(values: seq<(string, string)>): map<string, string> {
    if values == [] then map[] else ValueMap(values[..|values| - 1])[values[|values| - 1].0 := values[|values| - 1].1]
  }

  function Replace(part: string, values: map<string, string>): string {
    if part in values then values[part] else part
  }

  lemma {:induction false} SlotsOfFinds(parts: seq<string>, toks: seq<string>, tok: string)
    ensures tok in SlotsOf(parts, toks) <==> tok in toks && tok in parts
    ensures tok in SlotsOf(parts, toks) ==> SlotsOf(parts, toks)[tok] < |parts| && parts[SlotsOf(parts, toks)[tok]] == tok
  {
    if parts != [] {
      SlotsOfFinds(parts[..|parts| - 1], toks, tok);
      assert parts == parts[..|parts| - 1] + [parts[|parts| - 1]];
    }
  }

  /** No part that is a sentinel occurs twice among the parts. */
  ghost predicate Distinct(parts: seq<string>, toks: seq<string>) {
    forall i, j :: 0 <= i < |parts| && 0 <= j < |parts| && parts[i] == parts[j] && parts[i] in toks ==> i == j
  }

  lemma {:induction false} OverwrittenLength(parts: seq<string>, slots: map<string, nat>, values: seq<(string, string)>)
    ensures |Overwritten(parts, slots, values)| == |parts|
  {
    if values != [] { OverwrittenLength(parts, slots, values[..|values| - 1]); }
  }

  lemma {:induction false} OverwrittenAt(parts: seq<string>, toks: seq<string>, values: seq<(string, string)>, i: nat)
    requires Distinct(parts, toks) && i < |parts| && forall v :: v in values ==> v.0 in toks
    ensures |Overwritten(parts, SlotsOf(parts, toks), values)| == |parts|
    ensures Overwritten(parts, SlotsOf(parts, toks), values)[i] == Replace(parts[i], ValueMap(values))
    decreases |values|
  {
    var slots := SlotsOf(parts, toks);
    OverwrittenLength(parts, slots, values);
    if values != [] {
      var before, last := values[..|values| - 1], values[|values| - 1];
      assert last in values;
      OverwrittenAt(parts, toks, before, i);
      SlotsOfFinds(parts, toks, last.0);
    }
  }

  function ReplaceAll(parts: seq<string>, values: map<string, string>): seq<string> {
    if parts == [] then [] else [Replace(parts[0], values)] + ReplaceAll(parts[1..], values)
  }

  lemma {:induction false} ReplaceAllAt(parts: seq<string>, values: map<string, string>, i: nat)
    requires i < |parts|
    ensures |ReplaceAll(parts, values)| == |parts| && ReplaceAll(parts, values)[i] == Replace(parts[i], values)
    decreases |parts|
  {
    if |parts| > 1 { ReplaceAllAt(parts[1..], values, if i == 0 then 0 else i - 1); }
  }

  lemma OverwrittenIsReplaceAll(parts: seq<string>, toks: seq<string>, values: seq<(string, string)>)
    requires Distinct(parts, toks) && parts != [] && forall v :: v in values ==> v.0 in toks
    ensures Overwritten(parts, SlotsOf(parts, toks), values) == ReplaceAll(parts, ValueMap(values))
  {
    OverwrittenLength(parts, SlotsOf(parts, toks), values);
    ReplaceAllAt(parts, ValueMap(values), 0);
    forall i | 0 <= i < |parts|
      ensures Overwritten(parts, SlotsOf(parts, toks), values)[i] == ReplaceAll(parts, ValueMap(values))[i]
    {
      OverwrittenAt(parts, toks, values, i);
      ReplaceAllAt(parts, ValueMap(values), i);
    }
  }

  // ---------------------------------------------------------------- once in the text, once among the parts

  lemma {:induction false} JoinAppend(a: seq<string>, b: seq<string>)
    ensures Join(a + b) == Join(a) + Join(b)
  {
    if a == [] {
      assert a + b == b;
    } else {
      assert (a + b)[1..] == a[1..] + b;
      JoinAppend(a[1..], b);
    }
  }

  lemma PartOccurs(parts: seq<string>, i: nat)
    requires i < |parts|
    ensures OccursAt(Join(parts), parts[i], |Join(parts[..i])|)
  {
    assert parts == parts[..i] + parts[i..];
    JoinAppend(parts[..i], parts[i..]);
    assert OccursAt(Join(parts[i..]), parts[i], 0);
    ShiftOccurs(Join(parts[..i]), Join(parts[i..]), parts[i], 0);
  }

  lemma LaterOffset(parts: seq<string>, i: nat, j: nat)
    requires i < j < |parts| && parts[i] != []
    ensures |Join(parts[..i])| < |Join(parts[..j])|
  {
    assert parts[..j] == parts[..i] + parts[i..j];
    JoinAppend(parts[..i], parts[i..j]);
  }

  lemma OnceIsDistinct(parts: seq<string>, toks: seq<string>)
    requires NonEmpty(toks) && forall t :: t in toks ==> AtMostOnce(Join(parts), t)
    ensures Distinct(parts, toks)
  {
    forall i, j | 0 <= i < |parts| && 0 <= j < |parts| && parts[i] == parts[j] && parts[i] in toks ensures i == j {
      PartOccurs(parts, i);
      PartOccurs(parts, j);
      if i < j { LaterOffset(parts, i, j); } else if j < i { LaterOffset(parts, j, i); }
    }
  }

  lemma {:induction false} SlotOccurs(pieces: seq<Piece>, tok: string) returns (i: nat)
    requires Slot(tok) in pieces
    ensures SlotAt(pieces, tok, i) && OccursAt(Render(pieces), tok, i)
    decreases |pieces|
  {
    if pieces[0] == Slot(tok) {
      i := 0;
    } else {
      var k := SlotOccurs(pieces[1..], tok);
      ShiftOccurs(pieces[0].text, Render(pieces[1..]), tok, k);
      i := |pieces[0].text| + k;
    }
  }

  lemma OnceIsOnlySlots(pieces: seq<Piece>, toks: seq<string>)
    requires forall t :: t in toks ==> Slot(t) in pieces && AtMostOnce(Render(pieces), t)
    ensures OnlySlots(pieces, toks)
  {
    forall t, i | t in toks && OccursAt(Render(pieces), t, i) ensures SlotAt(pieces, t, i) {
      var j := SlotOccurs(pieces, t);
    }
  }

  // ---------------------------------------------------------------- filled parts

  /** No stretch of literal text is itself a sentinel. */
  predicate LiteralsFree(parts: seq<string>, values: map<string, string>) {
    forall i :: 0 <= i < |parts| && i % 2 == 0 ==> parts[i] !in values
  }

  lemma {:induction false} SlotPart(pieces: seq<Piece>, lit: string, tok: string) returns (k: nat)
    requires Slot(tok) in pieces
    ensures k < |Merge(pieces, lit)| && k % 2 == 1 && Merge(pieces, lit)[k] == tok
    decreases |pieces|
  {
    if pieces[0] == Slot(tok) {
      k := 1;
    } else if pieces[0].Lit? {
      k := SlotPart(pieces[1..], lit + pieces[0].text, tok);
    } else {
      k := SlotPart(pieces[1..], "", tok);
      k := k + 2;
    }
  }

  lemma DistinctIsFree(pieces: seq<Piece>, toks: seq<string>, values: map<string, string>)
    requires Distinct(Merge(pieces, ""), toks)
    requires forall t :: t in values ==> t in toks && Slot(t) in pieces
    ensures LiteralsFree(Merge(pieces, ""), values)
  {
    var parts := Merge(pieces, "");
    forall i | 0 <= i < |parts| && i % 2 == 0 ensures parts[i] !in values {
      if parts[i] in values {
        var k := SlotPart(pieces, "", parts[i]);
      }
    }
  }

  lemma {:induction false} ReplaceMerge(pieces: seq<Piece>, lit: string, values: map<string, string>)
    requires LiteralsFree(Merge(pieces, lit), values)
    ensures Join(ReplaceAll(Merge(pieces, lit), values)) == lit + Filled(pieces, values)
    decreases |pieces|
  {
    hide LiteralsFree, Replace;
    if pieces == [] {
      ReplaceLast(lit, values);
    } else if pieces[0].Lit? {
      ReplaceMerge(pieces[1..], lit + pieces[0].text, values);
      assert lit + pieces[0].text + Filled(pieces[1..], values) == lit + (pieces[0].text + Filled(pieces[1..], values));
    } else {
      FreeTail(pieces, lit, values);
      ReplaceMerge(pieces[1..], "", values);
      ReplaceTwo(lit, pieces[0].text, Merge(pieces[1..], ""), values);
    }
  }

  lemma ReplaceLast(lit: string, values: map<string, string>)
    requires LiteralsFree([lit], values)
    ensures Join(ReplaceAll([lit], values)) == lit
  {
    assert [lit][0] == lit && [lit][1..] == [] && ReplaceAll([lit], values)[1..] == [];
  }

  lemma FreeTail(pieces: seq<Piece>, lit: string, values: map<string, string>)
    requires pieces != [] && pieces[0].Slot? && LiteralsFree(Merge(pieces, lit), values)
    ensures lit !in values && LiteralsFree(Merge(pieces[1..], ""), values)
  {
    var parts, more := Merge(pieces, lit), Merge(pieces[1..], "");
    assert parts[0] == lit && forall i :: 0 <= i < |more| ==> more[i] == parts[i + 2];
  }

  lemma ReplaceTwo(lit: string, tok: string, more: seq<string>, values: map<string, string>)
    requires lit !in values
    ensures Join(ReplaceAll([lit, tok] + more, values))
            == lit + ((if tok in values then values[tok] else tok) + Join(ReplaceAll(more, values)))
  {
    var parts := [lit, tok] + more;
    assert parts[1..] == [tok] + more && ([tok] + more)[1..] == more;
    var done := ReplaceAll(parts, values);
    assert done[1..] == ReplaceAll([tok] + more, values) && done[1..][1..] == ReplaceAll(more, values);
  }

  /** Splitting on sentinels and overwriting the slots fills exactly the slots. */
  lemma FillIsExact(pieces: seq<Piece>, toks: seq<string>, values: seq<(string, string)>)
    requires NonEmpty(toks) && SlotsAmong(pieces, toks)
    requires forall t :: t in toks ==> Slot(t) in pieces && AtMostOnce(Render(pieces), t)
    requires forall v :: v in values ==> v.0 in toks
    ensures var parts := Parts(Render(pieces), toks, "");
            Join(Overwritten(parts, SlotsOf(parts, toks), values)) == Filled(pieces, ValueMap(values))
  {
    hide Parts, Overwritten, SlotsOf, AtMostOnce, OnlySlots, Distinct, Render, LiteralsFree;
    var parts := Parts(Render(pieces), toks, "");
    OnceIsOnlySlots(pieces, toks);
    PartsOfPieces(pieces, toks, "");
    PartsJoin(Render(pieces), toks, "");
    assert "" + Render(pieces) == Render(pieces);
    OnceIsDistinct(parts, toks);
    MergeNotEmpty(pieces, "");
    OverwrittenIsReplaceAll(parts, toks, values);
    ValueMapKeys(values, toks);
    DistinctIsFree(pieces, toks, ValueMap(values));
    ReplaceMerge(pieces, "", ValueMap(values));
  }

  lemma {:induction false} MergeNotEmpty(pieces: seq<Piece>, lit: string)
    ensures Merge(pieces, lit) != []
    decreases |pieces|
  {
    if pieces != [] && pieces[0].Lit? { MergeNotEmpty(pieces[1..], lit + pieces[0].text); }
  }

  lemma {:induction false} ValueMapKeys(values: seq<(string, string)>, toks: seq<string>)
    requires forall v :: v in values ==> v.0 in toks
    ensures forall t :: t in ValueMap(values) ==> t in toks
  {
    if values != [] {
      assert values[|values| - 1] in values;
      ValueMapKeys(values[..|values| - 1], toks);
    }
  }

  // ---------------------------------------------------------------- the statement behind the text

  /** The text of a value with the sentinels among its strings and integers as slots. */
  function PiecesOf(x: Json, toks: seq<string>): seq<Piece>
    requires Accepted(x)
  {
    match x
    case Int(n) => if Decimal(n) in toks then [Slot(Decimal(n))] else [Lit(Decimal(n))]
    case Str(s) => if s in toks then [Lit(QUOTE), Slot(s), Lit(QUOTE)] else [Lit(Quoted(s))]
    case Array(items) =>
      assert AcceptedItems(items);
      if items.NoItems? then [Lit("[]")] else [Lit("[")] + PiecesOf(items.head, toks) + MorePieces(items.tail, toks)
    case Object(members) =>
      assert AcceptedMembers(members);
      if members.NoMembers? then [Lit("{}")]
      else [Lit("{" + Quoted(members.key.text) + ":")] + PiecesOf(members.value, toks) + MoreMemberPieces(members.tail, toks)
    case _ => [Lit(Text(x))]
  }

  function MorePieces(items: Items, toks: seq<string>): seq<Piece>
    requires AcceptedItems(items)
  {
    if items.NoItems? then [Lit("]")] else [Lit(",")] + PiecesOf(items.head, toks) + MorePieces(items.tail, toks)
  }

  function MoreMemberPieces(m: Members, toks: seq<string>): seq<Piece>
    requires AcceptedMembers(m)
  {
    if m.NoMembers? then [Lit("}")]
    else [Lit("," + Quoted(m.key.text) + ":")] + PiecesOf(m.value, toks) + MoreMemberPieces(m.tail, toks)
  }

  /** The statement with the real values in the places of the sentinels. */
  function WithValues(x: Json, holes: map<string, Json>): Json {
    match x
    case Int(n) => if Decimal(n) in holes then holes[Decimal(n)] else x
    case Str(s) => if s in holes then holes[s] else x
    case Array(items) => Array(ItemsWithValues(items, holes))
    case Object(members) => Object(MembersWithValues(members, holes))
    case _ => x
  }

  function ItemsWithValues(items: Items, holes: map<string, Json>): Items {
    if items.NoItems? then NoItems else Item(WithValues(items.head, holes), ItemsWithValues(items.tail, holes))
  }

  function MembersWithValues(m: Members, holes: map<string, Json>): Members {
    if m.NoMembers? then NoMembers else Member(m.key, WithValues(m.value, holes), MembersWithValues(m.tail, holes))
  }

  /** Text that JSON prints as it is. */
  predicate Plain(s: string) {
    Escape(s) == s
  }

  /** A string sentinel is filled with a plain string, an integer one with a safe integer. */
  predicate Fits(x: Json, holes: map<string, Json>) {
    match x
    case Int(n) => Decimal(n) in holes ==> holes[Decimal(n)].Int? && Accepted(holes[Decimal(n)])
    case Str(s) => s in holes ==> holes[s].Str? && Plain(s) && Plain(holes[s].s)
    case Array(items) => FitsItems(items, holes)
    case Object(members) => FitsMembers(members, holes)
    case _ => true
  }

  predicate FitsItems(items: Items, holes: map<string, Json>) {
    items.NoItems? || (Fits(items.head, holes) && FitsItems(items.tail, holes))
  }

  predicate FitsMembers(m: Members, holes: map<string, Json>) {
    m.NoMembers? || (Fits(m.value, holes) && FitsMembers(m.tail, holes))
  }

  function SlotText(x: Json): string {
    if x.Int? then Decimal(x.n) else if x.Str? then x.s else ""
  }

  function SlotTexts(holes: map<string, Json>): map<string, string> {
    map t | t in holes :: SlotText(holes[t])
  }

  lemma {:induction false} RenderAppend(a: seq<Piece>, b: seq<Piece>)
    ensures Render(a + b) == Render(a) + Render(b)
  {
    if a == [] {
      assert a + b == b;
    } else {
      assert (a + b)[1..] == a[1..] + b;
      RenderAppend(a[1..], b);
    }
  }

  lemma {:induction false} FilledAppend(a: seq<Piece>, b: seq<Piece>, values: map<string, string>)
    ensures Filled(a + b, values) == Filled(a, values) + Filled(b, values)
  {
    if a == [] {
      assert a + b == b;
    } else {
      assert (a + b)[1..] == a[1..] + b;
      FilledAppend(a[1..], b, values);
    }
  }

  lemma RenderThree(lit: string, a: seq<Piece>, b: seq<Piece>)
    ensures Render([Lit(lit)] + a + b) == lit + Render(a) + Render(b)
  {
    assert [Lit(lit)] + a + b == [Lit(lit)] + (a + b) && ([Lit(lit)] + (a + b))[1..] == a + b;
    RenderAppend(a, b);
    assert lit + (Render(a) + Render(b)) == lit + Render(a) + Render(b);
  }

  /** A literal, a value, and the rest. */
  lemma ThreeAppend(lit: string, a: seq<Piece>, b: seq<Piece>, values: map<string, string>)
    ensures Render([Lit(lit)] + a + b) == lit + Render(a) + Render(b)
    ensures Filled([Lit(lit)] + a + b, values) == lit + Filled(a, values) + Filled(b, values)
  {
    hide Render;
    RenderThree(lit, a, b);
    assert [Lit(lit)] + a + b == [Lit(lit)] + (a + b) && ([Lit(lit)] + (a + b))[1..] == a + b;
    FilledAppend(a, b, values);
    assert lit + (Filled(a, values) + Filled(b, values)) == lit + Filled(a, values) + Filled(b, values);
  }

  /** Its pieces render to the text of the statement, and filled to the text of the filled statement. */
  lemma {:induction false} PiecesAreText(x: Json, toks: seq<string>, holes: map<string, Json>)
    requires Accepted(x) && Fits(x, holes) && forall t :: t in toks <==> t in holes
    ensures Render(PiecesOf(x, toks)) == Text(x)
    ensures Accepted(WithValues(x, holes)) && Filled(PiecesOf(x, toks), SlotTexts(holes)) == Text(WithValues(x, holes))
    decreases x
  {
    hide Decimal, Quoted, MoreItems, MoreMembers, MorePieces, MoreMemberPieces, Escape;
    match x
    case Str(s) => StrPieces(s, toks, holes);
    case Array(items) =>
      if items.Item? {
        PiecesAreText(items.head, toks, holes);
        MorePiecesAreText(items.tail, toks, holes);
        ThreeAppend("[", PiecesOf(items.head, toks), MorePieces(items.tail, toks), SlotTexts(holes));
      }
    case Object(members) =>
      if members.Member? {
        PiecesAreText(members.value, toks, holes);
        MoreMemberPiecesAreText(members.tail, toks, holes);
        ThreeAppend("{" + Quoted(members.key.text) + ":", PiecesOf(members.value, toks),
            MoreMemberPieces(members.tail, toks), SlotTexts(holes));
      }
    case _ =>
  }

  lemma StrPieces(s: string, toks: seq<string>, holes: map<string, Json>)
    requires Fits(Str(s), holes) && forall t :: t in toks <==> t in holes
    ensures Render(PiecesOf(Str(s), toks)) == Text(Str(s))
    ensures Filled(PiecesOf(Str(s), toks), SlotTexts(holes)) == Text(WithValues(Str(s), holes))
  {
    hide Escape;
    var a, b := [Slot(s)], [Lit(QUOTE)];
    assert a[1..] == [] && b[1..] == [];
    if s in toks {
      ThreeAppend(QUOTE, a, b, SlotTexts(holes));
      assert [Lit(QUOTE)] + a + b == PiecesOf(Str(s), toks);
    } else {
      assert PiecesOf(Str(s), toks)[1..] == [];
    }
  }

  lemma {:induction false} MorePiecesAreText(items: Items, toks: seq<string>, holes: map<string, Json>)
    requires AcceptedItems(items) && FitsItems(items, holes) && forall t :: t in toks <==> t in holes
    ensures Render(MorePieces(items, toks)) == MoreItems(items)
    ensures AcceptedItems(ItemsWithValues(items, holes))
    ensures Filled(MorePieces(items, toks), SlotTexts(holes)) == MoreItems(ItemsWithValues(items, holes))
    decreases items
  {
    hide PiecesOf, Text, Quoted, Decimal;
    if items.Item? {
      PiecesAreText(items.head, toks, holes);
      MorePiecesAreText(items.tail, toks, holes);
      ThreeAppend(",", PiecesOf(items.head, toks), MorePieces(items.tail, toks), SlotTexts(holes));
    }
  }

  lemma {:induction false} MoreMemberPiecesAreText(m: Members, toks: seq<string>, holes: map<string, Json>)
    requires AcceptedMembers(m) && FitsMembers(m, holes) && forall t :: t in toks <==> t in holes
    ensures Render(MoreMemberPieces(m, toks)) == MoreMembers(m)
    ensures AcceptedMembers(MembersWithValues(m, holes))
    ensures Filled(MoreMemberPieces(m, toks), SlotTexts(holes)) == MoreMembers(MembersWithValues(m, holes))
    decreases m
  {
    hide PiecesOf, Text, Quoted, Decimal;
    if m.Member? {
      PiecesAreText(m.value, toks, holes);
      MoreMemberPiecesAreText(m.tail, toks, holes);
      ThreeAppend("," + Quoted(m.key.text) + ":", PiecesOf(m.value, toks), MoreMemberPieces(m.tail, toks), SlotTexts(holes));
    }
  }

  lemma {:induction false} InsertWithValues(key: Key, value: Json, m: Members, holes: map<string, Json>)
    ensures MembersWithValues(Insert(key, value, m), holes) == Insert(key, WithValues(value, holes), MembersWithValues(m, holes))
  {
    hide WithValues;
    if m.Member? && !Less(key.text, m.key.text) { InsertWithValues(key, value, m.tail, holes); }
  }

  /** Filling and sorting commute: keys are not filled. */
  lemma {:induction false} SortWithValues(x: Json, holes: map<string, Json>)
    requires Fits(x, holes)
    ensures SortKeys(WithValues(x, holes)) == WithValues(SortKeys(x), holes) && Fits(SortKeys(x), holes)
    decreases x
  {
    match x
    case Array(items) => SortItemsWithValues(items, holes);
    case Object(members) => SortMembersWithValues(members, holes);
    case _ =>
  }

  lemma {:induction false} SortItemsWithValues(items: Items, holes: map<string, Json>)
    requires FitsItems(items, holes)
    ensures SortItems(ItemsWithValues(items, holes)) == ItemsWithValues(SortItems(items),
        holes) && FitsItems(SortItems(items), holes)
    decreases items
  {
    hide WithValues, SortKeys, Fits;
    if items.Item? {
      SortWithValues(items.head, holes);
      SortItemsWithValues(items.tail, holes);
    }
  }

  lemma {:induction false} SortMembersWithValues(m: Members, holes: map<string, Json>)
    requires FitsMembers(m, holes)
    ensures SortMembers(MembersWithValues(m, holes)) == MembersWithValues(SortMembers(m),
        holes) && FitsMembers(SortMembers(m), holes)
    decreases m
  {
    hide WithValues, SortKeys, Fits;
    if m.Member? {
      SortWithValues(m.value, holes);
      SortMembersWithValues(m.tail, holes);
      InsertWithValues(m.key, SortKeys(m.value), SortMembers(m.tail), holes);
      InsertFits(m.key, SortKeys(m.value), SortMembers(m.tail), holes);
    }
  }

  lemma {:induction false} InsertFits(key: Key, value: Json, m: Members, holes: map<string, Json>)
    requires Fits(value, holes) && FitsMembers(m, holes)
    ensures FitsMembers(Insert(key, value, m), holes)
  {
    hide Fits;
    if m.Member? && !Less(key.text, m.key.text) { InsertFits(key, value, m.tail, holes); }
  }

  lemma {:induction false} MembersKeysKept(m: Members, holes: map<string, Json>)
    ensures Keys(MembersWithValues(m, holes)) == Keys(m)
  {
    hide WithValues;
    if m.Member? { MembersKeysKept(m.tail, holes); }
  }

  lemma {:induction false} WithValuesWellFormed(x: Json, holes: map<string, Json>)
    requires WellFormed(x) && Fits(x, holes)
    ensures WellFormed(WithValues(x, holes))
    decreases x
  {
    match x
    case Array(items) => ItemsWellFormed(items, holes);
    case Object(members) => MembersWellFormed(members, holes);
    case _ =>
  }

  lemma {:induction false} ItemsWellFormed(items: Items, holes: map<string, Json>)
    requires WellFormedItems(items) && FitsItems(items, holes)
    ensures WellFormedItems(ItemsWithValues(items, holes))
    decreases items
  {
    if items.Item? {
      WithValuesWellFormed(items.head, holes);
      ItemsWellFormed(items.tail, holes);
    }
  }

  lemma {:induction false} MembersWellFormed(m: Members, holes: map<string, Json>)
    requires WellFormedMembers(m) && FitsMembers(m, holes)
    ensures WellFormedMembers(MembersWithValues(m, holes))
    decreases m
  {
    if m.Member? {
      WithValuesWellFormed(m.value, holes);
      MembersWellFormed(m.tail, holes);
      MembersKeysKept(m.tail, holes);
    }
  }

  lemma {:induction false} SlotsAreSentinels(x: Json, toks: seq<string>)
    requires Accepted(x)
    ensures SlotsAmong(PiecesOf(x, toks), toks)
    decreases x
  {
    match x
    case Array(items) =>
      if items.Item? {
        SlotsAreSentinels(items.head, toks);
        MoreSlotsAreSentinels(items.tail, toks);
      }
    case Object(members) =>
      if members.Member? {
        SlotsAreSentinels(members.value, toks);
        MoreMemberSlotsAreSentinels(members.tail, toks);
      }
    case _ =>
  }

  lemma {:induction false} MoreSlotsAreSentinels(items: Items, toks: seq<string>)
    requires AcceptedItems(items)
    ensures SlotsAmong(MorePieces(items, toks), toks)
    decreases items
  {
    if items.Item? {
      SlotsAreSentinels(items.head, toks);
      MoreSlotsAreSentinels(items.tail, toks);
    }
  }

  lemma {:induction false} MoreMemberSlotsAreSentinels(m: Members, toks: seq<string>)
    requires AcceptedMembers(m)
    ensures SlotsAmong(MoreMemberPieces(m, toks), toks)
    decreases m
  {
    if m.Member? {
      SlotsAreSentinels(m.value, toks);
      MoreMemberSlotsAreSentinels(m.tail, toks);
    }
  }

  /** Each sentinel is one of the strings or integers of the statement, and stands in its text once. */
  ghost predicate Sentinels(x: Json, toks: seq<string>)
    requires WellFormed(x) && Accepted(x)
  {
    SortKeysOrders(x);
    forall t :: t in toks ==> t != "" && Slot(t) in PiecesOf(SortKeys(x), toks) && AtMostOnce(Canon(x).value, t)
  }

  /**
    The prebuilt text with its slots overwritten is byte for byte the canonical text of the
    statement with those values in it.
   */
  lemma PrebuiltIsFresh(x: Json, toks: seq<string>, holes: map<string, Json>, values: seq<(string, string)>)
    requires WellFormed(x) && Accepted(x) && Fits(x, holes) && Sentinels(x, toks)
    requires forall t :: t in toks <==> t in holes
    requires ValueMap(values) == SlotTexts(holes) && forall v :: v in values ==> v.0 in toks
    ensures NonEmpty(toks) && WellFormed(WithValues(x, holes))
    ensures var parts := Parts(Canon(x).value, toks, "");
            Canon(WithValues(x, holes)) == Some(Join(Overwritten(parts, SlotsOf(parts, toks), values)))
  {
    hide Text, PiecesOf, WithValues, SortKeys, Fits, Parts, SlotsOf, Overwritten, ValueMap, Render, Filled, Accepted,
        Ordered, WellFormed, AtMostOnce, Join;
    SortKeysOrders(x);
    WithValuesWellFormed(x, holes);
    SortWithValues(x, holes);
    PiecesAreText(x, toks, holes);
    PiecesAreText(SortKeys(x), toks, holes);
    SlotsAreSentinels(SortKeys(x), toks);
    FillIsExact(PiecesOf(SortKeys(x), toks), toks, values);
  }
}
