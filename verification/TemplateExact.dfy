/**
  Exactly when the prebuilt datagram is the fresh one. The overwrite of a slot reaches only the
  last place of a sentinel, so the filled text is the text of the statement in which every
  earlier place keeps its sentinel; and texts of different statements differ.
 */
module TemplateExact {
  import opened Hashing
  import opened JsonValues
  import opened Canonical
  import opened CanonicalText
  import opened Template

  // ---------------------------------------------------------------- what the overwrite does to the parts

  lemma {:induction false} SlotIsLast(parts: seq<string>, toks: seq<string>, tok: string)
    requires tok in SlotsOf(parts, toks)
    ensures SlotsOf(parts, toks)[tok] < |parts| && parts[SlotsOf(parts, toks)[tok]] == tok
    ensures tok !in parts[SlotsOf(parts, toks)[tok] + 1..]
    decreases |parts|
  {
    var n := |parts| - 1;
    var before, last := SlotsOf(parts[..n], toks), parts[n];
    if tok != last {
      SlotIsLast(parts[..n], toks, tok);
      var i := before[tok];
      assert parts[i + 1..] == parts[..n][i + 1..] + [last];
    } else {
      SlotsOfFinds(parts, toks, tok);
      assert parts[n + 1..] == [];
    }
  }

  /** The part after an overwrite: changed only in its last place. */
  function AtLast(parts: seq<string>, values: map<string, string>, i: nat): string
    requires i < |parts|
  {
    if parts[i] in values && parts[i] !in parts[i + 1..] then values[parts[i]] else parts[i]
  }

  lemma SlotHere(parts: seq<string>, toks: seq<string>, tok: string, i: nat)
    requires i < |parts| && parts[i] == tok && tok in toks
    ensures tok in SlotsOf(parts, toks)
    ensures SlotsOf(parts, toks)[tok] == i <==> tok !in parts[i + 1..]
  {
    SlotsOfFinds(parts, toks, tok);
    SlotIsLast(parts, toks, tok);
    var j := SlotsOf(parts, toks)[tok];
    if j > i { LaterIn(parts, i, j); }
  }

  lemma LaterIn(parts: seq<string>, i: nat, j: nat)
    requires i < j < |parts|
    ensures parts[j] in parts[i + 1..]
  {
    assert parts[i + 1..][j - i - 1] == parts[j];
  }

  lemma {:induction false} OverwrittenAtLast(parts: seq<string>, toks: seq<string>, values: seq<(string, string)>, i: nat)
    requires i < |parts| && forall v :: v in values ==> v.0 in toks
    ensures |Overwritten(parts, SlotsOf(parts, toks), values)| == |parts|
    ensures Overwritten(parts, SlotsOf(parts, toks), values)[i] == AtLast(parts, ValueMap(values), i)
    decreases |values|
  {
    hide SlotsOf;
    OverwrittenLength(parts, SlotsOf(parts, toks), values);
    if values != [] {
      var before, last := values[..|values| - 1], values[|values| - 1];
      assert last in values;
      OverwrittenAtLast(parts, toks, before, i);
      if parts[i] == last.0 { SlotHere(parts, toks, last.0, i); }
      SlotsOfFinds(parts, toks, last.0);
    }
  }

  function LastReplaced(parts: seq<string>, values: map<string, string>): seq<string> {
    if parts == [] then []
    else [if parts[0] in values && parts[0] !in parts[1..] then values[parts[0]] else parts[0]] + LastReplaced(parts[1..], values)
  }

  lemma {:induction false} LastReplacedAt(parts: seq<string>, values: map<string, string>, i: nat)
    requires i < |parts|
    ensures |LastReplaced(parts, values)| == |parts| && LastReplaced(parts, values)[i] == AtLast(parts, values, i)
    decreases |parts|
  {
    if i > 0 {
      LastReplacedAt(parts[1..], values, i - 1);
      assert parts[1..][i..] == parts[i + 1..];
    } else if |parts| > 1 {
      LastReplacedAt(parts[1..], values, 0);
    }
  }

  lemma OverwrittenIsLastReplaced(parts: seq<string>, toks: seq<string>, values: seq<(string, string)>)
    requires parts != [] && forall v :: v in values ==> v.0 in toks
    ensures Overwritten(parts, SlotsOf(parts, toks), values) == LastReplaced(parts, ValueMap(values))
  {
    hide Overwritten, LastReplaced, SlotsOf, ValueMap, AtLast;
    OverwrittenAtLast(parts, toks, values, 0);
    LastReplacedAt(parts, ValueMap(values), 0);
    forall i | 0 <= i < |parts|
      ensures Overwritten(parts, SlotsOf(parts, toks), values)[i] == LastReplaced(parts, ValueMap(values))[i]
    {
      OverwrittenAtLast(parts, toks, values, i);
      LastReplacedAt(parts, ValueMap(values), i);
    }
  }

  // ---------------------------------------------------------------- the same, on pieces

  function SlotSet(pieces: seq<Piece>): set<string> {
    if pieces == [] then {}
    else (if pieces[0].Slot? then {pieces[0].text} else {}) + SlotSet(pieces[1..])
  }

  lemma {:induction false} SlotSetIs(pieces: seq<Piece>, tok: string)
    ensures tok in SlotSet(pieces) <==> Slot(tok) in pieces
  {
    if pieces != [] {
      SlotSetIs(pieces[1..], tok);
      assert pieces == [pieces[0]] + pieces[1..];
    }
  }

  /** The text with only the last place of each sentinel filled, and none of those that come again after it. */
  function FilledLast(pieces: seq<Piece>, values: map<string, string>, after: set<string>): string {
    if pieces == [] then ""
    else
      var first, rest := pieces[0], pieces[1..];
      var fills := first.Slot? && first.text in values && first.text !in after && first.text !in SlotSet(rest);
      (if fills then values[first.text] else first.text)
      + FilledLast(rest, values, after)
  }

  /** Literal text between slots is never itself a sentinel. */
  lemma {:induction false} OnlySlotsFree(pieces: seq<Piece>, lit: string, toks: seq<string>)
    requires NonEmpty(toks) && OnlySlots([Lit(lit)] + pieces, toks)
    ensures forall i :: 0 <= i < |Merge(pieces, lit)| && i % 2 == 0 ==> Merge(pieces, lit)[i] !in toks
    decreases |pieces|
  {
    hide OnlySlots;
    LitIsNotSentinel(pieces, lit, toks);
    if pieces == [] {
    } else if pieces[0].Lit? {
      JoinLits(pieces, lit, toks);
      OnlySlotsFree(pieces[1..], lit + pieces[0].text, toks);
    } else {
      EmptyLit(pieces, lit, toks);
      var more := Merge(pieces[1..], "");
      OnlySlotsFree(pieces[1..], "", toks);
      assert forall i :: 0 <= i < |more| ==> more[i] == Merge(pieces, lit)[i + 2];
    }
  }

  lemma LitIsNotSentinel(pieces: seq<Piece>, lit: string, toks: seq<string>)
    requires NonEmpty(toks) && OnlySlots([Lit(lit)] + pieces, toks)
    ensures lit !in toks
  {
    var all := [Lit(lit)] + pieces;
    assert all[1..] == pieces;
    if lit in toks {
      assert !SlotAt(all, lit, 0);
      assert OccursAt(Render(all), lit, 0);
    }
  }

  lemma JoinLits(pieces: seq<Piece>, lit: string, toks: seq<string>)
    requires pieces != [] && pieces[0].Lit? && OnlySlots([Lit(lit)] + pieces, toks) && NonEmpty(toks)
    ensures OnlySlots([Lit(lit + pieces[0].text)] + pieces[1..], toks)
  {
    var apart, joined := [Lit(lit)] + pieces, [Lit(lit + pieces[0].text)] + pieces[1..];
    assert apart[1..] == pieces && joined[1..] == pieces[1..];
    assert lit + (pieces[0].text + Render(pieces[1..])) == lit + pieces[0].text + Render(pieces[1..]);
    assert Render(apart) == Render(joined);
    forall t, i: nat | t in toks && OccursAt(Render(joined), t, i) ensures SlotAt(joined, t, i) {
      assert SlotAt(apart, t, i);
      assert SlotAt(pieces, t, i - |lit|);
      assert SlotAt(pieces[1..], t, i - |lit| - |pieces[0].text|);
    }
  }

  lemma EmptyLit(pieces: seq<Piece>, lit: string, toks: seq<string>)
    requires pieces != [] && pieces[0].Slot? && OnlySlots([Lit(lit)] + pieces, toks) && NonEmpty(toks)
    ensures OnlySlots([Lit("")] + pieces[1..], toks)
  {
    var all, rest := [Lit(lit)] + pieces, [Lit("")] + pieces[1..];
    assert all[1..] == pieces && rest[1..] == pieces[1..];
    OnlySlotsTail(all, toks);
    OnlySlotsTail(pieces, toks);
    assert Render(rest) == Render(pieces[1..]);
  }

  lemma {:induction false} MergeHolds(pieces: seq<Piece>, lit: string, tok: string)
    requires forall i :: 0 <= i < |Merge(pieces, lit)| && i % 2 == 0 ==> Merge(pieces, lit)[i] != tok
    ensures tok in Merge(pieces, lit) <==> tok in SlotSet(pieces)
    decreases |pieces|
  {
    if pieces == [] {
      assert Merge(pieces, lit)[0] != tok;
    } else if pieces[0].Lit? {
      assert Merge(pieces, lit) == Merge(pieces[1..], lit + pieces[0].text);
      MergeHolds(pieces[1..], lit + pieces[0].text, tok);
    } else {
      var all, more := Merge(pieces, lit), Merge(pieces[1..], "");
      assert all[0] != tok && forall i :: 0 <= i < |more| ==> more[i] == all[i + 2];
      MergeHolds(pieces[1..], "", tok);
      assert all == [lit, pieces[0].text] + more;
    }
  }

  lemma LastTwo(lit: string, tok: string, more: seq<string>, values: map<string, string>)
    requires lit !in values
    ensures Join(LastReplaced([lit, tok] + more, values))
            == lit + ((if tok in values && tok !in more then values[tok] else tok) + Join(LastReplaced(more, values)))
  {
    var parts := [lit, tok] + more;
    assert parts[1..] == [tok] + more && ([tok] + more)[1..] == more;
    var done := LastReplaced(parts, values);
    assert done[1..] == LastReplaced([tok] + more, values) && done[1..][1..] == LastReplaced(more, values);
  }

  lemma {:induction false} LastMerge(pieces: seq<Piece>, lit: string, values: map<string, string>)
    requires LiteralsFree(Merge(pieces, lit), values)
    ensures Join(LastReplaced(Merge(pieces, lit), values)) == lit + FilledLast(pieces, values, {})
    decreases |pieces|
  {
    hide LiteralsFree;
    if pieces == [] {
      LastOne(lit, values);
    } else if pieces[0].Lit? {
      LastMerge(pieces[1..], lit + pieces[0].text, values);
      assert lit + pieces[0].text + FilledLast(pieces[1..], values,
          {}) == lit + (pieces[0].text + FilledLast(pieces[1..], values, {}));
    } else {
      var tok, more := pieces[0].text, Merge(pieces[1..], "");
      FreeTail(pieces, lit, values);
      LastMerge(pieces[1..], "", values);
      LastTwo(lit, tok, more, values);
      if tok in values { FreeHolds(pieces[1..], tok, values); }
    }
  }

  lemma LastOne(lit: string, values: map<string, string>)
    requires LiteralsFree([lit], values)
    ensures Join(LastReplaced([lit], values)) == lit
  {
    assert [lit][0] == lit && [lit][1..] == [] && LastReplaced([lit], values)[1..] == [];
  }

  lemma FreeHolds(pieces: seq<Piece>, tok: string, values: map<string, string>)
    requires LiteralsFree(Merge(pieces, ""), values) && tok in values
    ensures tok in Merge(pieces, "") <==> tok in SlotSet(pieces)
  {
    MergeHolds(pieces, "", tok);
  }

  /** When sentinels stand only as slots, the overwrite fills exactly their last places. */
  lemma OverwriteFillsLast(pieces: seq<Piece>, toks: seq<string>, values: seq<(string, string)>)
    requires NonEmpty(toks) && SlotsAmong(pieces, toks) && OnlySlots(pieces, toks)
    requires forall v :: v in values ==> v.0 in toks
    ensures var parts := Parts(Render(pieces), toks, "");
            && Join(Overwritten(parts, SlotsOf(parts, toks), values)) == FilledLast(pieces, ValueMap(values), {})
            && forall t :: t in toks ==> (t in SlotsOf(parts, toks) <==> Slot(t) in pieces)
  {
    hide Parts, Overwritten, SlotsOf, OnlySlots, Render, FilledLast, LastReplaced, ValueMap;
    var parts := Parts(Render(pieces), toks, "");
    PartsOfPieces(pieces, toks, "");
    MergeNotEmpty(pieces, "");
    OverwrittenIsLastReplaced(parts, toks, values);
    ValueMapKeys(values, toks);
    WithEmptyLit(pieces, toks);
    OnlySlotsFree(pieces, "", toks);
    LastMerge(pieces, "", ValueMap(values));
    forall t | t in toks ensures t in SlotsOf(parts, toks) <==> Slot(t) in pieces {
      SlotsOfFinds(parts, toks, t);
      MergeHolds(pieces, "", t);
      SlotSetIs(pieces, t);
    }
  }

  lemma WithEmptyLit(pieces: seq<Piece>, toks: seq<string>)
    requires OnlySlots(pieces, toks)
    ensures OnlySlots([Lit("")] + pieces, toks)
  {
    var all := [Lit("")] + pieces;
    assert all[1..] == pieces && Render(all) == Render(pieces);
    forall t, i | t in toks && OccursAt(Render(all), t, i) ensures SlotAt(all, t, i) {
      assert SlotAt(pieces, t, i);
    }
  }

  // ---------------------------------------------------------------- the statement behind the filled text

  lemma {:induction false} SlotSetAppend(a: seq<Piece>, b: seq<Piece>)
    ensures SlotSet(a + b) == SlotSet(a) + SlotSet(b)
  {
    if a == [] {
      assert a + b == b;
    } else {
      assert (a + b)[1..] == a[1..] + b;
      SlotSetAppend(a[1..], b);
    }
  }

  lemma {:induction false} FilledLastAppend(a: seq<Piece>, b: seq<Piece>, values: map<string, string>, after: set<string>)
    ensures FilledLast(a + b, values, after) == FilledLast(a, values, after + SlotSet(b)) + FilledLast(b, values, after)
  {
    if a == [] {
      assert a + b == b;
    } else {
      assert (a + b)[1..] == a[1..] + b;
      SlotSetAppend(a[1..], b);
      FilledLastAppend(a[1..], b, values, after);
    }
  }

  lemma LitValueRest(lit: string, a: seq<Piece>, b: seq<Piece>, values: map<string, string>, after: set<string>)
    ensures FilledLast([Lit(lit)] + a + b, values, after)
            == lit + FilledLast(a, values, after + SlotSet(b)) + FilledLast(b, values, after)
    ensures SlotSet([Lit(lit)] + a + b) == SlotSet(a) + SlotSet(b)
  {
    assert [Lit(lit)] + a + b == [Lit(lit)] + (a + b) && ([Lit(lit)] + (a + b))[1..] == a + b;
    FilledLastAppend(a, b, values, after);
    SlotSetAppend(a, b);
    assert lit + (FilledLast(a, values, after + SlotSet(b)) + FilledLast(b, values, after))
        == lit + FilledLast(a, values, after + SlotSet(b)) + FilledLast(b, values, after);
  }

  /** The statement with values only where no sentinel of the same text comes later; `after` comes later still. */
  function LastValues(x: Json, toks: seq<string>, holes: map<string, Json>, after: set<string>): Json
    requires Accepted(x)
  {
    match x
    case Int(n) => if Decimal(n) in holes && Decimal(n) !in after then holes[Decimal(n)] else x
    case Str(s) => if s in holes && s !in after then holes[s] else x
    case Array(items) => Array(LastItems(items, toks, holes, after))
    case Object(members) => Object(LastMembers(members, toks, holes, after))
    case _ => x
  }

  function LastItems(items: Items, toks: seq<string>, holes: map<string, Json>, after: set<string>): Items
    requires AcceptedItems(items)
  {
    if items.NoItems? then NoItems
    else Item(LastValues(items.head, toks, holes, after + SlotSet(MorePieces(items.tail, toks))),
        LastItems(items.tail, toks, holes, after))
  }

  function LastMembers(m: Members, toks: seq<string>, holes: map<string, Json>, after: set<string>): Members
    requires AcceptedMembers(m)
  {
    if m.NoMembers? then NoMembers
    else
      Member(m.key, LastValues(m.value, toks, holes, after + SlotSet(MoreMemberPieces(m.tail, toks))),
             LastMembers(m.tail, toks, holes, after))
  }

  /** Filling the last places gives the text of that statement. */
  lemma {:induction false} LastIsText(x: Json, toks: seq<string>, holes: map<string, Json>, after: set<string>)
    requires Accepted(x) && Fits(x, holes) && forall t :: t in toks <==> t in holes
    ensures Accepted(LastValues(x, toks, holes, after))
    ensures FilledLast(PiecesOf(x, toks), SlotTexts(holes), after) == Text(LastValues(x, toks, holes, after))
    decreases x
  {
    hide Decimal, Quoted, MoreItems, MoreMembers, MorePieces, MoreMemberPieces, Escape;
    match x
    case Str(s) => LastStr(s, toks, holes, after);
    case Array(items) =>
      if items.Item? {
        var more := MorePieces(items.tail, toks);
        LastIsText(items.head, toks, holes, after + SlotSet(more));
        MoreLastIsText(items.tail, toks, holes, after);
        LitValueRest("[", PiecesOf(items.head, toks), more, SlotTexts(holes), after);
      }
    case Object(members) =>
      if members.Member? {
        var more := MoreMemberPieces(members.tail, toks);
        LastIsText(members.value, toks, holes, after + SlotSet(more));
        MoreMembersLastIsText(members.tail, toks, holes, after);
        LitValueRest("{" + Quoted(members.key.text) + ":", PiecesOf(members.value, toks), more, SlotTexts(holes), after);
      }
    case _ =>
  }

  lemma LastStr(s: string, toks: seq<string>, holes: map<string, Json>, after: set<string>)
    requires Fits(Str(s), holes) && forall t :: t in toks <==> t in holes
    ensures FilledLast(PiecesOf(Str(s), toks), SlotTexts(holes), after) == Text(LastValues(Str(s), toks, holes, after))
  {
    hide Escape;
    var a, b := [Slot(s)], [Lit(QUOTE)];
    assert a[1..] == [] && b[1..] == [] && SlotSet(b) == {} && after + {} == after;
    if s in toks {
      LitValueRest(QUOTE, a, b, SlotTexts(holes), after);
      assert [Lit(QUOTE)] + a + b == PiecesOf(Str(s), toks);
    } else {
      assert PiecesOf(Str(s), toks)[1..] == [];
    }
  }

  lemma {:induction false} MoreLastIsText(items: Items, toks: seq<string>, holes: map<string, Json>, after: set<string>)
    requires AcceptedItems(items) && FitsItems(items, holes) && forall t :: t in toks <==> t in holes
    ensures AcceptedItems(LastItems(items, toks, holes, after))
    ensures FilledLast(MorePieces(items, toks), SlotTexts(holes), after) == MoreItems(LastItems(items, toks, holes, after))
    decreases items
  {
    hide PiecesOf, Text, Quoted, Decimal, LastValues;
    if items.Item? {
      var more := MorePieces(items.tail, toks);
      LastIsText(items.head, toks, holes, after + SlotSet(more));
      MoreLastIsText(items.tail, toks, holes, after);
      LitValueRest(",", PiecesOf(items.head, toks), more, SlotTexts(holes), after);
    }
  }

  lemma {:induction false} MoreMembersLastIsText(m: Members, toks: seq<string>, holes: map<string, Json>, after: set<string>)
    requires AcceptedMembers(m) && FitsMembers(m, holes) && forall t :: t in toks <==> t in holes
    ensures AcceptedMembers(LastMembers(m, toks, holes, after))
    ensures FilledLast(MoreMemberPieces(m, toks), SlotTexts(holes), after) == MoreMembers(LastMembers(m, toks, holes, after))
    decreases m
  {
    hide PiecesOf, Text, Quoted, Decimal, LastValues;
    if m.Member? {
      var more := MoreMemberPieces(m.tail, toks);
      LastIsText(m.value, toks, holes, after + SlotSet(more));
      MoreMembersLastIsText(m.tail, toks, holes, after);
      LitValueRest("," + Quoted(m.key.text) + ":", PiecesOf(m.value, toks), more, SlotTexts(holes), after);
    }
  }

  // ---------------------------------------------------------------- all places filled

  /** No slot comes again, in the pieces or after them. */
  predicate Unrepeated(pieces: seq<Piece>, after: set<string>) {
    pieces == []
    || ((pieces[0].Slot? ==> pieces[0].text !in after && pieces[0].text !in SlotSet(pieces[1..])) && Unrepeated(pieces[1..], after))
  }

  lemma {:induction false} UnrepeatedAppend(a: seq<Piece>, b: seq<Piece>, after: set<string>)
    requires Unrepeated(a, after + SlotSet(b)) && Unrepeated(b, after)
    ensures Unrepeated(a + b, after)
  {
    if a == [] {
      assert a + b == b;
    } else {
      assert (a + b)[1..] == a[1..] + b;
      SlotSetAppend(a[1..], b);
      UnrepeatedAppend(a[1..], b, after);
    }
  }

  lemma LitValueUnrepeated(lit: string, a: seq<Piece>, b: seq<Piece>, after: set<string>)
    requires Unrepeated(a, after + SlotSet(b)) && Unrepeated(b, after)
    ensures Unrepeated([Lit(lit)] + a + b, after)
  {
    assert [Lit(lit)] + a + b == [Lit(lit)] + (a + b) && ([Lit(lit)] + (a + b))[1..] == a + b;
    UnrepeatedAppend(a, b, after);
  }

  /** A filled value never reads like its sentinel. */
  predicate Differs(holes: map<string, Json>) {
    forall t :: t in holes ==> SlotText(holes[t]) != t
  }

  /** If filling the last places already fills all of them, no sentinel comes twice. */
  lemma {:induction false} AllFilledOnce(x: Json, toks: seq<string>, holes: map<string, Json>, after: set<string>)
    requires Accepted(x) && Differs(holes) && forall t :: t in toks <==> t in holes
    requires LastValues(x, toks, holes, after) == WithValues(x, holes)
    ensures Unrepeated(PiecesOf(x, toks), after)
    decreases x
  {
    hide Decimal, Quoted, MorePieces, MoreMemberPieces;
    match x
    case Int(n) => OneUnrepeated(PiecesOf(x, toks), after);
    case Str(s) => StrUnrepeated(s, toks, after);
    case Array(items) =>
      if items.Item? {
        var more := MorePieces(items.tail, toks);
        AllFilledOnce(items.head, toks, holes, after + SlotSet(more));
        MoreFilledOnce(items.tail, toks, holes, after);
        LitValueUnrepeated("[", PiecesOf(items.head, toks), more, after);
      } else {
        OneUnrepeated(PiecesOf(x, toks), after);
      }
    case Object(members) =>
      if members.Member? {
        var more := MoreMemberPieces(members.tail, toks);
        AllFilledOnce(members.value, toks, holes, after + SlotSet(more));
        MoreMembersFilledOnce(members.tail, toks, holes, after);
        LitValueUnrepeated("{" + Quoted(members.key.text) + ":", PiecesOf(members.value, toks), more, after);
      } else {
        OneUnrepeated(PiecesOf(x, toks), after);
      }
    case Null => OneUnrepeated([Lit("null")], after);
    case Bool(b) => OneUnrepeated([Lit(if b then "true" else "false")], after);
    case _ =>
  }

  lemma OneUnrepeated(pieces: seq<Piece>, after: set<string>)
    requires |pieces| == 1 && (pieces[0].Slot? ==> pieces[0].text !in after)
    ensures Unrepeated(pieces, after)
  {
  }

  lemma StrUnrepeated(s: string, toks: seq<string>, after: set<string>)
    requires s in toks ==> s !in after
    ensures Unrepeated(PiecesOf(Str(s), toks), after)
  {
    hide Quoted;
    var a, b := [Slot(s)], [Lit(QUOTE)];
    assert a[1..] == [] && b[1..] == [] && SlotSet(b) == {} && after + {} == after;
    if s in toks {
      LitValueUnrepeated(QUOTE, a, b, after);
      assert [Lit(QUOTE)] + a + b == PiecesOf(Str(s), toks);
    } else {
      OneUnrepeated(PiecesOf(Str(s), toks), after);
    }
  }

  lemma {:induction false} MoreFilledOnce(items: Items, toks: seq<string>, holes: map<string, Json>, after: set<string>)
    requires AcceptedItems(items) && Differs(holes) && forall t :: t in toks <==> t in holes
    requires LastItems(items, toks, holes, after) == ItemsWithValues(items, holes)
    ensures Unrepeated(MorePieces(items, toks), after)
    decreases items
  {
    hide PiecesOf, LastValues, WithValues;
    if items.Item? {
      var more := MorePieces(items.tail, toks);
      AllFilledOnce(items.head, toks, holes, after + SlotSet(more));
      MoreFilledOnce(items.tail, toks, holes, after);
      LitValueUnrepeated(",", PiecesOf(items.head, toks), more, after);
    } else {
      OneUnrepeated(MorePieces(items, toks), after);
    }
  }

  lemma {:induction false} MoreMembersFilledOnce(m: Members, toks: seq<string>, holes: map<string, Json>, after: set<string>)
    requires AcceptedMembers(m) && Differs(holes) && forall t :: t in toks <==> t in holes
    requires LastMembers(m, toks, holes, after) == MembersWithValues(m, holes)
    ensures Unrepeated(MoreMemberPieces(m, toks), after)
    decreases m
  {
    hide PiecesOf, LastValues, WithValues, Quoted;
    if m.Member? {
      var more := MoreMemberPieces(m.tail, toks);
      AllFilledOnce(m.value, toks, holes, after + SlotSet(more));
      MoreMembersFilledOnce(m.tail, toks, holes, after);
      LitValueUnrepeated("," + Quoted(m.key.text) + ":", PiecesOf(m.value, toks), more, after);
    } else {
      OneUnrepeated(MoreMemberPieces(m, toks), after);
    }
  }

  // ---------------------------------------------------------------- once in the text

  /** The sentinel stands exactly once in the text. */
  ghost predicate StandsOnce(text: string, tok: string) {
    (exists i :: OccursAt(text, tok, i)) && AtMostOnce(text, tok)
  }

  lemma {:induction false} TwoSlotsRepeat(pieces: seq<Piece>, tok: string, i: nat, j: nat)
    requires tok != "" && Unrepeated(pieces, {}) && SlotAt(pieces, tok, i) && SlotAt(pieces, tok, j)
    ensures i == j
    decreases |pieces|
  {
    var first, rest := pieces[0], pieces[1..];
    if first == Slot(tok) && i == 0 {
      if j > 0 { SlotAtIn(rest, tok, j - |first.text|); }
    } else if first == Slot(tok) && j == 0 {
      SlotAtIn(rest, tok, i - |first.text|);
    } else {
      TwoSlotsRepeat(rest, tok, i - |first.text|, j - |first.text|);
    }
  }

  lemma {:induction false} SlotAtIn(pieces: seq<Piece>, tok: string, i: nat)
    requires SlotAt(pieces, tok, i)
    ensures tok in SlotSet(pieces)
    decreases |pieces|
  {
    if !(pieces[0] == Slot(tok) && i == 0) { SlotAtIn(pieces[1..], tok, i - |pieces[0].text|); }
  }

  lemma UnrepeatedIsOnce(pieces: seq<Piece>, toks: seq<string>, tok: string)
    requires NonEmpty(toks) && OnlySlots(pieces, toks) && Unrepeated(pieces, {}) && tok in toks
    ensures AtMostOnce(Render(pieces), tok)
  {
    hide Unrepeated;
    forall i, j | OccursAt(Render(pieces), tok, i) && OccursAt(Render(pieces), tok, j) ensures i == j {
      TwoSlotsRepeat(pieces, tok, i, j);
    }
  }

  // ---------------------------------------------------------------- the exact condition

  /** Sentinels stand in the text only as values, never inside other text. */
  ghost predicate OnlyAsValues(x: Json, toks: seq<string>)
    requires WellFormed(x) && Accepted(x)
  {
    SortKeysOrders(x);
    OnlySlots(PiecesOf(SortKeys(x), toks), toks)
  }

  /** What fast_datagram makes of the prebuilt text. */
  function Prefilled(text: string, toks: seq<string>, values: seq<(string, string)>): string
    requires NonEmpty(toks)
  {
    var parts := Parts(text, toks, "");
    Join(Overwritten(parts, SlotsOf(parts, toks), values))
  }

  /**
    With the sentinels only as values, each standing somewhere, and filled values that differ
    from their sentinels, the filled text is the fresh canonical text of the statement with
    those values if and only if each sentinel stands exactly once.
   */
  lemma PrebuiltIsFreshIff(x: Json, toks: seq<string>, holes: map<string, Json>, values: seq<(string, string)>)
    requires WellFormed(x) && Accepted(x) && Fits(x, holes) && NonEmpty(toks) && OnlyAsValues(x, toks)
    requires forall t :: t in toks <==> t in holes
    requires ValueMap(values) == SlotTexts(holes) && (forall v :: v in values ==> v.0 in toks) && Differs(holes)
    requires forall t :: t in toks ==> t in SlotsOf(Parts(Canon(x).value, toks, ""), toks)
    ensures WellFormed(WithValues(x, holes))
    ensures Canon(WithValues(x, holes)) == Some(Prefilled(Canon(x).value, toks, values))
            <==> forall t :: t in toks ==> StandsOnce(Canon(x).value, t)
  {
    hide Text, PiecesOf, WithValues, SortKeys, Fits, Parts, SlotsOf, Overwritten, ValueMap, Render, Filled, FilledLast, Accepted,
        Ordered, WellFormed, AtMostOnce, Join, LastValues, OnlySlots, Differs, NonEmpty, OccursAt, SlotTexts;
    SortKeysOrders(x);
    WithValuesWellFormed(x, holes);
    SortWithValues(x, holes);
    var y, pieces := SortKeys(x), PiecesOf(SortKeys(x), toks);
    PiecesAreText(x, toks, holes);
    PiecesAreText(y, toks, holes);
    SlotsAreSentinels(y, toks);
    OverwriteFillsLast(pieces, toks, values);
    LastIsText(y, toks, holes, {});
    assert Prefilled(Canon(x).value, toks, values) == Text(LastValues(y, toks, holes, {}));
    assert Canon(WithValues(x, holes)) == Some(Text(WithValues(y, holes)));
    if Text(LastValues(y, toks, holes, {})) == Text(WithValues(y, holes)) {
      SameTextSame(LastValues(y, toks, holes, {}), WithValues(y, holes));
      AllFilledOnce(y, toks, holes, {});
      forall t | t in toks ensures StandsOnce(Render(pieces), t) {
        UnrepeatedIsOnce(pieces, toks, t);
        var i := SlotOccurs(pieces, t);
      }
    }
    if forall t :: t in toks ==> StandsOnce(Canon(x).value, t) {
      forall t | t in toks ensures t != "" { NotEmptyHere(toks, t); }
      PrebuiltIsFresh(x, toks, holes, values);
    }
  }

  lemma NotEmptyHere(toks: seq<string>, t: string)
    requires NonEmpty(toks) && t in toks
    ensures t != ""
  {
  }

  /** Two accepted values with one text are one value. */
  lemma SameTextSame(x: Json, y: Json)
    requires Accepted(x) && Accepted(y) && Text(x) == Text(y)
    ensures x == y
  {
    hide Text, Accepted;
    assert Text(x) + [] == Text(x) && Text(y) + [] == Text(y);
    TextSplits(x, y, [], []);
  }

  // ---------------------------------------------------------------- the assertion of build_template

  lemma {:induction false} SlotsAreToks(parts: seq<string>, toks: seq<string>)
    ensures forall t :: t in SlotsOf(parts, toks) ==> t in toks
  {
    if parts != [] { SlotsAreToks(parts[..|parts| - 1], toks); }
  }

  predicate NoDuplicates(toks: seq<string>) {
    forall i, j :: 0 <= i < j < |toks| ==> toks[i] != toks[j]
  }

  lemma {:induction false} CountedOnce(toks: seq<string>)
    requires NoDuplicates(toks)
    ensures |set t | t in toks| == |toks|
  {
    if toks == [] {
      assert (set t | t in toks) == {};
    } else {
      var n := |toks| - 1;
      CountedOnce(toks[..n]);
      assert toks == toks[..n] + [toks[n]];
      assert (set t | t in toks) == (set t | t in toks[..n]) + {toks[n]};
    }
  }

  /** The assertion holds exactly when every sentinel is one of the parts: it does not see a second place. */
  lemma AssertionMeans(parts: seq<string>, toks: seq<string>)
    requires NoDuplicates(toks)
    ensures |SlotsOf(parts, toks)| == |toks| <==> forall t :: t in toks ==> t in parts
  {
    var slots, all := SlotsOf(parts, toks), set t | t in toks;
    SlotsAreToks(parts, toks);
    CountedOnce(toks);
    forall t ensures t in slots <==> t in toks && t in parts { SlotsOfFinds(parts, toks, t); }
    assert slots.Keys <= all && |slots| == |slots.Keys|;
    if slots.Keys == all {
    } else {
      var t :| t in all && t !in slots.Keys;
      ProperIsSmaller(slots.Keys, all, t);
    }
  }

  lemma ProperIsSmaller(small: set<string>, large: set<string>, t: string)
    requires small <= large && t in large && t !in small
    ensures |small| < |large|
  {
    assert large == small + (large - small) && t in large - small;
  }
}
