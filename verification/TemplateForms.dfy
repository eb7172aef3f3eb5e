/**
  A statement as build_template writes it: some values are given, and at certain places a sentinel
  holds the place of a number of the event. The prebuilt text with the numbers is compared with the
  text of the statement that has them at just these places, whatever the given values hold: a
  sentinel may be the whole of a given value, stand inside one, or stand in one of its keys.
 */
module TemplateForms {
  import opened Hashing
  import opened JsonValues
  import opened Canonical
  import opened CanonicalText
  import opened Template
  import opened TemplateExact
  import opened TemplateMarks

  // ---------------------------------------------------------------- the split, as pieces

  /** What re.split finds, character by character: the matches are the slots. */
  function Cut(text: string, toks: seq<string>): seq<Piece>
    requires NonEmpty(toks)
    decreases |text|
  {
    if text == [] then []
    else
      var m := MatchHere(text, toks);
      if m.Some? then [Slot(m.value)] + Cut(text[|m.value|..], toks) else [Lit([text[0]])] + Cut(text[1..], toks)
  }

  lemma {:induction false} PartsAreCut(text: string, toks: seq<string>, lit: string)
    requires NonEmpty(toks)
    ensures Parts(text, toks, lit) == Merge(Cut(text, toks), lit)
    decreases |text|
  {
    if text != [] {
      var m := MatchHere(text, toks);
      if m.Some? {
        PartsAreCut(text[|m.value|..], toks, "");
      } else {
        PartsAreCut(text[1..], toks, lit + [text[0]]);
      }
    }
  }

  lemma {:induction false} CutRenders(text: string, toks: seq<string>)
    requires NonEmpty(toks)
    ensures Render(Cut(text, toks)) == text
    decreases |text|
  {
    if text != [] {
      var m := MatchHere(text, toks);
      if m.Some? {
        CutRenders(text[|m.value|..], toks);
        assert text == m.value + text[|m.value|..];
      } else {
        CutRenders(text[1..], toks);
      }
    }
  }

  lemma {:induction false} CutSlots(text: string, toks: seq<string>)
    requires NonEmpty(toks)
    ensures forall t :: t in SlotSet(Cut(text, toks)) ==> t in toks
    decreases |text|
  {
    if text != [] {
      var m := MatchHere(text, toks);
      CutSlots(text[if m.Some? then |m.value| else 1..], toks);
    }
  }

  /** What stands between two matches is never itself a sentinel. */
  lemma {:induction false} BetweenMatches(text: string, toks: seq<string>, lit: string)
    requires NonEmpty(toks) && (lit == "" || MatchHere(lit + text, toks).None?)
    ensures forall i :: 0 <= i < |Parts(text, toks, lit)| && i % 2 == 0 ==> Parts(text, toks, lit)[i] !in toks
    decreases |text|, 1
  {
    hide MatchHere, OccursAt, NonEmpty;
    NotMatched(text, toks, lit);
    if text != [] {
      var m := MatchHere(text, toks);
      if m.Some? {
        AfterMatch(text, toks, lit);
      } else {
        assert lit + [text[0]] + text[1..] == lit + text;
        NoMatchJoined(text, toks, lit);
        BetweenMatches(text[1..], toks, lit + [text[0]]);
      }
    }
  }

  lemma NoMatchJoined(text: string, toks: seq<string>, lit: string)
    requires text != "" && MatchHere(text, toks).None? && (lit == "" || MatchHere(lit + text, toks).None?)
    ensures MatchHere(lit + [text[0]] + text[1..], toks).None?
  {
    hide MatchHere;
    assert lit + [text[0]] + text[1..] == lit + text;
    assert lit == "" ==> lit + text == text;
  }

  lemma NotMatched(text: string, toks: seq<string>, lit: string)
    requires NonEmpty(toks) && (lit == "" || MatchHere(lit + text, toks).None?)
    ensures lit !in toks
  {
    assert (lit + text)[0..|lit|] == lit;
  }

  lemma {:induction false} AfterMatch(text: string, toks: seq<string>, lit: string)
    requires NonEmpty(toks) && text != "" && MatchHere(text, toks).Some? && lit !in toks
    ensures forall i :: 0 <= i < |Parts(text, toks, lit)| && i % 2 == 0 ==> Parts(text, toks, lit)[i] !in toks
    decreases |text|, 0
  {
    hide NonEmpty;
    var m := MatchHere(text, toks).value;
    MatchShortens(text, toks);
    var more := Parts(text[|m|..], toks, "");
    BetweenMatches(text[|m|..], toks, "");
    assert Parts(text, toks, lit) == [lit, m] + more;
  }

  lemma MatchShortens(text: string, toks: seq<string>)
    requires NonEmpty(toks) && MatchHere(text, toks).Some?
    ensures 0 < |MatchHere(text, toks).value| <= |text|
  {
  }

  /** The overwrite fills the last match of each sentinel, in any text. */
  lemma PrefilledIsLast(text: string, toks: seq<string>, values: seq<(string, string)>)
    requires NonEmpty(toks) && forall v :: v in values ==> v.0 in toks
    ensures Prefilled(text, toks, values) == FilledLast(Cut(text, toks), ValueMap(values), {})
  {
    hide Cut, Parts, Overwritten, SlotsOf, LastReplaced, ValueMap, FilledLast, Join;
    var pieces := Cut(text, toks);
    PartsAreCut(text, toks, "");
    BetweenMatches(text, toks, "");
    MergeNotEmpty(pieces, "");
    OverwrittenIsLastReplaced(Parts(text, toks, ""), toks, values);
    ValueMapKeys(values, toks);
    LastMerge(pieces, "", ValueMap(values));
    assert "" + FilledLast(pieces, ValueMap(values), {}) == FilledLast(pieces, ValueMap(values), {});
  }

  lemma MatchIsPart(text: string, toks: seq<string>, t: string)
    requires NonEmpty(toks) && t in SlotSet(Cut(text, toks))
    ensures t in Parts(text, toks, "")
  {
    hide Cut, Parts;
    PartsAreCut(text, toks, "");
    SlotSetIs(Cut(text, toks), t);
    var k := SlotPart(Cut(text, toks), "", t);
  }

  // ---------------------------------------------------------------- cutting at punctuation

  /** Nothing can match across the place where these two texts meet. */
  predicate Meet(a: string, b: string) {
    a == "" || b == "" || IsMark(a[|a| - 1]) || IsMark(b[0])
  }

  lemma {:induction false} MatchSame(x: string, y: string, toks: seq<string>)
    requires forall t :: t in toks ==> (OccursAt(x, t, 0) <==> OccursAt(y, t, 0))
    ensures MatchHere(x, toks) == MatchHere(y, toks)
  {
    if toks != [] { MatchSame(x, y, toks[1..]); }
  }

  lemma MatchStays(a: string, b: string, toks: seq<string>)
    requires Separate(toks) && Meet(a, b) && a != ""
    ensures MatchHere(a + b, toks) == MatchHere(a, toks)
  {
    hide Separate;
    forall t | t in toks ensures OccursAt(a + b, t, 0) <==> OccursAt(a, t, 0) {
      if OccursAt(a + b, t, 0) { OneSide(a, b, t, toks, 0); }
      if OccursAt(a, t, 0) { assert (a + b)[0..|t|] == a[0..|t|]; }
    }
    MatchSame(a + b, a, toks);
  }

  lemma CutStep(a: string, toks: seq<string>)
    requires NonEmpty(toks) && a != ""
    ensures var m := MatchHere(a, toks);
            var k := if m.Some? then |m.value| else 1;
            && 1 <= k <= |a|
            && Cut(a, toks) == [if m.Some? then Slot(m.value) else Lit([a[0]])] + Cut(a[k..], toks)
  {
  }

  lemma {:induction false} CutJoins(a: string, b: string, toks: seq<string>)
    requires Separate(toks) && Meet(a, b)
    ensures NonEmpty(toks) && Cut(a + b, toks) == Cut(a, toks) + Cut(b, toks)
    decreases |a|
  {
    hide *;
    SeparateIsNonEmpty(toks);
    if a == "" {
      CutNothing(toks);
      assert a + b == b;
    } else {
      MatchStays(a, b, toks);
      CutStep(a, toks);
      CutStep(a + b, toks);
      var m := MatchHere(a, toks);
      var k := if m.Some? then |m.value| else 1;
      MeetRest(a, b, k);
      assert (a + b)[k..] == a[k..] + b;
      CutJoins(a[k..], b, toks);
    }
  }

  lemma MeetRest(a: string, b: string, k: nat)
    requires Meet(a, b) && k <= |a|
    ensures Meet(a[k..], b)
  {
  }

  lemma CutSentinel(t: string, toks: seq<string>)
    requires Separate(toks) && t in toks
    ensures NonEmpty(toks) && Cut(t, toks) == [Slot(t)]
  {
    SeparateIsNonEmpty(toks);
    assert OccursAt(t, t, 0);
    var m := MatchHere(t, toks);
    assert t[|t|..] == "" && Cut(t[|t|..], toks) == [];
  }

  lemma {:induction false} CutBare(s: string, toks: seq<string>)
    requires NonEmpty(toks) && Bare(s, toks)
    ensures SlotSet(Cut(s, toks)) == {}
    decreases |s|
  {
    if s != "" {
      assert [s[0]] + s[1..] == s;
      forall t, i: nat | t in toks ensures !OccursAt(s[1..], t, i) {
        if OccursAt(s[1..], t, i) { ShiftOccurs([s[0]], s[1..], t, i); }
      }
      CutBare(s[1..], toks);
    }
  }

  // ---------------------------------------------------------------- chunks

  /** Chunks of text with slots between them; every slot has punctuation or nothing on either side. */
  predicate Chunked(chunks: seq<Piece>, toks: seq<string>) {
    chunks == []
    || (&& chunks[0].text != "" && (chunks[0].Slot? ==> chunks[0].text in toks)
        && Meet(chunks[0].text, Render(chunks[1..])) && Chunked(chunks[1..], toks))
  }

  /** What the split makes of the chunks. */
  function CutAll(chunks: seq<Piece>, toks: seq<string>): seq<Piece>
    requires NonEmpty(toks)
  {
    if chunks == [] then []
    else (if chunks[0].Slot? then [chunks[0]] else Cut(chunks[0].text, toks)) + CutAll(chunks[1..], toks)
  }

  lemma {:induction false} CutChunks(chunks: seq<Piece>, toks: seq<string>)
    requires Separate(toks) && Chunked(chunks, toks)
    ensures NonEmpty(toks) && Cut(Render(chunks), toks) == CutAll(chunks, toks)
    decreases |chunks|
  {
    hide Separate, Cut, Meet;
    SeparateIsNonEmpty(toks);
    if chunks == [] {
      CutNothing(toks);
    } else {
      CutChunks(chunks[1..], toks);
      CutJoins(chunks[0].text, Render(chunks[1..]), toks);
      if chunks[0].Slot? { CutSentinel(chunks[0].text, toks); }
    }
  }

  lemma CutNothing(toks: seq<string>)
    requires NonEmpty(toks)
    ensures Cut("", toks) == []
  {
  }

  lemma {:induction false} HolesAreCut(chunks: seq<Piece>, toks: seq<string>)
    requires NonEmpty(toks)
    ensures SlotSet(chunks) <= SlotSet(CutAll(chunks, toks))
    decreases |chunks|
  {
    if chunks != [] {
      var first, rest := chunks[0], chunks[1..];
      HolesAreCut(rest, toks);
      SlotSetAppend(if first.Slot? then [first] else Cut(first.text, toks), CutAll(rest, toks));
      if first.Slot? { OneSlot(first); }
    }
  }

  lemma OneSlot(p: Piece)
    ensures SlotSet([p]) == if p.Slot? then {p.text} else {}
  {
    assert [p][1..] == [];
  }

  /** The set of what a chunk list is cut into, one chunk at a time. */
  lemma CutAllSet(chunks: seq<Piece>, toks: seq<string>)
    requires NonEmpty(toks) && chunks != []
    ensures SlotSet(CutAll(chunks, toks))
            == (if chunks[0].Slot? then {chunks[0].text} else SlotSet(Cut(chunks[0].text,
                toks))) + SlotSet(CutAll(chunks[1..], toks))
  {
    var first := chunks[0];
    OneSlot(first);
    SlotSetAppend(if first.Slot? then [first] else Cut(first.text, toks), CutAll(chunks[1..], toks));
  }

  // ---------------------------------------------------------------- which slots are last

  /** No chunk after a slot is cut into the same sentinel again; `after` is what comes after the chunks. */
  predicate SlotsLast(chunks: seq<Piece>, toks: seq<string>, after: set<string>)
    requires NonEmpty(toks)
  {
    chunks == []
    || (&& (chunks[0].Slot? ==> chunks[0].text !in after + SlotSet(CutAll(chunks[1..], toks)))
        && SlotsLast(chunks[1..], toks, after))
  }

  /** Matches that come again later are kept. */
  lemma {:induction false} KeptIfLater(pieces: seq<Piece>, values: map<string, string>, after: set<string>)
    requires SlotSet(pieces) <= after
    ensures FilledLast(pieces, values, after) == Render(pieces)
    decreases |pieces|
  {
    if pieces != [] { KeptIfLater(pieces[1..], values, after); }
  }

  predicate Unmarked(s: string) {
    forall k :: 0 <= k < |s| ==> !IsMark(s[k])
  }

  /** Up to the first mark two equal texts are equal. */
  lemma FirstMark(t: string, v: string, x: string, y: string)
    requires Unmarked(t) && Unmarked(v) && t + x == v + y
    requires x != "" && IsMark(x[0]) && y != "" && IsMark(y[0])
    ensures t == v
  {
    assert (t + x)[|t|] == x[0] && (v + y)[|v|] == y[0];
    assert forall k :: 0 <= k < |t| ==> (t + x)[k] == t[k];
    assert forall k :: 0 <= k < |v| ==> (v + y)[k] == v[k];
    assert |t| == |v|;
    assert (t + x)[..|t|] == t && (v + y)[..|v|] == v;
  }

  lemma NoMatchAtMark(text: string, toks: seq<string>)
    requires Separate(toks) && text != "" && IsMark(text[0])
    ensures text !in toks && MatchHere(text, toks).None?
  {
    forall t | t in toks ensures !OccursAt(text, t, 0) {
      assert !IsMark(t[0]);
    }
  }

  /** A chunk that begins with a mark is printed first thing, filled or not. */
  lemma MarkFirst(chunks: seq<Piece>, toks: seq<string>, values: map<string, string>)
    requires Separate(toks) && Chunked(chunks, toks) && chunks != [] && IsMark(Render(chunks)[0])
    ensures NonEmpty(toks) && chunks[0].Lit?
    ensures FilledLast(CutAll(chunks, toks), values, {}) != "" && IsMark(FilledLast(CutAll(chunks, toks), values, {})[0])
    ensures Filled(chunks, values) != "" && IsMark(Filled(chunks, values)[0])
  {
    hide FilledLast, Filled;
    SeparateIsNonEmpty(toks);
    var first, rest := chunks[0], chunks[1..];
    assert first.text[0] == Render(chunks)[0];
    NoMatchAtMark(first.text, toks);
    var all := CutAll(chunks, toks);
    assert all[0] == Lit([first.text[0]]);
    FirstOf(all, values);
    FirstOfFilled(chunks, values);
  }

  lemma FirstOf(pieces: seq<Piece>, values: map<string, string>)
    requires pieces != [] && pieces[0].Lit?
    ensures FilledLast(pieces, values, {}) == pieces[0].text + FilledLast(pieces[1..], values, {})
  {
  }

  lemma FirstOfFilled(pieces: seq<Piece>, values: map<string, string>)
    requires pieces != [] && pieces[0].Lit?
    ensures Filled(pieces, values) == pieces[0].text + Filled(pieces[1..], values)
  {
  }

  /** Values for the sentinels, without punctuation and none its own sentinel. */
  predicate Values(toks: seq<string>, values: map<string, string>) {
    forall t :: t in toks ==> t in values && values[t] != t && Unmarked(values[t])
  }

  /**
    Filling the last match of each sentinel fills exactly the slots if and only if no chunk after
    a slot is cut into its sentinel again.
   */
  lemma {:induction false} LastAreSlotsIff(chunks: seq<Piece>, toks: seq<string>, values: map<string, string>)
    requires Separate(toks) && Chunked(chunks, toks) && Values(toks, values) && NonEmpty(toks)
    requires SlotSet(CutAll(chunks, toks)) <= SlotSet(chunks)
    ensures FilledLast(CutAll(chunks, toks), values, {}) == Filled(chunks, values) <==> SlotsLast(chunks, toks, {})
    decreases |chunks|
  {
    hide Separate, Values, Cut, CutAll, FilledLast, Meet;
    if chunks == [] {
      NothingFilled(toks, values);
    } else {
      CutAllSet(chunks, toks);
      HolesAreCut(chunks[1..], toks);
      if chunks[0].Lit? {
        LitStep(chunks, toks, values);
      } else if chunks[0].text in SlotSet(CutAll(chunks[1..], toks)) {
        SlotDisplaced(chunks, toks, values);
      } else {
        SlotStep(chunks, toks, values);
        assert SlotSet(CutAll(chunks[1..], toks)) <= SlotSet(chunks[1..]);
      }
      if chunks[0].Lit? || chunks[0].text !in SlotSet(CutAll(chunks[1..], toks)) { LastAreSlotsIff(chunks[1..], toks, values); }
    }
  }

  lemma NothingFilled(toks: seq<string>, values: map<string, string>)
    requires NonEmpty(toks)
    ensures FilledLast(CutAll([], toks), values, {}) == Filled([], values)
  {
  }

  /** A chunk all of whose matches come again later is printed as it is. */
  lemma LitStep(chunks: seq<Piece>, toks: seq<string>, values: map<string, string>)
    requires NonEmpty(toks) && chunks != [] && chunks[0].Lit?
    requires SlotSet(Cut(chunks[0].text, toks)) <= SlotSet(CutAll(chunks[1..], toks))
    ensures FilledLast(CutAll(chunks, toks), values, {}) == Filled(chunks, values)
            <==> FilledLast(CutAll(chunks[1..], toks), values, {}) == Filled(chunks[1..], values)
  {
    hide Cut, FilledLast, Render;
    var lit, cut, rest := chunks[0].text, Cut(chunks[0].text, toks), CutAll(chunks[1..], toks);
    FilledLastAppend(cut, rest, values, {});
    assert {} + SlotSet(rest) == SlotSet(rest);
    KeptIfLater(cut, values, SlotSet(rest));
    CutRenders(lit, toks);
    SamePrefix(lit, FilledLast(rest, values, {}), Filled(chunks[1..], values));
  }

  lemma SamePrefix(p: string, x: string, y: string)
    ensures p + x == p + y <==> x == y
  {
    if p + x == p + y { TailEqual(p, x, y); }
  }

  /** A slot in its last place holds its value. */
  lemma SlotStep(chunks: seq<Piece>, toks: seq<string>, values: map<string, string>)
    requires NonEmpty(toks) && Values(toks, values) && Chunked(chunks, toks) && chunks != [] && chunks[0].Slot?
    requires chunks[0].text !in SlotSet(CutAll(chunks[1..], toks))
    ensures FilledLast(CutAll(chunks, toks), values, {}) == Filled(chunks, values)
            <==> FilledLast(CutAll(chunks[1..], toks), values, {}) == Filled(chunks[1..], values)
  {
    var t, rest := chunks[0].text, CutAll(chunks[1..], toks);
    assert CutAll(chunks, toks)[0] == chunks[0] && CutAll(chunks, toks)[1..] == rest;
    SamePrefix(values[t], FilledLast(rest, values, {}), Filled(chunks[1..], values));
  }

  /** A slot that is not the last match of its sentinel keeps it, and the texts part there. */
  lemma SlotDisplaced(chunks: seq<Piece>, toks: seq<string>, values: map<string, string>)
    requires Separate(toks) && NonEmpty(toks) && Values(toks, values) && Chunked(chunks, toks) && chunks != [] && chunks[0].Slot?
    requires chunks[0].text in SlotSet(CutAll(chunks[1..], toks))
    ensures FilledLast(CutAll(chunks, toks), values, {}) != Filled(chunks, values)
  {
    hide MatchHere, Cut;
    var t, rest := chunks[0].text, CutAll(chunks[1..], toks);
    assert CutAll(chunks, toks)[0] == chunks[0] && CutAll(chunks, toks)[1..] == rest;
    assert chunks[1..] != [] && Unmarked(t);
    NotEmptyRender(chunks[1..], toks);
    MarkFirst(chunks[1..], toks, values);
    if t + FilledLast(rest, values, {}) == values[t] + Filled(chunks[1..], values) {
      FirstMark(t, values[t], FilledLast(rest, values, {}), Filled(chunks[1..], values));
    }
  }

  lemma NotEmptyRender(chunks: seq<Piece>, toks: seq<string>)
    requires Chunked(chunks, toks) && chunks != []
    ensures Render(chunks) != ""
  {
  }

  // ---------------------------------------------------------------- joining chunk lists

  lemma {:induction false} ChunkedAppend(a: seq<Piece>, b: seq<Piece>, toks: seq<string>)
    requires Chunked(a, toks) && Chunked(b, toks) && Meet(Render(a), Render(b))
    ensures Chunked(a + b, toks)
    decreases |a|
  {
    if a == [] {
      assert a + b == b;
    } else {
      assert (a + b)[1..] == a[1..] + b;
      RenderAppend(a[1..], b);
      MeetTail(a[0].text, Render(a[1..]), Render(b));
      ChunkedAppend(a[1..], b, toks);
    }
  }

  lemma MeetTail(first: string, x: string, y: string)
    requires Meet(first, x) && Meet(first + x, y)
    ensures Meet(x, y) && Meet(first, x + y)
  {
    if x != "" { assert (first + x)[|first + x| - 1] == x[|x| - 1] && (x + y)[0] == x[0]; }
    assert x == "" ==> first + x == first && x + y == y;
  }

  lemma {:induction false} CutAllAppend(a: seq<Piece>, b: seq<Piece>, toks: seq<string>)
    requires NonEmpty(toks)
    ensures CutAll(a + b, toks) == CutAll(a, toks) + CutAll(b, toks)
    decreases |a|
  {
    hide Cut;
    if a == [] {
      assert a + b == b;
    } else {
      assert (a + b)[1..] == a[1..] + b;
      CutAllAppend(a[1..], b, toks);
    }
  }

  lemma {:induction false} SlotsLastAppend(a: seq<Piece>, b: seq<Piece>, toks: seq<string>, after: set<string>)
    requires NonEmpty(toks)
    ensures SlotsLast(a + b, toks, after)
            <==> SlotsLast(a, toks, after + SlotSet(CutAll(b, toks))) && SlotsLast(b, toks, after)
    decreases |a|
  {
    hide Cut, CutAll;
    if a == [] {
      assert a + b == b;
    } else {
      assert (a + b)[1..] == a[1..] + b;
      CutAllAppend(a[1..], b, toks);
      SlotSetAppend(CutAll(a[1..], toks), CutAll(b, toks));
      SlotsLastAppend(a[1..], b, toks, after);
    }
  }

  // ---------------------------------------------------------------- forms

  /** A statement with places for the numbers of the event; fields in the order of their keys. */
  datatype Form = Hole(tok: string) | Given(x: Json) | Record(fields: Fields)

  datatype Fields = NoFields | Field(key: string, form: Form, rest: Fields)

  function Fill(f: Form, numbers: map<string, Json>): Json {
    match f
    case Hole(t) => if t in numbers then numbers[t] else Null
    case Given(x) => x
    case Record(fields) => Object(FillFields(fields, numbers))
  }

  function FillFields(fs: Fields, numbers: map<string, Json>): Members {
    if fs.NoFields? then NoMembers else Member(StringKey(fs.key), Fill(fs.form, numbers), FillFields(fs.rest, numbers))
  }

  /** What build_template is given: any values canon accepts, and keys of its own without sentinels, in order. */
  ghost predicate Good(f: Form, toks: seq<string>) {
    match f
    case Hole(t) => t in toks
    case Given(x) => Ordered(x) && Accepted(x)
    case Record(fields) => GoodFields(fields, toks)
  }

  ghost predicate GoodFields(fs: Fields, toks: seq<string>) {
    fs.NoFields?
    || (&& Bare(Escape(fs.key), toks) && (fs.rest.Field? ==> Less(fs.key, fs.rest.key))
        && Good(fs.form, toks) && GoodFields(fs.rest, toks))
  }

  /** The sentinels, and numbers to put in their places: of the sentinel's kind, unlike it, and without punctuation. */
  ghost predicate Numbers(toks: seq<string>, sent: map<string, Json>, holes: map<string, Json>) {
    && Separate(toks)
    && (forall t :: (t in toks <==> t in sent) && (t in toks <==> t in holes))
    && (forall t :: t in toks ==> SlotText(sent[t]) == t && SameLeaf(sent[t], holes[t]) && Leaf(holes[t], t))
    && (forall t :: t in toks ==> Accepted(sent[t]))
  }

  predicate SameLeaf(x: Json, y: Json) {
    (x.Int? && y.Int?) || (x.Str? && y.Str? && Plain(x.s) && Plain(y.s))
  }

  predicate Leaf(y: Json, t: string) {
    Accepted(y) && SlotText(y) != t && Unmarked(SlotText(y))
  }

  // ---------------------------------------------------------------- the chunks of a form

  function Chunks(f: Form, sent: map<string, Json>): seq<Piece> {
    match f
    case Hole(t) => if t in sent && sent[t].Str? then [Lit(QUOTE), Slot(t), Lit(QUOTE)] else [Slot(t)]
    case Given(x) => [Lit(if Accepted(x) then Text(x) else "")]
    case Record(fields) =>
      if fields.NoFields? then [Lit("{}")]
      else [Lit("{" + Quoted(fields.key) + ":")] + Chunks(fields.form, sent) + MoreChunks(fields.rest, sent)
  }

  function MoreChunks(fs: Fields, sent: map<string, Json>): seq<Piece> {
    if fs.NoFields? then [Lit("}")]
    else [Lit("," + Quoted(fs.key) + ":")] + Chunks(fs.form, sent) + MoreChunks(fs.rest, sent)
  }

  lemma NumberFacts(t: string, toks: seq<string>, sent: map<string, Json>, holes: map<string, Json>)
    requires Numbers(toks, sent, holes) && t in toks
    ensures Separate(toks) && NonEmpty(toks)
    ensures t in sent && t in holes && Ordered(sent[t]) && Accepted(sent[t]) && Ordered(holes[t]) && Accepted(holes[t])
    ensures SameLeaf(sent[t], holes[t]) && SlotText(sent[t]) == t
  {
    hide Separate, Decimal, Escape, Unmarked;
    SeparateIsNonEmpty(toks);
  }

  /** Filled with the sentinels or with the numbers, a form is a value canon accepts, in key order. */
  lemma {:induction false} FormIsOrdered(f: Form, toks: seq<string>, sent: map<string, Json>, holes: map<string, Json>)
    requires Numbers(toks, sent, holes) && Good(f, toks)
    ensures Ordered(Fill(f, sent)) && Accepted(Fill(f, sent)) && Ordered(Fill(f, holes)) && Accepted(Fill(f, holes))
    decreases f
  {
    hide Numbers, GoodFields;
    match f
    case Hole(t) => NumberFacts(t, toks, sent, holes);
    case Given(_) =>
    case Record(fields) => FieldsAreOrdered(fields, toks, sent, holes);
  }

  lemma {:induction false} FieldsAreOrdered(fs: Fields, toks: seq<string>, sent: map<string, Json>, holes: map<string, Json>)
    requires Numbers(toks, sent, holes) && GoodFields(fs, toks)
    ensures var m := FillFields(fs, sent); Sorted(m) && OrderedMembers(m) && AcceptedMembers(m)
    ensures var m := FillFields(fs, holes); Sorted(m) && OrderedMembers(m) && AcceptedMembers(m)
    decreases fs
  {
    hide Numbers, Ordered, Accepted, Good, Less, Fill, Bare, Escape;
    if fs.Field? {
      FormIsOrdered(fs.form, toks, sent, holes);
      FieldsAreOrdered(fs.rest, toks, sent, holes);
    }
  }

  // ---------------------------------------------------------------- chunks are the text

  lemma HoleIsText(t: string, toks: seq<string>, sent: map<string, Json>, holes: map<string, Json>)
    requires Numbers(toks, sent, holes) && t in toks
    ensures t in sent && t in holes && Accepted(sent[t]) && Accepted(holes[t])
    ensures Render(Chunks(Hole(t), sent)) == Text(sent[t])
    ensures Filled(Chunks(Hole(t), sent), SlotTexts(holes)) == Text(holes[t])
  {
    hide Numbers, Decimal, Escape;
    NumberFacts(t, toks, sent, holes);
    var a, b := [Slot(t)], [Lit(QUOTE)];
    assert a[1..] == [] && b[1..] == [] && t + "" == t;
    ThreeAppend(QUOTE, a, b, SlotTexts(holes));
    assert [Lit(QUOTE)] + a + b == [Lit(QUOTE), Slot(t), Lit(QUOTE)];
  }

  lemma OneLit(lit: string, values: map<string, string>)
    ensures Render([Lit(lit)]) == lit && Filled([Lit(lit)], values) == lit
  {
    assert [Lit(lit)][1..] == [] && lit + "" == lit;
  }

  lemma {:induction false} ChunksAreText(f: Form, toks: seq<string>, sent: map<string, Json>, holes: map<string, Json>)
    requires Numbers(toks, sent, holes) && Good(f, toks) && Accepted(Fill(f, sent)) && Accepted(Fill(f, holes))
    ensures Render(Chunks(f, sent)) == Text(Fill(f, sent))
    ensures Filled(Chunks(f, sent), SlotTexts(holes)) == Text(Fill(f, holes))
    decreases f
  {
    hide Numbers, GoodFields, Quoted, MoreMembers, MoreItems, MoreChunks, Decimal, Render, Filled, SlotTexts;
    match f
    case Hole(t) => HoleIsText(t, toks, sent, holes);
    case Given(x) => OneLit(Text(x), SlotTexts(holes));
    case Record(fields) => RecordIsText(fields, toks, sent, holes);
  }

  lemma {:induction false} RecordIsText(fs: Fields, toks: seq<string>, sent: map<string, Json>, holes: map<string, Json>)
    requires Numbers(toks, sent, holes) && GoodFields(fs, toks)
    requires AcceptedMembers(FillFields(fs, sent)) && AcceptedMembers(FillFields(fs, holes))
    ensures Render(Chunks(Record(fs), sent)) == Text(Object(FillFields(fs, sent)))
    ensures Filled(Chunks(Record(fs), sent), SlotTexts(holes)) == Text(Object(FillFields(fs, holes)))
    decreases fs, 1
  {
    hide Numbers, Good, Quoted, MoreMembers, Accepted, Fill, MoreChunks, Render, Filled, SlotTexts, Bare, Escape, Less;
    if fs.NoFields? {
      OneLit("{}", SlotTexts(holes));
    } else {
      ChunksAreText(fs.form, toks, sent, holes);
      MoreChunksAreText(fs.rest, toks, sent, holes);
      ThreeAppend("{" + Quoted(fs.key) + ":", Chunks(fs.form, sent), MoreChunks(fs.rest, sent), SlotTexts(holes));
    }
  }

  lemma {:induction false} MoreChunksAreText(fs: Fields, toks: seq<string>, sent: map<string, Json>, holes: map<string, Json>)
    requires Numbers(toks, sent, holes) && GoodFields(fs, toks)
    requires AcceptedMembers(FillFields(fs, sent)) && AcceptedMembers(FillFields(fs, holes))
    ensures Render(MoreChunks(fs, sent)) == MoreMembers(FillFields(fs, sent))
    ensures Filled(MoreChunks(fs, sent), SlotTexts(holes)) == MoreMembers(FillFields(fs, holes))
    decreases fs, 1
  {
    hide Numbers, Good, Quoted, Text, Accepted, Fill, Chunks, Render, Filled, SlotTexts, Bare, Escape, Less;
    if fs.NoFields? {
      OneLit("}", SlotTexts(holes));
    } else {
      ChunksAreText(fs.form, toks, sent, holes);
      MoreChunksAreText(fs.rest, toks, sent, holes);
      ThreeAppend("," + Quoted(fs.key) + ":", Chunks(fs.form, sent), MoreChunks(fs.rest, sent), SlotTexts(holes));
    }
  }

  // ---------------------------------------------------------------- chunks meet at punctuation

  lemma LitChunk(lit: string, toks: seq<string>)
    requires lit != ""
    ensures Chunked([Lit(lit)], toks) && Render([Lit(lit)]) == lit
  {
    assert [Lit(lit)][1..] == [] && lit + "" == lit;
  }

  lemma SlotChunk(t: string, toks: seq<string>)
    requires NonEmpty(toks) && t in toks
    ensures Chunked([Slot(t)], toks) && Render([Slot(t)]) == t
  {
    assert [Slot(t)][1..] == [] && t + "" == t;
  }

  lemma ThreeChunks(lit: string, a: seq<Piece>, b: seq<Piece>, toks: seq<string>)
    requires lit != "" && IsMark(lit[|lit| - 1]) && Chunked(a, toks) && Chunked(b, toks)
    requires Render(b) != "" && IsMark(Render(b)[0])
    ensures Chunked([Lit(lit)] + a + b, toks) && Render([Lit(lit)] + a + b) != "" && Render([Lit(lit)] + a + b)[0] == lit[0]
  {
    hide Chunked, Render;
    LitChunk(lit, toks);
    RenderAppend([Lit(lit)], a);
    ChunkedAppend([Lit(lit)], a, toks);
    RenderAppend([Lit(lit)] + a, b);
    ChunkedAppend([Lit(lit)] + a, b, toks);
  }

  lemma HoleIsChunked(t: string, sent: map<string, Json>, toks: seq<string>)
    requires NonEmpty(toks) && t in toks
    ensures Chunked(Chunks(Hole(t), sent), toks)
  {
    hide Chunked, Render;
    SlotChunk(t, toks);
    LitChunk(QUOTE, toks);
    ThreeChunks(QUOTE, [Slot(t)], [Lit(QUOTE)], toks);
    assert [Lit(QUOTE)] + [Slot(t)] + [Lit(QUOTE)] == [Lit(QUOTE), Slot(t), Lit(QUOTE)];
  }

  lemma {:induction false} FormIsChunked(f: Form, toks: seq<string>, sent: map<string, Json>)
    requires NonEmpty(toks) && Good(f, toks)
    ensures Chunked(Chunks(f, sent), toks)
    decreases f
  {
    hide GoodFields, Quoted, MoreChunks, Chunked, Render, NonEmpty, Text, Ordered;
    match f
    case Hole(t) => HoleIsChunked(t, sent, toks);
    case Given(x) =>
      TextKind(x);
      LitChunk(Text(x), toks);
    case Record(fields) =>
      if fields.NoFields? {
        LitChunk("{}", toks);
      } else {
        FieldIs(fields, toks);
        FormIsChunked(fields.form, toks, sent);
        RestIsChunked(fields.rest, toks, sent);
        ThreeChunks("{" + Quoted(fields.key) + ":", Chunks(fields.form, sent), MoreChunks(fields.rest, sent), toks);
      }
  }

  lemma FieldIs(fs: Fields, toks: seq<string>)
    requires GoodFields(fs, toks) && fs.Field?
    ensures Good(fs.form, toks) && GoodFields(fs.rest, toks) && Bare(Escape(fs.key), toks)
  {
  }

  lemma {:induction false} RestIsChunked(fs: Fields, toks: seq<string>, sent: map<string, Json>)
    requires NonEmpty(toks) && GoodFields(fs, toks)
    ensures Chunked(MoreChunks(fs, sent), toks)
    ensures Render(MoreChunks(fs, sent)) != "" && IsMark(Render(MoreChunks(fs, sent))[0])
    decreases fs
  {
    hide GoodFields, Quoted, Chunks, Chunked, Render, NonEmpty, Good;
    if fs.NoFields? {
      LitChunk("}", toks);
    } else {
      FieldIs(fs, toks);
      FormIsChunked(fs.form, toks, sent);
      RestIsChunked(fs.rest, toks, sent);
      ThreeChunks("," + Quoted(fs.key) + ":", Chunks(fs.form, sent), MoreChunks(fs.rest, sent), toks);
    }
  }

  // ---------------------------------------------------------------- found again after its place

  /** The sentinels among the split parts of the text of a value. */
  function Among(x: Json, toks: seq<string>): set<string>
    requires NonEmpty(toks) && Accepted(x)
  {
    SlotSet(Cut(Text(x), toks))
  }

  function FormHolds(f: Form, toks: seq<string>): set<string>
    requires NonEmpty(toks)
  {
    match f
    case Hole(t) => {t}
    case Given(x) => if Accepted(x) then Among(x, toks) else {}
    case Record(fields) => FieldsHold(fields, toks)
  }

  function FieldsHold(fs: Fields, toks: seq<string>): set<string>
    requires NonEmpty(toks)
  {
    if fs.NoFields? then {} else FormHolds(fs.form, toks) + FieldsHold(fs.rest, toks)
  }

  /** No value after a hole holds its sentinel; `after` is what comes after the form. */
  predicate HolesLast(f: Form, toks: seq<string>, after: set<string>)
    requires NonEmpty(toks)
  {
    match f
    case Hole(t) => t !in after
    case Given(_) => true
    case Record(fields) => FieldsHolesLast(fields, toks, after)
  }

  predicate FieldsHolesLast(fs: Fields, toks: seq<string>, after: set<string>)
    requires NonEmpty(toks)
  {
    fs.NoFields?
    || (HolesLast(fs.form, toks, after + FieldsHold(fs.rest, toks)) && FieldsHolesLast(fs.rest, toks, after))
  }

  function Holes(f: Form): set<string> {
    match f
    case Hole(t) => {t}
    case Given(_) => {}
    case Record(fields) => FieldHoles(fields)
  }

  function FieldHoles(fs: Fields): set<string> {
    if fs.NoFields? then {} else Holes(fs.form) + FieldHoles(fs.rest)
  }

  /** Of a literal, a value's chunks and the rest: holes, what the split finds, and which slots are last. */
  lemma ThreeCut(lit: string, a: seq<Piece>, b: seq<Piece>, toks: seq<string>, after: set<string>)
    requires NonEmpty(toks) && SlotSet(Cut(lit, toks)) == {}
    ensures var all := [Lit(lit)] + a + b;
            && SlotSet(all) == SlotSet(a) + SlotSet(b)
            && SlotSet(CutAll(all, toks)) == SlotSet(CutAll(a, toks)) + SlotSet(CutAll(b, toks))
            && (SlotsLast(all, toks, after) <==> SlotsLast(a, toks, after + SlotSet(CutAll(b, toks))) && SlotsLast(b, toks, after))
  {
    hide Cut, CutAll, SlotSet;
    var all, rest := [Lit(lit)] + a + b, a + b;
    assert all == [Lit(lit)] + rest && all[1..] == rest;
    OneSlot(Lit(lit));
    SlotSetAppend([Lit(lit)], rest);
    SlotSetAppend(a, b);
    CutAllSet(all, toks);
    CutAllAppend(a, b, toks);
    SlotSetAppend(CutAll(a, toks), CutAll(b, toks));
    SlotsLastAppend(a, b, toks, after);
  }

  lemma OneLitCut(lit: string, toks: seq<string>, after: set<string>)
    requires NonEmpty(toks)
    ensures SlotSet([Lit(lit)]) == {} && SlotSet(CutAll([Lit(lit)], toks)) == SlotSet(Cut(lit,
        toks)) && SlotsLast([Lit(lit)], toks, after)
  {
    hide Cut;
    OneSlot(Lit(lit));
    assert [Lit(lit)][1..] == [];
    CutAllSet([Lit(lit)], toks);
  }

  /** A key with its punctuation holds no sentinel. */
  lemma KeyCut(c: char, key: string, toks: seq<string>)
    requires Separate(toks) && IsMark(c) && Bare(Escape(key), toks)
    ensures NonEmpty(toks) && SlotSet(Cut([c] + Quoted(key) + ":", toks)) == {}
  {
    hide Separate, Bare, Escape, Cut;
    SeparateIsNonEmpty(toks);
    KeyIsBare(c, key, toks);
    CutBare([c] + Quoted(key) + ":", toks);
  }

  lemma MarkCut(c: char, toks: seq<string>)
    requires Separate(toks) && IsMark(c)
    ensures NonEmpty(toks) && SlotSet(Cut([c], toks)) == {}
  {
    hide Separate, Bare, Cut;
    SeparateIsNonEmpty(toks);
    MarkIsBare(c, toks);
    CutBare([c], toks);
  }

  lemma HoleCut(t: string, sent: map<string, Json>, toks: seq<string>, after: set<string>)
    requires Separate(toks) && t in toks
    ensures NonEmpty(toks)
    ensures var c := Chunks(Hole(t), sent);
            SlotSet(c) == {t} == SlotSet(CutAll(c, toks)) && (SlotsLast(c, toks, after) <==> t !in after)
  {
    hide Separate, Cut;
    MarkCut('\"', toks);
    OneSlot(Slot(t));
    OneLitCut(QUOTE, toks, after);
    assert [Slot(t)][1..] == [] && CutAll([Slot(t)], toks) == [Slot(t)];
    assert SlotSet(CutAll([Lit(QUOTE)], toks)) == {} && after + {} == after;
    ThreeCut(QUOTE, [Slot(t)], [Lit(QUOTE)], toks, after);
    assert [Lit(QUOTE)] + [Slot(t)] + [Lit(QUOTE)] == [Lit(QUOTE), Slot(t), Lit(QUOTE)];
  }

  /** The chunks of a form, in the form's own terms. */
  lemma {:induction false} FormCut(f: Form, toks: seq<string>, sent: map<string, Json>, after: set<string>)
    requires Separate(toks) && NonEmpty(toks) && Good(f, toks)
    ensures var c := Chunks(f, sent);
            && SlotSet(c) == Holes(f) && SlotSet(CutAll(c, toks)) == FormHolds(f, toks)
            && (SlotsLast(c, toks, after) <==> HolesLast(f, toks, after))
    decreases f
  {
    hide Separate, Cut, CutAll, SlotSet, SlotsLast, GoodFields, MoreChunks, Quoted, Ordered, Text, FieldsHold,
        FieldsHolesLast, FieldHoles;
    match f
    case Hole(t) => HoleCut(t, sent, toks, after);
    case Given(x) => OneLitCut(Text(x), toks, after);
    case Record(fields) => RecordCut(fields, toks, sent, after);
  }

  lemma {:induction false} RecordCut(fs: Fields, toks: seq<string>, sent: map<string, Json>, after: set<string>)
    requires Separate(toks) && NonEmpty(toks) && GoodFields(fs, toks)
    ensures var c := Chunks(Record(fs), sent);
            && SlotSet(c) == FieldHoles(fs) && SlotSet(CutAll(c, toks)) == FieldsHold(fs, toks)
            && (SlotsLast(c, toks, after) <==> FieldsHolesLast(fs, toks, after))
    decreases fs, 1
  {
    hide Separate, Cut, CutAll, SlotSet, SlotsLast, GoodFields, MoreChunks, Quoted, Good, FormHolds, HolesLast, Holes, Bare, Escape;
    if fs.NoFields? {
      TwoMarksCut(toks);
      OneLitCut("{}", toks, after);
    } else {
      FieldIs(fs, toks);
      KeyCut('{', fs.key, toks);
      RestCut(fs.rest, toks, sent, after);
      FormCut(fs.form, toks, sent, after + FieldsHold(fs.rest, toks));
      ThreeCut("{" + Quoted(fs.key) + ":", Chunks(fs.form, sent), MoreChunks(fs.rest, sent), toks, after);
    }
  }

  lemma TwoMarksCut(toks: seq<string>)
    requires Separate(toks)
    ensures NonEmpty(toks) && SlotSet(Cut("{}", toks)) == {}
  {
    hide Separate, Bare, Cut;
    SeparateIsNonEmpty(toks);
    TwoMarks('{', '}', toks);
    assert "{" + "}" == "{}";
    CutBare("{}", toks);
  }

  lemma {:induction false} RestCut(fs: Fields, toks: seq<string>, sent: map<string, Json>, after: set<string>)
    requires Separate(toks) && NonEmpty(toks) && GoodFields(fs, toks)
    ensures var c := MoreChunks(fs, sent);
            && SlotSet(c) == FieldHoles(fs) && SlotSet(CutAll(c, toks)) == FieldsHold(fs, toks)
            && (SlotsLast(c, toks, after) <==> FieldsHolesLast(fs, toks, after))
    decreases fs, 1
  {
    hide Separate, Cut, CutAll, SlotSet, SlotsLast, GoodFields, Chunks, Quoted, Good, FormHolds, HolesLast, Holes, Bare, Escape;
    if fs.NoFields? {
      MarkCut('}', toks);
      OneLitCut("}", toks, after);
    } else {
      FieldIs(fs, toks);
      KeyCut(',', fs.key, toks);
      RestCut(fs.rest, toks, sent, after);
      FormCut(fs.form, toks, sent, after + FieldsHold(fs.rest, toks));
      ThreeCut("," + Quoted(fs.key) + ":", Chunks(fs.form, sent), MoreChunks(fs.rest, sent), toks, after);
    }
  }

  // ---------------------------------------------------------------- the exact condition

  lemma {:induction false} OrderedIsWellFormed(x: Json)
    requires Ordered(x) && Accepted(x)
    ensures WellFormed(x)
    decreases x
  {
    match x
    case Array(items) => OrderedItemsAreWellFormed(items);
    case Object(members) => OrderedMembersAreWellFormed(members);
    case _ =>
  }

  lemma {:induction false} OrderedItemsAreWellFormed(items: Items)
    requires OrderedItems(items) && AcceptedItems(items)
    ensures WellFormedItems(items)
    decreases items
  {
    if items.Item? {
      OrderedIsWellFormed(items.head);
      OrderedItemsAreWellFormed(items.tail);
    }
  }

  lemma {:induction false} OrderedMembersAreWellFormed(m: Members)
    requires Sorted(m) && OrderedMembers(m) && AcceptedMembers(m)
    ensures WellFormedMembers(m)
    decreases m
  {
    if m.Member? {
      OrderedIsWellFormed(m.value);
      OrderedMembersAreWellFormed(m.tail);
      KeysAreTexts(m.tail, m.key);
      LessTotal(m.key.text, m.key.text);
      if m.key.text in Texts(m.tail) { FirstIsLeast(m, m.key.text); }
    }
  }

  lemma OrderedText(x: Json)
    requires Ordered(x) && Accepted(x)
    ensures WellFormed(x) && SortKeys(x) == x && Canon(x) == Some(Text(x))
  {
    hide Ordered, Accepted, WellFormed, SortKeys, Text, Meaning;
    OrderedIsWellFormed(x);
    SortKeysOrders(x);
    OrderedUnique(SortKeys(x), x);
  }

  lemma HoldsToks(f: Form, toks: seq<string>, sent: map<string, Json>)
    requires Separate(toks) && NonEmpty(toks) && Good(f, toks)
    ensures forall t :: t in FormHolds(f, toks) ==> t in toks
  {
    hide Separate, Good, Chunks, Cut, CutAll, FormHolds, HolesLast, Holes, NonEmpty, Chunked;
    FormCut(f, toks, sent, {});
    FormIsChunked(f, toks, sent);
    CutChunks(Chunks(f, sent), toks);
    CutSlots(Render(Chunks(f, sent)), toks);
  }

  lemma ValuesOf(toks: seq<string>, sent: map<string, Json>, holes: map<string, Json>)
    requires Numbers(toks, sent, holes)
    ensures Separate(toks) && NonEmpty(toks) && Values(toks, SlotTexts(holes))
  {
    hide Separate, Decimal, Escape, Unmarked, SameLeaf;
    SeparateIsNonEmpty(toks);
  }

  /**
    The prebuilt text with the numbers of the event is the canonical text of the statement that
    has them in its holes if and only if no sentinel is among the split parts of the values after
    its hole. Values before the hole may hold it: only the last place is overwritten.
   */
  lemma PrebuiltIsFormIff(f: Form, toks: seq<string>, sent: map<string, Json>, holes: map<string, Json>,
      values: seq<(string, string)>)
    requires Numbers(toks, sent, holes) && Good(f, toks) && Holes(f) == (set t | t in toks)
    requires ValueMap(values) == SlotTexts(holes) && forall v :: v in values ==> v.0 in toks
    ensures NonEmpty(toks) && WellFormed(Fill(f, sent)) && WellFormed(Fill(f, holes)) && Canon(Fill(f, sent)).Some?
    ensures Canon(Fill(f, holes)) == Some(Prefilled(Canon(Fill(f, sent)).value, toks, values)) <==> HolesLast(f, toks, {})
  {
    hide Numbers, Separate, Good, Holes, Ordered, Accepted, WellFormed, Canon, Text, Prefilled, Fill, HolesLast,
        FormHolds, Chunks, Cut, CutAll,
        Render, Filled, FilledLast, SlotSet, SlotsLast, Chunked, Values, NonEmpty, ValueMap, SlotTexts;
    var x, y, chunks := Fill(f, sent), Fill(f, holes), Chunks(f, sent);
    ValuesOf(toks, sent, holes);
    FormIsOrdered(f, toks, sent, holes);
    OrderedText(x);
    OrderedText(y);
    ChunksAreText(f, toks, sent, holes);
    FormIsChunked(f, toks, sent);
    CutChunks(chunks, toks);
    PrefilledIsLast(Text(x), toks, values);
    FormCut(f, toks, sent, {});
    HoldsToks(f, toks, sent);
    LastAreSlotsIff(chunks, toks, SlotTexts(holes));
  }

  /** The assertion of build_template holds for every form that has each sentinel at a hole. */
  lemma AssertionHolds(f: Form, toks: seq<string>, sent: map<string, Json>, holes: map<string, Json>)
    requires Numbers(toks, sent, holes) && Good(f, toks) && Holes(f) == (set t | t in toks) && NoDuplicates(toks)
    ensures NonEmpty(toks) && WellFormed(Fill(f, sent)) && Canon(Fill(f, sent)).Some?
    ensures |SlotsOf(Parts(Canon(Fill(f, sent)).value, toks, ""), toks)| == |toks|
  {
    hide Numbers, Separate, Good, Holes, Ordered, Accepted, WellFormed, Canon, Text, Fill, HolesLast, FormHolds,
        Chunks, Cut, CutAll,
        Render, SlotSet, SlotsLast, Chunked, Values, NonEmpty, SlotsOf, Parts, NoDuplicates;
    var x, chunks := Fill(f, sent), Chunks(f, sent);
    ValuesOf(toks, sent, holes);
    FormIsOrdered(f, toks, sent, holes);
    OrderedText(x);
    ChunksAreText(f, toks, sent, holes);
    FormIsChunked(f, toks, sent);
    CutChunks(chunks, toks);
    FormCut(f, toks, sent, {});
    HolesAreCut(chunks, toks);
    forall t | t in toks ensures t in Parts(Text(x), toks, "") {
      assert t in Holes(f);
      MatchIsPart(Text(x), toks, t);
    }
    AssertionMeans(Parts(Text(x), toks, ""), toks);
  }
}
