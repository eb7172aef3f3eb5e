/**
  hosts/beacon-cadence.py: the trigger statement itself, with the sentinels build_template writes
  into it, and exactly when the datagram sent at the instant carries the statement it should.
 */
module Cadence {
  import opened Hashing
  import opened JsonValues
  import opened Canonical
  import opened CanonicalText
  import opened Template
  import opened TemplateExact
  import opened TemplateMarks
  import opened TemplateForms

  // ---------------------------------------------------------------- the sentinels

  const ISSUED := "__ISSUED__"
  const ASSERTED := "__ASSERT__"
  const WAKE := "__WAKE__"
  const PHC := "__PHC__"
  const MID := "__MID__"
  const EDGE := "-777777001"
  const WOKE := "-777777002"
  const LATE := "-777777003"
  const PMR := "-777777004"
  const BR := "-777777005"
  const SEQ := "-777777006"

  /** Longest first, as the pattern lists them. */
  const TOKS: seq<string> := [ISSUED, ASSERTED, EDGE, WOKE, LATE, PMR, BR, SEQ, WAKE, PHC, MID]

  const SENT: map<string, Json> := map[
    ISSUED := Str(ISSUED), ASSERTED := Str(ASSERTED), WAKE := Str(WAKE), PHC := Str(PHC), MID := Str(MID),
    EDGE := Int(-777777001), WOKE := Int(-777777002), LATE := Int(-777777003),
    PMR := Int(-777777004), BR := Int(-777777005), SEQ := Int(-777777006)]

  /** What is read at the instant. */
  datatype Event = Event(issued: int, asserted: int, wake: int, phc: int, mid: int,
                         edge: int, woke: int, late: int, pmr: int, br: int, sequence: int)

  /** The numbers in the places of the sentinels: times in nanoseconds as strings, the rest as integers. */
  function At(e: Event): map<string, Json> {
    map[
      ISSUED := Str(Decimal(e.issued)), ASSERTED := Str(Decimal(e.asserted)), WAKE := Str(Decimal(e.wake)),
      PHC := Str(Decimal(e.phc)), MID := Str(Decimal(e.mid)),
      EDGE := Int(e.edge), WOKE := Int(e.woke), LATE := Int(e.late), PMR := Int(e.pmr), BR := Int(e.br), SEQ := Int(e.sequence)]
  }

  /** The values of fast_datagram, in its order. */
  function Vals(e: Event): seq<(string, string)> {
    [(ISSUED, Decimal(e.issued)), (ASSERTED, Decimal(e.asserted)), (WAKE, Decimal(e.wake)), (PHC, Decimal(e.phc)),
     (MID, Decimal(e.mid)), (EDGE, Decimal(e.edge)), (WOKE, Decimal(e.woke)), (LATE, Decimal(e.late)),
     (PMR, Decimal(e.pmr)), (BR, Decimal(e.br)), (SEQ, Decimal(e.sequence))]
  }

  predicate Safe(n: int) {
    -SAFE <= n <= SAFE
  }

  /** Numbers canon prints as they are, none its own sentinel. */
  predicate Ordinary(e: Event) {
    && Safe(e.edge) && Safe(e.woke) && Safe(e.late) && Safe(e.pmr) && Safe(e.br) && Safe(e.sequence)
    && e.edge != -777777001 && e.woke != -777777002 && e.late != -777777003
    && e.pmr != -777777004 && e.br != -777777005 && e.sequence != -777777006
  }

  // ---------------------------------------------------------------- the sentinels are apart

  /** How a sentinel begins. */
  lemma Begins(t: string)
    requires t in TOKS
    ensures |t| >= 7 && ((t[0] == '_' && t[1] == '_') || (t[0] == '-' && t[1] == '7'))
    ensures forall k :: 0 <= k < |t| ==> !IsMark(t[k])
  {
  }

  /** Printed as it is, and no place where a sentinel could begin. */
  predicate Calm(s: string) {
    forall k :: 0 <= k < |s| ==> CalmAt(s, k)
  }

  predicate CalmAt(s: string, k: nat)
    requires k < |s|
  {
    && ('#' <= s[k] <= '[' || '_' <= s[k] <= 'z')
    && (k + 1 < |s| ==> !(s[k] == '_' && s[k + 1] == '_') && !(s[k] == '-' && s[k + 1] == '7'))
  }

  lemma {:induction false} CalmIsPlain(s: string)
    requires forall k :: 0 <= k < |s| ==> '#' <= s[k] <= '[' || '_' <= s[k] <= 'z'
    ensures Escape(s) == s
  {
    if s != "" {
      assert EscapeChar(s[0]) == [s[0]];
      CalmIsPlain(s[1..]);
      assert s == [s[0]] + s[1..];
    }
  }

  lemma CalmIsBare(s: string)
    requires Calm(s)
    ensures Escape(s) == s && Bare(s, TOKS) && s !in TOKS
  {
    forall k | 0 <= k < |s| ensures '#' <= s[k] <= '[' || '_' <= s[k] <= 'z' { assert CalmAt(s, k); }
    CalmIsPlain(s);
    forall t, i: nat | t in TOKS ensures !OccursAt(s, t, i) {
      Begins(t);
      if i + |t| <= |s| {
        assert CalmAt(s, i);
        assert s[i..i + |t|][0] == s[i] && s[i..i + |t|][1] == s[i + 1];
      }
    }
    assert s != "" ==> CalmAt(s, 0);
    if s in TOKS { Begins(s); }
  }

  lemma DigitsAreCalm(n: nat)
    ensures Calm(DecimalNat(n))
  {
    var s := DecimalNat(n);
    forall k | 0 <= k < |s| ensures CalmAt(s, k) { assert IsDigit(s[k]); }
  }

  /** A sentinel in words has its only two adjacent underscores at its ends, and a letter of its own after the first two. */
  predicate Word(t: string, c: char) {
    && |t| >= 7 && t[0] == '_' && t[1] == '_' && t[2] == c && c != '_'
    && (forall k :: 2 <= k < |t| - 2 ==> t[k] != '_' && t[k] != '-')
    && t[|t| - 2] == '_' && t[|t| - 1] == '_'
  }

  /** A sentinel that is a number. */
  predicate Number(t: string, c: char) {
    |t| == 10 && t[0] == '-' && t[9] == c && (forall k :: 1 <= k < 10 ==> IsDigit(t[k]))
  }

  lemma WordSentinels()
    ensures Word(ISSUED, 'I') && Word(ASSERTED, 'A') && Word(WAKE, 'W') && Word(PHC, 'P') && Word(MID, 'M')
  {
  }

  lemma NumberSentinels()
    ensures Number(EDGE, '1') && Number(WOKE, '2') && Number(LATE, '3') && Number(PMR, '4') && Number(BR, '5') && Number(SEQ, '6')
  {
  }

  /** The letter or digit that tells a sentinel from the others of its kind. */
  function Tag(t: string): char
    requires t in TOKS
  {
    Begins(t);
    if t[0] == '_' then t[2] else t[9]
  }

  lemma WordInside(s: string, t: string, i: nat, c: char, d: char)
    requires Word(s, c) && Word(t, d) && OccursAt(s, t, i)
    ensures i == 0 && c == d
  {
    assert s[i] == t[0] && s[i + 1] == t[1] && s[i + 2] == t[2] by {
      NoMarkInside(s, t, i, i);
      NoMarkInside(s, t, i, i + 1);
      NoMarkInside(s, t, i, i + 2);
    }
  }

  lemma NumberInside(s: string, t: string, i: nat, c: char, d: char)
    requires Number(s, c) && Number(t, d) && OccursAt(s, t, i)
    ensures i == 0 && c == d
  {
    NoMarkInside(s, t, i, 9);
  }

  lemma MixedApart(s: string, t: string, i: nat, c: char, d: char)
    requires Word(s, c) && Number(t, d)
    ensures !OccursAt(s, t, i) && !OccursAt(t, s, i)
  {
    if OccursAt(s, t, i) { NoMarkInside(s, t, i, i); }
    if OccursAt(t, s, i) { NoMarkInside(t, s, i, i); }
  }

  function Named(c: char): string {
    match c
    case 'I' => ISSUED
    case 'A' => ASSERTED
    case 'W' => WAKE
    case 'P' => PHC
    case 'M' => MID
    case '1' => EDGE
    case '2' => WOKE
    case '3' => LATE
    case '4' => PMR
    case '5' => BR
    case _ => SEQ
  }

  lemma TagNames(t: string)
    requires t in TOKS
    ensures t == Named(Tag(t)) && (Word(t, Tag(t)) || Number(t, Tag(t)))
  {
    hide Word, Number;
    WordSentinels();
    NumberSentinels();
  }

  lemma SentinelsApart()
    ensures Separate(TOKS) && NoDuplicates(TOKS)
  {
    hide Word, Number, OccursAt, Named, Tag;
    forall t, k | t in TOKS && 0 <= k < |t| ensures !IsMark(t[k]) { Begins(t); }
    forall t | t in TOKS ensures t != [] { Begins(t); }
    forall s, t, i: nat | s in TOKS && t in TOKS && OccursAt(s, t, i) ensures s == t && i == 0 { OneInside(s, t, i); }
  }

  lemma OneInside(s: string, t: string, i: nat)
    requires s in TOKS && t in TOKS && OccursAt(s, t, i)
    ensures s == t && i == 0
  {
    hide Word, Number, OccursAt, Named, Tag, IsMark;
    TagNames(s);
    TagNames(t);
    if Word(s, Tag(s)) && Word(t, Tag(t)) {
      WordInside(s, t, i, Tag(s), Tag(t));
    } else if Number(s, Tag(s)) && Number(t, Tag(t)) {
      NumberInside(s, t, i, Tag(s), Tag(t));
    } else if Word(s, Tag(s)) {
      MixedApart(s, t, i, Tag(s), Tag(t));
    } else {
      MixedApart(t, s, i, Tag(t), Tag(s));
    }
  }

  // ---------------------------------------------------------------- their text, and the numbers' text

  lemma OneMoreDigit(a: nat, d: nat)
    requires d < 10 && a > 0
    ensures DecimalNat(10 * a + d) == DecimalNat(a) + [Digit(d)]
  {
    assert (10 * a + d) / 10 == a && (10 * a + d) % 10 == d;
  }

  /** 777777000 and a digit, as text. */
  lemma SentinelText(d: nat)
    requires d < 10
    ensures Decimal(-(777777000 + d)) == "-77777700" + [Digit(d)]
  {
    hide DecimalNat;
    assert DecimalNat(7) == "7" by { SevenText(); }
    OneMoreDigit(7, 7);
    OneMoreDigit(77, 7);
    OneMoreDigit(777, 7);
    OneMoreDigit(7777, 7);
    OneMoreDigit(77777, 7);
    OneMoreDigit(777777, 0);
    OneMoreDigit(7777770, 0);
    OneMoreDigit(77777700, d);
    assert DecimalNat(77777700) == "77777700";
  }

  lemma SevenText()
    ensures DecimalNat(7) == "7"
  {
  }

  lemma SentTexts()
    ensures forall t :: t in TOKS ==> SlotText(SENT[t]) == t && Accepted(SENT[t])
  {
    hide Decimal;
    SentinelText(1);
    SentinelText(2);
    SentinelText(3);
    SentinelText(4);
    SentinelText(5);
    SentinelText(6);
  }

  lemma DecimalPlain(n: int)
    ensures Plain(Decimal(n)) && Decimal(n) != "" && Decimal(n)[0] != '_'
  {
    var s := Decimal(n);
    forall k | 0 <= k < |s| ensures '#' <= s[k] <= '[' || '_' <= s[k] <= 'z' {
      assert s[k] == '-' || IsDigit(s[k]);
    }
    CalmIsPlain(s);
  }

  lemma DecimalTells(n: int, m: int)
    requires Decimal(n) == Decimal(m)
    ensures n == m
  {
    hide Decimal, DecimalNat;
    assert Decimal(n) + "" == Decimal(m) + "";
    DecimalSplits(n, m, "", "");
  }

  lemma NotSentinel(n: int, d: nat, t: string)
    requires d < 10 && t == "-77777700" + [Digit(d)] && n != -(777777000 + d)
    ensures Decimal(n) != t
  {
    hide Decimal;
    SentinelText(d);
    if Decimal(n) == t { DecimalTells(n, -(777777000 + d)); }
  }

  lemma DecimalUnmarked(n: int)
    ensures Unmarked(Decimal(n))
  {
    var s := Decimal(n);
    forall k | 0 <= k < |s| ensures !IsMark(s[k]) { assert s[k] == '-' || IsDigit(s[k]); }
  }

  /** A number that is read at the instant, in the place of the sentinel t. */
  lemma TextLeaf(n: int, t: string)
    requires t != "" && t[0] == '_'
    ensures Leaf(Str(Decimal(n)), t) && Plain(Decimal(n))
  {
    hide Decimal, Unmarked, Plain;
    DecimalPlain(n);
    DecimalUnmarked(n);
  }

  lemma NumberLeaf(n: int, d: nat, t: string)
    requires d < 10 && t == "-77777700" + [Digit(d)] && n != -(777777000 + d) && Safe(n)
    ensures Leaf(Int(n), t)
  {
    hide Decimal, Unmarked;
    NotSentinel(n, d, t);
    DecimalUnmarked(n);
  }

  lemma NumbersAreLeaves(e: Event)
    requires Ordinary(e)
    ensures forall t :: t in TOKS ==> Leaf(At(e)[t], t)
  {
    hide Decimal, Leaf, Plain;
    TextLeaf(e.issued, ISSUED);
    TextLeaf(e.asserted, ASSERTED);
    TextLeaf(e.wake, WAKE);
    TextLeaf(e.phc, PHC);
    TextLeaf(e.mid, MID);
    NumberLeaf(e.edge, 1, EDGE);
    NumberLeaf(e.woke, 2, WOKE);
    NumberLeaf(e.late, 3, LATE);
    NumberLeaf(e.pmr, 4, PMR);
    NumberLeaf(e.br, 5, BR);
    NumberLeaf(e.sequence, 6, SEQ);
  }

  lemma WordIsPlain(t: string, c: char)
    requires Word(t, c) && forall k :: 0 <= k < |t| ==> 'A' <= t[k] <= 'Z' || t[k] == '_'
    ensures Plain(t)
  {
    CalmIsPlain(t);
  }

  lemma WordsPlain()
    ensures Plain(ISSUED) && Plain(ASSERTED) && Plain(WAKE) && Plain(PHC) && Plain(MID)
  {
    hide Escape;
    WordSentinels();
    WordIsPlain(ISSUED, 'I');
    WordIsPlain(ASSERTED, 'A');
    WordIsPlain(WAKE, 'W');
    WordIsPlain(PHC, 'P');
    WordIsPlain(MID, 'M');
  }

  lemma LeavesMatch(e: Event)
    ensures forall t :: t in TOKS ==> SameLeaf(SENT[t], At(e)[t])
  {
    hide Decimal, Plain;
    WordsPlain();
    DecimalPlain(e.issued);
    DecimalPlain(e.asserted);
    DecimalPlain(e.wake);
    DecimalPlain(e.phc);
    DecimalPlain(e.mid);
  }

  lemma CadenceNumbers(e: Event)
    requires Ordinary(e)
    ensures Numbers(TOKS, SENT, At(e))
  {
    hide Decimal, Plain, Separate, Leaf, SameLeaf, Accepted, SlotText;
    SentinelsApart();
    NumbersAreLeaves(e);
    LeavesMatch(e);
    SentTexts();
  }

  lemma {:induction false} ValueMapHas(values: seq<(string, string)>, k: nat)
    requires k < |values| && forall i, j :: 0 <= i < j < |values| ==> values[i].0 != values[j].0
    ensures values[k].0 in ValueMap(values) && ValueMap(values)[values[k].0] == values[k].1
    decreases |values|
  {
    if k < |values| - 1 { ValueMapHas(values[..|values| - 1], k); }
  }

  const KEYS: seq<string> := [ISSUED, ASSERTED, WAKE, PHC, MID, EDGE, WOKE, LATE, PMR, BR, SEQ]

  lemma KeysDiffer()
    ensures forall i, j :: 0 <= i < j < |KEYS| ==> KEYS[i] != KEYS[j]
    ensures forall t :: t in KEYS <==> t in TOKS
  {
    WordSentinels();
    NumberSentinels();
  }

  lemma ValKeys(e: Event)
    ensures |Vals(e)| == |KEYS| && forall k :: 0 <= k < |KEYS| ==> Vals(e)[k].0 == KEYS[k]
  {
    hide Decimal;
  }

  lemma ValAt(e: Event, k: nat)
    requires k < |KEYS|
    ensures |Vals(e)| == |KEYS| && KEYS[k] in At(e) && Vals(e)[k].1 == SlotText(At(e)[KEYS[k]])
  {
    hide Decimal;
  }

  /** fast_datagram writes the numbers. */
  lemma ValsAreNumbers(e: Event)
    ensures ValueMap(Vals(e)) == SlotTexts(At(e)) && forall v :: v in Vals(e) ==> v.0 in TOKS
  {
    hide Decimal, ValueMap, Vals, SlotText;
    var vals, m := Vals(e), ValueMap(Vals(e));
    KeysDiffer();
    ValKeys(e);
    ValueMapKeys(vals, KEYS);
    AtKeys(e);
    forall k | 0 <= k < |KEYS| ensures KEYS[k] in m && KEYS[k] in At(e) && m[KEYS[k]] == SlotText(At(e)[KEYS[k]]) {
      ValueMapHas(vals, k);
      ValAt(e, k);
    }
    MapsAgree(m, At(e));
  }

  lemma AtKeys(e: Event)
    ensures forall t :: t in At(e) <==> t in KEYS
  {
    hide Decimal;
  }

  lemma MapsAgree(m: map<string, string>, numbers: map<string, Json>)
    requires forall t :: t in m ==> t in KEYS
    requires forall t :: t in numbers <==> t in KEYS
    requires forall k :: 0 <= k < |KEYS| ==> KEYS[k] in m && KEYS[k] in numbers && m[KEYS[k]] == SlotText(numbers[KEYS[k]])
    ensures m == SlotTexts(numbers)
  {
    hide SlotText;
    forall t | t in KEYS ensures t in m && t in numbers && m[t] == SlotText(numbers[t]) {
      var k :| 0 <= k < |KEYS| && KEYS[k] == t;
    }
  }

  // ---------------------------------------------------------------- the statement

  /** What stands in the statement before the instant: configuration, the nonce, and the clock rings' newest rows. */
  datatype Known = Known(chainHash: Json, host: Json, scheduled: Json, period: Json, offset: Json, tools: Json, nonce: Json,
                         ppsDevice: Json, phcDevice: Json, tai: Json, epochOk: Json, epochAge: Json, refclock: Json,
                         ringOffset: Json, ringAge: Json, ringState: Json)

  function ClockFields(k: Known): Fields {
    Field("epoch_ok", Given(k.epochOk), Field("epoch_row_age_s", Given(k.epochAge), Field("refclock_selected", Given(k.refclock),
    Field("ts2phc_offset_ns", Given(k.ringOffset), Field("ts2phc_row_age_s", Given(k.ringAge),
    Field("ts2phc_state", Given(k.ringState), NoFields))))))
  }

  function EventFields(k: Known): Fields {
    Field("assert_unix_ns", Hole(ASSERTED), Field("device", Given(k.ppsDevice), Field("edge_after_instant_ns", Hole(EDGE),
    Field("sequence", Hole(SEQ), Field("source", Given(Str("i210-pps")), Field("woke_after_edge_ns", Hole(WOKE), NoFields))))))
  }

  function PhcFields(k: Known): Fields {
    Field("bracket_ns", Hole(BR), Field("device", Given(k.phcDevice), Field("phc_minus_realtime_ns", Hole(PMR),
    Field("realtime_mid_unix_ns", Hole(MID), Field("tai_minus_utc_s", Given(k.tai), Field("unix_ns", Hole(PHC), NoFields))))))
  }

  function WakeFields(): Fields {
    Field("clock", Given(Str("CLOCK_REALTIME")), Field("how", Given(Str("pps-event")),
    Field("late_ns", Hole(LATE), Field("unix_ns", Hole(WAKE), NoFields))))
  }

  /** The fields from the clock reading on, in the order canon prints them. */
  function LateFields(k: Known): Fields {
    Field("phc", Record(PhcFields(k)), Field("role", Given(Str("time_attester")), Field("scheduled_unix_s", Given(k.scheduled),
    Field("tools", Given(k.tools), Field("v", Given(Str("0.5")), Field("wake", Record(WakeFields()), NoFields))))))
  }

  function MiddleFields(k: Known): Fields {
    Field("issued_unix_ns", Hole(ISSUED), Field("kind", Given(Str("cadence-trigger")), Field("nonce", Given(k.nonce),
    Field("offset_s", Given(k.offset), Field("period_s", Given(k.period), LateFields(k))))))
  }

  /** The cadence trigger's statement. */
  function Trigger(k: Known): Form {
    Record(Field("chain_hash", Given(k.chainHash), Field("clock_state", Record(ClockFields(k)), Field("host", Given(k.host),
           Field("hw_event", Record(EventFields(k)), MiddleFields(k))))))
  }

  /** A value canon accepts, with its keys in order. */
  predicate Fit(x: Json) {
    Ordered(x) && Accepted(x)
  }

  predicate FitKnown(k: Known) {
    && Fit(k.chainHash) && Fit(k.host) && Fit(k.scheduled) && Fit(k.period) && Fit(k.offset) && Fit(k.tools)
    && Fit(k.nonce) && Fit(k.ppsDevice) && Fit(k.phcDevice) && Fit(k.tai) && Fit(k.epochOk) && Fit(k.epochAge)
    && Fit(k.refclock) && Fit(k.ringOffset) && Fit(k.ringAge) && Fit(k.ringState)
  }

  /** The sentinels among the split parts of the text of a given value. */
  function Found(x: Json): set<string> {
    ToksSplit();
    if Accepted(x) then Among(x, TOKS) else {}
  }

  lemma ToksSplit()
    ensures NonEmpty(TOKS) && Separate(TOKS)
  {
    hide Separate, NonEmpty;
    SentinelsApart();
    SeparateIsNonEmpty(TOKS);
  }

  // ---------------------------------------------------------------- one field at a time

  lemma OneField(key: string, form: Form, rest: Fields, after: set<string>)
    requires NonEmpty(TOKS) && Calm(key) && (rest.Field? ==> Less(key, rest.key)) && Good(form, TOKS) && GoodFields(rest, TOKS)
    ensures var fs := Field(key, form, rest);
            && GoodFields(fs, TOKS)
            && FieldsHold(fs, TOKS) == FormHolds(form, TOKS) + FieldsHold(rest, TOKS)
            && FieldHoles(fs) == Holes(form) + FieldHoles(rest)
            && (FieldsHolesLast(fs, TOKS, after)
                <==> HolesLast(form, TOKS, after + FieldsHold(rest, TOKS)) && FieldsHolesLast(rest, TOKS, after))
  {
    hide NonEmpty, Calm, Bare, Escape, Less, Good, HolesLast, FormHolds, Holes;
    CalmIsBare(key);
  }

  lemma {:induction false} LessAt(a: string, b: string, k: nat)
    requires k < |a| && k < |b| && a[..k] == b[..k] && a[k] < b[k]
    ensures Less(a, b)
    decreases k
  {
    if k > 0 {
      assert a[0] == a[..k][0] && b[0] == b[..k][0];
      assert a[1..][..k - 1] == a[..k][1..] && b[1..][..k - 1] == b[..k][1..];
      LessAt(a[1..], b[1..], k - 1);
    }
  }

  lemma EndFields(after: set<string>)
    requires NonEmpty(TOKS)
    ensures GoodFields(NoFields, TOKS) && FieldsHold(NoFields, TOKS) == {} && FieldHoles(NoFields) == {}
    ensures FieldsHolesLast(NoFields, TOKS, after)
  {
  }

  lemma HoleField(key: string, t: string, rest: Fields, after: set<string>)
    requires NonEmpty(TOKS) && Calm(key) && t in TOKS && (rest.Field? ==> Less(key, rest.key)) && GoodFields(rest, TOKS)
    ensures var fs := Field(key, Hole(t), rest);
            && GoodFields(fs, TOKS)
            && FieldsHold(fs, TOKS) == {t} + FieldsHold(rest, TOKS) && FieldHoles(fs) == {t} + FieldHoles(rest)
            && (FieldsHolesLast(fs, TOKS, after) <==> t !in after + FieldsHold(rest, TOKS) && FieldsHolesLast(rest, TOKS, after))
  {
    hide NonEmpty, Calm, Less, GoodFields, FieldsHold, FieldsHolesLast, FieldHoles;
    OneField(key, Hole(t), rest, after);
  }

  lemma GivenField(key: string, x: Json, rest: Fields, after: set<string>)
    requires NonEmpty(TOKS) && Calm(key) && Fit(x) && (rest.Field? ==> Less(key, rest.key)) && GoodFields(rest, TOKS)
    ensures var fs := Field(key, Given(x), rest);
            && GoodFields(fs, TOKS)
            && FieldsHold(fs, TOKS) == Found(x) + FieldsHold(rest, TOKS) && FieldHoles(fs) == FieldHoles(rest)
            && (FieldsHolesLast(fs, TOKS, after) <==> FieldsHolesLast(rest, TOKS, after))
  {
    hide NonEmpty, Calm, Less, GoodFields, FieldsHold, FieldsHolesLast, FieldHoles, Among, Ordered, Accepted;
    OneField(key, Given(x), rest, after);
  }

  /** A field whose text the program fixes. */
  lemma FixedField(key: string, s: string, rest: Fields, after: set<string>)
    requires NonEmpty(TOKS) && Calm(key) && Calm(s) && (rest.Field? ==> Less(key, rest.key)) && GoodFields(rest, TOKS)
    ensures var fs := Field(key, Given(Str(s)), rest);
            && GoodFields(fs, TOKS)
            && FieldsHold(fs, TOKS) == FieldsHold(rest, TOKS) && FieldHoles(fs) == FieldHoles(rest)
            && (FieldsHolesLast(fs, TOKS, after) <==> FieldsHolesLast(rest, TOKS, after))
  {
    hide NonEmpty, Calm, Less, GoodFields, FieldsHold, FieldsHolesLast, FieldHoles, Found;
    FixedText(s);
    GivenField(key, Str(s), rest, after);
  }

  lemma FixedText(s: string)
    requires Calm(s)
    ensures Fit(Str(s)) && Found(Str(s)) == {}
  {
    hide Calm, Bare, Escape, Cut, Separate, NonEmpty, Quoted;
    ToksSplit();
    CalmIsBare(s);
    QuotedIsBare(s, TOKS);
    CutBare(Quoted(s), TOKS);
  }

  lemma RecordField(key: string, inner: Fields, rest: Fields, after: set<string>)
    requires NonEmpty(TOKS) && Calm(key) && (rest.Field? ==> Less(key, rest.key)) && GoodFields(inner,
        TOKS) && GoodFields(rest, TOKS)
    ensures var fs := Field(key, Record(inner), rest);
            && GoodFields(fs, TOKS)
            && FieldsHold(fs, TOKS) == FieldsHold(inner, TOKS) + FieldsHold(rest, TOKS)
            && FieldHoles(fs) == FieldHoles(inner) + FieldHoles(rest)
            && (FieldsHolesLast(fs, TOKS, after)
                <==> FieldsHolesLast(inner, TOKS, after + FieldsHold(rest, TOKS)) && FieldsHolesLast(rest, TOKS, after))
  {
    hide NonEmpty, Calm, Less, GoodFields, FieldsHold, FieldsHolesLast, FieldHoles;
    OneField(key, Record(inner), rest, after);
  }

  // ---------------------------------------------------------------- when the datagram is right

  /** The sentinels found in the given values from the clock reading on. */
  function LateFound(k: Known): set<string> {
    Found(k.phcDevice) + Found(k.tai) + Found(k.scheduled) + Found(k.tools)
  }

  function MiddleFound(k: Known): set<string> {
    Found(k.nonce) + Found(k.offset) + Found(k.period) + LateFound(k)
  }

  /** The clock reading's own sentinels are not found after their places. */
  predicate LateClear(k: Known) {
    && BR !in Found(k.phcDevice) && {BR, PMR, MID} !! Found(k.tai)
    && {BR, PMR, MID, PHC} !! Found(k.scheduled) + Found(k.tools)
  }

  /** In no given value is a sentinel found whose place comes before it. */
  predicate Clear(k: Known) {
    && ASSERTED !in Found(k.ppsDevice) && {ASSERTED, EDGE, SEQ, WOKE} !! MiddleFound(k)
    && ISSUED !in MiddleFound(k) && LateClear(k)
  }

  lemma ClockKeysCalm()
    ensures Calm("epoch_ok") && Calm("epoch_row_age_s") && Calm("refclock_selected")
    ensures Calm("ts2phc_offset_ns") && Calm("ts2phc_row_age_s") && Calm("ts2phc_state")
  {
    hide Calm;
    EarlierClockKeysCalm();
    LaterClockKeysCalm();
  }

  lemma EarlierClockKeysCalm()
    ensures Calm("epoch_ok") && Calm("epoch_row_age_s") && Calm("refclock_selected")
  {
  }

  lemma LaterClockKeysCalm()
    ensures Calm("ts2phc_offset_ns") && Calm("ts2phc_row_age_s") && Calm("ts2phc_state")
  {
  }

  lemma ClockKeysAscend()
    ensures Less("epoch_ok", "epoch_row_age_s") && Less("epoch_row_age_s",
        "refclock_selected") && Less("refclock_selected", "ts2phc_offset_ns")
    ensures Less("ts2phc_offset_ns", "ts2phc_row_age_s") && Less("ts2phc_row_age_s", "ts2phc_state")
  {
    hide Less;
    LessAt("epoch_ok", "epoch_row_age_s", 6);
    LessAt("epoch_row_age_s", "refclock_selected", 0);
    LessAt("refclock_selected", "ts2phc_offset_ns", 0);
    LessAt("ts2phc_offset_ns", "ts2phc_row_age_s", 7);
    LessAt("ts2phc_row_age_s", "ts2phc_state", 7);
  }

  lemma EventKeysCalm()
    ensures Calm("assert_unix_ns") && Calm("device") && Calm("edge_after_instant_ns") && Calm("sequence")
    ensures Calm("source") && Calm("woke_after_edge_ns") && Calm("i210-pps")
  {
    hide Calm;
    EarlierEventKeysCalm();
    LaterEventKeysCalm();
  }

  lemma EarlierEventKeysCalm()
    ensures Calm("assert_unix_ns") && Calm("device") && Calm("edge_after_instant_ns") && Calm("sequence")
  {
  }

  lemma LaterEventKeysCalm()
    ensures Calm("source") && Calm("woke_after_edge_ns") && Calm("i210-pps")
  {
  }

  lemma EventKeysAscend()
    ensures Less("assert_unix_ns", "device") && Less("device", "edge_after_instant_ns") && Less("edge_after_instant_ns", "sequence")
    ensures Less("sequence", "source") && Less("source", "woke_after_edge_ns")
  {
    hide Less;
    LessAt("assert_unix_ns", "device", 0);
    LessAt("device", "edge_after_instant_ns", 0);
    LessAt("edge_after_instant_ns", "sequence", 0);
    LessAt("sequence", "source", 1);
    LessAt("source", "woke_after_edge_ns", 0);
  }

  lemma PhcKeysCalm()
    ensures Calm("bracket_ns") && Calm("device") && Calm("phc_minus_realtime_ns")
    ensures Calm("realtime_mid_unix_ns") && Calm("tai_minus_utc_s") && Calm("unix_ns")
  {
    hide Calm;
    EarlierPhcKeysCalm();
    LaterPhcKeysCalm();
  }

  lemma EarlierPhcKeysCalm()
    ensures Calm("bracket_ns") && Calm("device") && Calm("phc_minus_realtime_ns")
  {
  }

  lemma LaterPhcKeysCalm()
    ensures Calm("realtime_mid_unix_ns") && Calm("tai_minus_utc_s") && Calm("unix_ns")
  {
  }

  lemma PhcKeysAscend()
    ensures Less("bracket_ns", "device") && Less("device", "phc_minus_realtime_ns") && Less("phc_minus_realtime_ns",
        "realtime_mid_unix_ns")
    ensures Less("realtime_mid_unix_ns", "tai_minus_utc_s") && Less("tai_minus_utc_s", "unix_ns")
  {
    hide Less;
    LessAt("bracket_ns", "device", 0);
    LessAt("device", "phc_minus_realtime_ns", 0);
    LessAt("phc_minus_realtime_ns", "realtime_mid_unix_ns", 0);
    LessAt("realtime_mid_unix_ns", "tai_minus_utc_s", 0);
    LessAt("tai_minus_utc_s", "unix_ns", 0);
  }

  lemma WakeKeysCalm()
    ensures Calm("clock") && Calm("how") && Calm("late_ns") && Calm("unix_ns")
    ensures Calm("CLOCK_REALTIME") && Calm("pps-event")
  {
  }

  lemma WakeKeysAscend()
    ensures Less("clock", "how") && Less("how", "late_ns") && Less("late_ns", "unix_ns")
  {
    hide Less;
    LessAt("clock", "how", 0);
    LessAt("how", "late_ns", 0);
    LessAt("late_ns", "unix_ns", 0);
  }

  lemma LateKeysCalm()
    ensures Calm("phc") && Calm("role") && Calm("scheduled_unix_s") && Calm("tools")
    ensures Calm("v") && Calm("wake") && Calm("time_attester") && Calm("0.5")
  {
  }

  lemma LateKeysAscend()
    ensures Less("phc", "role") && Less("role", "scheduled_unix_s") && Less("scheduled_unix_s", "tools")
    ensures Less("tools", "v") && Less("v", "wake")
  {
    hide Less;
    LessAt("phc", "role", 0);
    LessAt("role", "scheduled_unix_s", 0);
    LessAt("scheduled_unix_s", "tools", 0);
    LessAt("tools", "v", 0);
    LessAt("v", "wake", 0);
  }

  lemma MiddleKeysCalm()
    ensures Calm("issued_unix_ns") && Calm("kind") && Calm("nonce") && Calm("offset_s")
    ensures Calm("period_s") && Calm("cadence-trigger")
  {
  }

  lemma MiddleKeysAscend()
    ensures Less("issued_unix_ns", "kind") && Less("kind", "nonce") && Less("nonce", "offset_s")
    ensures Less("offset_s", "period_s") && Less("period_s", "phc")
  {
    hide Less;
    LessAt("issued_unix_ns", "kind", 0);
    LessAt("kind", "nonce", 0);
    LessAt("nonce", "offset_s", 0);
    LessAt("offset_s", "period_s", 0);
    LessAt("period_s", "phc", 1);
  }

  lemma TopKeysCalm()
    ensures Calm("chain_hash") && Calm("clock_state") && Calm("host") && Calm("hw_event")
  {
  }

  lemma TopKeysAscend()
    ensures Less("chain_hash", "clock_state") && Less("clock_state", "host") && Less("host", "hw_event")
    ensures Less("hw_event", "issued_unix_ns")
  {
    hide Less;
    LessAt("chain_hash", "clock_state", 1);
    LessAt("clock_state", "host", 0);
    LessAt("host", "hw_event", 1);
    LessAt("hw_event", "issued_unix_ns", 0);
  }

  lemma ClockShape(k: Known, after: set<string>)
    requires NonEmpty(TOKS)
    requires Fit(k.epochOk) && Fit(k.epochAge) && Fit(k.refclock) && Fit(k.ringOffset) && Fit(k.ringAge) && Fit(k.ringState)
    ensures GoodFields(ClockFields(k), TOKS) && FieldHoles(ClockFields(k)) == {} && FieldsHolesLast(ClockFields(k), TOKS, after)
  {
    hide NonEmpty, Fit, GoodFields, FieldsHold, FieldHoles, FieldsHolesLast, Found, Less, Calm;
    ClockKeysCalm();
    ClockKeysAscend();
    EndFields(after);
    var f5 := Field("ts2phc_state", Given(k.ringState), NoFields);
    GivenField("ts2phc_state", k.ringState, NoFields, after);
    var f4 := Field("ts2phc_row_age_s", Given(k.ringAge), f5);
    GivenField("ts2phc_row_age_s", k.ringAge, f5, after);
    var f3 := Field("ts2phc_offset_ns", Given(k.ringOffset), f4);
    GivenField("ts2phc_offset_ns", k.ringOffset, f4, after);
    var f2 := Field("refclock_selected", Given(k.refclock), f3);
    GivenField("refclock_selected", k.refclock, f3, after);
    var f1 := Field("epoch_row_age_s", Given(k.epochAge), f2);
    GivenField("epoch_row_age_s", k.epochAge, f2, after);
    GivenField("epoch_ok", k.epochOk, f1, after);
  }

  lemma EventShape(k: Known, after: set<string>)
    requires NonEmpty(TOKS)
    requires Fit(k.ppsDevice)
    ensures GoodFields(EventFields(k), TOKS) && FieldHoles(EventFields(k)) == {ASSERTED, EDGE, SEQ, WOKE}
    ensures FieldsHold(EventFields(k), TOKS) == {ASSERTED, EDGE, SEQ, WOKE} + Found(k.ppsDevice)
    ensures FieldsHolesLast(EventFields(k), TOKS, after)
            <==> ASSERTED !in Found(k.ppsDevice) && {ASSERTED, EDGE, SEQ, WOKE} !! after
  {
    hide NonEmpty, Fit, GoodFields, FieldsHold, FieldHoles, FieldsHolesLast, Found, Less, Calm;
    EventKeysCalm();
    EventKeysAscend();
    EndFields(after);
    var f5 := Field("woke_after_edge_ns", Hole(WOKE), NoFields);
    HoleField("woke_after_edge_ns", WOKE, NoFields, after);
    var f4 := Field("source", Given(Str("i210-pps")), f5);
    FixedField("source", "i210-pps", f5, after);
    var f3 := Field("sequence", Hole(SEQ), f4);
    HoleField("sequence", SEQ, f4, after);
    var f2 := Field("edge_after_instant_ns", Hole(EDGE), f3);
    HoleField("edge_after_instant_ns", EDGE, f3, after);
    var f1 := Field("device", Given(k.ppsDevice), f2);
    GivenField("device", k.ppsDevice, f2, after);
    HoleField("assert_unix_ns", ASSERTED, f1, after);
  }

  lemma PhcShape(k: Known, after: set<string>)
    requires NonEmpty(TOKS)
    requires Fit(k.phcDevice) && Fit(k.tai)
    ensures GoodFields(PhcFields(k), TOKS) && FieldHoles(PhcFields(k)) == {BR, PMR, MID, PHC}
    ensures FieldsHold(PhcFields(k), TOKS) == {BR, PMR, MID, PHC} + Found(k.phcDevice) + Found(k.tai)
    ensures FieldsHolesLast(PhcFields(k), TOKS, after)
            <==> BR !in Found(k.phcDevice) && {BR, PMR, MID} !! Found(k.tai) && {BR, PMR, MID, PHC} !! after
  {
    hide NonEmpty, Fit, GoodFields, FieldsHold, FieldHoles, FieldsHolesLast, Found, Less, Calm;
    PhcKeysCalm();
    PhcKeysAscend();
    EndFields(after);
    var f5 := Field("unix_ns", Hole(PHC), NoFields);
    HoleField("unix_ns", PHC, NoFields, after);
    var f4 := Field("tai_minus_utc_s", Given(k.tai), f5);
    GivenField("tai_minus_utc_s", k.tai, f5, after);
    var f3 := Field("realtime_mid_unix_ns", Hole(MID), f4);
    HoleField("realtime_mid_unix_ns", MID, f4, after);
    var f2 := Field("phc_minus_realtime_ns", Hole(PMR), f3);
    HoleField("phc_minus_realtime_ns", PMR, f3, after);
    var f1 := Field("device", Given(k.phcDevice), f2);
    GivenField("device", k.phcDevice, f2, after);
    HoleField("bracket_ns", BR, f1, after);
  }

  lemma WakeShape(after: set<string>)
    requires NonEmpty(TOKS)
    ensures GoodFields(WakeFields(), TOKS) && FieldHoles(WakeFields()) == {LATE, WAKE} && FieldsHold(WakeFields(),
        TOKS) == {LATE, WAKE}
    ensures FieldsHolesLast(WakeFields(), TOKS, after) <==> {LATE, WAKE} !! after
  {
    hide NonEmpty, Fit, GoodFields, FieldsHold, FieldHoles, FieldsHolesLast, Found, Less, Calm;
    WakeKeysCalm();
    WakeKeysAscend();
    EndFields(after);
    var f3 := Field("unix_ns", Hole(WAKE), NoFields);
    HoleField("unix_ns", WAKE, NoFields, after);
    var f2 := Field("late_ns", Hole(LATE), f3);
    HoleField("late_ns", LATE, f3, after);
    var f1 := Field("how", Given(Str("pps-event")), f2);
    FixedField("how", "pps-event", f2, after);
    FixedField("clock", "CLOCK_REALTIME", f1, after);
  }

  lemma LateShape(k: Known)
    requires NonEmpty(TOKS)
    requires Fit(k.phcDevice) && Fit(k.tai) && Fit(k.scheduled) && Fit(k.tools)
    ensures GoodFields(LateFields(k), TOKS) && FieldHoles(LateFields(k)) == {BR, PMR, MID, PHC, LATE, WAKE}
    ensures FieldsHold(LateFields(k), TOKS) == {BR, PMR, MID, PHC, LATE, WAKE} + LateFound(k)
    ensures FieldsHolesLast(LateFields(k), TOKS, {}) <==> LateClear(k)
  {
    hide NonEmpty, Fit, GoodFields, FieldsHold, FieldHoles, FieldsHolesLast, Found, Less, Calm, PhcFields, WakeFields;
    LateKeysCalm();
    LateKeysAscend();
    EndFields({});
    WakeShape({} + FieldsHold(NoFields, TOKS));
    var f5 := Field("wake", Record(WakeFields()), NoFields);
    RecordField("wake", WakeFields(), NoFields, {});
    var f4 := Field("v", Given(Str("0.5")), f5);
    FixedField("v", "0.5", f5, {});
    var f3 := Field("tools", Given(k.tools), f4);
    GivenField("tools", k.tools, f4, {});
    var f2 := Field("scheduled_unix_s", Given(k.scheduled), f3);
    GivenField("scheduled_unix_s", k.scheduled, f3, {});
    var f1 := Field("role", Given(Str("time_attester")), f2);
    FixedField("role", "time_attester", f2, {});
    PhcShape(k, {} + FieldsHold(f1, TOKS));
    RecordField("phc", PhcFields(k), f1, {});
    Apart();
  }

  lemma MiddleShape(k: Known)
    requires NonEmpty(TOKS)
    requires Fit(k.phcDevice) && Fit(k.tai) && Fit(k.scheduled) && Fit(k.tools)
    requires Fit(k.nonce) && Fit(k.offset) && Fit(k.period)
    ensures GoodFields(MiddleFields(k), TOKS) && FieldHoles(MiddleFields(k)) == {ISSUED, BR, PMR, MID, PHC, LATE, WAKE}
    ensures FieldsHold(MiddleFields(k), TOKS) == {ISSUED, BR, PMR, MID, PHC, LATE, WAKE} + MiddleFound(k)
    ensures FieldsHolesLast(MiddleFields(k), TOKS, {}) <==> ISSUED !in MiddleFound(k) && LateClear(k)
  {
    hide NonEmpty, Fit, GoodFields, FieldsHold, FieldHoles, FieldsHolesLast, Found, Less, Calm, LateFields, LateFound, LateClear;
    MiddleKeysCalm();
    MiddleKeysAscend();
    LateShape(k);
    var f5 := LateFields(k);
    LateFirst(k);
    var f4 := Field("period_s", Given(k.period), f5);
    GivenField("period_s", k.period, f5, {});
    var f3 := Field("offset_s", Given(k.offset), f4);
    GivenField("offset_s", k.offset, f4, {});
    var f2 := Field("nonce", Given(k.nonce), f3);
    GivenField("nonce", k.nonce, f3, {});
    var f1 := Field("kind", Given(Str("cadence-trigger")), f2);
    FixedField("kind", "cadence-trigger", f2, {});
    HoleField("issued_unix_ns", ISSUED, f1, {});
    Apart();
  }

  lemma LateFirst(k: Known)
    ensures LateFields(k).Field? && LateFields(k).key == "phc"
  {
  }

  lemma MiddleFirst(k: Known)
    ensures MiddleFields(k).Field? && MiddleFields(k).key == "issued_unix_ns"
  {
  }

  lemma TriggerShape(k: Known)
    requires NonEmpty(TOKS)
    requires FitKnown(k)
    ensures Good(Trigger(k), TOKS)
    ensures Holes(Trigger(k)) == {ASSERTED, EDGE, SEQ, WOKE, ISSUED, BR, PMR, MID, PHC, LATE, WAKE}
    ensures HolesLast(Trigger(k), TOKS, {}) <==> Clear(k)
  {
    hide NonEmpty, Fit, GoodFields, FieldsHold, FieldHoles, FieldsHolesLast, Found, Less, Calm, MiddleFields,
        EventFields, ClockFields, MiddleFound, LateClear;
    TopKeysCalm();
    TopKeysAscend();
    MiddleShape(k);
    MiddleFirst(k);
    var f3 := MiddleFields(k);
    EventShape(k, {} + FieldsHold(f3, TOKS));
    var f2 := Field("hw_event", Record(EventFields(k)), f3);
    RecordField("hw_event", EventFields(k), f3, {});
    var f1 := Field("host", Given(k.host), f2);
    GivenField("host", k.host, f2, {});
    ClockShape(k, {} + FieldsHold(f1, TOKS));
    var f0 := Field("clock_state", Record(ClockFields(k)), f1);
    RecordField("clock_state", ClockFields(k), f1, {});
    GivenField("chain_hash", k.chainHash, f0, {});
    Apart();
  }

  /** The sentinels are different texts. */
  lemma Apart()
    ensures {BR, PMR, MID, PHC} !! {LATE, WAKE}
    ensures ISSUED !in {BR, PMR, MID, PHC, LATE, WAKE}
    ensures {ASSERTED, EDGE, SEQ, WOKE} !! {ISSUED, BR, PMR, MID, PHC, LATE, WAKE}
  {
  }

  // ---------------------------------------------------------------- the exact condition

  /** The datagram's statement with sentinels, as build_template canonicalizes it. */
  function TemplateText(k: Known, e: Event): string
    requires Ordinary(e) && FitKnown(k)
  {
    TriggerIsGood(k, e);
    Canon(Fill(Trigger(k), SENT)).value
  }

  lemma TriggerIsGood(k: Known, e: Event)
    requires Ordinary(e) && FitKnown(k)
    ensures Numbers(TOKS, SENT, At(e)) && Good(Trigger(k), TOKS) && Holes(Trigger(k)) == (set t | t in TOKS)
    ensures NonEmpty(TOKS) && WellFormed(Fill(Trigger(k), SENT)) && WellFormed(Fill(Trigger(k), At(e)))
    ensures Canon(Fill(Trigger(k), SENT)).Some?
  {
    hide Trigger, FitKnown, Numbers, Good, Holes, NonEmpty, WellFormed, Fill, Canon, Vals, At, Ordinary, ValueMap, SlotTexts;
    ToksSplit();
    CadenceNumbers(e);
    TriggerShape(k);
    HolesAreToks();
    ValsAreNumbers(e);
    PrebuiltIsFormIff(Trigger(k), TOKS, SENT, At(e), Vals(e));
  }

  lemma HolesAreToks()
    ensures {ASSERTED, EDGE, SEQ, WOKE, ISSUED, BR, PMR, MID, PHC, LATE, WAKE} == set t | t in TOKS
  {
  }

  /**
    The datagram carries the statement with the numbers of the event in their places if and only
    if no sentinel is among the split parts of the given values after its place, whether it is the
    whole of such a value, stands inside one, or in one of its keys.
   */
  lemma DatagramIsRightIff(k: Known, e: Event)
    requires Ordinary(e) && FitKnown(k)
    ensures NonEmpty(TOKS) && WellFormed(Fill(Trigger(k), At(e)))
    ensures Canon(Fill(Trigger(k), At(e))) == Some(Prefilled(TemplateText(k, e), TOKS, Vals(e))) <==> Clear(k)
  {
    hide Trigger, FitKnown, Numbers, Good, Holes, HolesLast, NonEmpty, WellFormed, Fill, Canon, Vals, At, Ordinary,
        ValueMap, SlotTexts, Prefilled, Clear;
    TriggerIsGood(k, e);
    TriggerShape(k);
    ValsAreNumbers(e);
    PrebuiltIsFormIff(Trigger(k), TOKS, SENT, At(e), Vals(e));
  }

  /** The assertion that every sentinel has a slot holds whatever the given values hold. */
  lemma TemplateAssertionHolds(k: Known, e: Event)
    requires Ordinary(e) && FitKnown(k)
    ensures NonEmpty(TOKS) && |SlotsOf(Parts(TemplateText(k, e), TOKS, ""), TOKS)| == |TOKS|
  {
    hide Trigger, FitKnown, Numbers, Good, Holes, NonEmpty, WellFormed, Fill, Canon, At, Ordinary, NoDuplicates, Parts,
        SlotsOf, Separate;
    TriggerIsGood(k, e);
    SentinelsApart();
    AssertionHolds(Trigger(k), TOKS, SENT, At(e));
  }

  /** build_template before the instant, fast_datagram after it. */
  method SendText(k: Known, e: Event) returns (ok: bool, text: string)
    requires Ordinary(e) && FitKnown(k)
    ensures ok && WellFormed(Fill(Trigger(k), At(e)))
    ensures Canon(Fill(Trigger(k), At(e))) == Some(text) <==> Clear(k)
  {
    hide Trigger, FitKnown, WellFormed, Fill, Canon, At, Ordinary, Parts, SlotsOf, Clear, Overwritten, Join, NonEmpty;
    TriggerIsGood(k, e);
    DatagramIsRightIff(k, e);
    TemplateAssertionHolds(k, e);
    ValsHaveSlots(k, e);
    var built := new Prebuilt();
    ok := built.Build(TemplateText(k, e), TOKS);
    text := built.Fill(Vals(e));
  }

  lemma ValsHaveSlots(k: Known, e: Event)
    requires Ordinary(e) && FitKnown(k)
    ensures NonEmpty(TOKS)
    ensures var parts := Parts(TemplateText(k, e), TOKS, "");
            forall v :: v in Vals(e) ==> v.0 in SlotsOf(parts, TOKS) && SlotsOf(parts, TOKS)[v.0] < |parts|
  {
    hide Trigger, FitKnown, WellFormed, Fill, Canon, At, Ordinary, Parts, SlotsOf, Vals, NonEmpty, NoDuplicates, Separate;
    TriggerIsGood(k, e);
    SentinelsApart();
    TemplateAssertionHolds(k, e);
    ValsAreNumbers(e);
    var parts := Parts(TemplateText(k, e), TOKS, "");
    AssertionMeans(parts, TOKS);
    forall v | v in Vals(e) ensures v.0 in SlotsOf(parts, TOKS) && SlotsOf(parts, TOKS)[v.0] < |parts| {
      SlotsOfFinds(parts, TOKS, v.0);
    }
  }

  // ---------------------------------------------------------------- inputs that fail and inputs that do not

  /** Rows and configuration as the program meets them. */
  const SAMPLE := Known(Str("6a9f"), Str("p550"), Int(1789300800), Int(60), Int(0), Object(NoMembers), Str("1f0c"),
      Str("/dev/pps0"),
                        Str("/dev/ptp0"), Int(37), Bool(true), Str("0.4"), Str("IPHC"), Int(12), Str("0.3"), Str("s2"))

  lemma IntFits(n: nat)
    requires n <= SAFE
    ensures Fit(Int(n)) && Found(Int(n)) == {}
  {
    hide Calm, Bare, DecimalNat, Cut, Separate, NonEmpty;
    ToksSplit();
    DigitsAreCalm(n);
    CalmIsBare(DecimalNat(n));
    CutBare(DecimalNat(n), TOKS);
  }

  lemma SampleTexts()
    ensures Calm("6a9f") && Calm("p550") && Calm("1f0c") && Calm("/dev/pps0") && Calm("/dev/ptp0") && Calm("0.4")
    ensures Calm("IPHC") && Calm("0.3") && Calm("s2")
  {
  }

  lemma OtherFits()
    ensures Fit(Bool(true)) && Fit(Object(NoMembers)) && Found(Object(NoMembers)) == {}
  {
    hide Cut, Separate, NonEmpty;
    ToksSplit();
    TwoMarksCut(TOKS);
    assert Sorted(NoMembers) && OrderedMembers(NoMembers) && AcceptedMembers(NoMembers);
  }

  lemma SampleFits()
    ensures FitKnown(SAMPLE) && Clear(SAMPLE)
  {
    hide Calm, Fit, Found;
    SampleTexts();
    IntFits(1789300800);
    IntFits(60);
    IntFits(0);
    IntFits(37);
    IntFits(12);
    FixedText("6a9f");
    FixedText("p550");
    FixedText("1f0c");
    FixedText("/dev/pps0");
    FixedText("/dev/ptp0");
    FixedText("0.4");
    FixedText("IPHC");
    FixedText("0.3");
    FixedText("s2");
    OtherFits();
  }

  /** What begins with a sentinel that is a number is first cut into it. */
  lemma FirstCut(t: string, c: char, rest: string)
    requires t in TOKS && Number(t, c)
    ensures NonEmpty(TOKS) && t in SlotSet(Cut(t + rest, TOKS))
  {
    hide Separate, NonEmpty, Number, Word;
    ToksSplit();
    Begins(t);
    var text := t + rest;
    assert OccursAt(text, t, 0) by { assert text[0..|t|] == t; }
    var m := MatchHere(text, TOKS).value;
    SameStart(text, m, t, c);
    assert Cut(text, TOKS)[0] == Slot(t);
  }

  lemma SameStart(text: string, m: string, t: string, c: char)
    requires m in TOKS && t in TOKS && Number(t, c) && OccursAt(text, m, 0) && OccursAt(text, t, 0)
    ensures m == t
  {
    hide TOKS;
    TagNames(m);
    TagNames(t);
    Begins(m);
    NoMarkInside(text, m, 0, 0);
    NoMarkInside(text, t, 0, 0);
    assert text[0..|m|] == m && text[0..|t|] == t;
  }

  lemma MoreDigits()
    ensures Decimal(-7777770012) == EDGE + "2"
  {
    hide DecimalNat;
    SentinelText(1);
    OneMoreDigit(777777001, 2);
    assert "-" + (DecimalNat(777777001) + "2") == "-" + DecimalNat(777777001) + "2";
  }

  /** Two offsets an epoch row could hold: the edge's sentinel itself, and one whose text begins with it. */
  lemma TwinsFound()
    ensures EDGE in Found(Int(-777777001)) && EDGE in Found(Int(-7777770012))
  {
    hide Cut, NonEmpty, Decimal, Found;
    SentinelText(1);
    assert EDGE == "-77777700" + [Digit(1)] && Decimal(-777777001) == EDGE;
    MoreDigits();
    NumberSentinels();
    FirstCut(EDGE, '1', "");
    FirstCut(EDGE, '1', "2");
    assert EDGE + "" == EDGE;
    IntFound(-777777001);
    IntFound(-7777770012);
  }

  lemma IntFound(n: int)
    requires Safe(n)
    ensures NonEmpty(TOKS) && Found(Int(n)) == SlotSet(Cut(Decimal(n), TOKS))
  {
    hide Cut, Decimal, NonEmpty, Separate;
    ToksSplit();
  }

  /**
    An epoch row whose TAI offset holds the edge's sentinel among its split parts: the template is
    built, its assertion passes, and the datagram is wrong for every event.
   */
  lemma LaterTwinBreaks(e: Event, n: int)
    requires Ordinary(e) && Safe(n) && EDGE in Found(Int(n))
    ensures var k := SAMPLE.(tai := Int(n));
            && FitKnown(k) && NonEmpty(TOKS) && WellFormed(Fill(Trigger(k), At(e)))
            && |SlotsOf(Parts(TemplateText(k, e), TOKS, ""), TOKS)| == |TOKS|
            && Canon(Fill(Trigger(k), At(e))) != Some(Prefilled(TemplateText(k, e), TOKS, Vals(e)))
  {
    hide Found, Trigger, Fill, Canon, WellFormed, NonEmpty, Parts, SlotsOf, Prefilled, At, Vals, Ordinary, TemplateText;
    var k := SAMPLE.(tai := Int(n));
    SampleFits();
    DatagramIsRightIff(k, e);
    TemplateAssertionHolds(k, e);
  }

  /** A ring row stands before the places, so whatever its offset reads like, once or twice, the datagram is right. */
  lemma EarlierTwinIsHarmless(e: Event, n: int)
    requires Ordinary(e) && Safe(n)
    ensures var k := SAMPLE.(ringOffset := Int(n));
            && FitKnown(k) && NonEmpty(TOKS) && WellFormed(Fill(Trigger(k), At(e)))
            && Canon(Fill(Trigger(k), At(e))) == Some(Prefilled(TemplateText(k, e), TOKS, Vals(e)))
  {
    hide Found, Trigger, Fill, Canon, WellFormed, NonEmpty, Prefilled, At, Vals, Ordinary, TemplateText;
    var k := SAMPLE.(ringOffset := Int(n));
    SampleFits();
    DatagramIsRightIff(k, e);
  }
}
