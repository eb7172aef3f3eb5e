/**
  What a receiver reads in the trigger datagram's statement: every number of the event under its
  own key, and every given value as it was given.
 */
module CadenceReads {
  import opened Hashing
  import opened JsonValues
  import opened Canonical
  import opened CanonicalText
  import opened JsonReader
  import opened Template
  import opened TemplateExact
  import opened TemplateForms
  import opened Cadence

  /** What stands under the keys of a record once its places are filled. */
  ghost predicate Reads(fs: Fields, e: Event, m: map<string, Value>) {
    AcceptedMembers(FillFields(fs, At(e))) && MembersMeaning(FillFields(fs, At(e))) == m
  }

  lemma NothingReads(e: Event)
    ensures Reads(NoFields, e, map[])
  {
  }

  lemma FieldReads(key: string, form: Form, rest: Fields, e: Event, m: map<string, Value>)
    requires Reads(rest, e, m) && Accepted(Fill(form, At(e)))
    ensures Reads(Field(key, form, rest), e, m[key := Meaning(Fill(form, At(e)))])
  {
    hide At, Fill, Meaning, Accepted;
  }

  lemma GivenReads(key: string, x: Json, rest: Fields, e: Event, m: map<string, Value>)
    requires Reads(rest, e, m) && Accepted(x)
    ensures Reads(Field(key, Given(x), rest), e, m[key := Meaning(x)])
  {
    hide At, Reads, Meaning, Accepted;
    FieldReads(key, Given(x), rest, e, m);
  }

  lemma WordReads(key: string, s: string, rest: Fields, e: Event, m: map<string, Value>)
    requires Reads(rest, e, m)
    ensures Reads(Field(key, Given(Str(s)), rest), e, m[key := VString(s)])
  {
    hide At, Reads;
    GivenReads(key, Str(s), rest, e, m);
  }

  lemma RecordReads(key: string, fs: Fields, rest: Fields, e: Event, inner: map<string, Value>, m: map<string, Value>)
    requires Reads(rest, e, m) && Reads(fs, e, inner)
    ensures Reads(Field(key, Record(fs), rest), e, m[key := VObject(inner)])
  {
    hide At, FillFields, AcceptedMembers, MembersMeaning;
    FieldReads(key, Record(fs), rest, e, m);
  }

  /** A time in nanoseconds, as a string. */
  lemma TimeReads(key: string, t: string, n: int, rest: Fields, e: Event, m: map<string, Value>)
    requires Reads(rest, e, m) && t in At(e) && At(e)[t] == Str(Decimal(n))
    ensures Reads(Field(key, Hole(t), rest), e, m[key := VString(Decimal(n))])
  {
    hide At, Decimal, Reads;
    FieldReads(key, Hole(t), rest, e, m);
  }

  lemma NumberReads(key: string, t: string, n: int, rest: Fields, e: Event, m: map<string, Value>)
    requires Reads(rest, e, m) && t in At(e) && At(e)[t] == Int(n) && Safe(n)
    ensures Reads(Field(key, Hole(t), rest), e, m[key := VInt(n)])
  {
    hide At, Reads;
    FieldReads(key, Hole(t), rest, e, m);
  }

  lemma Times(e: Event)
    ensures ISSUED in At(e) && At(e)[ISSUED] == Str(Decimal(e.issued))
    ensures ASSERTED in At(e) && At(e)[ASSERTED] == Str(Decimal(e.asserted))
    ensures WAKE in At(e) && At(e)[WAKE] == Str(Decimal(e.wake))
    ensures PHC in At(e) && At(e)[PHC] == Str(Decimal(e.phc))
    ensures MID in At(e) && At(e)[MID] == Str(Decimal(e.mid))
  {
    hide Decimal;
  }

  lemma Counts(e: Event)
    ensures EDGE in At(e) && At(e)[EDGE] == Int(e.edge) && WOKE in At(e) && At(e)[WOKE] == Int(e.woke)
    ensures LATE in At(e) && At(e)[LATE] == Int(e.late) && PMR in At(e) && At(e)[PMR] == Int(e.pmr)
    ensures BR in At(e) && At(e)[BR] == Int(e.br) && SEQ in At(e) && At(e)[SEQ] == Int(e.sequence)
  {
    hide Decimal;
  }

  // ---------------------------------------------------------------- what the statement says

  /** The state of the clock rings. */
  function ClockValue(k: Known, e: Event): map<string, Value>
    requires FitKnown(k)
  {
    map[
      "epoch_ok" := Meaning(k.epochOk), "epoch_row_age_s" := Meaning(k.epochAge),
      "refclock_selected" := Meaning(k.refclock), "ts2phc_offset_ns" := Meaning(k.ringOffset),
      "ts2phc_row_age_s" := Meaning(k.ringAge), "ts2phc_state" := Meaning(k.ringState)]
  }

  /** The edge. */
  function HwEventValue(k: Known, e: Event): map<string, Value>
    requires FitKnown(k)
  {
    map[
      "assert_unix_ns" := VString(Decimal(e.asserted)), "device" := Meaning(k.ppsDevice),
      "edge_after_instant_ns" := VInt(e.edge), "sequence" := VInt(e.sequence), "source" := VString("i210-pps"),
      "woke_after_edge_ns" := VInt(e.woke)]
  }

  /** The hardware clock. */
  function PhcValue(k: Known, e: Event): map<string, Value>
    requires FitKnown(k)
  {
    map[
      "bracket_ns" := VInt(e.br), "device" := Meaning(k.phcDevice), "phc_minus_realtime_ns" := VInt(e.pmr),
      "realtime_mid_unix_ns" := VString(Decimal(e.mid)), "tai_minus_utc_s" := Meaning(k.tai),
      "unix_ns" := VString(Decimal(e.phc))]
  }

  /** The wake-up. */
  function WakeValue(k: Known, e: Event): map<string, Value>
    requires FitKnown(k)
  {
    map[
      "clock" := VString("CLOCK_REALTIME"), "how" := VString("pps-event"), "late_ns" := VInt(e.late),
      "unix_ns" := VString(Decimal(e.wake))]
  }

  lemma ClockReads(k: Known, e: Event)
    requires FitKnown(k) && Ordinary(e)
    ensures Reads(ClockFields(k), e, ClockValue(k, e))
  {
    hide At, Reads, Meaning, Accepted, Ordered, Decimal;
    NothingReads(e);
    Times(e);
    Counts(e);
    var m0: map<string, Value> := map[];
    GivenReads("ts2phc_state", k.ringState, NoFields, e, m0);
    var f5, m5 := Field("ts2phc_state", Given(k.ringState), NoFields), m0["ts2phc_state" := Meaning(k.ringState)];
    GivenReads("ts2phc_row_age_s", k.ringAge, f5, e, m5);
    var f4, m4 := Field("ts2phc_row_age_s", Given(k.ringAge), f5), m5["ts2phc_row_age_s" := Meaning(k.ringAge)];
    GivenReads("ts2phc_offset_ns", k.ringOffset, f4, e, m4);
    var f3, m3 := Field("ts2phc_offset_ns", Given(k.ringOffset), f4), m4["ts2phc_offset_ns" := Meaning(k.ringOffset)];
    GivenReads("refclock_selected", k.refclock, f3, e, m3);
    var f2, m2 := Field("refclock_selected", Given(k.refclock), f3), m3["refclock_selected" := Meaning(k.refclock)];
    GivenReads("epoch_row_age_s", k.epochAge, f2, e, m2);
    var f1, m1 := Field("epoch_row_age_s", Given(k.epochAge), f2), m2["epoch_row_age_s" := Meaning(k.epochAge)];
    GivenReads("epoch_ok", k.epochOk, f1, e, m1);
    assert ClockValue(k, e) == m1["epoch_ok" := Meaning(k.epochOk)];
  }

  lemma HwEventReads(k: Known, e: Event)
    requires FitKnown(k) && Ordinary(e)
    ensures Reads(EventFields(k), e, HwEventValue(k, e))
  {
    hide At, Reads, Meaning, Accepted, Ordered, Decimal;
    NothingReads(e);
    Times(e);
    Counts(e);
    var m0: map<string, Value> := map[];
    NumberReads("woke_after_edge_ns", WOKE, e.woke, NoFields, e, m0);
    var f5, m5 := Field("woke_after_edge_ns", Hole(WOKE), NoFields), m0["woke_after_edge_ns" := VInt(e.woke)];
    WordReads("source", "i210-pps", f5, e, m5);
    var f4, m4 := Field("source", Given(Str("i210-pps")), f5), m5["source" := VString("i210-pps")];
    NumberReads("sequence", SEQ, e.sequence, f4, e, m4);
    var f3, m3 := Field("sequence", Hole(SEQ), f4), m4["sequence" := VInt(e.sequence)];
    NumberReads("edge_after_instant_ns", EDGE, e.edge, f3, e, m3);
    var f2, m2 := Field("edge_after_instant_ns", Hole(EDGE), f3), m3["edge_after_instant_ns" := VInt(e.edge)];
    GivenReads("device", k.ppsDevice, f2, e, m2);
    var f1, m1 := Field("device", Given(k.ppsDevice), f2), m2["device" := Meaning(k.ppsDevice)];
    TimeReads("assert_unix_ns", ASSERTED, e.asserted, f1, e, m1);
    assert HwEventValue(k, e) == m1["assert_unix_ns" := VString(Decimal(e.asserted))];
  }

  lemma PhcReads(k: Known, e: Event)
    requires FitKnown(k) && Ordinary(e)
    ensures Reads(PhcFields(k), e, PhcValue(k, e))
  {
    hide At, Reads, Meaning, Accepted, Ordered, Decimal;
    NothingReads(e);
    Times(e);
    Counts(e);
    var m0: map<string, Value> := map[];
    TimeReads("unix_ns", PHC, e.phc, NoFields, e, m0);
    var f5, m5 := Field("unix_ns", Hole(PHC), NoFields), m0["unix_ns" := VString(Decimal(e.phc))];
    GivenReads("tai_minus_utc_s", k.tai, f5, e, m5);
    var f4, m4 := Field("tai_minus_utc_s", Given(k.tai), f5), m5["tai_minus_utc_s" := Meaning(k.tai)];
    TimeReads("realtime_mid_unix_ns", MID, e.mid, f4, e, m4);
    var f3, m3 := Field("realtime_mid_unix_ns", Hole(MID), f4), m4["realtime_mid_unix_ns" := VString(Decimal(e.mid))];
    NumberReads("phc_minus_realtime_ns", PMR, e.pmr, f3, e, m3);
    var f2, m2 := Field("phc_minus_realtime_ns", Hole(PMR), f3), m3["phc_minus_realtime_ns" := VInt(e.pmr)];
    GivenReads("device", k.phcDevice, f2, e, m2);
    var f1, m1 := Field("device", Given(k.phcDevice), f2), m2["device" := Meaning(k.phcDevice)];
    NumberReads("bracket_ns", BR, e.br, f1, e, m1);
    assert PhcValue(k, e) == m1["bracket_ns" := VInt(e.br)];
  }

  lemma WakeReads(k: Known, e: Event)
    requires FitKnown(k) && Ordinary(e)
    ensures Reads(WakeFields(), e, WakeValue(k, e))
  {
    hide At, Reads, Meaning, Accepted, Ordered, Decimal;
    NothingReads(e);
    Times(e);
    Counts(e);
    var m0: map<string, Value> := map[];
    TimeReads("unix_ns", WAKE, e.wake, NoFields, e, m0);
    var f3, m3 := Field("unix_ns", Hole(WAKE), NoFields), m0["unix_ns" := VString(Decimal(e.wake))];
    NumberReads("late_ns", LATE, e.late, f3, e, m3);
    var f2, m2 := Field("late_ns", Hole(LATE), f3), m3["late_ns" := VInt(e.late)];
    WordReads("how", "pps-event", f2, e, m2);
    var f1, m1 := Field("how", Given(Str("pps-event")), f2), m2["how" := VString("pps-event")];
    WordReads("clock", "CLOCK_REALTIME", f1, e, m1);
    assert WakeValue(k, e) == m1["clock" := VString("CLOCK_REALTIME")];
  }

  /** Its fields from the hardware clock on. */
  function LateValue(k: Known, e: Event): map<string, Value>
    requires FitKnown(k)
  {
    map[
      "phc" := VObject(PhcValue(k, e)), "role" := VString("time_attester"),
      "scheduled_unix_s" := Meaning(k.scheduled), "tools" := Meaning(k.tools), "v" := VString("0.5"),
      "wake" := VObject(WakeValue(k, e))]
  }

  lemma LateReads(k: Known, e: Event)
    requires FitKnown(k) && Ordinary(e)
    ensures Reads(LateFields(k), e, LateValue(k, e))
  {
    hide At, Reads, Meaning, Accepted, Ordered, Decimal, ClockFields, EventFields, PhcFields, WakeFields, ClockValue,
        HwEventValue, PhcValue, WakeValue;
    NothingReads(e);
    PhcReads(k, e);
    WakeReads(k, e);
    var m0: map<string, Value> := map[];
    RecordReads("wake", WakeFields(), NoFields, e, WakeValue(k, e), m0);
    var f5, m5 := Field("wake", Record(WakeFields()), NoFields), m0["wake" := VObject(WakeValue(k, e))];
    WordReads("v", "0.5", f5, e, m5);
    var f4, m4 := Field("v", Given(Str("0.5")), f5), m5["v" := VString("0.5")];
    GivenReads("tools", k.tools, f4, e, m4);
    var f3, m3 := Field("tools", Given(k.tools), f4), m4["tools" := Meaning(k.tools)];
    GivenReads("scheduled_unix_s", k.scheduled, f3, e, m3);
    var f2, m2 := Field("scheduled_unix_s", Given(k.scheduled), f3), m3["scheduled_unix_s" := Meaning(k.scheduled)];
    WordReads("role", "time_attester", f2, e, m2);
    var f1, m1 := Field("role", Given(Str("time_attester")), f2), m2["role" := VString("time_attester")];
    RecordReads("phc", PhcFields(k), f1, e, PhcValue(k, e), m1);
    assert LateValue(k, e) == m1["phc" := VObject(PhcValue(k, e))];
  }

  /** Its fields from the time of issue on. */
  function MiddleValue(k: Known, e: Event): map<string, Value>
    requires FitKnown(k)
  {
    map[
      "issued_unix_ns" := VString(Decimal(e.issued)), "kind" := VString("cadence-trigger"),
      "nonce" := Meaning(k.nonce), "offset_s" := Meaning(k.offset), "period_s" := Meaning(k.period)] + LateValue(k, e)
  }

  lemma LateKeys(k: Known, e: Event)
    requires FitKnown(k)
    ensures LateValue(k, e).Keys == {"phc", "role", "scheduled_unix_s", "tools", "v", "wake"}
  {
  }

  lemma MiddleReads(k: Known, e: Event)
    requires FitKnown(k) && Ordinary(e)
    ensures Reads(MiddleFields(k), e, MiddleValue(k, e))
  {
    hide LateFields, LateValue, At, Reads, Meaning, Accepted, Ordered, Decimal, ClockFields, EventFields, PhcFields,
        WakeFields, ClockValue, HwEventValue, PhcValue, WakeValue;
    LateKeys(k, e);
    LateReads(k, e);
    Times(e);
    var m0 := LateValue(k, e);
    GivenReads("period_s", k.period, LateFields(k), e, m0);
    var f4, m4 := Field("period_s", Given(k.period), LateFields(k)), m0["period_s" := Meaning(k.period)];
    GivenReads("offset_s", k.offset, f4, e, m4);
    var f3, m3 := Field("offset_s", Given(k.offset), f4), m4["offset_s" := Meaning(k.offset)];
    GivenReads("nonce", k.nonce, f3, e, m3);
    var f2, m2 := Field("nonce", Given(k.nonce), f3), m3["nonce" := Meaning(k.nonce)];
    WordReads("kind", "cadence-trigger", f2, e, m2);
    var f1, m1 := Field("kind", Given(Str("cadence-trigger")), f2), m2["kind" := VString("cadence-trigger")];
    TimeReads("issued_unix_ns", ISSUED, e.issued, f1, e, m1);
    assert MiddleValue(k, e) == m1["issued_unix_ns" := VString(Decimal(e.issued))];
  }

  /** The whole statement. */
  function StatementValue(k: Known, e: Event): map<string, Value>
    requires FitKnown(k)
  {
    map[
      "chain_hash" := Meaning(k.chainHash), "clock_state" := VObject(ClockValue(k, e)), "host" := Meaning(k.host),
      "hw_event" := VObject(HwEventValue(k, e))] + MiddleValue(k, e)
  }

  lemma MiddleKeys(k: Known, e: Event)
    requires FitKnown(k)
    ensures "chain_hash" !in MiddleValue(k, e) && "clock_state" !in MiddleValue(k, e)
    ensures "host" !in MiddleValue(k, e) && "hw_event" !in MiddleValue(k, e)
  {
    hide LateValue, Meaning;
    LateKeys(k, e);
  }

  lemma StatementIs(k: Known, e: Event)
    requires FitKnown(k)
    ensures StatementValue(k, e)
            == MiddleValue(k, e)["hw_event" := VObject(HwEventValue(k, e))]["host" := Meaning(k.host)][
                 "clock_state" := VObject(ClockValue(k, e))]["chain_hash" := Meaning(k.chainHash)]
  {
    hide MiddleValue, Meaning, ClockValue, HwEventValue;
    MiddleKeys(k, e);
    FourInFront(MiddleValue(k, e), Meaning(k.chainHash), VObject(ClockValue(k, e)), Meaning(k.host), VObject(HwEventValue(k, e)));
  }

  lemma FourInFront(m: map<string, Value>, a: Value, b: Value, c: Value, d: Value)
    requires "chain_hash" !in m && "clock_state" !in m && "host" !in m && "hw_event" !in m
    ensures map["chain_hash" := a, "clock_state" := b, "host" := c, "hw_event" := d] + m
            == m["hw_event" := d]["host" := c]["clock_state" := b]["chain_hash" := a]
  {
  }

  lemma TopReads(k: Known, e: Event)
    requires FitKnown(k) && Ordinary(e)
    ensures Trigger(k).Record? && Reads(Trigger(k).fields, e, StatementValue(k, e))
  {
    hide MiddleFields, MiddleValue, StatementValue, Ordinary, At, Reads, Meaning, Accepted, Ordered, Decimal,
        ClockFields, EventFields, PhcFields, WakeFields, ClockValue, HwEventValue, PhcValue, WakeValue;
    StatementIs(k, e);
    MiddleReads(k, e);
    ClockReads(k, e);
    HwEventReads(k, e);
    var m0 := MiddleValue(k, e);
    RecordReads("hw_event", EventFields(k), MiddleFields(k), e, HwEventValue(k, e), m0);
    var f3, m3 := Field("hw_event", Record(EventFields(k)), MiddleFields(k)), m0["hw_event" := VObject(HwEventValue(k, e))];
    GivenReads("host", k.host, f3, e, m3);
    var f2, m2 := Field("host", Given(k.host), f3), m3["host" := Meaning(k.host)];
    RecordReads("clock_state", ClockFields(k), f2, e, ClockValue(k, e), m2);
    var f1, m1 := Field("clock_state", Record(ClockFields(k)), f2), m2["clock_state" := VObject(ClockValue(k, e))];
    GivenReads("chain_hash", k.chainHash, f1, e, m1);
    assert StatementValue(k, e) == m1["chain_hash" := Meaning(k.chainHash)];
  }

  lemma TriggerReads(k: Known, e: Event)
    requires FitKnown(k) && Ordinary(e)
    ensures Accepted(Fill(Trigger(k), At(e))) && Meaning(Fill(Trigger(k), At(e))) == VObject(StatementValue(k, e))
  {
    hide *;
    TopReads(k, e);
    RecordMeans(Trigger(k).fields, e, StatementValue(k, e));
  }

  lemma RecordMeans(fs: Fields, e: Event, m: map<string, Value>)
    requires Reads(fs, e, m)
    ensures Accepted(Fill(Record(fs), At(e))) && Meaning(Fill(Record(fs), At(e))) == VObject(m)
  {
    hide At, FillFields, AcceptedMembers, MembersMeaning;
  }

  /**
    Whenever the datagram is right, a reader of JSON finds in its statement each number of the event
    under its own key, times as strings of digits, and each given value as it was given.
   */
  lemma DatagramReads(k: Known, e: Event)
    requires Ordinary(e) && FitKnown(k) && Clear(k)
    ensures NonEmpty(TOKS)
    ensures ReadValue(Prefilled(TemplateText(k, e), TOKS, Vals(e))) == Some(Got(VObject(StatementValue(k, e)), ""))
  {
    hide Trigger, FitKnown, NonEmpty, WellFormed, Fill, Canon, Vals, At, Ordinary, Prefilled, Clear, TemplateText,
        StatementValue, ReadValue, Accepted;
    DatagramIsRightIff(k, e);
    TriggerReads(k, e);
    CanonReadsBack(Fill(Trigger(k), At(e)));
  }
}
