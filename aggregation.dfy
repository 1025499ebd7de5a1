/**
 * The multi-topic sensors of the HeishaMon integration: one slot per MQTT
 * topic, each absent or a number, and a derived value recomputed from the
 * whole slot vector after every message. Two ways of combining the slots are
 * used: the total production/consumption (`extract_sum`, the first group of
 * three topics, in firmware priority order, that carries any value) and the
 * coefficient of performance (`compute_cop`).
 *
 * Payloads arrive already parsed: `None` stands for a payload `float()`
 * rejects. Arithmetic is on `real`.
 */
module Aggregation {
  import opened Wrappers

  /** The slot vector: one optional reading per topic. */
  type Slots = seq<Option<real>>

  // ---------------------------------------------------------------------------
  // extract_sum
  // ---------------------------------------------------------------------------

  predicate AnyPresent(c: Slots) {
    exists i :: 0 <= i < |c| && c[i].Some?
  }

  /** `sum(el for el in c if el is not None)`. */
  function SumPresent(c: Slots): real
    decreases |c|
  {
    if |c| == 0 then 0.0
    else (if c[0].Some? then c[0].value else 0.0) + SumPresent(c[1..])
  }

  /** The `k`-th chunk of three slots (the last chunk may be shorter). */
  function Group(values: Slots, k: nat): Slots
    requires 3 * k < |values|
  {
    var hi := if 3 * k + 3 <= |values| then 3 * k + 3 else |values|;
    values[3 * k..hi]
  }

  /** `extract_sum(values)`: the chunks are scanned from the front. */
  function ExtractSum(values: Slots): real
    decreases |values|
  {
    if |values| == 0 then 0.0
    else
      var n := if |values| < 3 then |values| else 3;
      if AnyPresent(values[..n]) then SumPresent(values[..n]) else ExtractSum(values[n..])
  }

  /**
   * The result is the sum of the present values of the first group that has
   * any, whatever the later groups hold.
   */
  lemma {:induction false} ExtractSumFirstGroup(values: Slots, k: nat)
    requires 3 * k < |values|
    requires AnyPresent(Group(values, k))
    requires forall j: nat :: j < k ==> !AnyPresent(Group(values, j))
    ensures ExtractSum(values) == SumPresent(Group(values, k))
    decreases k
  {
    if k > 0 {
      assert Group(values, 0) == values[..3];
      assert !AnyPresent(Group(values, 0));
      var rest := values[3..];
      forall j: nat | j < k - 1 ensures !AnyPresent(Group(rest, j)) {
        assert Group(rest, j) == Group(values, j + 1);
        assert !AnyPresent(Group(values, j + 1));
      }
      assert Group(rest, k - 1) == Group(values, k);
      ExtractSumFirstGroup(rest, k - 1);
    }
  }

  /** With every slot missing the sum is 0. */
  lemma {:induction false} ExtractSumAllMissing(values: Slots)
    requires forall i :: 0 <= i < |values| ==> values[i].None?
    ensures ExtractSum(values) == 0.0
    decreases |values|
  {
    if |values| > 0 {
      var n := if |values| < 3 then |values| else 3;
      assert !AnyPresent(values[..n]);
      ExtractSumAllMissing(values[n..]);
    }
  }

  /** A group with some value decides the sum on its own. */
  lemma ExtractSumPrefix(values: Slots, k: nat)
    requires 3 * k < |values|
    requires AnyPresent(Group(values, k))
    requires forall j: nat :: j < k ==> !AnyPresent(Group(values, j))
    ensures forall later: Slots :: 3 * k + 3 <= |values| ==> ExtractSum(values + later) == ExtractSum(values)
  {
    ExtractSumFirstGroup(values, k);
    forall later: Slots | 3 * k + 3 <= |values| ensures ExtractSum(values + later) == ExtractSum(values) {
      var w := values + later;
      forall j: nat | j <= k ensures Group(w, j) == Group(values, j) {
      }
      ExtractSumFirstGroup(w, k);
    }
  }

  // ---------------------------------------------------------------------------
  // compute_cop
  // ---------------------------------------------------------------------------

  /** `round(x, 2)`, ties rounded up. */
  function Round2(x: real): (r: real)
    ensures x - 0.005 < r <= x + 0.005
    ensures x <= 15.0 ==> r <= 15.0
  {
    (x * 100.0 + 0.5).Floor as real / 100.0
  }

  /** The production slots, firmware >= 3.2.3 first, once the defrost slot is dropped. */
  function ProductionSlots(v: Slots): Slots
    requires |v| == 24
  {
    v[18..21] + v[12..15] + v[0..3] + v[6..9]
  }

  function ConsumptionSlots(v: Slots): Slots
    requires |v| == 24
  {
    v[21..24] + v[15..18] + v[3..6] + v[9..12]
  }

  /** The ratio with its two guards: no consumption, and an implausible value above 15. */
  function CopOf(production: real, consumption: real): (cop: real)
    ensures consumption == 0.0 ==> cop == 0.0
    ensures consumption != 0.0 && production / consumption > 15.0 ==> cop == 0.0
    ensures consumption != 0.0 && production / consumption <= 15.0 ==>
      production / consumption - 0.005 < cop <= production / consumption + 0.005
    ensures cop <= 15.0
  {
    if consumption == 0.0 then 0.0
    else
      var ratio := production / consumption;
      if ratio > 15.0 then 0.0 else Round2(ratio)
  }

  /**
   * `compute_cop(values)`. `defrost` is how `bit_to_bool` reads slot 0: it is
   * left abstract. An empty vector raises on `values[0]`; after the defrost
   * slot exactly 24 slots are required.
   */
  function ComputeCop(values: Slots, defrost: Option<real> -> bool): (r: Result<real, Exception>)
    ensures |values| == 0 ==> r == Failure(IndexError)
    ensures |values| > 0 && defrost(values[0]) ==> r == Success(-1.0)
    ensures |values| > 0 && !defrost(values[0]) ==> (r.Failure? <==> |values| != 25)
    ensures r.Failure? ==> r.error == IndexError || r.error == AssertionError
    ensures r.Success? ==> r.value <= 15.0
  {
    if |values| == 0 then Failure(IndexError)
    else if defrost(values[0]) then Success(-1.0)
    else
      var v := values[1..];
      if |v| != 24 then Failure(AssertionError)
      else Success(CopOf(ExtractSum(ProductionSlots(v)), ExtractSum(ConsumptionSlots(v))))
  }

  // ---------------------------------------------------------------------------
  // The topic lists that fix what each slot means
  // ---------------------------------------------------------------------------

  /** The three production or consumption topics of one firmware generation. */
  function Triple(prefix: string, dir: string, kind: string, suffix: string): seq<string> {
    [prefix + dir + "DHW_" + kind + suffix, prefix + dir + "Heat_" + kind + suffix, prefix + dir + "Cool_" + kind + suffix]
  }

  function ProductionTopics(prefix: string): seq<string> {
    Triple(prefix, "extra/", "Power_Production", "_Extra")
    + Triple(prefix, "extra/", "Power_Production", "")
    + Triple(prefix, "main/", "Power_Production", "")
    + Triple(prefix, "main/", "Energy_Production", "")
  }

  function ConsumptionTopics(prefix: string): seq<string> {
    Triple(prefix, "extra/", "Power_Consumption", "_Extra")
    + Triple(prefix, "extra/", "Power_Consumption", "")
    + Triple(prefix, "main/", "Power_Consumption", "")
    + Triple(prefix, "main/", "Energy_Consumption", "")
  }

  function CopTopics(prefix: string): seq<string> {
    [prefix + "main/Defrosting_State"]
    + Triple(prefix, "main/", "Power_Production", "")
    + Triple(prefix, "main/", "Power_Consumption", "")
    + Triple(prefix, "main/", "Energy_Production", "")
    + Triple(prefix, "main/", "Energy_Consumption", "")
    + Triple(prefix, "extra/", "Power_Production", "")
    + Triple(prefix, "extra/", "Power_Consumption", "")
    + Triple(prefix, "extra/", "Power_Production", "_Extra")
    + Triple(prefix, "extra/", "Power_Consumption", "_Extra")
  }

  /** The slots of a sensor whose topics have last carried `reading(topic)`. */
  function SlotsOf(topics: seq<string>, reading: string -> Option<real>): (s: Slots)
    ensures |s| == |topics|
    ensures forall i :: 0 <= i < |topics| ==> s[i] == reading(topics[i])
  {
    seq(|topics|, i requires 0 <= i < |topics| => reading(topics[i]))
  }

  /**
   * The COP slices pick out the production and consumption topics in the same
   * priority order as the two total sensors.
   */
  lemma CopSlicesFollowTotals(prefix: string)
    ensures |CopTopics(prefix)| == 25 && CopTopics(prefix)[0] == prefix + "main/Defrosting_State"
    ensures var v := CopTopics(prefix)[1..];
      v[18..21] + v[12..15] + v[0..3] + v[6..9] == ProductionTopics(prefix)
    ensures var v := CopTopics(prefix)[1..];
      v[21..24] + v[15..18] + v[3..6] + v[9..12] == ConsumptionTopics(prefix)
  {
    var a := Triple(prefix, "main/", "Power_Production", "");
    var b := Triple(prefix, "main/", "Power_Consumption", "");
    var c := Triple(prefix, "main/", "Energy_Production", "");
    var d := Triple(prefix, "main/", "Energy_Consumption", "");
    var e := Triple(prefix, "extra/", "Power_Production", "");
    var f := Triple(prefix, "extra/", "Power_Consumption", "");
    var g := Triple(prefix, "extra/", "Power_Production", "_Extra");
    var h := Triple(prefix, "extra/", "Power_Consumption", "_Extra");
    var v := CopTopics(prefix)[1..];
    assert v == a + b + c + d + e + f + g + h;
    assert v[0..3] == a && v[3..6] == b && v[6..9] == c && v[9..12] == d;
    assert v[12..15] == e && v[15..18] == f && v[18..21] == g && v[21..24] == h;
  }

  lemma SlotsOfSlice(topics: seq<string>, reading: string -> Option<real>, i: nat, j: nat)
    requires i <= j <= |topics|
    ensures SlotsOf(topics, reading)[i..j] == SlotsOf(topics[i..j], reading)
  {
  }

  lemma SlotsOfConcat(a: seq<string>, b: seq<string>, reading: string -> Option<real>)
    ensures SlotsOf(a, reading) + SlotsOf(b, reading) == SlotsOf(a + b, reading)
  {
  }

  /**
   * Whenever the COP sensor and the two total sensors have seen the same
   * messages and defrost is off, the COP is the guarded ratio of the totals
   * the other two sensors display.
   */
  lemma CopAgreesWithTotals(prefix: string, reading: string -> Option<real>, defrost: Option<real> -> bool)
    requires !defrost(reading(prefix + "main/Defrosting_State"))
    ensures ComputeCop(SlotsOf(CopTopics(prefix), reading), defrost)
      == Success(CopOf(ExtractSum(SlotsOf(ProductionTopics(prefix), reading)),
                       ExtractSum(SlotsOf(ConsumptionTopics(prefix), reading))))
  {
    var t := CopTopics(prefix);
    CopSlicesFollowTotals(prefix);
    var s := SlotsOf(t, reading);
    var v := s[1..];
    var tv := t[1..];
    SlotsOfSlice(t, reading, 1, 25);
    assert v == SlotsOf(tv, reading);
    SlotsOfSlice(tv, reading, 18, 21);
    SlotsOfSlice(tv, reading, 12, 15);
    SlotsOfSlice(tv, reading, 0, 3);
    SlotsOfSlice(tv, reading, 6, 9);
    SlotsOfSlice(tv, reading, 21, 24);
    SlotsOfSlice(tv, reading, 15, 18);
    SlotsOfSlice(tv, reading, 3, 6);
    SlotsOfSlice(tv, reading, 9, 12);
    SlotsOfConcat(tv[18..21], tv[12..15], reading);
    SlotsOfConcat(tv[18..21] + tv[12..15], tv[0..3], reading);
    SlotsOfConcat(tv[18..21] + tv[12..15] + tv[0..3], tv[6..9], reading);
    SlotsOfConcat(tv[21..24], tv[15..18], reading);
    SlotsOfConcat(tv[21..24] + tv[15..18], tv[3..6], reading);
    SlotsOfConcat(tv[21..24] + tv[15..18] + tv[3..6], tv[9..12], reading);
    assert ProductionSlots(v) == SlotsOf(ProductionTopics(prefix), reading);
    assert ConsumptionSlots(v) == SlotsOf(ConsumptionTopics(prefix), reading);
  }

  // ---------------------------------------------------------------------------
  // The sensor entity
  // ---------------------------------------------------------------------------

  /** The `compute_state` a description carries. */
  datatype Combiner = SumOfFirstGroup | Cop(defrost: Option<real> -> bool)

  function Compute(c: Combiner, values: Slots): Result<real, Exception> {
    match c
    case SumOfFirstGroup => Success(ExtractSum(values))
    case Cop(defrost) => ComputeCop(values, defrost)
  }

  /** `topics.index(topic)`: the first position of `topic`. */
  function IndexOf(topics: seq<string>, topic: string): (i: nat)
    requires topic in topics
    ensures i < |topics| && topics[i] == topic
    ensures forall j :: 0 <= j < i ==> topics[j] != topic
  {
    if topics[0] == topic then 0 else 1 + IndexOf(topics[1..], topic)
  }

  /** `MultiMQTTSensorEntity`: the slot vector and the value it displays. */
  class MultiMqttSensor {
    const topics: seq<string>
    const combine: Combiner
    const receivedValues: array<Option<real>>
    var nativeValue: Option<real>

    ghost predicate Valid()
      reads this
    {
      |topics| > 0 && receivedValues.Length == |topics|
    }

    constructor Init(topics: seq<string>, combine: Combiner)
      requires |topics| > 0
      ensures Valid() && this.topics == topics && this.combine == combine
      ensures forall i :: 0 <= i < receivedValues.Length ==> receivedValues[i].None?
      ensures nativeValue.None? && fresh(receivedValues)
    {
      this.topics := topics;
      this.combine := combine;
      receivedValues := new Option<real>[|topics|](_ => None);
      nativeValue := None;
    }

    /** `__init__`: a missing or empty topic list raises `ValueError`. */
    static method Create(topics: Option<seq<string>>, combine: Combiner) returns (r: Result<MultiMqttSensor, Exception>)
      ensures (topics.None? || |topics.value| == 0) <==> r == Failure(ValueError)
      ensures r.Success? ==> fresh(r.value) && fresh(r.value.receivedValues) && r.value.Valid()
      ensures r.Success? ==> r.value.topics == topics.value && r.value.combine == combine && r.value.nativeValue.None?
      ensures r.Success? ==> forall i :: 0 <= i < |topics.value| ==> r.value.receivedValues[i].None?
    {
      if topics.None? || |topics.value| == 0 {
        return Failure(ValueError);
      }
      var s := new MultiMqttSensor.Init(topics.value, combine);
      return Success(s);
    }

    /**
     * `message_received`: an unknown topic raises `ValueError` at `.index`, a
     * payload `float()` rejects raises before the slot is touched; otherwise
     * exactly the topic's slot is overwritten and the value recomputed from the
     * whole vector. If the recomputation raises, the slot stays written and
     * the displayed value is unchanged.
     */
    method MessageReceived(topic: string, payload: Option<real>) returns (r: Result<(), Exception>)
      requires Valid()
      modifies receivedValues, this
      ensures Valid()
      ensures topic !in topics ==> r == Failure(ValueError) && receivedValues[..] == old(receivedValues[..]) && nativeValue == old(nativeValue)
      ensures topic in topics && payload.None? ==> r == Failure(ValueError) && receivedValues[..] == old(receivedValues[..]) && nativeValue == old(nativeValue)
      ensures topic in topics && payload.Some? ==>
        && receivedValues[..] == old(receivedValues[..])[IndexOf(topics, topic) := payload]
        && var c := Compute(combine, receivedValues[..]);
           (c.Success? ==> r == Success(()) && nativeValue == Some(c.value))
           && (c.Failure? ==> r == Failure(c.error) && nativeValue == old(nativeValue))
    {
      if topic !in topics {
        return Failure(ValueError);
      }
      var index := IndexOf(topics, topic);
      if payload.None? {
        return Failure(ValueError);
      }
      receivedValues[index] := payload;
      var c := Compute(combine, receivedValues[..]);
      if c.Failure? {
        return Failure(c.error);
      }
      nativeValue := Some(c.value);
      return Success(());
    }
  }
}
