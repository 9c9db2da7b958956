/** `handleResponse`: how the popup reads the background worker's reply.
    A missing or failed reply becomes an error text; otherwise the reading
    is picked out of the reply through fallback chains of `||` and `??`. */
module Response {
  import opened JsValues
  import opened Text

  const NoResponseMessage: string := "No response from background."
  const FailedMessage: string := "Failed to fetch data."
  /** The text shown for a field the reply does not provide. */
  const NotAvailable: JsValue := Str("N/A")

  /** The three values written into the result panel. */
  datatype Reading = Reading(zone: JsValue, carbon: JsValue, fossil: JsValue)

  /** What a reply makes the popup show: an error text, or a reading. */
  datatype Outcome = ShowError(message: JsValue) | Show(reading: Reading)

  /** `response.data || response.json || response`: the reading inside a
      successful reply. */
  function PayloadOf(response: JsValue): (json: JsValue)
    requires !IsFalsy(response)
    ensures !IsFalsy(json)
    ensures json == FirstOf(SkipFalsy, [Get(response, "data"), Get(response, "json")], response)
  {
    ChainOfThree(SkipFalsy, Get(response, "data"), Get(response, "json"), response);
    Or(Or(Get(response, "data"), Get(response, "json")), response)
  }

  /** `json.zone || json.data?.zone || region.trim()`. */
  function ZoneOf(json: JsValue, region: string): (zone: JsValue)
    requires !IsNullish(json)
    ensures zone == FirstOf(SkipFalsy, [Get(json, "zone"), OptGet(Get(json, "data"), "zone")], Str(Trim(region)))
  {
    ChainOfThree(SkipFalsy, Get(json, "zone"), OptGet(Get(json, "data"), "zone"), Str(Trim(region)));
    Or(Or(Get(json, "zone"), OptGet(Get(json, "data"), "zone")), Str(Trim(region)))
  }

  /** The candidates for the carbon intensity, in the order they are tried. */
  function CarbonCandidates(json: JsValue): seq<JsValue>
    requires !IsNullish(json)
  {
    [Get(json, "carbonIntensity"), OptGet(Get(json, "data"), "carbonIntensity"), Get(json, "mean"), Get(json, "carbon")]
  }

  /** `(json.carbonIntensity ?? json.data?.carbonIntensity ?? json.mean ??
      json.carbon) || 'N/A'`. */
  function CarbonOf(json: JsValue): (carbon: JsValue)
    requires !IsNullish(json)
    ensures !IsFalsy(carbon)
  {
    var c := CarbonCandidates(json);
    Or(Coalesce(Coalesce(Coalesce(c[0], c[1]), c[2]), c[3]), NotAvailable)
  }

  /** The candidates for the fossil-fuel share, in the order they are tried. */
  function FossilCandidates(json: JsValue): seq<JsValue>
    requires !IsNullish(json)
  {
    [Get(json, "fossilFuelPercentage"), OptGet(Get(json, "data"), "fossil"), Get(json, "fossilFuel")]
  }

  /** `json.fossilFuelPercentage ?? json.data?.fossil ?? json.fossilFuel ?? 'N/A'`. */
  function FossilOf(json: JsValue): (fossil: JsValue)
    requires !IsNullish(json)
    ensures !IsNullish(fossil)
  {
    var c := FossilCandidates(json);
    Coalesce(Coalesce(Coalesce(c[0], c[1]), c[2]), NotAvailable)
  }

  /** `handleResponse(response)` for the region field's text `region` at the
      time the reply arrives. Every property read in it is on a value that is
      neither `null` nor `undefined`, so it never throws. A successful reply
      shows the zone, carbon and fossil chains read from
      `data || json || response`. */
  function Classify(response: JsValue, region: string): (o: Outcome)
    ensures IsFalsy(response) ==> o == ShowError(Str(NoResponseMessage))
    ensures o.Show? <==> !IsFalsy(response) && !IsFalsy(Get(response, "ok"))
    ensures o.ShowError? ==> !IsFalsy(o.message)
    ensures o.Show? ==> !IsFalsy(o.reading.carbon) && !IsNullish(o.reading.fossil)
    ensures o.Show? ==> !IsFalsy(o.reading.zone) || o.reading.zone == Str(Trim(region))
    ensures !IsFalsy(response) && !IsFalsy(Get(response, "ok")) ==>
      var json := PayloadOf(response);
      o == Show(Reading(ZoneOf(json, region), CarbonOf(json), FossilOf(json)))
  {
    if IsFalsy(response) then ShowError(Str(NoResponseMessage))
    else if IsFalsy(Get(response, "ok")) then ShowError(Or(Get(response, "error"), Str(FailedMessage)))
    else
      var json := PayloadOf(response);
      Show(Reading(ZoneOf(json, region), CarbonOf(json), FossilOf(json)))
  }

  // ---------------------------------------------------------------------
  // The fallback chains

  /** The carbon intensity is the first candidate that is not nullish, unless
      that is falsy (`0`, `""`, `false`) or there is none: then it is `"N/A"`. */
  lemma CarbonFallback(json: JsValue)
    requires !IsNullish(json)
    ensures var c := CarbonCandidates(json);
      var first := FirstOf(SkipNullish, c[..3], c[3]);
      CarbonOf(json) == if IsFalsy(first) then NotAvailable else first
  {
    var c := CarbonCandidates(json);
    ChainOfFour(SkipNullish, c[0], c[1], c[2], c[3]);
    assert c[..3] == [c[0], c[1], c[2]];
  }

  /** The fossil-fuel share is the first candidate that is not nullish,
      whatever its value, and `"N/A"` when there is none. */
  lemma FossilFallback(json: JsValue)
    requires !IsNullish(json)
    ensures FossilOf(json) == FirstOf(SkipNullish, FossilCandidates(json), NotAvailable)
  {
    var c := FossilCandidates(json);
    ChainOfFour(SkipNullish, c[0], c[1], c[2], NotAvailable);
    assert c == [c[0], c[1], c[2]];
  }

  /** A carbon intensity of `0` (or `""`, or `false`) is shown as `"N/A"`,
      even when a later candidate holds a number: the `??` chain stops at the
      first non-nullish value, and the `|| 'N/A'` around it then drops it. */
  lemma FalsyCarbonShownAsNotAvailable(json: JsValue)
    requires !IsNullish(json)
    requires !IsNullish(Get(json, "carbonIntensity")) && IsFalsy(Get(json, "carbonIntensity"))
    ensures CarbonOf(json) == NotAvailable
  {
  }

  /** A fossil-fuel share of `0` is kept: the `??` chain alone decides it. */
  lemma ZeroFossilKept(json: JsValue)
    requires !IsNullish(json)
    requires Get(json, "fossilFuelPercentage") == Num(0.0)
    ensures FossilOf(json) == Num(0.0)
  {
  }

  /** A failed reply shows its own error when that is truthy, and the generic
      message otherwise. */
  lemma FailureMessage(response: JsValue, region: string)
    requires !IsFalsy(response) && IsFalsy(Get(response, "ok"))
    ensures var e := Get(response, "error");
      Classify(response, region) == ShowError(if IsFalsy(e) then Str(FailedMessage) else e)
  {
  }

  // ---------------------------------------------------------------------
  // Examples

  /** Replies that show an error. */
  lemma ErrorExamples(region: string)
    ensures Classify(Undefined, region) == ShowError(Str(NoResponseMessage))
    ensures Classify(Null, region) == ShowError(Str(NoResponseMessage))
    ensures Classify(Obj(map[]), region) == ShowError(Str(FailedMessage))
    ensures Classify(Obj(map["ok" := Bool(false), "error" := Str("quota")]), region) == ShowError(Str("quota"))
    ensures Classify(Obj(map["ok" := Bool(false), "error" := Str("")]), region) == ShowError(Str(FailedMessage))
  {
  }

  /** A reading nested under `data`: its zone and carbon intensity are shown,
      and the missing fossil-fuel share reads `"N/A"`. */
  lemma NestedReadingExample(region: string)
    ensures var reading := Obj(map["zone" := Str("FR"), "carbonIntensity" := Num(42.0)]);
      Classify(Obj(map["ok" := Bool(true), "data" := reading]), region)
        == Show(Reading(Str("FR"), Num(42.0), NotAvailable))
  {
  }

  /** A successful reply with no reading at all: the zone falls back to the
      trimmed region text, as typed, and both figures read `"N/A"`. */
  lemma EmptyReadingExample(region: string)
    ensures Classify(Obj(map["ok" := Bool(true)]), region)
              == Show(Reading(Str(Trim(region)), NotAvailable, NotAvailable))
  {
  }

  /** A zero carbon intensity reads `"N/A"` while a zero fossil-fuel share
      reads `0`. */
  lemma ZeroReadingExample(region: string)
    ensures var reading := map["ok" := Bool(true), "zone" := Str("DE"),
                               "carbonIntensity" := Num(0.0), "fossilFuelPercentage" := Num(0.0)];
      Classify(Obj(reading), region) == Show(Reading(Str("DE"), NotAvailable, Num(0.0)))
  {
  }
}
