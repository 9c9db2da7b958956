/** The popup's state and its two handlers: the form's submit handler and
    `handleResponse`, run when the background worker replies. */
module Popup {
  import opened JsValues
  import opened Text
  import opened Validation
  import opened Submission
  import opened Response

  /** The result panel: hidden until a reading arrives, then showing the
      last reading written into it. */
  datatype Panel = Hidden | Showing(reading: Reading)

  /** Each message as one error paragraph. */
  function Paragraphs(messages: seq<string>): (ps: seq<JsValue>)
    ensures |ps| == |messages|
    ensures forall i :: 0 <= i < |ps| ==> ps[i] == Str(messages[i])
  {
    if messages == [] then [] else [Str(messages[0])] + Paragraphs(messages[1..])
  }

  /** Every request the popup sends names an allowed endpoint and a trimmed
      region code that `validateRegionCode` accepts. */
  predicate ValidRequest(p: Payload) {
    && p.action == FetchAction
    && p.dataType in AllowedDataTypes
    && p.region != [] && Trimmed(p.region)
    && ValidateRegionCode(Str(p.region))
  }

  class Popup {
    /** The region field's text. */
    var regionValue: string
    /** The data-type selector's value. */
    var dataTypeValue: string
    /** The paragraphs of the error area, in order. */
    var errors: seq<JsValue>
    /** Whether the loading indicator is shown. */
    var loading: bool
    /** The requests sent to the background worker so far, oldest first. */
    var sent: seq<Payload>
    /** The result panel. */
    var panel: Panel

    /** The popup never sends a request that fails either check. */
    predicate Valid()
      reads this
    {
      forall i :: 0 <= i < |sent| ==> ValidRequest(sent[i])
    }

    constructor (region: string, dataType: string)
      ensures Valid()
      ensures regionValue == region && dataTypeValue == dataType
      ensures errors == [] && !loading && sent == [] && panel == Hidden
    {
      regionValue := region;
      dataTypeValue := dataType;
      errors := [];
      loading := false;
      sent := [];
      panel := Hidden;
    }

    /** The user types into the region field. */
    method EditRegion(text: string)
      modifies this
      ensures regionValue == text
      ensures dataTypeValue == old(dataTypeValue) && errors == old(errors) && loading == old(loading)
      ensures sent == old(sent) && panel == old(panel)
    {
      regionValue := text;
    }

    /** The user picks a data type. */
    method SelectDataType(value: string)
      modifies this
      ensures dataTypeValue == value
      ensures regionValue == old(regionValue) && errors == old(errors) && loading == old(loading)
      ensures sent == old(sent) && panel == old(panel)
    {
      dataTypeValue := value;
    }

    /** The form's submit handler: clear the error area, check both fields,
        then either write one paragraph per failed check or show the loading
        indicator and send the request. */
    method Submit()
      requires Valid()
      modifies this
      ensures Valid()
      ensures regionValue == old(regionValue) && dataTypeValue == old(dataTypeValue) && panel == old(panel)
      ensures var d := Decide(dataTypeValue, regionValue);
        match d
        case Blocked(messages) => errors == Paragraphs(messages) && loading == old(loading) && sent == old(sent)
        case Send(payload) => errors == [] && loading && sent == old(sent) + [payload]
    {
      errors := [];
      var dataType, region := dataTypeValue, regionValue;
      var dataTypeOk := ValidateDataType(Str(dataType));
      var regionOk := ValidateRegionCode(Str(region));
      if !dataTypeOk || !regionOk {
        ReportInvalid(regionOk, dataTypeOk);
        assert dataTypeValue == dataType && regionValue == region && loading == old(loading);
      } else {
        errors := [];
        loading := true;
        var payload := Payload(FetchAction, dataType, Trim(region));
        SentPayloadValid(dataType, region);
        sent := sent + [payload];
      }
    }

    /** The blocked branch of the submit handler: one paragraph for an invalid
        region, then one for an invalid data type, after what the error area
        already holds. */
    method ReportInvalid(regionOk: bool, dataTypeOk: bool)
      modifies this`errors
      ensures errors == old(errors) + Paragraphs(BlockErrors(regionOk, dataTypeOk))
    {
      if !regionOk {
        errors := errors + [Str(RegionMessage)];
      }
      if !dataTypeOk {
        errors := errors + [Str(DataTypeMessage)];
      }
      assert Paragraphs(BlockErrors(regionOk, dataTypeOk)) == errors[|old(errors)|..];
    }

    /** `handleResponse`: hide the loading indicator, then either replace the
        error area's text with one message or show the reading. The zone's
        fallback uses the region field's text when the reply arrives. */
    method HandleResponse(response: JsValue)
      requires Valid()
      modifies this
      ensures Valid()
      ensures !loading
      ensures regionValue == old(regionValue) && dataTypeValue == old(dataTypeValue) && sent == old(sent)
      ensures match Classify(response, regionValue)
        case ShowError(message) => errors == [message] && panel == old(panel)
        case Show(reading) => errors == old(errors) && panel == Showing(reading)
    {
      loading := false;
      if IsFalsy(response) {
        errors := [Str(NoResponseMessage)];
        return;
      }
      if IsFalsy(Get(response, "ok")) {
        errors := [Or(Get(response, "error"), Str(FailedMessage))];
        return;
      }
      var json := PayloadOf(response);
      var zone := ZoneOf(json, regionValue);
      var carbon := CarbonOf(json);
      var fossil := FossilOf(json);
      panel := Showing(Reading(zone, carbon, fossil));
    }
  }

  /** A valid region with no data type selected: only the data-type message
      is shown and nothing is sent. */
  method BlankDataTypeScenario() returns (shown: seq<JsValue>, requests: nat)
    ensures shown == [Str(DataTypeMessage)] && requests == 0
  {
    var popup := new Popup("US-NEISO", "");
    BlankDataTypeBlocked();
    popup.Submit();
    shown, requests := popup.errors, |popup.sent|;
  }

  /** The region is edited while a request is pending, and the reply carries
      no zone: the panel shows the edited text, not the region that was
      sent. */
  method EditWhilePendingScenario() returns (sentRegion: string, shownZone: JsValue)
    ensures sentRegion == "cm" && shownZone == Str("de")
  {
    var popup := new Popup(" cm\n", "carbon-intensity");
    PaddedRegionSent();
    popup.Submit();
    sentRegion := popup.sent[0].region;
    var edited := "de ";
    assert Trim(edited) == "de" by {
      TrimPadded([], "de", " ");
      assert [] + "de" + " " == edited;
    }
    popup.EditRegion(edited);
    var reply := Obj(map["ok" := Bool(true)]);
    EmptyReadingExample(edited);
    popup.HandleResponse(reply);
    shownZone := popup.panel.reading.zone;
  }
}
