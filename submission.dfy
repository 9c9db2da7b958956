/** What the popup's submit handler decides once both fields are checked:
    block the submission and list what is wrong, or build the message it
    sends to the background worker. */
module Submission {
  import opened JsValues
  import opened Text
  import opened RegionCode
  import opened Validation

  const RegionMessage: string := "Region code invalid. Use formats like \"US-NEISO\" or \"CM\"."
  const DataTypeMessage: string := "Please select a valid data type."
  const FetchAction: string := "fetchCarbon"

  /** The `{action, data_type, region}` message sent on a valid submission. */
  datatype Payload = Payload(action: string, dataType: string, region: string)

  /** The submission is either blocked with the error paragraphs it shows,
      in order, or goes ahead with a payload. */
  datatype Decision = Blocked(errors: seq<string>) | Send(payload: Payload)

  /** The error paragraphs of a blocked submission: the region message first
      when the region is invalid, then the data-type message when the data
      type is invalid. */
  function BlockErrors(regionOk: bool, dataTypeOk: bool): (errors: seq<string>)
    ensures |errors| <= 2
    ensures RegionMessage in errors <==> !regionOk
    ensures DataTypeMessage in errors <==> !dataTypeOk
    ensures errors != [] ==> errors[0] == (if regionOk then DataTypeMessage else RegionMessage)
    ensures !regionOk && !dataTypeOk ==> errors == [RegionMessage, DataTypeMessage]
  {
    (if regionOk then [] else [RegionMessage]) + (if dataTypeOk then [] else [DataTypeMessage])
  }

  /** The submit handler's verdict on the select's value `dataType` and the
      region field's text `region`. */
  function Decide(dataType: string, region: string): (d: Decision)
    ensures d.Send? <==> ValidateDataType(Str(dataType)) && ValidateRegionCode(Str(region))
    ensures d.Blocked? ==> 1 <= |d.errors| <= 2
    ensures d.Blocked? ==> (RegionMessage in d.errors <==> !ValidateRegionCode(Str(region)))
    ensures d.Blocked? ==> (DataTypeMessage in d.errors <==> !ValidateDataType(Str(dataType)))
    ensures d.Send? ==> d.payload.action == FetchAction && d.payload.dataType == dataType
  {
    var dataTypeOk := ValidateDataType(Str(dataType));
    var regionOk := ValidateRegionCode(Str(region));
    if !dataTypeOk || !regionOk then Blocked(BlockErrors(regionOk, dataTypeOk))
    else Send(Payload(FetchAction, dataType, Trim(region)))
  }

  /** Exactly one paragraph when exactly one check fails, two when both do. */
  lemma ErrorCount(dataType: string, region: string)
    ensures var d := Decide(dataType, region);
      var regionOk, dataTypeOk := ValidateRegionCode(Str(region)), ValidateDataType(Str(dataType));
      && (regionOk != dataTypeOk <==> d.Blocked? && |d.errors| == 1)
      && (!regionOk && !dataTypeOk <==> d == Blocked([RegionMessage, DataTypeMessage]))
  {
  }

  /** A payload that is sent names an allowed endpoint, and its region is the
      trimmed field text: not blank, without surrounding white space, not
      upper-cased, and itself accepted by `validateRegionCode`. */
  lemma SentPayloadValid(dataType: string, region: string)
    requires Decide(dataType, region).Send?
    ensures var p := Decide(dataType, region).payload;
      && p.dataType in AllowedDataTypes
      && p.region == Trim(region) && p.region != [] && Trimmed(p.region)
      && ValidateRegionCode(Str(p.region))
  {
    AcceptedRegionTrimmed(region);
  }

  /** A blank data type with a valid region shows only the data-type message. */
  lemma BlankDataTypeBlocked()
    ensures Decide("", "US-NEISO") == Blocked([DataTypeMessage])
  {
    RegionAcceptsNeiso();
  }

  /** Both fields wrong: the region message comes first. */
  lemma BothWrongBlocked()
    ensures Decide("electricity", "USA") == Blocked([RegionMessage, DataTypeMessage])
  {
    RegionRejectsUsaAndDash();
  }

  /** A padded lower-case region goes out trimmed but still in lower case. */
  lemma PaddedRegionSent()
    ensures Decide("carbon-intensity", " cm\n") == Send(Payload(FetchAction, "carbon-intensity", "cm"))
  {
    RegionAcceptsPadded();
    TrimPadded(" ", "cm", "\n");
    assert " " + "cm" + "\n" == " cm\n";
  }
}
