# Carbon-intensity popup: validation and response handling

This project models the logic of the browser-extension popup in
`src/index.js`. The popup asks for a region code (such as `US-NEISO` or
`CM`) and a data type (`carbon-intensity` or `electricity-mix`). It checks
both fields and then either shows error paragraphs or sends a
`{action: "fetchCarbon", data_type, region}` request to the extension's
background worker. When the reply arrives, `handleResponse` shows an error
text or a reading made of a zone, a carbon intensity and a fossil-fuel share.

The model has seven modules, one per concern of the source:

- `JsValues` (`js_values.dfy`) holds the JavaScript values the popup
  handles. It gives the truthiness rules of `||`, the nullishness rules of
  `??` and `?.`, and property access. A property read on `null` or
  `undefined` throws in JavaScript, so here it is a precondition. It also
  defines a reference meaning for a left-associated fallback chain ("the
  first candidate the operator keeps, else the last operand") and proves that
  evaluating the chain operator by operator agrees with it.
- `Text` (`text.dfy`) holds `String.prototype.trim` over ECMAScript's white
  space and line terminators, and `String.prototype.toUpperCase`. It defines
  the normal form `value.trim().toUpperCase()` that `validateRegionCode`
  matches.
- `RegionCode` (`region_code.dfy`) holds the pattern
  `^[A-Z]{2}(?:-[A-Z0-9]+)*$` in three forms:
  - a grammar: two capitals, then `-`-led groups;
  - a recogniser that reads each character once;
  - a list of shape conditions.

  All three are proved to agree.
- `Validation` (`validation.dfy`) holds `validateDataType` and
  `validateRegionCode`, with their meaning, their invariance under case and
  padding, and the examples from the source's comments.
- `Submission` (`submission.dfy`) holds the submit handler's decision:
  - the ordered error paragraphs of a blocked submission;
  - otherwise the payload.
- `Response` (`response.dfy`) holds `handleResponse`'s classification of
  the reply and its three field-extraction chains.
- `Popup` (`popup.dfy`) is a class whose fields are the state the handlers
  change:
  - the two input values
  - the error area's paragraphs
  - the loading indicator
  - the requests sent so far
  - the result panel

  The methods `Submit` and `HandleResponse` perform the handlers' steps in
  order. Their contracts tie the new state to `Decide` and `Classify`. Both
  keep the invariant that every request sent passes both checks.

The carbon intensity is shown as the code at `src/index.js:116` computes it:
the `??` chain is wrapped in `|| 'N/A'`, so a falsy value such as `0` or
`""` becomes `"N/A"`. `Response.FalsyCarbonShownAsNotAvailable` and
`Response.ZeroReadingExample` state this. A fossil-fuel share of `0` is kept
(`Response.ZeroFossilKept`), because line 117 has no such wrapper.

Two more behaviours follow from the code as written and are proved:

- The zone fallback in `handleResponse` reads the region field again when
  the reply arrives (`src/index.js:115`). It does not use the region that was
  sent. An edit made while the request is pending therefore shows up as the
  zone (`Popup.EditWhilePendingScenario`).
- The payload's region is trimmed but keeps its case (`src/index.js:100`). A
  field holding `" cm\n"` sends `"cm"` (`Submission.PaddedRegionSent`).

## Model

| member | source | states |
|---|---|---|
| `Validation.ValidateDataType` | src/index.js:16-19 | accepts exactly the strings `"carbon-intensity"` and `"electricity-mix"`; every other string and every non-string is rejected |
| `Validation.DataTypeExamples` | src/index.js:16-19 | the two endpoint names pass; `""`, a differently cased name, `undefined` and `null` fail |
| `Validation.ValidateRegionCode` | src/index.js:23-28 | an accepted value is a string that is not blank once trimmed; `RegionCheckMeaning` gives the exact set |
| `Validation.RegionCheckMeaning` | src/index.js:23-28 | `validateRegionCode(v)` holds iff `v` is a string whose trimmed, upper-cased form is two capitals followed by `-`-led groups of capitals and digits, given both as the grammar and as the shape conditions |
| `Validation.RegionVerdictOfNormalForm` | src/index.js:23-28 | checking `upper(trim(s))` gives the same verdict as checking `s` |
| `Validation.RegionVerdictIgnoresCaseAndPadding` | src/index.js:23-28 | two inputs that agree once upper-cased get the same verdict, whatever white space surrounds either |
| `Validation.AcceptedRegionShape` | src/index.js:23-28 | the normal form of an accepted input has length 2 or at least 4, starts with two letters, has no `--` and does not end in `-` |
| `Validation.AcceptedRegionTrimmed` | src/index.js:23-28 | an accepted input is not blank, and its trimmed form is accepted too |
| `Validation.RegionAcceptsNeiso` | src/index.js:21-28 | `"US-NEISO"` is accepted |
| `Validation.RegionAcceptsLowerCase` | src/index.js:21-28 | `"cm"` is accepted |
| `Validation.RegionAcceptsPadded` | src/index.js:23-28 | `" cm\n"` is accepted |
| `Validation.RegionAcceptsSharpS` | src/index.js:23-28 | a single `"\u00DF"` is accepted, because `toUpperCase()` turns it into `"SS"` |
| `Validation.RegionRejectsUsaAndDash` | src/index.js:23-28 | `"USA"` and `"US-"` are rejected |
| `Validation.RegionRejectsEmptyAndDoubleDash` | src/index.js:23-28 | `""`, `"US--X"`, `undefined` and a number are rejected |
| `Text.Trim` | src/index.js:25 | the result has no white space at either end and is no longer than the input |
| `Text.TrimSplit` | src/index.js:25 | the input is white space, then the trimmed result, then white space |
| `Text.TrimPadded` | src/index.js:25 | trimming white space around a string with no white space at its ends returns that string |
| `Text.TrimIdempotent` | src/index.js:25 | trimming twice is trimming once |
| `Text.TrimIgnoresPadding` | src/index.js:25 | white space added around a string does not change what trimming returns |
| `Text.UpperChar` | src/index.js:25 | `a`-`z` become `A`-`Z`; no ASCII lower-case letter is ever produced; never empty; white space, capitals, digits and `-` are unchanged; a non-white character never becomes white space |
| `Text.UpperHasNoLower` | src/index.js:25 | an upper-cased string holds no ASCII lower-case letter |
| `Text.UpperOfAscii` | src/index.js:25 | on ASCII letters, digits and dashes, upper-casing keeps the length and maps each lower-case letter to its capital and every other character to itself |
| `Text.UpperCharIdempotent` | src/index.js:25 | every character `UpperChar` produces is left unchanged by a second upper-casing |
| `Text.Upper` | src/index.js:25 | the result is at least as long as the input |
| `Text.UpperAppend` | src/index.js:25 | upper-casing distributes over concatenation |
| `Text.UpperIdempotent` | src/index.js:25 | upper-casing twice is upper-casing once |
| `Text.UpperTrimCommute` | src/index.js:25 | trimming then upper-casing equals upper-casing then trimming |
| `Text.Normalize` | src/index.js:25 | the normal form has no white space at either end |
| `Text.NormalizeIdempotent` | src/index.js:25 | the normal form of a normal form is itself |
| `Text.NormalizeIgnoresCaseAndPadding` | src/index.js:25 | inputs that agree once upper-cased have the same normal form whatever padding surrounds them |
| `Text.NormalOfCapitals` | src/index.js:25 | a trimmed string of capitals, digits and dashes is its own normal form |
| `RegionCode.Scan` | src/index.js:26 | from any state, an accepted remainder never ends in `-`; at the start, after the first letter or after a `-`, it is not empty |
| `RegionCode.Matches` | src/index.js:26-27 | an accepted string has at least two characters, starts with two capitals and does not end in `-`; `MatchesIffPattern` and `MatchesIffWellShaped` give the exact set |
| `RegionCode.MatchesIffPattern` | src/index.js:26 | the recogniser accepts exactly the two-letters-then-groups grammar |
| `RegionCode.MatchesIffWellShaped` | src/index.js:26 | the recogniser accepts exactly the strings meeting the shape conditions |
| `RegionCode.SegmentIsGroupTail` | src/index.js:26 | inside a group the recogniser accepts exactly capitals, digits and single dashes not at the end |
| `RegionCode.AcceptedSplits` | src/index.js:26 | what the recogniser accepts after the country code splits into groups |
| `RegionCode.GroupsAccepted` | src/index.js:26 | every sequence of groups is accepted after the country code |
| `RegionCode.AcceptedShape` | src/index.js:26 | an accepted code has length 2 or at least 4, two leading letters, only capitals, digits and dashes, no `--`, no trailing `-` |
| `RegionCode.Examples` | src/index.js:21-27 | `US-NEISO`, `CM`, `DE`, `US-CAL-CISO` match; `USA`, `US-`, `""`, `US--X`, `cm`, `U`, `-US` do not |
| `Submission.BlockErrors` | src/index.js:66-77 | at most two paragraphs; the region message is present iff the region is invalid, the data-type message iff the data type is invalid, and the region message comes first |
| `Submission.Decide` | src/index.js:61-101 | the request is sent iff both checks pass; a blocked submission has one or two messages, each present iff its check failed; a sent payload has action `fetchCarbon` and the select's exact value |
| `Submission.ErrorCount` | src/index.js:66-77 | exactly one message iff exactly one check fails; `[region message, data-type message]` iff both fail |
| `Submission.SentPayloadValid` | src/index.js:97-101 | a sent payload names an allowed endpoint, and its region is the trimmed field text: not blank, with no white space at its ends, and accepted by the region check |
| `Submission.BlankDataTypeBlocked` | src/index.js:63-77 | no data type with region `US-NEISO` gives only the data-type message |
| `Submission.BothWrongBlocked` | src/index.js:66-77 | both fields wrong gives the region message, then the data-type message |
| `Submission.PaddedRegionSent` | src/index.js:97-101 | region `" cm\n"` is sent as `"cm"`: trimmed and not upper-cased |
| `JsValues.Get` | src/index.js:109-117 | reading a property of a value that is neither `null` nor `undefined` gives the object's own field, or `undefined` when it has none; on `null` or `undefined` it is not defined, as the read throws |
| `JsValues.IsNullish` | src/index.js:105-117 | no contract, only the definition: `undefined` and `null` are nullish, every other value is not |
| `JsValues.IsFalsy` | src/index.js:105-117 | no contract, only the definition: `undefined`, `null`, `false`, `0` and `""` are falsy; every other boolean, number and string, and every array and object, is truthy; `NaN` is not represented |
| `JsValues.OptGet` | src/index.js:115-117 | `?.` gives `undefined` on `null` or `undefined`, and the plain property read otherwise; its result is nullish iff the receiver is not an object with that field or the field itself is nullish |
| `JsValues.Or` | src/index.js:110-116 | the logical or of `a` and `b` is `a` unless `a` is falsy, and then `b`; it is falsy iff both operands are |
| `JsValues.Coalesce` | src/index.js:116-117 | `a ?? b` is `a` unless `a` is `null` or `undefined`, and then `b`; it is nullish iff both operands are |
| `JsValues.FirstKept` | src/index.js:113-117 | the position of the first candidate a chain keeps: every earlier one is skipped, and the one there is kept |
| `JsValues.ChainIsFirstOf` | src/index.js:113-117 | a left-associated chain of logical-or or nullish-coalescing operators evaluates to the first candidate it keeps, or to its last operand |
| `JsValues.ChainOfThree` | src/index.js:113-115 | the three-operand chains of lines 113 and 115 return the first kept of the first two operands, else the third |
| `JsValues.ChainOfFour` | src/index.js:116-117 | the four-operand chains of lines 116 and 117 return the first kept of the first three operands, else the fourth |
| `Response.PayloadOf` | src/index.js:113 | the reading is `data` if truthy, else `json` if truthy, else the reply itself; it is never falsy |
| `Response.ZoneOf` | src/index.js:115 | the zone is the first truthy of `json.zone` and `json.data?.zone`, else the trimmed region text |
| `Response.CarbonOf` | src/index.js:116 | the carbon intensity shown is never falsy |
| `Response.CarbonFallback` | src/index.js:116 | the carbon intensity is the first non-nullish of `carbonIntensity`, `data?.carbonIntensity`, `mean`, `carbon`, replaced by `"N/A"` when that is falsy |
| `Response.FalsyCarbonShownAsNotAvailable` | src/index.js:116 | a present but falsy `carbonIntensity` (such as `0`) shows `"N/A"`, whatever later candidates hold |
| `Response.FossilOf` | src/index.js:117 | the fossil-fuel share shown is never nullish |
| `Response.FossilFallback` | src/index.js:117 | the fossil-fuel share is the first non-nullish of `fossilFuelPercentage`, `data?.fossil`, `fossilFuel`, else `"N/A"` |
| `Response.ZeroFossilKept` | src/index.js:117 | a fossil-fuel share of `0` is shown as `0` |
| `Response.Classify` | src/index.js:103-117 | a falsy reply gives the no-response message; a reading is shown iff the reply and its `ok` are truthy; error texts are truthy; the carbon figure is truthy, the fossil figure non-nullish, and the zone is truthy unless it is the trimmed region text; no property is read on `null` or `undefined`; a shown reading is exactly the zone, carbon and fossil chains applied to `PayloadOf` (the first truthy of `data`, `json` and the reply) |
| `Response.FailureMessage` | src/index.js:109-112 | a reply whose `ok` is falsy shows its `error` when truthy, otherwise `"Failed to fetch data."` |
| `Response.ErrorExamples` | src/index.js:105-112 | `undefined` and `null` give the no-response message; `{}` and `{ok:false, error:""}` give the generic failure; `{ok:false, error:"quota"}` gives `"quota"` |
| `Response.NestedReadingExample` | src/index.js:113-117 | a reading under `data` with zone `FR` and intensity `42` is shown with fossil share `"N/A"` |
| `Response.EmptyReadingExample` | src/index.js:113-117 | `{ok:true}` shows the trimmed region text as the zone and `"N/A"` for both figures |
| `Response.ZeroReadingExample` | src/index.js:113-117 | zone `DE`, intensity `0` and fossil share `0` are shown as `DE`, `"N/A"` and `0` |
| `Popup.Paragraphs` | src/index.js:68-77 | one text paragraph per message, in order |
| `Popup.Popup.constructor` | src/index.js:3-11 | the popup starts with no errors, no loading indicator, no requests sent and the result panel hidden; this starting display state comes from the page's markup, which is not part of this model, and is assumed |
| `Popup.Popup.EditRegion` | src/index.js:4 | the region field holds the new text; nothing else changes |
| `Popup.Popup.SelectDataType` | src/index.js:6 | the selector holds the new value; nothing else changes |
| `Popup.Popup.Submit` | src/index.js:61-101 | a blocked submission leaves exactly `Decide`'s paragraphs in the error area and sends nothing; otherwise the error area is emptied, the loading indicator shown and `Decide`'s payload appended to the requests sent; every request sent passes both checks |
| `Popup.Popup.ReportInvalid` | src/index.js:68-77 | appends the region paragraph, then the data-type paragraph, each only when its check failed |
| `Popup.Popup.HandleResponse` | src/index.js:103-126 | the loading indicator is hidden; an error replaces the error area's text with `Classify`'s message and leaves the panel alone; a reading is shown in the panel and the error area is left alone |
| `Popup.BlankDataTypeScenario` | src/index.js:61-83 | a valid region with no data type shows only the data-type message and sends nothing |
| `Popup.EditWhilePendingScenario` | src/index.js:97-117 | `" cm\n"` is sent as `"cm"`; after the field is edited to `"de "`, a reply with no zone shows `"de"` |

## Left out

- Styling and ARIA state (`setValidity`, `clearValidity`, `src/index.js:31-46`) and the live-validation listeners (`src/index.js:49-58`) only recolour fields with verdicts already modelled.
- The clear button's listener (`src/index.js:171-178`) is not modelled. Besides resetting the fields' styling, it empties the error area (`src/index.js:175`), which the model keeps as `Popup.errors`; no method of the model performs that action.
- Which transport sends the request (`chrome.runtime`, `browser.runtime` or the direct fetch, `src/index.js:128-152`) and the rejection handlers that write `e.message || String(e)` are left out. They probe the runtime and handle asynchronous failures. The model records each request as sent and delivers replies through `HandleResponse`.
- `fetchDirect` (`src/index.js:158-168`) is left out because it is network I/O. As written it is called with one argument and returns nothing. On the paths that use it (`src/index.js:136`, `148`), `fetchDirect(payload.region).then(…)` therefore throws a TypeError: `handleResponse` never runs, the loading indicator stays shown, and the request that does go out names the endpoint `undefined`. The model covers the messaging path only, so the invariant `Popup.Popup.Valid` (every request sent passes both checks) describes the requests sent through `chrome.runtime` or `browser.runtime`.
- `dist_example/background.js` and `dist_example/webpack.config.js` are not part of this model. The first relays the request to the network, and the second is build configuration.
- The page elements are assumed to exist. The early return when the inputs or the form are missing (`src/index.js:11`) and the `if (loading)`-style guards are not modelled.
- Clearing the `.data` element (`src/index.js:95`) is not modelled, because nothing else in the popup writes or reads it.
- `textContent` converts whatever it is given to a string. The model stores the JavaScript value itself, for example a non-string `response.error`.
- Strings are sequences of Unicode code points, not UTF-16 code units. Lone surrogates are not represented.
- Text.UpperChar: upper-cases ASCII letters and the non-ASCII characters whose capitals are all ASCII: dotless i, long s, sharp s and the Latin ligatures ff, fi, fl, ffi, ffl and st. It keeps every other character unchanged, where JavaScript maps many of them to other non-ASCII capitals. The region verdict is the same either way, because the pattern accepts only ASCII.
- JSON numbers are modelled as reals. `NaN`, which JSON cannot produce, is not represented.
