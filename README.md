# Conversation relay with a parcel locator, in Dafny

This project models the two request handlers of the Express application `app.js`.

- `GET /api/parcel` is a dummy parcel tracking service. It parses the `parcel_num` query parameter with `parseInt`.
  - It answers 400 when the parameter is absent, empty or not a number.
  - It answers 404 ("unlucky") when the number is a multiple of 13.
  - Otherwise it answers with the entry at `parcel_num % 10` of a fixed list of ten places.
- `POST /api/message` relays a chat message to the conversation service.
  - It refuses to run while `WORKSPACE_ID` is unset or still the placeholder `<workspace-id>`.
  - It builds the payload, defaulting `context` and `input` to `{}`.
  - It passes a service error back with its status.
  - When the service recognised a `parcel` intent and the context holds a truthy `parcel_num`, it asks the locator. It then rewrites the first reply text in place:
    - on success, every `{0}` is replaced by the location;
    - on failure, the text becomes an error message carrying the failure body.

The modules are:

- `JsSemantics` (`js_semantics.dfy`) holds the JavaScript semantics the handlers depend on:
  - JSON values and their truthiness, and `v || {}`;
  - decimal `parseInt`;
  - `String(n)` and `"" + v`;
  - the truncating remainder `%`, which differs from Dafny's Euclidean `%` for negative dividends.
- `Placeholder` (`placeholder.dfy`) is `text.replace(/\{0\}/g, location)`. It includes the `$` patterns (`$$`, `$&`, `` $` ``, `$'`) that any JavaScript replacement string is subject to.
- `ParcelLocator` (`parcel_locator.dfy`) is the `/api/parcel` handler as a pure function `Locate` from the raw query value to a status and an optional body.
- `MessageRelay` (`message_relay.dfy`) is the `/api/message` handler.
  - The service's answer is a `ConversationResponse` object whose `text` the method `HandleMessage` mutates in place.
  - The conversation service and the loopback call to the locator are parameters: a `BackendOutcome` value, and a function from the query value to a `LookupOutcome`.
  - The composed lemmas plug `Locate` in as that function. This relies on an explicit assumption, `ClientView`: the HTTP client resolves an answer whose status is below 400 with its body, and rejects any other answer with the answer's body as `err.body`.

Two corners of the code are worth spelling out.

- **Negative parcel numbers.** `parcel_num % locations.length` uses JavaScript's truncating `%`, so a negative number gives an index in `(-10, 0]`:
  - Multiples of -10 give `-0`, which reads entry 0, "Anfield".
  - Every other negative number not divisible by 13 reads `undefined`, so the answer is a 200 with an empty body (`res.end(undefined)`).
  - `LocateNegative` and `LocateMinusFourteen` state this.
- **Empty text array.** When the lookup succeeds but `data.output.text` is an empty array, `text[0].replace` throws inside the `then` callback. The `catch` callback then writes `"Parcel lookup service returned an error: undefined"` into a new first entry. `EnrichedText` models this path.

## Model

| member | source | states |
|---|---|---|
| JsSemantics.OrEmptyObject | app.js:53-54 | defaulting a value to `{}` always gives a truthy value: the value itself when it is truthy, the empty object otherwise |
| JsSemantics.NatToString | app.js:104 | the decimal rendering of a natural number is a non-empty digit string, without a leading zero unless the number is 0, whose digit value is the number |
| JsSemantics.IntToString | app.js:104 | `String(n)` is the rendering of `n` for `n >= 0` and `-` followed by the rendering of `-n` for negative `n` |
| JsSemantics.ToJsString | app.js:70 | concatenating a number into the URL writes `String(n)`; a string is written as is |
| JsSemantics.JsRem | app.js:102 | JavaScript `a % b` for `b > 0`: equals Euclidean `%` for `a >= 0`, lies in `(-b, 0]` for `a < 0`, differs from the Euclidean remainder by exactly `b` when non-zero, and is zero exactly when `b` divides `a` |
| JsSemantics.Truthy | app.js:64 | exactly `undefined`, `null`, `false`, `0` and `""` are falsy; every array and object is truthy |
| JsSemantics.JoinElements | app.js:70 | an empty array prints as the empty string, a one-element array as its element, and a `null` or `undefined` element as nothing |
| JsSemantics.TrimStart | app.js:96 | `parseInt` skips leading white space and only that: the result is a suffix of the input, everything cut off is white space, and the result does not start with white space |
| JsSemantics.DigitRun | app.js:96 | the digits `parseInt` reads are the longest run of decimal digits at the start |
| JsSemantics.ParseSigned | app.js:96 | after the white space, a number is read exactly when a digit follows the optional sign; it is non-positive after `-` and non-negative otherwise |
| JsSemantics.ParseInt | app.js:96 | `parseInt(s)` is a number exactly when a digit follows the leading white space and the optional sign; otherwise it is NaN |
| JsSemantics.ParseIntSkipsWhiteSpace | app.js:96 | prefixing white space never changes what `parseInt` returns |
| JsSemantics.ParseIntOfPaddedNumber | app.js:96 | white space before, a `+` sign and non-digit text after a number do not change the value read |
| JsSemantics.ParseIntOfIntToString | app.js:96 | round trip: `parseInt(String(n) + rest)` is `n` for every integer `n` when `rest` does not start with a digit |
| JsSemantics.IntToStringInjective | app.js:104 | distinct integers render as distinct strings |
| Placeholder.Expand | app.js:77 | a replacement string without `$` is inserted literally |
| Placeholder.ReplaceAll | app.js:77 | a text without `{0}` is left unchanged whatever the replacement, and replacing `{0}` by `{0}` changes nothing |
| Placeholder.ReplaceAllLeavesNoToken | app.js:77 | with a non-empty replacement free of `$`, `{`, `0` and `}`, no `{0}` is left in the result |
| Placeholder.ReplaceSingleToken | app.js:77 | a text `p + "{0}" + q` with no `{` in `p` and no token in `q` becomes `p + repl + q` for a replacement without `$` |
| Placeholder.DeletionCanFormToken | app.js:77 | a replacement merely free of `{0}` is not enough: replacing in `{{0}0}` by the empty string leaves `{0}` |
| Placeholder.DollarPatternsExample | app.js:77 | `$'`, `` $` `` and `$$` in the replacement expand to the text after the match, the text before it and `$` |
| ParcelLocator.ElementAt | app.js:115 | reading `locations[i]` gives the entry inside the bounds and `undefined` outside them |
| ParcelLocator.InvalidMessage | app.js:100 | the 400 body is `"Not a valid parcel number "` followed by the raw value, or by `undefined` when the parameter is absent |
| ParcelLocator.UnluckyMessageInjective | app.js:104 | the 404 body names the number: distinct numbers give distinct messages |
| ParcelLocator.Locate | app.js:95-118 | the status is always 400, 404 or 200, and a 200 with a body names one of the ten places |
| ParcelLocator.LocateInvalid | app.js:96-101 | 400 exactly when the parameter is absent, empty or NaN, with body `"Not a valid parcel number " + raw` |
| ParcelLocator.LocateMissing | app.js:98-100 | an absent parameter is answered 400 with `"Not a valid parcel number undefined"` |
| ParcelLocator.LocateNotANumber | app.js:96-100 | `abc` is answered 400 with `"Not a valid parcel number abc"` |
| ParcelLocator.LocateUnlucky | app.js:102-105 | 404 exactly when the parsed number is a multiple of 13, with a body naming the number |
| ParcelLocator.LocateUnluckyText | app.js:102-105 | the 404 body for a multiple of 13 spells its decimal text |
| ParcelLocator.LocateZero | app.js:102-105 | boundary case: `0` is unlucky |
| ParcelLocator.LocateThirteen | app.js:102-105 | boundary case: `13` is unlucky |
| ParcelLocator.LocateFound | app.js:107-117 | a non-negative number not divisible by 13 is answered 200 with the place at index `n % 10`, which is within the ten-entry list |
| ParcelLocator.LocateNegative | app.js:114-117 | a negative number not divisible by 13 gets "Anfield" when it is a multiple of 10 and an empty 200 answer otherwise |
| ParcelLocator.LocateOfNumber | app.js:96-117 | the answer to `String(n)` is the 404 naming `n` for multiples of 13, and the place at `n % 10` for other `n >= 0` |
| ParcelLocator.LocateFourteen | app.js:107-117 | `14` wraps around the list to "Hatfield, UK" |
| ParcelLocator.LocateMinusFourteen | app.js:114-117 | `-14` gives the index -4 and an empty 200 answer |
| ParcelLocator.LocatePadded | app.js:96-117 | white space, a `+` sign and trailing text around the number give the same answer as the bare number |
| ParcelLocator.LocatePaddedSample | app.js:96-117 | ` +27 parcels` is answered with "Buckingham Palace" |
| MessageRelay.Workspace | app.js:42-43 | the configured workspace is never empty, since `<workspace-id>` is the default; it is the variable when that is set and non-empty, and the guard fires exactly on the sentinel |
| MessageRelay.PayloadFor | app.js:51-55 | the payload carries the workspace id; `context` and `input` come from the body when truthy and are `{}` otherwise |
| MessageRelay.ErrorStatus | app.js:60-61 | the status of a service error is its `code` when present and non-zero, else 500 |
| MessageRelay.ParcelIntent | app.js:63-64 | enrichment is triggered exactly when the first intent is `parcel` and `parcel_num` is none of `undefined`, `null`, `false`, `0`, `""` |
| MessageRelay.ParcelQuery | app.js:70 | the locator is asked for `String(parcel_num)` when it is a number and for the string itself when it is a string |
| MessageRelay.EnrichedText | app.js:72-85 | enrichment keeps the number of texts (or creates the first one) and every text after the first. On success the first text has every `{0}` replaced by the location; with no texts, the thrown `TypeError` leaves the single text `"Parcel lookup service returned an error: undefined"`. On failure the first text is the error prefix plus the failure body |
| MessageRelay.ClientView | app.js:72-85 | assumption about the HTTP client: a status below 400 resolves with the body (empty when none), any other status rejects with the body as `err.body` |
| MessageRelay.ConversationResponse.SetFirstText | app.js:77-83 | assigning `text[0]` sets the first entry, creating it on an empty array, and keeps the others |
| MessageRelay.HandleMessage | app.js:41-89 | the guard answers with guidance and never calls the service; otherwise the payload sent is `PayloadFor`, a service error is passed back with its status, and the answer is relayed. Only the first text changes, and only under the parcel intent, where it becomes `EnrichedText` of the locator's outcome for `String(parcel_num)`; the context and intents are untouched |
| MessageRelay.GuardIff | app.js:42-43 | the guard fires exactly when `WORKSPACE_ID` is unset, empty or the sentinel `<workspace-id>` |
| MessageRelay.FalsyParcelNumberDisables | app.js:63-64 | a `parcel_num` that is absent, null, false, 0 or empty disables enrichment |
| MessageRelay.EnrichmentKeepsOtherTexts | app.js:77-83 | every text other than the first is kept by enrichment |
| MessageRelay.EnrichmentWithoutPlaceholder | app.js:77 | a first text without `{0}` is unchanged by a successful lookup |
| MessageRelay.LocationsAreInert | app.js:107-112 | none of the ten places contains `$`, `{`, `0` or `}`, so none can form a token |
| MessageRelay.EnrichWithLocatedParcel | app.js:63-117 | with the locator behind the client, a located number replaces every `{0}` of the first text by the place at `n % 10`, and no `{0}` is left |
| MessageRelay.EnrichWithUnluckyParcel | app.js:63-105 | with the locator behind the client, a multiple of 13 makes the first text the error prefix plus the 404 message |
| MessageRelay.EnrichPlaceholderText | app.js:77-117 | a first text ending in `{0}` becomes that text with the place at `n % 10` in place of the token |
| MessageRelay.ParcelScenario | app.js:41-118 | the whole relay with the locator behind the client: the locator is asked for `String(n)`, and the placeholder ending the first text becomes the place at `n % 10` |

## Left out

- The Express setup, static file serving and JSON body parsing (app.js:19-28) are framework plumbing.
- The conversation service client (app.js:31-38, 58) is a foreign network client. Its answer is the `BackendOutcome` parameter of `HandleMessage`.
- The loopback GET through the HTTP client (app.js:68-72) is network I/O. It is the `locator` parameter. The host and port taken from `PORT` / `VCAP_APP_PORT` are not modelled.
- The query value is put into the URL without encoding. A `parcel_num` containing `&`, `#`, `%` or `+` would reach the locator altered (the query parser decodes `+` as a space, so `"+-14"` arrives as `" -14"`). The model passes the value through unchanged.
- `ClientView` is an assumption about the HTTP client, not a proved fact: a status below 400 resolves with the body, and any other status rejects with the body as `err.body`.
- MessageRelay.ErrorStatus: `err.code` is assumed absent or a valid HTTP status. A string code such as `ECONNREFUSED`, or an integer outside 100..999, makes the status call throw inside the callback, so no error reply is sent; the model answers `BackendFailure` for every non-zero integer code.
- `process.env` is read by the handlers. The workspace id is a parameter (`env`).
- Only decimal `parseInt` is modelled. The `0x` prefix and the radix inference are left out, as is a query parameter given several times (an array).
- Numbers are unbounded integers. Precision loss beyond 2^53, fractions, `Infinity` and `NaN` inside JSON are not modelled. A `parcel_num` in the context is a JSON value whose numbers are integral.
- The guidance message (app.js:44-48) is an opaque constant `Guidance`. Its HTML is not modelled.
- The service answer is reduced to `output.text`, `context` and `intents`. These cases are not modelled:
  - the other fields, which are only passed through;
  - an answer without `context`, where reading `parcel_num` throws;
  - a `text` that is a string rather than an array;
  - non-string entries in `text`.
- Callback and promise sequencing (app.js:58, 72-85) is not modelled: the handler is one sequential method. The commented-out logging is not modelled either.
- The `confidence` of an intent is carried but never inspected, as in the source.
