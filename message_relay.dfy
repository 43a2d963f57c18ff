/**
 * The chat relay `POST /api/message`: a configuration guard on the workspace
 * id, the payload sent to the conversation service, propagation of the
 * service's error, and, when the service recognised a parcel-tracking intent,
 * the in-place rewrite of the first reply text with the parcel's location
 * (or with an error message when the location lookup fails).
 *
 * The conversation service and the loopback call to the parcel locator are not
 * modelled: the service's answer is a parameter (`BackendOutcome`), and the
 * locator is a function from the query value to the outcome the HTTP client
 * reports (`LookupOutcome`).
 */
module MessageRelay {
  import opened JsSemantics
  import opened Placeholder
  import opened ParcelLocator

  /** The value the workspace id falls back to, and that the guard rejects. */
  const Sentinel: string := "<workspace-id>"

  const LookupErrorPrefix: string := "Parcel lookup service returned an error: "

  /** One entry of `data.intents`; only `intent` is read by the relay. */
  datatype Intent = Intent(intent: JsValue, confidence: real)

  /** What is sent to the conversation service. */
  datatype Payload = Payload(workspace_id: string, context: JsValue, input: JsValue)

  /** The error the conversation service reports: an optional `code` and the
      rest of the error object, sent back to the client as JSON. */
  datatype BackendError = BackendError(code: Option<int>, detail: JsValue)

  /** The conversation service's answer; the relay mutates it in place. */
  class ConversationResponse {
    var text: seq<string>                 // data.output.text
    var context: map<string, JsValue>     // data.context
    var intents: seq<Intent>              // data.intents

    constructor (text: seq<string>, context: map<string, JsValue>, intents: seq<Intent>)
      ensures this.text == text && this.context == context && this.intents == intents
    {
      this.text := text;
      this.context := context;
      this.intents := intents;
    }

    /** `data.output.text[0] = s`: on an empty array the assignment creates the entry. */
    method SetFirstText(s: string)
      modifies this`text
      ensures |text| == if |old(text)| == 0 then 1 else |old(text)|
      ensures text[0] == s
      ensures |old(text)| > 0 ==> text[1..] == old(text)[1..]
    {
      if |text| == 0 {
        text := [s];
      } else {
        text := text[0 := s];
      }
    }
  }

  datatype BackendOutcome = Answered(data: ConversationResponse) | Failed(err: BackendError)

  /** What the HTTP client reports for the loopback GET: the body of a successful
      answer, or the `body` of the rejection (None: the error carries no body). */
  datatype LookupOutcome = Located(location: string) | LookupFailed(errBody: Option<string>)

  /** What the relay sends back: the fixed guidance message (status 200), the
      backend's error with its status, or the (possibly rewritten) answer (status 200). */
  datatype Reply = Guidance | BackendFailure(status: int, err: BackendError) | Relayed(data: ConversationResponse)

  // ---------------------------------------------------------------------------
  // The decisions of the relay, as functions
  // ---------------------------------------------------------------------------

  /** `process.env.WORKSPACE_ID || '<workspace-id>'`: never empty, so the guard below
      can only fire on the sentinel. */
  function Workspace(env: Option<string>): (w: string)
    ensures w != ""
    ensures env.Some? && env.value != "" ==> w == env.value
    ensures Unconfigured(w) <==> w == Sentinel
  {
    if env.Some? && env.value != "" then env.value else Sentinel
  }

  /** The guard `!workspace || workspace === '<workspace-id>'`. */
  predicate Unconfigured(workspace: string)
  {
    workspace == "" || workspace == Sentinel
  }

  /** `{workspace_id, context: req.body.context || {}, input: req.body.input || {}}`. */
  function PayloadFor(workspace: string, body: map<string, JsValue>): (p: Payload)
    ensures p.workspace_id == workspace
    ensures Truthy(p.context) && Truthy(p.input)
    ensures "context" in body && Truthy(body["context"]) ==> p.context == body["context"]
    ensures !("context" in body && Truthy(body["context"])) ==> p.context == Obj(map[])
    ensures "input" in body && Truthy(body["input"]) ==> p.input == body["input"]
    ensures !("input" in body && Truthy(body["input"])) ==> p.input == Obj(map[])
  {
    Payload(workspace, OrEmptyObject(Get(body, "context")), OrEmptyObject(Get(body, "input")))
  }

  /** `err.code || 500`. */
  function ErrorStatus(err: BackendError): (status: int)
    ensures status != 0
    ensures err.code.Some? && err.code.value != 0 ==> status == err.code.value
    ensures err.code.None? || err.code.value == 0 ==> status == 500
  {
    if err.code.Some? && err.code.value != 0 then err.code.value else 500
  }

  /** The enrichment trigger: a first intent `'parcel'` and a truthy `context.parcel_num`. */
  predicate ParcelIntent(intents: seq<Intent>, context: map<string, JsValue>)
    ensures ParcelIntent(intents, context) <==>
              |intents| > 0 && intents[0].intent == Str("parcel") && Get(context, "parcel_num") !in {Undefined, Null, Bool(false), Num(0), Str("")}
  {
    |intents| > 0 && Truthy(intents[0].intent) && intents[0].intent == Str("parcel")
    && Truthy(Get(context, "parcel_num"))
  }

  /** The value of `parcel_num` in the loopback URL `...?parcel_num=` + parcel_num. */
  function ParcelQuery(context: map<string, JsValue>): (q: string)
    ensures "parcel_num" in context && context["parcel_num"].Num? ==> q == IntToString(context["parcel_num"].n)
    ensures "parcel_num" in context && context["parcel_num"].Str? ==> q == context["parcel_num"].s
  {
    ToJsString(Get(context, "parcel_num"))
  }

  function ErrBodyText(errBody: Option<string>): string
  {
    match errBody
    case None => "undefined"
    case Some(b) => b
  }

  /** The reply texts after enrichment. On success every `{0}` of the first text is
      replaced by the location; when there is no first text, `text[0].replace`
      throws, and the `catch` branch writes the error message with an undefined
      body. On failure the first text becomes the error message. */
  function EnrichedText(text: seq<string>, outcome: LookupOutcome): (r: seq<string>)
    ensures |r| == if |text| == 0 then 1 else |text|
    ensures |text| > 0 ==> r[1..] == text[1..]
    ensures outcome.LookupFailed? ==> r[0] == LookupErrorPrefix + ErrBodyText(outcome.errBody)
    ensures outcome.Located? && |text| > 0 ==> r[0] == ReplaceAll(text[0], outcome.location)
    ensures outcome.Located? && |text| == 0 ==> r == [LookupErrorPrefix + "undefined"]
  {
    match outcome
    case Located(location) =>
      if |text| > 0 then text[0 := ReplaceAll(text[0], location)]
      else [LookupErrorPrefix + ErrBodyText(None)]
    case LookupFailed(errBody) =>
      var message := LookupErrorPrefix + ErrBodyText(errBody);
      if |text| > 0 then text[0 := message] else [message]
  }

  // ---------------------------------------------------------------------------
  // The handler
  // ---------------------------------------------------------------------------

  /** `POST /api/message` with `env` the value of `WORKSPACE_ID` and `body` the
      parsed request body. `backend` is what the conversation service answers
      when called; `locator` is what the loopback GET yields for a query value.
      `sent` is the payload the service was called with (None: never called),
      `query` the `parcel_num` the locator was asked for (None: never asked). */
  method HandleMessage(env: Option<string>, body: map<string, JsValue>, backend: BackendOutcome,
                       locator: string -> LookupOutcome)
    returns (reply: Reply, sent: Option<Payload>, query: Option<string>)
    modifies if backend.Answered? then {backend.data} else {}
    ensures sent.Some? <==> !Unconfigured(Workspace(env))
    ensures sent.None? ==> reply == Guidance && query == None
    ensures sent.Some? ==> sent.value == PayloadFor(Workspace(env), body)
    ensures sent.Some? && backend.Failed? ==>
              reply == BackendFailure(ErrorStatus(backend.err), backend.err) && query == None
    ensures sent.Some? && backend.Answered? ==> reply == Relayed(backend.data)
    ensures backend.Answered? ==>
              backend.data.context == old(backend.data.context)
              && backend.data.intents == old(backend.data.intents)
    ensures backend.Answered? && sent.Some?
              && ParcelIntent(old(backend.data.intents), old(backend.data.context)) ==>
              query == Some(ParcelQuery(old(backend.data.context)))
              && backend.data.text == EnrichedText(old(backend.data.text), locator(query.value))
    ensures backend.Answered? && !(sent.Some?
              && ParcelIntent(old(backend.data.intents), old(backend.data.context))) ==>
              query == None && backend.data.text == old(backend.data.text)
  {
    var workspace := Workspace(env);
    if Unconfigured(workspace) {
      return Guidance, None, None;
    }
    var payload := PayloadFor(workspace, body);
    sent := Some(payload);
    match backend {
      case Failed(err) =>
        reply, query := BackendFailure(ErrorStatus(err), err), None;
      case Answered(data) =>
        if ParcelIntent(data.intents, data.context) {
          var q := ToJsString(Get(data.context, "parcel_num"));
          query := Some(q);
          match locator(q) {
            case Located(location) =>
              if |data.text| > 0 {
                data.SetFirstText(ReplaceAll(data.text[0], location));
              } else {
                data.SetFirstText(LookupErrorPrefix + ErrBodyText(None));
              }
            case LookupFailed(errBody) =>
              data.SetFirstText(LookupErrorPrefix + ErrBodyText(errBody));
          }
        } else {
          query := None;
        }
        reply := Relayed(data);
    }
  }

  // ---------------------------------------------------------------------------
  // Lemmas
  // ---------------------------------------------------------------------------

  /** The guard fires exactly when the variable is unset, empty or the sentinel. */
  lemma GuardIff(env: Option<string>)
    ensures Unconfigured(Workspace(env)) <==> env.None? || env.value == "" || env.value == Sentinel
  {
  }

  /** A `parcel_num` of 0, `""`, `null`, `false` or no `parcel_num` at all disables
      the enrichment whatever the intent. */
  lemma FalsyParcelNumberDisables(intents: seq<Intent>, context: map<string, JsValue>)
    requires Get(context, "parcel_num") in {Undefined, Null, Bool(false), Num(0), Str("")}
    ensures !ParcelIntent(intents, context)
  {
  }

  /** Enrichment changes at most the first text: every other entry is kept. */
  lemma EnrichmentKeepsOtherTexts(text: seq<string>, outcome: LookupOutcome, i: int)
    requires 0 < i < |text|
    ensures |EnrichedText(text, outcome)| == |text|
    ensures EnrichedText(text, outcome)[i] == text[i]
  {
    var r := EnrichedText(text, outcome);
    assert r[1..][i - 1] == text[1..][i - 1];
  }

  /** A first text without `{0}` is left exactly as it was by a successful lookup. */
  lemma EnrichmentWithoutPlaceholder(text: seq<string>, location: string)
    requires |text| > 0 && !HasToken(text[0])
    ensures EnrichedText(text, Located(location)) == text
  {
  }

  // ---------------------------------------------------------------------------
  // The relay composed with the parcel locator
  // ---------------------------------------------------------------------------

  /** What the HTTP client makes of the locator's answer. This is an ASSUMPTION
      about the client library, not something proved here: an answer with a status
      below 400 resolves with its body (empty when none was written), and any
      other answer rejects with the answer as the error, whose `body` is the body. */
  function ClientView(reply: HttpReply): (outcome: LookupOutcome)
    ensures reply.status < 400 && reply.body.Some? ==> outcome == Located(reply.body.value)
    ensures reply.status < 400 && reply.body.None? ==> outcome == Located("")
    ensures reply.status >= 400 ==> outcome == LookupFailed(reply.body)
  {
    if reply.status < 400 then Located(if reply.body.Some? then reply.body.value else "")
    else LookupFailed(reply.body)
  }

  /** The locator as reached over the loopback: the query value is read back as
      the raw `parcel_num` parameter. */
  function LoopbackLocator(query: string): LookupOutcome
  {
    ClientView(Locate(Some(query)))
  }

  /** None of the ten places can form or hold a `{0}` token. */
  lemma LocationsAreInert(i: int)
    requires 0 <= i < |Locations|
    ensures InertText(Locations[i])
  {
    if i < 5 {
      FirstLocationsAreInert(i);
    } else {
      LastLocationsAreInert(i);
    }
  }

  lemma FirstLocationsAreInert(i: int)
    requires 0 <= i < 5
    ensures InertText(Locations[i])
  {
    if i == 0 {
      assert Locations[0] == "Anfield";
      assert InertText("Anfield");
    } else if i == 1 {
      assert Locations[1] == "Stamford Bridge";
      assert InertText("Stamford Bridge");
    } else if i == 2 {
      assert Locations[2] == "Old Trafford";
      assert InertText("Old Trafford");
    } else if i == 3 {
      assert Locations[3] == "Parkhead";
      assert InertText("Parkhead");
    } else {
      assert Locations[4] == "Hatfield, UK";
      assert InertText("Hatfield, UK");
    }
  }

  lemma LastLocationsAreInert(i: int)
    requires 5 <= i < |Locations|
    ensures InertText(Locations[i])
  {
    if i == 5 {
      assert Locations[5] == "Heathrow Airport";
      assert InertText("Heathrow Airport");
    } else if i == 6 {
      assert Locations[6] == "Westminister, London";
      assert InertText("Westminister, London");
    } else if i == 7 {
      assert Locations[7] == "Buckingham Palace";
      assert InertText("Buckingham Palace");
    } else if i == 8 {
      assert Locations[8] == "Lands End, Cornwall";
      assert InertText("Lands End, Cornwall");
    } else {
      assert Locations[9] == "John O'Groats";
      assert InertText("John O'Groats");
    }
  }

  /** A numeric `parcel_num` that is located: every `{0}` of the first text is
      replaced by the place at `n % 10`, none is left, and the rest is kept. */
  lemma EnrichWithLocatedParcel(text: seq<string>, n: int)
    requires |text| > 0
    requires 0 <= n && n % 13 != 0
    ensures var r := EnrichedText(text, LoopbackLocator(ParcelQuery(map["parcel_num" := Num(n)])));
            r == text[0 := ReplaceAll(text[0], Locations[n % 10])]
            && !HasToken(r[0])
  {
    LocateOfNumber(n);
    assert ParcelQuery(map["parcel_num" := Num(n)]) == IntToString(n);
    LocationsAreInert(n % 10);
    ReplaceAllLeavesNoToken(text[0], Locations[n % 10]);
  }

  /** A numeric `parcel_num` that is a multiple of 13: the locator's 404 is absorbed
      into the first text, which names the number. */
  lemma EnrichWithUnluckyParcel(text: seq<string>, n: int)
    requires n % 13 == 0
    ensures var r := EnrichedText(text, LoopbackLocator(ParcelQuery(map["parcel_num" := Num(n)])));
            r[0] == LookupErrorPrefix + UnluckyMessage(n)
            && (|text| > 0 ==> r[1..] == text[1..])
  {
    LocateOfNumber(n);
    assert ParcelQuery(map["parcel_num" := Num(n)]) == IntToString(n);
  }

  /** A first text ending in the placeholder, with a located parcel number: the
      placeholder becomes the place at `n % 10`. */
  lemma EnrichPlaceholderText(n: int, prefix: string, rest: seq<string>)
    requires 0 <= n && n % 13 != 0 && '{' !in prefix
    ensures EnrichedText([prefix + "{0}"] + rest, LoopbackLocator(IntToString(n)))
            == [prefix + Locations[n % 10]] + rest
  {
    var location := Locations[n % 10];
    LocateOfNumber(n);
    assert LoopbackLocator(IntToString(n)) == Located(location);
    LocationsAreInert(n % 10);
    assert prefix + "{0}" == prefix + "{0}" + "";
    ReplaceSingleToken(prefix, "", location);
    assert prefix + location + "" == prefix + location;
  }

  /** The whole relay for a located parcel number `n` (14, say): the locator is
      asked once, for `String(n)`, and the placeholder ending the first text is
      replaced by the place at `n % 10` ("Hatfield, UK" for 14). */
  method ParcelScenario(n: int, prefix: string, rest: seq<string>)
    returns (query: Option<string>, text: seq<string>)
    requires 0 <= n && n % 13 != 0 && '{' !in prefix
    ensures query == Some(IntToString(n))
    ensures text == [prefix + Locations[n % 10]] + rest
  {
    var original := [prefix + "{0}"] + rest;
    var context := map["parcel_num" := Num(n)];
    var intents := [Intent(Str("parcel"), 0.9)];
    assert ParcelIntent(intents, context);
    assert ParcelQuery(context) == IntToString(n);
    var data := new ConversationResponse(original, context, intents);
    var reply, sent;
    reply, sent, query := HandleMessage(Some("my-workspace"), map[], Answered(data), LoopbackLocator);
    EnrichPlaceholderText(n, prefix, rest);
    text := data.text;
  }
}
