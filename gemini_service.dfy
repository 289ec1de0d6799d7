/**
 * services/geminiService.ts, everything after the remote call: strip an
 * optional markdown code fence from the response text, parse it, reject an
 * `error` reply or a record without `city`/`temperatureCelsius`, coerce a
 * bad `cityImageUrl` to null. Every Error thrown inside the `try` is
 * rewrapped under one fixed prefix; a non-Error throw becomes the
 * unexpected-error message; the missing-key error is not wrapped.
 */
module GeminiService {
  import opened Wrappers
  import opened JsString
  import opened WeatherTypes

  /** A parsed JSON value. */
  datatype JsonValue =
    | JNull
    | JBool(b: bool)
    | JNumber(n: JsNumber)
    | JString(s: string)
    | JArray(elements: seq<JsonValue>)
    | JObject(fields: map<string, JsonValue>)

  const MissingKeyMessage: string := "Gemini API key is not configured."
  const RequestFailedPrefix: string := "Gemini API request failed: "
  const MalformedMessage: string := "Received malformed weather data from API."
  const UnexpectedMessage: string := "An unexpected error occurred while fetching weather data."
  /** The TypeError a JavaScript engine (V8's wording) raises for `null.error`. */
  const NullPropertyMessage: string := "Cannot read properties of null (reading 'error')"

  /** The TypeError a JavaScript engine (V8's wording) raises when an object
      converts to no primitive string. */
  const ConversionMessage: string := "Cannot convert object to primitive value"

  const Fence: string := "```"

  // ---------------------------------------------------------------------
  // The fence regex /^```(\w*)?\s*\n?(.*?)\n?\s*```$/s
  // ---------------------------------------------------------------------

  predicate IsFenced(s: string) {
    |s| >= 6 && s[..3] == Fence && s[|s| - 3..] == Fence
  }

  /** The end of the longest run of `\w` characters starting at `i`. */
  function WordRunEnd(s: string, i: nat): (e: nat)
    requires i <= |s|
    ensures i <= e <= |s|
    ensures forall k :: i <= k < e ==> IsWordChar(s[k])
    ensures e == |s| || !IsWordChar(s[e])
    decreases |s| - i
  {
    if i < |s| && IsWordChar(s[i]) then WordRunEnd(s, i + 1) else i
  }

  /** The end of the longest run of `\s` characters starting at `i`. */
  function SpaceRunEnd(s: string, i: nat): (e: nat)
    requires i <= |s|
    ensures i <= e <= |s|
    ensures forall k :: i <= k < e ==> IsWhitespace(s[k])
    ensures e == |s| || !IsWhitespace(s[e])
    decreases |s| - i
  {
    if i < |s| && IsWhitespace(s[i]) then SpaceRunEnd(s, i + 1) else i
  }

  /** The match the regex's backtracking order selects, capture group 2
      being `s[q..q + |g|]`: `\w*` takes the longest word run after the
      opening fence (up to `p`), `\s*\n?` the longest whitespace run after
      it (up to `q`), and the lazy `(.*?)` stops before the whitespace that
      precedes the closing fence. */
  ghost predicate RegexChoice(s: string, p: nat, q: nat, g: string) {
    && IsFenced(s)
    && 3 <= p <= q && q + |g| <= |s| - 3
    && (forall k :: 3 <= k < p ==> IsWordChar(s[k])) && !IsWordChar(s[p])
    && (forall k :: p <= k < q ==> IsWhitespace(s[k])) && !IsWhitespace(s[q])
    && g == s[q..q + |g|]
    && (forall k :: q + |g| <= k < |s| - 3 ==> IsWhitespace(s[k]))
    && (g == [] || !IsWhitespace(g[|g| - 1]))
  }

  /** `s.match(fenceRegex)`, giving capture group 2 when it matches. */
  function FenceCapture(s: string): (r: Option<string>)
    ensures r.Some? <==> IsFenced(s)
  {
    if IsFenced(s) then
      assert s[|s| - 3] == s[|s| - 3..][0] == '`';
      var p := WordRunEnd(s, 3);
      var q := SpaceRunEnd(s, p);
      Some(TrimEnd(s[q..|s| - 3]))
    else
      None
  }

  /** A capture is the one the regex chooses. */
  lemma FenceCaptureIsRegexChoice(s: string)
    requires IsFenced(s)
    ensures exists p: nat, q: nat :: RegexChoice(s, p, q, FenceCapture(s).value)
  {
    assert s[|s| - 3] == s[|s| - 3..][0] == '`';
    var p := WordRunEnd(s, 3);
    var q := SpaceRunEnd(s, p);
    var g := TrimEnd(s[q..|s| - 3]);
    assert forall k :: q + |g| <= k < |s| - 3 ==> s[k] == s[q..|s| - 3][|g|..][k - q - |g|];
    assert FenceCapture(s) == Some(g);
    assert RegexChoice(s, p, q, g);
  }

  /** Lines 53-59: trim the text, then replace it by the trimmed capture when
      the fence regex matches with a non-empty capture. */
  function StripFence(text: string): (r: string)
    ensures IsTrimmed(r)
  {
    var trimmed := Trim(text);
    var capture := FenceCapture(trimmed);
    if capture.Some? && capture.value != "" then Trim(capture.value) else trimmed
  }

  /** The reply "```<tag>\n<payload>\n```". */
  function FencedReply(tag: string, payload: string): string {
    Fence + tag + "\n" + payload + "\n" + Fence
  }

  /** A fenced reply is fenced and already trimmed. */
  lemma FencedReplyIsTrimmed(tag: string, payload: string)
    ensures IsFenced(FencedReply(tag, payload)) && Trim(FencedReply(tag, payload)) == FencedReply(tag, payload)
  {
    var s := FencedReply(tag, payload);
    assert s[..3] == Fence && s[|s| - 3..] == Fence;
    assert s[0] == '`' && s[|s| - 1] == '`';
  }

  /** In a fenced reply `\w*` stops at the newline after the tag, and `\s*`
      right after it. */
  lemma FencedReplyRuns(tag: string, payload: string)
    requires forall k :: 0 <= k < |tag| ==> IsWordChar(tag[k])
    requires payload != [] && IsTrimmed(payload) && payload[0] == '{'
    ensures WordRunEnd(FencedReply(tag, payload), 3) == 3 + |tag|
    ensures SpaceRunEnd(FencedReply(tag, payload), 3 + |tag|) == 4 + |tag|
  {
    var s := FencedReply(tag, payload);
    var p := 3 + |tag|;
    assert forall k :: 3 <= k < p ==> s[k] == tag[k - 3];
    assert s[p] == '\n' && s[p + 1] == payload[0];
  }

  /** Between the whitespace run and the closing fence of a fenced reply
      lies the payload and its newline. */
  lemma FencedReplyBody(tag: string, payload: string)
    ensures var s := FencedReply(tag, payload);
            s[4 + |tag|..|s| - 3] == payload + "\n"
  {
    var s := FencedReply(tag, payload);
    assert s == (Fence + tag + "\n") + (payload + "\n") + Fence;
  }

  /** A trimmed payload followed by a newline trims back to the payload. */
  lemma TrimEndDropsNewline(payload: string)
    requires payload != [] && IsTrimmed(payload)
    ensures TrimEnd(payload + "\n") == payload
  {
    var body := payload + "\n";
    assert body[..|body| - 1] == payload;
  }

  /** A fenced reply "```<tag>\n<P>\n```" yields exactly `P` when `P` is a
      trimmed JSON object text: the regex captures `P`, and the capture is
      what is parsed. */
  lemma StripFenceYieldsPayload(tag: string, payload: string)
    requires forall k :: 0 <= k < |tag| ==> IsWordChar(tag[k])
    requires payload != [] && IsTrimmed(payload) && payload[0] == '{'
    ensures FenceCapture(FencedReply(tag, payload)) == Some(payload)
    ensures StripFence(FencedReply(tag, payload)) == payload
  {
    var s := FencedReply(tag, payload);
    FencedReplyIsTrimmed(tag, payload);
    FencedReplyRuns(tag, payload);
    assert WordRunEnd(s, 3) == 3 + |tag|;
    assert SpaceRunEnd(s, 3 + |tag|) == 4 + |tag|;
    assert FenceCapture(s) == Some(TrimEnd(s[4 + |tag|..|s| - 3]));
    FencedReplyBody(tag, payload);
    TrimEndDropsNewline(payload);
    StripFenceOfCapture(s, payload);
  }

  /** Trimmed text whose capture is a non-empty trimmed `P` strips to `P`. */
  lemma StripFenceOfCapture(s: string, p: string)
    requires IsTrimmed(s) && FenceCapture(s) == Some(p) && p != [] && IsTrimmed(p)
    ensures StripFence(s) == p
  {
    assert Trim(s) == s;
    assert Trim(p) == p;
  }

  /** Text that is not fenced after trimming is only trimmed. */
  lemma StripFenceLeavesUnfenced(text: string)
    requires !IsFenced(Trim(text))
    ensures StripFence(text) == Trim(text)
  {
  }

  /** An empty capture leaves the trimmed text as it is. */
  lemma StripFenceLeavesEmptyCapture(text: string)
    requires FenceCapture(Trim(text)) == Some("")
    ensures StripFence(text) == Trim(text)
  {
  }

  /** A word glued to the opening fence is read as the language tag, so
      "```json```" has an empty capture and is left unchanged. */
  lemma GluedWordIsLanguageTag()
    ensures FenceCapture("```json```") == Some("")
    ensures StripFence("```json```") == "```json```"
  {
    var s := "```json```";
    assert IsTrimmed(s);
    assert WordRunEnd(s, 3) == 7 by {
      assert forall k :: 3 <= k < 7 ==> IsWordChar(s[k]);
      assert s[7] == '`';
    }
    assert SpaceRunEnd(s, 7) == 7;
  }

  // ---------------------------------------------------------------------
  // Property reads on the parsed value
  // ---------------------------------------------------------------------

  /** `v.key` on a non-null value; `None` is `undefined`. Arrays, strings,
      numbers and booleans have none of the properties read here. */
  function Property(v: JsonValue, key: string): Option<JsonValue> {
    if v.JObject? && key in v.fields then Some(v.fields[key]) else None
  }

  /** JavaScript truthiness of a property value. */
  predicate Truthy(p: Option<JsonValue>) {
    match p
    case None => false
    case Some(JNull) => false
    case Some(JBool(b)) => b
    case Some(JNumber(n)) => n.text != "0" && n.text != "NaN"
    case Some(JString(s)) => s != ""
    case Some(JArray(_)) => true
    case Some(JObject(_)) => true
  }

  /** `typeof p === 'number'`. */
  predicate IsNumber(p: Option<JsonValue>) {
    p.Some? && p.value.JNumber?
  }

  /** A value whose conversion to a string throws: an object carrying its
      own `toString` key (never callable in JSON, and `valueOf` gives back
      the object), or an array with such a value among its elements. */
  predicate Unprintable(v: JsonValue)
    decreases v
  {
    match v
    case JObject(fields) => "toString" in fields
    case JArray(elements) => exists i :: 0 <= i < |elements| && Unprintable(elements[i])
    case _ => false
  }

  /** `String(v)`, as a template literal converts a value; a failure is the
      message of the TypeError thrown. */
  function ValueText(v: JsonValue): (r: Result<string, string>)
    ensures r.Failure? <==> Unprintable(v)
    ensures r.Failure? ==> r.error == ConversionMessage
    ensures v.JString? ==> r == Success(v.s)
    ensures v.JObject? && !Unprintable(v) ==> r == Success("[object Object]")
    decreases v, 1
  {
    match v
    case JNull => Success("null")
    case JBool(b) => Success(if b then "true" else "false")
    case JNumber(n) => Success(n.text)
    case JString(s) => Success(s)
    case JArray(elements) => JoinedText(elements)
    case JObject(fields) =>
      if "toString" in fields then Failure(ConversionMessage) else Success("[object Object]")
  }

  /** `Array.prototype.join(",")`, which renders `null` as "" and throws as
      soon as an element cannot be converted. */
  function JoinedText(elements: seq<JsonValue>): (r: Result<string, string>)
    ensures r.Failure? <==> exists i :: 0 <= i < |elements| && Unprintable(elements[i])
    ensures r.Failure? ==> r.error == ConversionMessage
    ensures elements == [] ==> r == Success("")
    decreases elements, 0
  {
    if elements == [] then Success("")
    else
      var first := if elements[0].JNull? then Success("") else ValueText(elements[0]);
      if first.Failure? then first
      else if |elements| == 1 then first
      else
        var rest := JoinedText(elements[1..]);
        assert forall i :: 1 <= i < |elements| ==> elements[i] == elements[1..][i - 1];
        if rest.Failure? then rest else Success(first.value + "," + rest.value)
  }

  /** The template literal of line 64, `${error} (City: ${city || requestedCity})`:
      the message, or the TypeError's message when `error` (converted
      first) or a truthy `city` cannot be converted. */
  function NotFoundMessage(v: JsonValue, requestedCity: string): (r: Result<string, string>)
    requires Truthy(Property(v, "error"))
    ensures r.Failure? <==> || Unprintable(Property(v, "error").value)
                            || (Truthy(Property(v, "city")) && Unprintable(Property(v, "city").value))
    ensures r.Failure? ==> r.error == ConversionMessage
    ensures r.Success? ==>
              && ValueText(Property(v, "error").value).Success?
              && (Truthy(Property(v, "city")) ==> ValueText(Property(v, "city").value).Success?)
              && r.value == ValueText(Property(v, "error").value).value + " (City: "
                            + (if Truthy(Property(v, "city")) then ValueText(Property(v, "city").value).value
                               else requestedCity) + ")"
  {
    var errorText := ValueText(Property(v, "error").value);
    if errorText.Failure? then errorText
    else
      var cityText := if Truthy(Property(v, "city")) then ValueText(Property(v, "city").value)
                      else Success(requestedCity);
      if cityText.Failure? then cityText
      else Success(errorText.value + " (City: " + cityText.value + ")")
  }

  /** `cityImageUrl` is absent, null or a string. */
  predicate ImageUrlAcceptable(p: Option<JsonValue>) {
    p.None? || p.value.JNull? || p.value.JString?
  }

  /** Lines 72-75: a `cityImageUrl` that is present but neither null nor a
      string becomes null; nothing else changes. */
  function SanitizeImageUrl(v: JsonValue): (r: JsonValue)
    ensures ImageUrlAcceptable(Property(r, "cityImageUrl"))
    ensures ImageUrlAcceptable(Property(v, "cityImageUrl")) ==> r == v
    ensures !ImageUrlAcceptable(Property(v, "cityImageUrl")) ==> Property(r, "cityImageUrl") == Some(JNull)
    ensures v.JObject? <==> r.JObject?
    ensures v.JObject? ==> r.fields.Keys == v.fields.Keys
    ensures forall key :: key != "cityImageUrl" ==> Property(r, key) == Property(v, key)
  {
    if ImageUrlAcceptable(Property(v, "cityImageUrl")) then v
    else JObject(v.fields["cityImageUrl" := JNull])
  }

  /** Lines 61-78 on the parsed value: the checks in source order; a failure
      is the message of the Error thrown. */
  function Validate(v: JsonValue, requestedCity: string): (r: Result<JsonValue, string>)
    ensures r.Success? ==> && v.JObject? && r.value.JObject?
                           && Truthy(Property(r.value, "city"))
                           && IsNumber(Property(r.value, "temperatureCelsius"))
                           && ImageUrlAcceptable(Property(r.value, "cityImageUrl"))
  {
    if v.JNull? then Failure(NullPropertyMessage)
    else if Truthy(Property(v, "error")) then
      var message := NotFoundMessage(v, requestedCity);
      Failure(if message.Success? then message.value else message.error)
    else if !Truthy(Property(v, "city")) || !IsNumber(Property(v, "temperatureCelsius")) then
      Failure(MalformedMessage)
    else Success(SanitizeImageUrl(v))
  }

  /** `!API_KEY` is false. */
  predicate ApiKeyConfigured(apiKey: Option<string>) {
    apiKey.Some? && apiKey.value != ""
  }

  /** The `catch` clause of lines 80-85. */
  function Rethrown(t: Thrown): (r: Thrown)
    ensures r.ErrorValue?
    ensures t.ErrorValue? ==> StartsWith(r.message, RequestFailedPrefix)
    ensures t.NonErrorValue? ==> r.message == UnexpectedMessage
  {
    match t
    case ErrorValue(message) => ErrorValue(RequestFailedPrefix + message)
    case NonErrorValue => ErrorValue(UnexpectedMessage)
  }

  /** What `getWeatherForCity(city)` resolves to (`Success`) or rejects with
      (`Failure`), given the configured key, the outcome of the one
      `generateContent` call (its `text`, or what it threw) and `JSON.parse`
      (a value, or the SyntaxError's message). */
  function FetchOutcome(requestedCity: string, apiKey: Option<string>,
                        response: Result<string, Thrown>,
                        parse: string -> Result<JsonValue, string>): (r: Result<JsonValue, Thrown>)
    ensures r.Success? ==> r.value.JObject?
    ensures r.Failure? ==> r.error.ErrorValue?
  {
    if !ApiKeyConfigured(apiKey) then Failure(ErrorValue(MissingKeyMessage))
    else match response
      case Failure(t) => Failure(Rethrown(t))
      case Success(text) =>
        match parse(StripFence(text))
        case Failure(syntaxError) => Failure(Rethrown(ErrorValue(syntaxError)))
        case Success(v) =>
          match Validate(v, requestedCity)
          case Failure(message) => Failure(Rethrown(ErrorValue(message)))
          case Success(data) => Success(data)
  }

  /** Lines 53-59 as statements: `jsonStr` trimmed, matched against the
      fence regex, and reassigned to the trimmed capture. */
  method StripFenceStep(text: string) returns (jsonStr: string)
    ensures jsonStr == StripFence(text)
  {
    jsonStr := Trim(text);
    var match_ := FenceCapture(jsonStr);
    if match_.Some? && match_.value != "" {
      jsonStr := Trim(match_.value);
    }
  }

  /** `getWeatherForCity`, step by step: the key guard before the `try`,
      `jsonStr` reassigned by the fence strip, `parsedData.cityImageUrl`
      overwritten, and the `catch` that rewraps every Error under the
      prefix and turns any other thrown value into the unexpected-error
      message. */
  method GetWeatherForCity(requestedCity: string, apiKey: Option<string>,
                           response: Result<string, Thrown>,
                           parse: string -> Result<JsonValue, string>)
    returns (result: Result<JsonValue, Thrown>)
    ensures result == FetchOutcome(requestedCity, apiKey, response, parse)
  {
    if !ApiKeyConfigured(apiKey) {
      return Failure(ErrorValue(MissingKeyMessage));
    }
    var thrown: Thrown;
    if response.Failure? {
      thrown := response.error;
    } else {
      var jsonStr := StripFenceStep(response.value);
      var parsed := parse(jsonStr);
      if parsed.Failure? {
        thrown := ErrorValue(parsed.error);
      } else {
        var parsedData := parsed.value;
        if parsedData.JNull? {
          thrown := ErrorValue(NullPropertyMessage);
        } else if Truthy(Property(parsedData, "error")) {
          var message := NotFoundMessage(parsedData, requestedCity);
          thrown := ErrorValue(if message.Success? then message.value else message.error);
        } else if !Truthy(Property(parsedData, "city")) || !IsNumber(Property(parsedData, "temperatureCelsius")) {
          thrown := ErrorValue(MalformedMessage);
        } else {
          var imageUrl := Property(parsedData, "cityImageUrl");
          if imageUrl.Some? && !imageUrl.value.JNull? && !imageUrl.value.JString? {
            parsedData := JObject(parsedData.fields["cityImageUrl" := JNull]);
          }
          assert parsedData == SanitizeImageUrl(parsed.value);
          return Success(parsedData);
        }
      }
    }
    result := Failure(Rethrown(thrown));
  }

  // ---------------------------------------------------------------------
  // Properties of the service
  // ---------------------------------------------------------------------

  predicate StartsWith(s: string, prefix: string) {
    |prefix| <= |s| && s[..|prefix|] == prefix
  }

  /** Without a key the call fails with exactly the missing-key message,
      without the request-failed prefix, whatever the provider would say. */
  lemma MissingKeyFailsUnprefixed(requestedCity: string, apiKey: Option<string>,
                                  response: Result<string, Thrown>,
                                  parse: string -> Result<JsonValue, string>)
    requires !ApiKeyConfigured(apiKey)
    ensures FetchOutcome(requestedCity, apiKey, response, parse) == Failure(ErrorValue(MissingKeyMessage))
    ensures !StartsWith(MissingKeyMessage, RequestFailedPrefix)
  {
    assert MissingKeyMessage[11] != RequestFailedPrefix[11];
  }

  /** Every rejection is an Error; apart from the missing key it carries the
      request-failed prefix, or is the fixed message for a non-Error throw. */
  lemma FailuresAreErrors(requestedCity: string, apiKey: Option<string>,
                          response: Result<string, Thrown>,
                          parse: string -> Result<JsonValue, string>)
    requires FetchOutcome(requestedCity, apiKey, response, parse).Failure?
    ensures var t := FetchOutcome(requestedCity, apiKey, response, parse).error;
            && t.ErrorValue?
            && (|| t.message == MissingKeyMessage
                || t.message == UnexpectedMessage
                || StartsWith(t.message, RequestFailedPrefix))
  {
  }

  /** A request-level throw is rewrapped: an Error keeps its message after
      the prefix, anything else becomes the unexpected-error message. */
  lemma TransportFailureRewrapped(requestedCity: string, apiKey: Option<string>,
                                  thrown: Thrown, parse: string -> Result<JsonValue, string>)
    requires ApiKeyConfigured(apiKey)
    ensures thrown.ErrorValue? ==>
      FetchOutcome(requestedCity, apiKey, Failure(thrown), parse)
        == Failure(ErrorValue(RequestFailedPrefix + thrown.message))
    ensures thrown.NonErrorValue? ==>
      FetchOutcome(requestedCity, apiKey, Failure(thrown), parse) == Failure(ErrorValue(UnexpectedMessage))
  {
  }

  /** A reply with a truthy `error` is rejected with that error and the echoed
      (or requested) city, even when the weather fields are missing: the
      `error` check comes first. */
  lemma ErrorReplyReported(requestedCity: string, apiKey: Option<string>, text: string,
                           parse: string -> Result<JsonValue, string>, v: JsonValue)
    requires ApiKeyConfigured(apiKey) && parse(StripFence(text)) == Success(v)
    requires Truthy(Property(v, "error")) && !Unprintable(Property(v, "error").value)
    requires Truthy(Property(v, "city")) ==> !Unprintable(Property(v, "city").value)
    ensures var cityText := if Truthy(Property(v, "city")) then ValueText(Property(v, "city").value).value
                            else requestedCity;
            FetchOutcome(requestedCity, apiKey, Success(text), parse)
              == Failure(ErrorValue(RequestFailedPrefix
                                    + (ValueText(Property(v, "error").value).value + " (City: " + cityText + ")")))
  {
    var message := NotFoundMessage(v, requestedCity);
    assert message.Success?;
    assert Validate(v, requestedCity) == Failure(message.value);
    RejectedReplyRewrapped(requestedCity, apiKey, text, parse, v, message.value);
  }

  /** A parsed value that validation rejects with a message reaches the
      caller as that message under the prefix. */
  lemma RejectedReplyRewrapped(requestedCity: string, apiKey: Option<string>, text: string,
                               parse: string -> Result<JsonValue, string>, v: JsonValue,
                               message: string)
    requires ApiKeyConfigured(apiKey) && parse(StripFence(text)) == Success(v)
    requires Validate(v, requestedCity) == Failure(message)
    ensures FetchOutcome(requestedCity, apiKey, Success(text), parse)
              == Failure(ErrorValue(RequestFailedPrefix + message))
  {
  }

  /** When the `error` value, or a truthy `city`, has its own `toString` key,
      building the not-found message throws a TypeError, and that is what the
      `catch` rewraps. */
  lemma UnprintableErrorReplyReported(requestedCity: string, apiKey: Option<string>, text: string,
                                      parse: string -> Result<JsonValue, string>, v: JsonValue)
    requires ApiKeyConfigured(apiKey) && parse(StripFence(text)) == Success(v)
    requires Truthy(Property(v, "error"))
    requires || Unprintable(Property(v, "error").value)
             || (Truthy(Property(v, "city")) && Unprintable(Property(v, "city").value))
    ensures FetchOutcome(requestedCity, apiKey, Success(text), parse)
              == Failure(ErrorValue(RequestFailedPrefix + ConversionMessage))
  {
  }

  /** The reply `{"error": {"toString": "x"}}` for Rome fails with the
      TypeError's message, not with a not-found message. */
  lemma ObjectErrorWithToString(apiKey: Option<string>, text: string,
                                parse: string -> Result<JsonValue, string>)
    requires ApiKeyConfigured(apiKey)
    requires parse(StripFence(text)) == Success(JObject(map["error" := JObject(map["toString" := JString("x")])]))
    ensures FetchOutcome("Rome", apiKey, Success(text), parse)
              == Failure(ErrorValue(RequestFailedPrefix + "Cannot convert object to primitive value"))
  {
    var v := JObject(map["error" := JObject(map["toString" := JString("x")])]);
    assert Property(v, "error") == Some(JObject(map["toString" := JString("x")]));
    UnprintableErrorReplyReported("Rome", apiKey, text, parse, v);
  }

  /** A reply that `JSON.parse` rejects reaches the caller as the
      SyntaxError's message under the prefix. */
  lemma ParseFailureRewrapped(requestedCity: string, apiKey: Option<string>, text: string,
                              parse: string -> Result<JsonValue, string>, syntaxError: string)
    requires ApiKeyConfigured(apiKey) && parse(StripFence(text)) == Failure(syntaxError)
    ensures FetchOutcome(requestedCity, apiKey, Success(text), parse)
              == Failure(ErrorValue(RequestFailedPrefix + syntaxError))
  {
  }

  /** The reply "null" parses to null, and reading its `error` property
      throws the TypeError that the `catch` rewraps. */
  lemma NullReplyReported(requestedCity: string, apiKey: Option<string>, text: string,
                          parse: string -> Result<JsonValue, string>)
    requires ApiKeyConfigured(apiKey) && parse(StripFence(text)) == Success(JNull)
    ensures FetchOutcome(requestedCity, apiKey, Success(text), parse)
              == Failure(ErrorValue(RequestFailedPrefix + NullPropertyMessage))
  {
  }

  /** A reply without a truthy `error` but with a falsy `city` or a
      non-number `temperatureCelsius` is rejected as malformed. */
  lemma MalformedReplyReported(requestedCity: string, apiKey: Option<string>, text: string,
                               parse: string -> Result<JsonValue, string>, v: JsonValue)
    requires ApiKeyConfigured(apiKey) && parse(StripFence(text)) == Success(v)
    requires !v.JNull? && !Truthy(Property(v, "error"))
    requires !Truthy(Property(v, "city")) || !IsNumber(Property(v, "temperatureCelsius"))
    ensures FetchOutcome(requestedCity, apiKey, Success(text), parse)
              == Failure(ErrorValue(RequestFailedPrefix + MalformedMessage))
  {
  }

  /** The call resolves exactly when the key is set, the request returned,
      the text parsed to a non-null value without a truthy `error`, with a
      truthy `city` (of any type) and a number `temperatureCelsius`; the
      value is the parsed one with only `cityImageUrl` possibly nulled. */
  lemma SuccessExactly(requestedCity: string, apiKey: Option<string>,
                       response: Result<string, Thrown>,
                       parse: string -> Result<JsonValue, string>)
    ensures FetchOutcome(requestedCity, apiKey, response, parse).Success?
      <==> && ApiKeyConfigured(apiKey) && response.Success?
           && parse(StripFence(response.value)).Success?
           && var v := parse(StripFence(response.value)).value;
              && !v.JNull? && !Truthy(Property(v, "error"))
              && Truthy(Property(v, "city")) && IsNumber(Property(v, "temperatureCelsius"))
    ensures FetchOutcome(requestedCity, apiKey, response, parse).Success? ==>
              FetchOutcome(requestedCity, apiKey, response, parse).value
                == SanitizeImageUrl(parse(StripFence(response.value)).value)
  {
  }

  /** The fenced and the bare form of the same JSON object text get the same
      outcome. */
  lemma FencedReplyAsBare(requestedCity: string, apiKey: Option<string>, tag: string,
                          payload: string, parse: string -> Result<JsonValue, string>)
    requires forall k :: 0 <= k < |tag| ==> IsWordChar(tag[k])
    requires payload != [] && IsTrimmed(payload) && payload[0] == '{'
    ensures FetchOutcome(requestedCity, apiKey, Success(FencedReply(tag, payload)), parse)
              == FetchOutcome(requestedCity, apiKey, Success(payload), parse)
  {
    StripFenceYieldsPayload(tag, payload);
    BareObjectUnstripped(payload);
    OutcomeFollowsStrippedText(requestedCity, apiKey, FencedReply(tag, payload), payload, parse);
  }

  /** A trimmed JSON object text is not fenced and is parsed as it is. */
  lemma BareObjectUnstripped(payload: string)
    requires payload != [] && IsTrimmed(payload) && payload[0] == '{'
    ensures StripFence(payload) == payload
  {
    assert !IsFenced(payload) by {
      assert |payload| >= 3 ==> payload[..3][0] == '{';
    }
    assert Trim(payload) == payload;
  }

  /** Two replies that strip to the same text get the same outcome. */
  lemma OutcomeFollowsStrippedText(requestedCity: string, apiKey: Option<string>,
                                   text: string, otherText: string,
                                   parse: string -> Result<JsonValue, string>)
    requires StripFence(text) == StripFence(otherText)
    ensures FetchOutcome(requestedCity, apiKey, Success(text), parse)
              == FetchOutcome(requestedCity, apiKey, Success(otherText), parse)
  {
  }

  /** A complete Paris reply resolves to a record whose `city` is "Paris". */
  lemma ParisResolves(apiKey: Option<string>, text: string,
                      parse: string -> Result<JsonValue, string>, fields: map<string, JsonValue>)
    requires ApiKeyConfigured(apiKey)
    requires parse(StripFence(text)) == Success(JObject(fields))
    requires "error" !in fields && "temperatureCelsius" in fields && fields["temperatureCelsius"].JNumber?
    requires "city" in fields && fields["city"] == JString("Paris")
    ensures FetchOutcome("Paris", apiKey, Success(text), parse).Success?
    ensures Property(FetchOutcome("Paris", apiKey, Success(text), parse).value, "city") == Some(JString("Paris"))
  {
    var v := JObject(fields);
    assert Truthy(Property(v, "city")) && !Truthy(Property(v, "error"));
    SuccessExactly("Paris", apiKey, Success(text), parse);
  }

  /** The not-found reply for Atlantis is reported with the provider's
      message and the echoed city. */
  lemma AtlantisNotFound(apiKey: Option<string>, text: string,
                         parse: string -> Result<JsonValue, string>, fields: map<string, JsonValue>)
    requires ApiKeyConfigured(apiKey) && parse(StripFence(text)) == Success(JObject(fields))
    requires "error" in fields && fields["error"] == JString("City not found or data unavailable")
    requires "city" in fields && fields["city"] == JString("Atlantis")
    ensures FetchOutcome("Atlantis", apiKey, Success(text), parse)
      == Failure(ErrorValue(RequestFailedPrefix + ("City not found or data unavailable" + " (City: " + "Atlantis" + ")")))
  {
    var v := JObject(fields);
    assert Truthy(Property(v, "error")) && Truthy(Property(v, "city"));
    assert !Unprintable(JString("City not found or data unavailable")) && !Unprintable(JString("Atlantis"));
    ErrorReplyReported("Atlantis", apiKey, text, parse, v);
  }
}
