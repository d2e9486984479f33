/**
 * The Flask route `slack_events` of api/slack/events.py: it decodes the
 * body as UTF-8, URL-decodes it, strips one leading `payload=`, parses
 * JSON, and only then checks the request signature over the UTF-8 text
 * (before URL-decoding). A verified `shortcut` whose callback_id is
 * `buddy_up` gets one direct message to the invoking user.
 *
 * The signature check and `json.loads` are parameters: `isValidRequest`
 * answers for `signature_verifier.is_valid_request(data, headers)`, and
 * `loads` gives the parsed value or None for the JSONDecodeError.
 */
module SlackEvents {
  import opened Wrappers
  import opened Python
  import opened Json
  import opened Utf8
  import opened UrlDecode
  import opened Slack

  datatype Request = Request(body: seq<byte>, headers: Headers)

  /**
   * What Flask sends: a jsonify'd object of string fields with its status,
   * or, for an exception the route does not catch, Flask's 500 page.
   */
  datatype Response = Reply(status: int, fields: seq<(string, string)>) | Uncaught(error: PyError)

  /** The response and the chat_postMessage calls made while computing it. */
  datatype Outcome = Outcome(response: Response, posts: seq<Post>)

  function StatusCode(r: Response): (code: int)
    ensures r.Uncaught? ==> code == 500
  {
    match r
    case Reply(s, _) => s
    case Uncaught(_) => 500
  }

  const PayloadPrefix: string := "payload="

  const InvalidRequest: Response := Reply(403, [("status", "invalid_request")])

  const Acknowledged: Response := Reply(200, [("status", "ok")])

  function ErrorReply(status: int, message: string): Response {
    Reply(status, [("status", "error"), ("message", message)])
  }

  /** Remove `payload=` once, when it starts the text. */
  function StripPayloadPrefix(s: string): (r: string)
    ensures PayloadPrefix <= s ==> PayloadPrefix + r == s
    ensures !(PayloadPrefix <= s) ==> r == s
  {
    if PayloadPrefix <= s then s[|PayloadPrefix|..] else s
  }

  /** The text handed to json.loads: the whole body URL-decoded, then one leading `payload=` removed. */
  function LoadsInput(data: string): (r: string)
    ensures |r| <= |data|
    ensures PayloadPrefix <= UnquotePlus(data) ==> PayloadPrefix + r == UnquotePlus(data)
    ensures !(PayloadPrefix <= UnquotePlus(data)) ==> r == UnquotePlus(data)
    // a body with nothing to decode and no prefix reaches json.loads unchanged
    ensures '%' !in data && '+' !in data && !(PayloadPrefix <= data) ==> r == data
  {
    assert '%' !in data && '+' !in data ==> UnquotePlus(data) == data by {
      if '%' !in data && '+' !in data {
        PlusFree(data);
        UnquoteWithoutPercent(data);
      }
    }
    StripPayloadPrefix(UnquotePlus(data))
  }

  /** The text of the greeting, with the user id rendered as an f-string renders it. */
  function Greeting(userId: Json): (text: string)
    ensures userId.JStr? ==> text == "Hello <@" + userId.s + ">! You invoked the Buddy Up shortcut."
  {
    "Hello <@" + PyStr(userId) + ">! You invoked the Buddy Up shortcut."
  }

  /** `event['user']['id']`. */
  function UserId(event: Json): (r: Result<Json, PyError>)
    ensures r.Success? <==> && event.JObj? && HasKey(event.members, "user")
                            && var user := Lookup(event.members, "user").value;
                               user.JObj? && HasKey(user.members, "id")
    ensures r.Success? ==> Some(r.value) == Lookup(Lookup(event.members, "user").value.members, "id")
    ensures r.Failure? ==> r.error == KeyError || r.error == TypeError
  {
    match Subscript(event, "user")
    case Failure(e) => Failure(e)
    case Success(user) => Subscript(user, "id")
  }

  /** The event has both keys that line 49 prints. */
  predicate HasRoutingKeys(event: Json): (b: bool)
    ensures b <==> Subscript(event, "type").Success? && Subscript(event, "callback_id").Success?
  {
    event.JObj? && HasKey(event.members, "type") && HasKey(event.members, "callback_id")
  }

  predicate IsBuddyUp(event: Json): (b: bool)
    requires HasRoutingKeys(event)
    ensures b <==> Subscript(event, "type") == Success(JStr("shortcut")) && Subscript(event, "callback_id") == Success(JStr("buddy_up"))
  {
    Lookup(event.members, "type") == Some(JStr("shortcut"))
    && Lookup(event.members, "callback_id") == Some(JStr("buddy_up"))
  }

  /** Lines 48-67, for a parsed event whose request passed the signature check. */
  function Dispatch(event: Json, delivery: Delivery): (o: Outcome)
    ensures |o.posts| <= 1
    ensures event == JNull ==> o == Outcome(ErrorReply(400, "missing_payload"), [])
    // line 49's subscripts: KeyError on a dict without both keys, TypeError on any other value
    ensures event != JNull && !HasRoutingKeys(event) ==>
              o == Outcome(Uncaught(if event.JObj? then KeyError else TypeError), [])
    ensures HasRoutingKeys(event) && !IsBuddyUp(event) ==> o == Outcome(ErrorReply(400, "unknown_event"), [])
    ensures o.posts != [] <==> HasRoutingKeys(event) && IsBuddyUp(event) && UserId(event).Success?
    // line 52 raises, and Flask answers 500, when the shortcut has no `user` dict with an `id`
    ensures HasRoutingKeys(event) && IsBuddyUp(event) && UserId(event).Failure? ==>
              o == Outcome(Uncaught(UserId(event).error), [])
    ensures o.posts != [] ==> o.posts == [Post(UserId(event).value, Greeting(UserId(event).value))]
    ensures o.posts != [] ==>
              o.response == match delivery
                            case Delivered => Acknowledged
                            case Rejected(m) => ErrorReply(500, m)
                            case Unreachable => Uncaught(URLError)
    ensures StatusCode(o.response) == 200 <==> o.posts != [] && delivery.Delivered?
  {
    if event == JNull then Outcome(ErrorReply(400, "missing_payload"), [])
    else
      match Subscript(event, "type")
      case Failure(e) => Outcome(Uncaught(e), [])
      case Success(kind) =>
        match Subscript(event, "callback_id")
        case Failure(e) => Outcome(Uncaught(e), [])
        case Success(callback) =>
          if kind == JStr("shortcut") && callback == JStr("buddy_up") then
            match UserId(event)
            case Failure(e) => Outcome(Uncaught(e), [])
            case Success(uid) =>
              var post := Post(uid, Greeting(uid));
              match delivery
              case Delivered => Outcome(Acknowledged, [post])
              case Rejected(m) => Outcome(ErrorReply(500, m), [post])
              case Unreachable => Outcome(Uncaught(URLError), [post])
          else Outcome(ErrorReply(400, "unknown_event"), [])
  }

  /** The route `slack_events`. */
  function HandleEvents(req: Request, isValidRequest: (string, Headers) -> bool,
                        loads: string -> Option<Json>, delivery: Delivery): (o: Outcome)
    ensures |o.posts| <= 1
    ensures DecodeStrict(req.body).None? ==> o == Outcome(Uncaught(UnicodeDecodeError), [])
    // parsing comes first: a payload that is not JSON raises whatever the signature
    ensures DecodeStrict(req.body).Some? && loads(LoadsInput(DecodeStrict(req.body).value)).None? ==>
              o == Outcome(Uncaught(JSONDecodeError), [])
    // the signature is checked over the UTF-8 text of the body, before URL-decoding
    ensures DecodeStrict(req.body).Some? && loads(LoadsInput(DecodeStrict(req.body).value)).Some? ==>
              var data := DecodeStrict(req.body).value;
              if isValidRequest(data, req.headers) then o == Dispatch(loads(LoadsInput(data)).value, delivery)
              else o == Outcome(InvalidRequest, [])
    ensures o.posts != [] ==> isValidRequest(DecodeStrict(req.body).value, req.headers)
  {
    match DecodeStrict(req.body)
    case None => Outcome(Uncaught(UnicodeDecodeError), [])
    case Some(data) =>
      match loads(LoadsInput(data))
      case None => Outcome(Uncaught(JSONDecodeError), [])
      case Some(event) =>
        if !isValidRequest(data, req.headers) then Outcome(InvalidRequest, [])
        else Dispatch(event, delivery)
  }

  // ---- the body transformation before json.loads ----

  /** An encoded `payload%3D` decodes to `payload=` before the prefix test, so it is stripped too. */
  lemma EncodedPrefixStripped(rest: string)
    ensures LoadsInput("payload%3D" + rest) == UnquotePlus(rest)
  {
    assert "payload%3D" + rest == "payload" + (['%', '3', 'D'] + rest);
    UnquotePlusLiteralPrefix("payload", ['%', '3', 'D'] + rest);
    UnquotePlusAsciiEscape('3', 'D', rest);
    assert UnquotePlus("payload%3D" + rest) == PayloadPrefix + UnquotePlus(rest);
    StripAfterPrefix(UnquotePlus(rest));
  }

  lemma StripAfterPrefix(t: string)
    ensures StripPayloadPrefix(PayloadPrefix + t) == t
  {
    assert PayloadPrefix <= PayloadPrefix + t;
  }

  /** A form body `payload=<quote_plus(j)>`, as Slack posts interactions, hands json.loads exactly j. */
  lemma FormPayloadReachesParser(j: string)
    ensures LoadsInput(PayloadPrefix + QuotePlus(j)) == j
  {
    UnquotePlusLiteralPrefix(PayloadPrefix, QuotePlus(j));
    UnquotePlusOfQuotePlus(j);
    StripAfterPrefix(j);
  }

  /** Only one `payload=` is removed: a decoded body `payload=payload=...` is parsed from the second one. */
  lemma PrefixStrippedOnce(t: string)
    ensures StripPayloadPrefix(PayloadPrefix + PayloadPrefix + t) == PayloadPrefix + t
  {
    assert PayloadPrefix <= PayloadPrefix + PayloadPrefix + t;
  }

  /**
   * A raw JSON body (no '%', not starting with `payload=`) reaches
   * json.loads with every '+' turned into a space, inside strings too.
   */
  lemma JsonBodyPlusBecomesSpace(data: string)
    requires '%' !in data && |data| >= 1 && data[0] == '{'
    ensures LoadsInput(data) == PlusToSpace(data)
  {
    var plain := PlusToSpace(data);
    assert forall i :: 0 <= i < |plain| ==> plain[i] != '%';
    UnquoteWithoutPercent(plain);
    assert plain[0] == '{';
    assert !(PayloadPrefix <= plain);
  }

  // ---- relations between runs ----

  /** With the same text and headers, two verifiers that agree give the same outcome: the check sees nothing else. */
  lemma VerdictDependsOnRawText(req: Request, v1: (string, Headers) -> bool, v2: (string, Headers) -> bool,
                                loads: string -> Option<Json>, delivery: Delivery)
    requires DecodeStrict(req.body).Some?
    requires v1(DecodeStrict(req.body).value, req.headers) == v2(DecodeStrict(req.body).value, req.headers)
    ensures HandleEvents(req, v1, loads, delivery) == HandleEvents(req, v2, loads, delivery)
  {
  }

  /** A rejected signature gives 403 whatever the payload holds and whatever the Web API would do. */
  lemma RejectionIgnoresPayload(req: Request, isValidRequest: (string, Headers) -> bool,
                                loads: string -> Option<Json>, d1: Delivery, d2: Delivery)
    requires DecodeStrict(req.body).Some?
    requires loads(LoadsInput(DecodeStrict(req.body).value)).Some?
    requires !isValidRequest(DecodeStrict(req.body).value, req.headers)
    ensures HandleEvents(req, isValidRequest, loads, d1) == HandleEvents(req, isValidRequest, loads, d2)
    ensures HandleEvents(req, isValidRequest, loads, d1) == Outcome(InvalidRequest, [])
  {
  }

  // ---- parse before verify ----

  /**
   * A request with a bad signature and a body that is not JSON gets a
   * 500, not the 403 of line 46: json.loads raises before line 45 runs.
   */
  lemma UnsignedGarbageIsServerError(req: Request, isValidRequest: (string, Headers) -> bool,
                                     loads: string -> Option<Json>, delivery: Delivery)
    requires DecodeStrict(req.body).Some?
    requires !isValidRequest(DecodeStrict(req.body).value, req.headers)
    requires loads(LoadsInput(DecodeStrict(req.body).value)).None?
    ensures StatusCode(HandleEvents(req, isValidRequest, loads, delivery).response) == 500
  {
  }

  /** The same route with the signature checked before the body is parsed. */
  function HandleEventsVerifyFirst(req: Request, isValidRequest: (string, Headers) -> bool,
                                   loads: string -> Option<Json>, delivery: Delivery): (o: Outcome)
    ensures DecodeStrict(req.body).Some? && !isValidRequest(DecodeStrict(req.body).value, req.headers) ==>
              o == Outcome(InvalidRequest, [])
    ensures DecodeStrict(req.body).Some? && isValidRequest(DecodeStrict(req.body).value, req.headers) ==>
              o == HandleEvents(req, isValidRequest, loads, delivery)
    ensures o.posts != [] ==> DecodeStrict(req.body).Some? && isValidRequest(DecodeStrict(req.body).value, req.headers)
  {
    match DecodeStrict(req.body)
    case None => Outcome(Uncaught(UnicodeDecodeError), [])
    case Some(data) =>
      if !isValidRequest(data, req.headers) then Outcome(InvalidRequest, [])
      else
        match loads(LoadsInput(data))
        case None => Outcome(Uncaught(JSONDecodeError), [])
        case Some(event) => Dispatch(event, delivery)
  }
}
