/**
 * `SlackRequestHandler.do_POST` of app.py, a handler on Python's
 * `http.server`. It reads `content-length` bytes from the request stream
 * and checks the signature over them, then reads `content-length` bytes
 * AGAIN and parses those as JSON; it echoes a `challenge`, or answers an
 * un-subtyped `message` event that has text with "You said: ...".
 *
 * The request stream, the response stream and the Web API client are
 * objects whose state the handler changes; the pure function `HandlePost`
 * states what one call does to them, and `DoPost` is proved to do exactly
 * that. The signature check and `json.loads` are parameters:
 * `isValidRequest` answers for `verifier.is_valid_request(...)` (None when
 * the call raises), `loads` gives the parsed value or None for the
 * JSONDecodeError.
 */
module SlackApp {
  import opened Wrappers
  import opened Python
  import opened Json
  import opened Utf8
  import opened Slack

  /**
   * What has gone out on the connection: the status line and the headers
   * added with send_header, whether end_headers has flushed them, and the
   * body bytes written to wfile.
   */
  datatype Wire = Wire(status: Option<int>, headers: seq<(string, string)>, ended: bool, body: seq<byte>)

  /** Nothing sent. */
  const Silent: Wire := Wire(None, [], false, [])

  /** `send_response(code)` then `end_headers()`, with no body. */
  function Bare(code: int): Wire {
    Wire(Some(code), [], true, [])
  }

  /** How the call ended: it returned, or an exception escaped it (the server then drops the connection). */
  datatype Completion = Returned | Raised(error: PyError)

  /** Everything one do_POST call does: the chunks it read, what it sent, the posts it made, how it ended. */
  datatype Trace = Trace(chunks: seq<seq<byte>>, wire: Wire, posts: seq<Post>, completion: Completion)

  function Flatten(chunks: seq<seq<byte>>): (bs: seq<byte>)
    ensures chunks == [] ==> bs == []
    ensures |chunks| == 1 ==> bs == chunks[0]
    ensures |chunks| == 2 ==> bs == chunks[0] + chunks[1]
  {
    if chunks == [] then [] else chunks[0] + Flatten(chunks[1..])
  }

  /**
   * `self.headers[name]`: the first header whose name, in ASCII lower case,
   * is `name` (which is given already in lower case, as "content-length" is).
   */
  function HeaderValue(headers: Headers, name: string): (r: Option<string>)
    ensures r.Some? ==> exists i :: 0 <= i < |headers| && FirstNamed(headers, name, i) && headers[i].1 == r.value
    ensures r.None? ==> forall i :: 0 <= i < |headers| ==> AsciiLower(headers[i].0) != name
  {
    if headers == [] then None
    else if AsciiLower(headers[0].0) == name then
      assert FirstNamed(headers, name, 0);
      Some(headers[0].1)
    else
      var r := HeaderValue(headers[1..], name);
      assert forall i :: 1 <= i < |headers| ==> headers[i] == headers[1..][i - 1];
      assert r.Some? ==> exists i :: 0 <= i < |headers| && FirstNamed(headers, name, i) && headers[i].1 == r.value by {
        if r.Some? {
          var k :| 0 <= k < |headers[1..]| && FirstNamed(headers[1..], name, k) && headers[1..][k].1 == r.value;
          assert FirstNamed(headers, name, k + 1);
        }
      }
      r
  }

  /** Header i has that name, in ASCII lower case, and no header before it does. */
  predicate FirstNamed(headers: Headers, name: string, i: nat)
    requires i < |headers|
  {
    && AsciiLower(headers[i].0) == name
    && forall j :: 0 <= j < i ==> AsciiLower(headers[j].0) != name
  }

  /** Of two headers of the same name, whatever their case, the first one is read. */
  lemma FirstOfRepeatedHeader(first: string, second: string, name: string, v1: string, v2: string)
    requires AsciiLower(first) == name && AsciiLower(second) == name
    ensures HeaderValue([(first, v1), (second, v2)], name) == Some(v1)
  {
  }

  /** `int(self.headers['content-length'])`: int(None) is a TypeError, a malformed value a ValueError. */
  function ContentLength(headers: Headers): (r: Result<int, PyError>)
    ensures r == Failure(TypeError) <==> HeaderValue(headers, "content-length").None?
    ensures r == Failure(ValueError) <==> HeaderValue(headers, "content-length").Some? && ParseInt(HeaderValue(headers, "content-length").value).None?
    ensures r.Success? ==> HeaderValue(headers, "content-length").Some? && ParseInt(HeaderValue(headers, "content-length").value) == Some(r.value)
  {
    match HeaderValue(headers, "content-length")
    case None => Failure(TypeError)
    case Some(v) => match ParseInt(v) case Some(n) => Success(n) case None => Failure(ValueError)
  }

  /** A content-length header that `str()` wrote for n is read as n. */
  lemma ContentLengthOfDecimal(headers: Headers, n: int)
    requires HeaderValue(headers, "content-length") == Some(ToDecimal(n))
    ensures ContentLength(headers) == Success(n)
  {
    ParseIntOfToDecimal(n);
  }

  /**
   * `rfile.read(n)` on a buffered stream that holds `rest` up to its end:
   * n bytes, fewer at the end, everything for n == -1; a length below -1
   * is a ValueError.
   */
  function ReadChunk(rest: seq<byte>, n: int): (r: Result<seq<byte>, PyError>)
    ensures r.Success? <==> n >= -1
    ensures r.Failure? ==> r.error == ValueError
    ensures r.Success? ==> r.value <= rest
    ensures r.Success? ==> |r.value| == if n == -1 || n > |rest| then |rest| else n
  {
    if n < -1 then Failure(ValueError)
    else if n == -1 || n > |rest| then Success(rest)
    else Success(rest[..n])
  }

  /** The reply to a message event, if lines 39-44 send one: Failure for the exception `.get` raises on a non-dict. */
  function EchoPost(event: Json): (r: Result<Option<Post>, PyError>)
    ensures r.Failure? <==> Truthy(event) && !event.JObj?
    ensures r == Success(None) <==> !Truthy(event) || (event.JObj? && !Echoes(event))
    ensures event.JObj? && Echoes(event) ==>
              r == Success(Some(Post(Get(event, "channel").value, "You said: " + PyStr(Get(event, "text").value))))
  {
    if !Truthy(event) then Success(None)
    else
      match Get(event, "type")
      case Failure(e) => Failure(e)
      case Success(kind) =>
        if kind == JStr("message") && !Truthy(Get(event, "subtype").value) then
          var channelId := Get(event, "channel").value;
          var text := Get(event, "text").value;
          if Truthy(text) then Success(Some(Post(channelId, "You said: " + PyStr(text)))) else Success(None)
        else Success(None)
  }

  /** The three conditions under which a message event is answered. */
  predicate Echoes(event: Json): (b: bool)
    requires event.JObj?
    // line 39's test after `event and`, and line 42's, in terms of `.get`
    ensures b <==> && Get(event, "type") == Success(JStr("message"))
                   && !Truthy(Get(event, "subtype").value)
                   && Truthy(Get(event, "text").value)
  {
    && Lookup(event.members, "type") == Some(JStr("message"))
    && !Truthy(Get(event, "subtype").value)
    && Truthy(Get(event, "text").value)
  }

  const ChallengeHead: Wire := Wire(Some(200), [("Content-type", "text/plain")], true, [])

  /** Lines 30-48, for the parsed value `data`. */
  function Answer(data: Json, delivery: Delivery): (t: Trace)
    ensures t.chunks == [] && |t.posts| <= 1
    // a challenge is echoed as the exact body, and nothing is posted even when an event is present
    ensures Contains(data, "challenge") == Success(true) ==> t.posts == [] && t.wire.status == Some(200)
    ensures data.JObj? && Lookup(data.members, "challenge").Some? && Lookup(data.members, "challenge").value.JStr? ==>
              t == Trace([], ChallengeHead.(body := Encode(Lookup(data.members, "challenge").value.s)), [], Returned)
    // a post goes out exactly for an answerable message event, to its channel, with its text after "You said: "
    ensures t.posts != [] <==>
              && data.JObj? && !HasKey(data.members, "challenge")
              && var event := Get(data, "event").value; event.JObj? && Truthy(event) && Echoes(event)
    ensures t.posts != [] ==>
              var event := Get(data, "event").value;
              t.posts == [Post(Get(event, "channel").value, "You said: " + PyStr(Get(event, "text").value))]
    // line 30: `in` on a number, a boolean or None raises before anything is sent
    ensures Contains(data, "challenge").Failure? ==> t == Trace([], Silent, [], Raised(TypeError))
    // line 34 raises after the status line and the header went out: data["challenge"] on a list or
    // a string is a TypeError, and a challenge that is not a string has no .encode()
    ensures Contains(data, "challenge") == Success(true) && !data.JObj? ==> t == Trace([], ChallengeHead, [], Raised(TypeError))
    ensures data.JObj? && Lookup(data.members, "challenge").Some? && !Lookup(data.members, "challenge").value.JStr? ==>
              t == Trace([], ChallengeHead, [], Raised(AttributeError))
    // line 38: a list or a string without "challenge" has no .get
    ensures Contains(data, "challenge") == Success(false) && !data.JObj? ==> t == Trace([], Silent, [], Raised(AttributeError))
    // line 39: a truthy event that is not a dict has no .get
    ensures data.JObj? && !HasKey(data.members, "challenge") &&
            (var event := Get(data, "event").value; Truthy(event) && !event.JObj?) ==>
              t == Trace([], Silent, [], Raised(AttributeError))
    // every other event is acknowledged with a bare 200, unless the post itself raised
    ensures data.JObj? && !HasKey(data.members, "challenge") &&
            (var event := Get(data, "event").value; !Truthy(event) || event.JObj?) ==>
              if t.posts != [] && !delivery.Delivered? then t == Trace([], Silent, t.posts, Raised(DeliveryError(delivery)))
              else t == Trace([], Bare(200), t.posts, Returned)
  {
    match Contains(data, "challenge")
    case Failure(e) => Trace([], Silent, [], Raised(e))
    case Success(found) =>
      if found then
        match Subscript(data, "challenge")
        case Failure(e) => Trace([], ChallengeHead, [], Raised(e))
        case Success(token) =>
          if token.JStr? then Trace([], ChallengeHead.(body := Encode(token.s)), [], Returned)
          else Trace([], ChallengeHead, [], Raised(AttributeError))
      else
        match Get(data, "event")
        case Failure(e) => Trace([], Silent, [], Raised(e))
        case Success(event) =>
          match EchoPost(event)
          case Failure(e) => Trace([], Silent, [], Raised(e))
          case Success(None) => Trace([], Bare(200), [], Returned)
          case Success(Some(post)) =>
            if delivery.Delivered? then Trace([], Bare(200), [post], Returned)
            else Trace([], Silent, [post], Raised(DeliveryError(delivery)))
  }

  /** Lines 27-48, for the bytes the second read returned. */
  function Respond(body: seq<byte>, loads: string -> Option<Json>, delivery: Delivery): (t: Trace)
    ensures t.chunks == [] && |t.posts| <= 1
    ensures DecodeStrict(body).None? ==> t == Trace([], Silent, [], Raised(UnicodeDecodeError))
    ensures DecodeStrict(body).Some? && loads(DecodeStrict(body).value).None? ==>
              t == Trace([], Silent, [], Raised(JSONDecodeError))
    ensures DecodeStrict(body).Some? && loads(DecodeStrict(body).value).Some? ==>
              t == Answer(loads(DecodeStrict(body).value).value, delivery)
  {
    match DecodeStrict(body)
    case None => Trace([], Silent, [], Raised(UnicodeDecodeError))
    case Some(text) =>
      match loads(text)
      case None => Trace([], Silent, [], Raised(JSONDecodeError))
      case Some(data) => Answer(data, delivery)
  }

  /** Line 20: `self.rfile.read(int(self.headers['content-length']))`. */
  function FirstRead(headers: Headers, stream: seq<byte>): (r: Result<seq<byte>, PyError>)
    ensures r.Success? <==> ContentLength(headers).Success? && ContentLength(headers).value >= -1
    ensures r.Success? ==> r == ReadChunk(stream, ContentLength(headers).value) && r.value <= stream
  {
    var length := ContentLength(headers);
    if length.Failure? then Failure(length.error) else ReadChunk(stream, length.value)
  }

  /** Line 27's read, after the first one took `first`: the same length again, from where the first stopped. */
  function SecondRead(headers: Headers, stream: seq<byte>, first: seq<byte>): (second: seq<byte>)
    requires FirstRead(headers, stream) == Success(first)
    ensures first + second <= stream
    // content-length bytes again, or all that is left when fewer remain or the length is -1
    ensures var n := ContentLength(headers).value;
            |second| == if n == -1 || n > |stream| - |first| then |stream| - |first| else n
  {
    var second := ReadChunk(stream[|first|..], ContentLength(headers).value).value;
    PrefixThenPrefix(stream, first, second);
    second
  }

  /** A prefix of what follows a prefix extends it to a longer prefix. */
  lemma PrefixThenPrefix(stream: seq<byte>, first: seq<byte>, second: seq<byte>)
    requires first <= stream && second <= stream[|first|..]
    ensures first + second <= stream
  {
    assert forall i :: 0 <= i < |second| ==> second[i] == stream[|first| + i];
  }

  /** One do_POST call on a request with these headers whose stream holds `stream`. */
  function HandlePost(headers: Headers, stream: seq<byte>, isValidRequest: (Headers, seq<byte>) -> Option<bool>,
                      loads: string -> Option<Json>, delivery: Delivery): (t: Trace)
    ensures |t.chunks| <= 2 && Flatten(t.chunks) <= stream
    ensures |t.posts| <= 1
    ensures FirstRead(headers, stream).Failure? ==> t == Trace([], Silent, [], Raised(FirstRead(headers, stream).error))
    // the first chunk read is the one verified
    ensures FirstRead(headers, stream).Success? ==> t.chunks != [] && t.chunks[0] == FirstRead(headers, stream).value
    // a verifier call that raises ends the call with nothing sent
    ensures t.chunks != [] && isValidRequest(headers, t.chunks[0]).None? ==>
              t == Trace([t.chunks[0]], Silent, [], Raised(VerifierError))
    // rejection: a bare 400, nothing posted, and the stream is not read again, so nothing is parsed
    ensures t.chunks != [] && isValidRequest(headers, t.chunks[0]) == Some(false) ==>
              t == Trace([t.chunks[0]], Bare(400), [], Returned)
    // acceptance: a second read of the same length, starting where the first ended; the reply depends only on it
    ensures t.chunks != [] && isValidRequest(headers, t.chunks[0]) == Some(true) ==>
              && t.chunks == [t.chunks[0], SecondRead(headers, stream, t.chunks[0])]
              && t.(chunks := []) == Respond(t.chunks[1], loads, delivery)
    ensures t.posts != [] ==> |t.chunks| == 2 && isValidRequest(headers, t.chunks[0]) == Some(true)
  {
    match FirstRead(headers, stream)
    case Failure(e) => Trace([], Silent, [], Raised(e))
    case Success(first) =>
      match isValidRequest(headers, first)
      case None => Trace([first], Silent, [], Raised(VerifierError))
      case Some(valid) =>
        if !valid then Trace([first], Bare(400), [], Returned)
        else
          var second := SecondRead(headers, stream, first);
          Respond(second, loads, delivery).(chunks := [first, second])
  }

  /**
   * The double read of lines 20 and 27, as written: when the first read
   * takes everything the client sent (a content-length equal to the bytes
   * sent, which is what every client sends, or -1), the second read finds
   * nothing, and json.loads of the empty text raises. So no such request is
   * ever answered with a 200 or a post, whatever the signature check says.
   */
  lemma WholeBodyReadTwiceNeverAnswered(headers: Headers, stream: seq<byte>,
                                        isValidRequest: (Headers, seq<byte>) -> Option<bool>,
                                        loads: string -> Option<Json>, delivery: Delivery)
    requires ContentLength(headers).Success?
    requires ContentLength(headers).value == -1 || ContentLength(headers).value >= |stream|
    requires loads("") == None
    ensures var t := HandlePost(headers, stream, isValidRequest, loads, delivery);
            && t.posts == []
            && t.wire.status != Some(200)
            && (isValidRequest(headers, stream) == Some(true) ==>
                  t == Trace([stream, []], Silent, [], Raised(JSONDecodeError)))
  {
    assert stream[..|stream|] == stream;
    assert FirstRead(headers, stream) == Success(stream);
    if isValidRequest(headers, stream) == Some(true) {
      assert SecondRead(headers, stream, stream) == [];
      assert DecodeStrict([]) == Some("");
    }
  }

  /**
   * The handler as evidently intended: the bytes that were verified are the
   * bytes that are parsed, so the stream is read once.
   */
  function HandlePostSingleRead(headers: Headers, stream: seq<byte>, isValidRequest: (Headers, seq<byte>) -> Option<bool>,
                                loads: string -> Option<Json>, delivery: Delivery): (t: Trace)
    ensures |t.chunks| <= 1 && Flatten(t.chunks) <= stream
    ensures FirstRead(headers, stream).Failure? ==> t == Trace([], Silent, [], Raised(FirstRead(headers, stream).error))
    ensures FirstRead(headers, stream).Success? ==> t.chunks == [FirstRead(headers, stream).value]
    ensures t.chunks != [] && isValidRequest(headers, t.chunks[0]).None? ==>
              t == Trace(t.chunks, Silent, [], Raised(VerifierError))
    ensures t.chunks != [] && isValidRequest(headers, t.chunks[0]) == Some(false) ==>
              t == Trace(t.chunks, Bare(400), [], Returned)
    // acceptance: the reply is computed from the very bytes the signature covers
    ensures t.chunks != [] && isValidRequest(headers, t.chunks[0]) == Some(true) ==>
              t.(chunks := []) == Respond(t.chunks[0], loads, delivery)
    ensures t.posts != [] ==> t.chunks != [] && isValidRequest(headers, t.chunks[0]) == Some(true)
  {
    match FirstRead(headers, stream)
    case Failure(e) => Trace([], Silent, [], Raised(e))
    case Success(body) =>
      match isValidRequest(headers, body)
      case None => Trace([body], Silent, [], Raised(VerifierError))
      case Some(valid) =>
        if !valid then Trace([body], Bare(400), [], Returned)
        else Respond(body, loads, delivery).(chunks := [body])
  }

  /**
   * With a single read, Slack's URL-verification request is answered: a
   * signed body whose parse carries a string `challenge` gets a 200 whose
   * body decodes back to exactly that challenge.
   */
  lemma {:induction false} SingleReadEchoesChallenge(headers: Headers, text: string, token: string,
                                                     isValidRequest: (Headers, seq<byte>) -> Option<bool>,
                                                     loads: string -> Option<Json>, delivery: Delivery)
    requires ContentLength(headers) == Success(|Encode(text)|)
    requires isValidRequest(headers, Encode(text)) == Some(true)
    requires loads(text).Some? && loads(text).value.JObj?
    requires Lookup(loads(text).value.members, "challenge") == Some(JStr(token))
    ensures var t := HandlePostSingleRead(headers, Encode(text), isValidRequest, loads, delivery);
            && t == Trace([Encode(text)], ChallengeHead.(body := Encode(token)), [], Returned)
            && DecodeStrict(t.wire.body) == Some(token)
  {
    var body := Encode(text);
    assert body[..|body|] == body;
    assert FirstRead(headers, body) == Success(body);
    DecodeEncode(text);
    DecodeEncode(token);
  }

  /** Every body with a valid signature is parsed by the single-read handler: it gets past decoding once the verified bytes are UTF-8. */
  lemma SingleReadParsesWhatWasSigned(headers: Headers, text: string, isValidRequest: (Headers, seq<byte>) -> Option<bool>,
                                       loads: string -> Option<Json>, delivery: Delivery)
    requires ContentLength(headers) == Success(|Encode(text)|)
    requires isValidRequest(headers, Encode(text)) == Some(true)
    requires loads(text).Some?
    ensures HandlePostSingleRead(headers, Encode(text), isValidRequest, loads, delivery)
            == Answer(loads(text).value, delivery).(chunks := [Encode(text)])
  {
    var body := Encode(text);
    assert body[..|body|] == body;
    DecodeEncode(text);
  }

  /** The two handlers differ only once a request is accepted: before that they read, send and raise alike. */
  lemma SingleReadAgreesUntilAccepted(headers: Headers, stream: seq<byte>, isValidRequest: (Headers, seq<byte>) -> Option<bool>,
                                      loads: string -> Option<Json>, delivery: Delivery)
    requires FirstRead(headers, stream).Failure? || isValidRequest(headers, FirstRead(headers, stream).value) != Some(true)
    ensures HandlePost(headers, stream, isValidRequest, loads, delivery)
            == HandlePostSingleRead(headers, stream, isValidRequest, loads, delivery)
  {
  }

  /**
   * The code as written replies as intended only to a client that sends
   * the body twice: on `body + body` it answers what the single-read
   * handler answers on `body`.
   */
  lemma BodySentTwiceMatchesSingleRead(headers: Headers, body: seq<byte>, isValidRequest: (Headers, seq<byte>) -> Option<bool>,
                                       loads: string -> Option<Json>, delivery: Delivery)
    requires ContentLength(headers) == Success(|body|)
    ensures HandlePost(headers, body + body, isValidRequest, loads, delivery).(chunks := [])
            == HandlePostSingleRead(headers, body, isValidRequest, loads, delivery).(chunks := [])
  {
    var n := |body|;
    assert (body + body)[..n] == body;
    assert body[..n] == body;
    assert FirstRead(headers, body + body) == Success(body);
    assert FirstRead(headers, body) == Success(body);
    assert (body + body)[n..] == body;
    assert SecondRead(headers, body + body, body) == body;
  }

  // ---- the objects do_POST works on ----

  /** `self.rfile`: every byte the client sends after the request head, and how far reads have got. */
  class InputStream {
    const data: seq<byte>
    var pos: nat

    ghost predicate Valid()
      reads this
    {
      pos <= |data|
    }

    constructor (data: seq<byte>)
      ensures Valid() && this.data == data && pos == 0
    {
      this.data := data;
      pos := 0;
    }

    /** `read(n)`: the next bytes are returned and the position moves past them. */
    method Read(n: int) returns (r: Result<seq<byte>, PyError>)
      requires Valid()
      modifies this
      ensures Valid()
      ensures r == ReadChunk(old(data[pos..]), n)
      ensures pos == old(pos) + (if r.Success? then |r.value| else 0)
    {
      if n < -1 {
        r := Failure(ValueError);
      } else {
        var rest := data[pos..];
        var k := if n == -1 || n > |rest| then |rest| else n;
        assert data[pos..pos + k] == rest[..k];
        assert k == |rest| ==> rest[..k] == rest;
        r := Success(rest[..k]);
        pos := pos + k;
      }
    }
  }

  /** `self.wfile` with the handler's header buffer: what has been sent. */
  class ResponseWriter {
    var status: Option<int>
    var headers: seq<(string, string)>
    var ended: bool
    var body: seq<byte>

    function Sent(): Wire
      reads this
    {
      Wire(status, headers, ended, body)
    }

    constructor ()
      ensures Sent() == Silent
    {
      status, headers, ended, body := None, [], false, [];
    }

    method SendResponse(code: int)
      modifies this
      ensures Sent() == old(Sent()).(status := Some(code))
    {
      status := Some(code);
    }

    method SendHeader(name: string, value: string)
      modifies this
      ensures Sent() == old(Sent()).(headers := old(headers) + [(name, value)])
    {
      headers := headers + [(name, value)];
    }

    method EndHeaders()
      modifies this
      ensures Sent() == old(Sent()).(ended := true)
    {
      ended := true;
    }

    method Write(bs: seq<byte>)
      modifies this
      ensures Sent() == old(Sent()).(body := old(body) + bs)
    {
      body := body + bs;
    }
  }

  /** The module-level `slack_client`: the chat_postMessage calls made through it. */
  class SlackClient {
    var posts: seq<Post>

    constructor ()
      ensures posts == []
    {
      posts := [];
    }

    /** The call is made whatever it comes to; a failed delivery raises. */
    method ChatPostMessage(channel: Json, text: string, delivery: Delivery) returns (raised: Option<PyError>)
      modifies this
      ensures posts == old(posts) + [Post(channel, text)]
      ensures raised == if delivery.Delivered? then None else Some(DeliveryError(delivery))
    {
      posts := posts + [Post(channel, text)];
      raised := if delivery.Delivered? then None else Some(DeliveryError(delivery));
    }
  }

  class SlackRequestHandler {
    const headers: Headers
    const rfile: InputStream
    const wfile: ResponseWriter
    const client: SlackClient

    constructor (headers: Headers, rfile: InputStream, wfile: ResponseWriter, client: SlackClient)
      ensures this.headers == headers && this.rfile == rfile && this.wfile == wfile && this.client == client
    {
      this.headers := headers;
      this.rfile := rfile;
      this.wfile := wfile;
      this.client := client;
    }

    /** do_POST: the stream, the response and the client end up as HandlePost says. */
    method DoPost(isValidRequest: (Headers, seq<byte>) -> Option<bool>, loads: string -> Option<Json>,
                  delivery: Delivery) returns (c: Completion)
      requires rfile.Valid() && wfile.Sent() == Silent
      modifies rfile, wfile, client
      ensures rfile.Valid()
      ensures var t := HandlePost(headers, old(rfile.data[rfile.pos..]), isValidRequest, loads, delivery);
              && rfile.pos == old(rfile.pos) + |Flatten(t.chunks)|
              && wfile.Sent() == t.wire
              && client.posts == old(client.posts) + t.posts
              && c == t.completion
    {
      ghost var stream := rfile.data[rfile.pos..];
      ghost var t := HandlePost(headers, stream, isValidRequest, loads, delivery);
      var length := ContentLength(headers);
      if length.Failure? {
        assert t == Trace([], Silent, [], Raised(length.error));
        return Raised(length.error);
      }
      var first := rfile.Read(length.value);
      if first.Failure? {
        assert t == Trace([], Silent, [], Raised(first.error));
        return Raised(first.error);
      }
      assert first == FirstRead(headers, stream);
      var verdict := isValidRequest(headers, first.value);
      if verdict.None? {
        assert t == Trace([first.value], Silent, [], Raised(VerifierError));
        return Raised(VerifierError);
      }
      if !verdict.value {
        wfile.SendResponse(400);
        wfile.EndHeaders();
        assert t == Trace([first.value], Bare(400), [], Returned);
        return Returned;
      }

      ghost var rest := rfile.data[rfile.pos..];
      assert stream == first.value + rest;
      c := Accept(length.value, loads, delivery);
      assert ReadChunk(rest, length.value).value == SecondRead(headers, stream, first.value);
    }

    /** Lines 27-48, once the request is verified: the second read, the decoding, the parse and the reply. */
    method Accept(n: int, loads: string -> Option<Json>, delivery: Delivery) returns (c: Completion)
      requires rfile.Valid() && wfile.Sent() == Silent && n >= -1
      modifies rfile, wfile, client
      ensures rfile.Valid()
      ensures var second := ReadChunk(old(rfile.data[rfile.pos..]), n).value;
              var t := Respond(second, loads, delivery);
              && rfile.pos == old(rfile.pos) + |second|
              && wfile.Sent() == t.wire
              && client.posts == old(client.posts) + t.posts
              && c == t.completion
    {
      var second := rfile.Read(n);
      var text := DecodeStrict(second.value);
      if text.None? {
        return Raised(UnicodeDecodeError);
      }
      var parsed := loads(text.value);
      if parsed.None? {
        return Raised(JSONDecodeError);
      }
      c := Reply(parsed.value, delivery);
    }

    /** Lines 30-48: the reply to the parsed body `data`, written to wfile and posted through the client. */
    method Reply(data: Json, delivery: Delivery) returns (c: Completion)
      requires wfile.Sent() == Silent
      modifies wfile, client
      ensures wfile.Sent() == Answer(data, delivery).wire
      ensures client.posts == old(client.posts) + Answer(data, delivery).posts
      ensures c == Answer(data, delivery).completion
    {
      var hasChallenge := Contains(data, "challenge");
      if hasChallenge.Failure? {
        return Raised(hasChallenge.error);
      }
      if hasChallenge.value {
        wfile.SendResponse(200);
        wfile.SendHeader("Content-type", "text/plain");
        wfile.EndHeaders();
        var token := Subscript(data, "challenge");
        if token.Failure? {
          return Raised(token.error);
        }
        if !token.value.JStr? {
          return Raised(AttributeError);
        }
        wfile.Write(Encode(token.value.s));
        return Returned;
      }

      var event := Get(data, "event");
      if event.Failure? {
        return Raised(event.error);
      }
      var ev := event.value;
      if Truthy(ev) {
        var kind := Get(ev, "type");
        if kind.Failure? {
          return Raised(kind.error);
        }
        if kind.value == JStr("message") && !Truthy(Get(ev, "subtype").value) {
          var channelId := Get(ev, "channel").value;
          var message := Get(ev, "text").value;
          if Truthy(message) {
            var raised := client.ChatPostMessage(channelId, "You said: " + PyStr(message), delivery);
            if raised.Some? {
              return Raised(raised.value);
            }
          }
        }
      }
      wfile.SendResponse(200);
      wfile.EndHeaders();
      return Returned;
    }
  }
}
