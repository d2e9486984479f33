# Slack bot webhook handlers, modelled in Dafny

The repository is a small Slack bot. It has two entry points for the
requests Slack sends it:

- `app.py`, `SlackRequestHandler.do_POST`, is a handler on Python's
  `http.server`. It checks the request signature over the bytes of one read
  of `content-length` bytes. It then reads `content-length` bytes a second
  time and parses them as JSON. A rejected signature gets a bare 400. It
  echoes a URL-verification `challenge` as plain text. For an un-subtyped
  `message` event with text, it posts "You said: ..." back to the event's
  channel. Any other parsed dict whose `event` is a dict or falsy gets a
  bare 200. An exception ends the handler with nothing more sent. These
  raise before anything is sent: unreadable headers, a verifier call that
  raises (line 19), bytes that are not UTF-8 or JSON, a parsed number,
  boolean or null (line 30), a parsed list or string without "challenge"
  (line 38), a truthy `event` that is not a dict (line 39), and a failed
  post (line 44). Line 34 raises after the 200 status line and the
  `Content-type` header have gone out: for a list or string that contains
  "challenge", and for a challenge that is not a string.
- `api/slack/events.py`, the Flask route `slack_events`, handles shortcut
  invocations. It decodes the body as UTF-8, URL-decodes it with
  `unquote_plus`, strips one leading `payload=` and parses the JSON. Only
  then does it check the signature over the UTF-8 text. A `shortcut` whose
  `callback_id` is `buddy_up` gets one direct message to the invoking user.

The model follows the code.

- `SlackApp` (app.py) is imperative:
  - The request stream, the response writer and the Web API client are
    classes whose methods change their fields.
  - `SlackRequestHandler.DoPost` is proved to leave them exactly as the pure
    function `HandlePost` says.
  - `HandlePost` carries the handler's properties.
- `SlackEvents` (api/slack/events.py) is pure: the route is the function `HandleEvents`
  from request to response and posts.
- Both rest on Python semantics the handlers depend on, each with a proved
  round trip:
  - `Utf8`: `bytes.decode('utf-8')`, both strict and with `errors='replace'`, and `str.encode()`.
  - `UrlDecode`: `unquote`, `unquote_plus`, and `quote_plus` as their inverse.
  - `Python`: `int()` and `str()` on integers, and ASCII lower-casing.
  - `Json`: the value `json.loads` returns, and `in`, `[]`, `.get`, truthiness and `str()` on it.
- Three outside calls are parameters, not models:
  - the signature check is a function. In app.py it returns `Option<bool>`, where `None` stands for the call raising. In api/slack/events.py it returns `bool`, so that call never raises;
  - `json.loads` is a function from text to the parsed value (`None` is the JSONDecodeError);
  - what a `chat_postMessage` call comes to is a `Delivery` value.
- When an exception escapes:
  - app.py's handler ends in `Raised(error)`, and the wire holds whatever was already flushed;
  - Flask answers an uncaught exception with its 500 page (`Uncaught`).

Some facts about the code that the model keeps:

- A body that json.loads rejects raises: Flask's 500 in api/slack/events.py, an exception in app.py.
- In api/slack/events.py a shortcut that is not buddy_up gets 400 `unknown_event`.
- api/slack/events.py parses the body before it checks the signature (Finding 2).
- app.py reads the body twice (Finding 1).
- There are no retries around `chat_postMessage`.

app.py passes `(self.headers, body)` to `is_valid_request`, while api/slack/events.py
passes `(data, headers)`. The model keeps each call's arguments as written.

## Model

| member | source | states |
|---|---|---|
| Python.ParseInt | app.py:20 | `int()` rejects text that is empty after stripping whitespace; it accepts exactly the text that, inside the whitespace and after one optional sign, is digits with single underscores only between two digits; a negative result has a `-` in front |
| Python.ToDecimal | app.py:20 | `str(n)` is never empty and starts with `-` exactly when n is negative |
| Python.ParseIntOfToDecimal | app.py:20 | `int(str(n)) == n` for every integer, so a content-length written by `str()` is read back exactly |
| Utf8.DecodeEncode | app.py:34 | decoding `s.encode()` gives back `s`, strictly and with replacement |
| Utf8.StrictAgreesWithReplace | api/slack/events.py:32 | where strict UTF-8 decoding succeeds, `errors='replace'` gives the same text |
| Utf8.EncodeAppend | app.py:34 | encoding distributes over concatenation |
| Utf8.EncodeChar | app.py:34 | a character is 1 to 4 bytes; exactly the ASCII ones are a single byte equal to the code point; multi-byte encodings contain no ASCII byte |
| Utf8.DecodeStrict | api/slack/events.py:32 | a successful strict decode has at most as many characters as bytes |
| Utf8.DecodeStrictIsInverse | api/slack/events.py:32 | `bs.decode('utf-8')` returns s exactly when `s.encode()` is bs; on every other byte sequence it raises UnicodeDecodeError |
| Utf8.EncodeDecodeStrict | app.py:27 | whatever strict decoding returns encodes back to the input bytes |
| Utf8.EncodeCharOfDecodeStep | app.py:27 | a well-formed sequence that the decoder reads as one character is exactly that character's encoding |
| Utf8.Encode | app.py:34 | an encoding takes between one and four bytes per character |
| Utf8.DecodeReplace | api/slack/events.py:35 | decoding with replacement never yields more characters than bytes |
| Utf8.DecodeStep | app.py:27 | one decoding step consumes 1 to 4 bytes; an ASCII byte decodes to itself |
| UrlDecode.UnquotePlusOfQuotePlus | api/slack/events.py:35 | `unquote_plus(quote_plus(s)) == s` for every string |
| UrlDecode.PlusVersusEncodedPlus | api/slack/events.py:35 | a literal `+` decodes to a space, an escaped `%2B` to a plus sign |
| UrlDecode.UnquoteWithoutPercent | api/slack/events.py:35 | text without `%` passes through `unquote` unchanged |
| UrlDecode.UnquoteAsciiEscape | api/slack/events.py:35 | an escape of an ASCII byte decodes to that character, and decoding continues after it |
| UrlDecode.UnquoteLiteralPrefix | api/slack/events.py:35 | a prefix without `%` comes through `unquote` unchanged, before the rest's decoding |
| UrlDecode.Unquote | api/slack/events.py:35 | unquote never lengthens the text |
| UrlDecode.UnquotePlus | api/slack/events.py:35 | decoding never lengthens the text |
| UrlDecode.PlusToSpaceAppend | api/slack/events.py:35 | turning `+` into spaces distributes over concatenation |
| Json.Lookup | app.py:38 | a dict has a value for k exactly when some member has key k, and that value is a member's value for k |
| Json.LastIndex | app.py:38 | the member that supplies `d[k]` is the last one with key k |
| Json.Get | app.py:38-41 | `.get` succeeds exactly on a dict; a missing key gives None; otherwise the dict's value |
| Json.Subscript | app.py:34 | `v[k]` succeeds exactly when v is a dict with key k; otherwise KeyError on a dict, TypeError elsewhere |
| Json.Contains | app.py:30 | `in` is key membership on a dict, element membership on a list and substring on a string; it fails exactly on numbers, booleans and None, always with TypeError |
| Json.Truthy | app.py:39 | None is false; a dict is true exactly when it has a key; a number is true exactly when it is not 0 |
| Json.PyStr | app.py:44 | an f-string renders a string as itself, and a number as the decimal that `int()` reads back |
| Json.PyRepr | app.py:44 | repr is never empty: a string is quoted with the same quote at both ends, a list bracketed, a dict braced, and a number is the decimal that `int()` reads back |
| Slack.DeliveryError | api/slack/events.py:62 | a rejected call raises SlackApiError; an unreachable API raises something else |
| SlackEvents.StripPayloadPrefix | api/slack/events.py:37-38 | exactly one leading `payload=` is removed, and nothing else changes |
| SlackEvents.LoadsInput | api/slack/events.py:35-38 | json.loads gets the URL-decoded body with one leading `payload=` removed; it is no longer than the body; a body without `%`, `+` or the prefix arrives unchanged |
| SlackEvents.UserId | api/slack/events.py:52 | `event['user']['id']` succeeds exactly when both are dicts with those keys; it gives the inner dict's value, and otherwise KeyError or TypeError |
| SlackEvents.HasRoutingKeys | api/slack/events.py:49 | line 49's two subscripts both succeed exactly when this holds |
| SlackEvents.IsBuddyUp | api/slack/events.py:51 | holds exactly when `event['type'] == 'shortcut'` and `event['callback_id'] == 'buddy_up'` |
| SlackEvents.Greeting | api/slack/events.py:58 | the greeting holds the user id between `<@` and `>` |
| SlackEvents.Dispatch | api/slack/events.py:48-67 | null gives 400 `missing_payload`; a missing `type` or `callback_id` raises KeyError, and subscripting a value that is not a dict raises TypeError; a buddy_up shortcut without `user` and `id` raises the error of line 52; any other route gives 400 `unknown_event`; a post goes out exactly for a buddy_up shortcut with a user id, to that user, with the greeting; 200 exactly when that post was delivered; a rejected post gives 500 with the error's text |
| SlackEvents.HandleEvents | api/slack/events.py:31-67 | body that is not UTF-8 raises; an unparsable payload raises whatever the signature; otherwise 403 unless the verifier accepts the raw text, then Dispatch; a post implies an accepted signature |
| SlackEvents.EncodedPrefixStripped | api/slack/events.py:35-38 | an encoded `payload%3D` is decoded before the prefix test, so it is stripped as well |
| SlackEvents.StripAfterPrefix | api/slack/events.py:37-38 | the text after a leading `payload=` is what remains |
| SlackEvents.FormPayloadReachesParser | api/slack/events.py:35-42 | the form body `payload=<quote_plus(j)>` hands json.loads exactly j |
| SlackEvents.PrefixStrippedOnce | api/slack/events.py:37-38 | of `payload=payload=...` only the first prefix is removed |
| SlackEvents.JsonBodyPlusBecomesSpace | api/slack/events.py:35-42 | a raw JSON body reaches json.loads with every `+` turned into a space, inside strings too |
| SlackEvents.VerdictDependsOnRawText | api/slack/events.py:45 | the outcome depends on the verifier only through its verdict on the UTF-8 text and the headers |
| SlackEvents.RejectionIgnoresPayload | api/slack/events.py:45-46 | a rejected signature gives 403 and no post, whatever the Web API would do |
| SlackEvents.UnsignedGarbageIsServerError | api/slack/events.py:42-46 | an unsigned body that is not JSON gets 500, not 403 |
| SlackEvents.HandleEventsVerifyFirst | api/slack/events.py:42-46 | checking the signature first: unsigned gives 403; signed gives what the route gives; a post implies a valid signature |
| SlackApp.HeaderValue | app.py:20 | the value found belongs to the FIRST header with that name, ignoring ASCII case; no value means no header has that name |
| SlackApp.FirstOfRepeatedHeader | app.py:20 | of two headers with the same name, in whatever case, the first one's value is read |
| SlackApp.ContentLength | app.py:20 | a missing header is a TypeError and a value `int()` rejects is a ValueError, exactly; otherwise the value `int()` gives |
| SlackApp.ContentLengthOfDecimal | app.py:20 | a header holding `str(n)` is read as n |
| SlackApp.ReadChunk | app.py:20 | `read(n)` fails exactly for n below -1; it returns a prefix of what remains, of length n, or all of it for -1 or past the end |
| SlackApp.FirstRead | app.py:20 | the first read succeeds exactly when the content-length parses to at least -1, and it returns a prefix of the stream |
| SlackApp.SecondRead | app.py:27 | the second read continues where the first stopped, so both chunks together are a prefix of the stream; it takes content-length bytes again, or all that remains when fewer are left or the length is -1 |
| SlackApp.Echoes | app.py:39-42 | holds exactly when `event.get("type") == "message"`, `event.get("subtype")` is falsy and `event.get("text")` is truthy |
| SlackApp.EchoPost | app.py:39-44 | a truthy non-dict event raises; otherwise a post exactly when the event is answerable, to its channel, with "You said: " and its text |
| SlackApp.Answer | app.py:30-48 | a string challenge is echoed as its exact encoding under `Content-type: text/plain`, with no post; a post exactly for an answerable message event. A dict without "challenge" whose `event` is falsy or a dict gets a bare 200, unless the post raised. `in` on a number, boolean or null raises TypeError with nothing sent, and so does `.get` on a list or string, with AttributeError. A truthy `event` that is not a dict raises AttributeError with nothing sent. A list or string containing "challenge", or a challenge that is not a string, raises after the 200 status line and the `Content-type` header |
| SlackApp.Respond | app.py:27-48 | body that is not UTF-8 raises UnicodeDecodeError; unparsable text raises JSONDecodeError; otherwise Answer on the parsed value |
| SlackApp.HandlePost | app.py:17-48 | a content-length failure raises before anything is read; the first chunk is the one verified; a verifier call that raises ends the call with nothing sent; rejection gives a bare 400 with no second read; acceptance reads the same length again and answers from that chunk alone; a post implies an accepted signature |
| SlackApp.WholeBodyReadTwiceNeverAnswered | app.py:19-27 | when the first read takes everything sent, nothing is posted and no 200 is sent; a signed request raises JSONDecodeError after reading an empty second chunk |
| SlackApp.HandlePostSingleRead | app.py:17-48 | corrected handler: a verifier call that raises ends the call with nothing sent; a rejection gets a bare 400; on acceptance the reply is computed from the very bytes the signature covers |
| SlackApp.SingleReadEchoesChallenge | app.py:30-35 | with one read, a signed URL verification gets a 200 whose body decodes to exactly the challenge |
| SlackApp.SingleReadParsesWhatWasSigned | app.py:27-48 | with one read, a signed UTF-8 body is answered from its own parse |
| SlackApp.SingleReadAgreesUntilAccepted | app.py:19-24 | the two handlers agree on every request that is not accepted |
| SlackApp.BodySentTwiceMatchesSingleRead | app.py:19-27 | the code as written answers `body + body` as the single-read handler answers `body` |
| SlackApp.InputStream.Read | app.py:20 | `rfile.read(n)` returns ReadChunk of what remains and moves the position past it |
| SlackApp.ResponseWriter.SendResponse | app.py:22 | sets the status line and changes nothing else |
| SlackApp.ResponseWriter.SendHeader | app.py:32 | appends one header and changes nothing else |
| SlackApp.ResponseWriter.EndHeaders | app.py:23 | marks the head as flushed and changes nothing else |
| SlackApp.ResponseWriter.Write | app.py:34 | appends bytes to the body and changes nothing else |
| SlackApp.SlackClient.ChatPostMessage | app.py:44 | records the call, then raises exactly when the delivery failed |
| SlackApp.SlackRequestHandler.DoPost | app.py:17-48 | the stream advances by the bytes HandlePost reads; the wire, the posts and the way the call ends are HandlePost's |
| SlackApp.SlackRequestHandler.Accept | app.py:27-48 | after acceptance: the second read, then wire, posts and completion as Respond gives them for that chunk |
| SlackApp.SlackRequestHandler.Reply | app.py:30-48 | wire, posts and completion are those of Answer on the parsed value |

## Left out

- Server setup, the port, environment variables, `load_dotenv` and the client and verifier constructors (app.py:1-13, 50-56; api/slack/events.py:1-27, 69-70) are configuration, not behaviour.
- The signature check is a parameter. Slack's HMAC, the timestamp window and the library's internals are not part of this model.
- `json.loads` is a parameter. JSON text syntax, floats and lone surrogates in parsed strings are not modelled. Numbers are integers.
- `chat_postMessage` is a parameter: the network, the HTTP request it makes and any rate limiting are not modelled.
- `send_response` also adds `Server` and `Date` headers, and logs the request. Those are not on the modelled wire.
- The `print` calls of api/slack/events.py (lines 22-24, 40, 43, 49, 53) write to stdout only. Line 49's subscripts, which can raise, are modelled.
- Json.PyRepr: the non-ASCII escapes of `repr` (characters Python treats as non-printable beyond the ASCII control range, 0x7F-0xA0 and 0xAD) are approximated. Only the characters listed in `EscapeChar` are escaped.
- SlackApp.InputStream.Read: a read past the available bytes returns the short remainder, as at end of stream. A client that keeps the connection open would block instead, and blocking is not modelled. A huge content-length raises in Python, and this is not modelled: `read()` of more than sys.maxsize bytes raises OverflowError, and from Python 3.11 `int()` raises ValueError on more than 4300 digits.
- SlackEvents.HandleEvents: the verifier of api/slack/events.py cannot raise (it returns `bool`). An exception from `signature_verifier.is_valid_request` at api/slack/events.py:45 is not modelled.
- Flask's request parsing (`request.get_data`, `request.headers`) is taken as given: the model receives the body bytes and headers.
- Python.ParseInt: accepts only ASCII digits and whitespace, while Python's `int()` also accepts Unicode ones. It also has no digit limit, while from Python 3.11 `int()` raises ValueError on more than 4300 digits.
- SlackApp.HeaderValue takes the header name already in lower case, the only way it is called (`content-length`).

## Findings

| source | as written | input that shows it | evidently intended | confidence | as-written member | corrected member |
|---|---|---|---|---|---|---|
| app.py:27 | the body is read a second time for parsing, after line 20 already consumed it | a signed URL-verification request whose content-length equals the bytes sent: the second read is empty and json.loads("") raises, so the challenge is never answered | parse the bytes read and verified at line 20 | high, not executed | SlackApp.WholeBodyReadTwiceNeverAnswered | SlackApp.HandlePostSingleRead |
| api/slack/events.py:42-45 | json.loads runs before the signature check | an unsigned request whose body is not JSON, such as `x`, gets Flask's 500 instead of 403 | check the signature first, so every unsigned UTF-8 request gets 403 (a body that is not UTF-8 still fails at line 32) | medium, not executed | SlackEvents.UnsignedGarbageIsServerError | SlackEvents.HandleEventsVerifyFirst |
