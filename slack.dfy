/**
 * The collaborators both handlers talk to, reduced to what the handlers
 * see of them: request headers, and `WebClient.chat_postMessage` as the
 * call it was asked to make plus what that call came to.
 */
module Slack {
  import opened Json
  import opened Python

  /** Request headers as received: (name, value) pairs in order. */
  type Headers = seq<(string, string)>

  /** One `chat_postMessage(channel=..., text=...)` call, with its arguments as passed. */
  datatype Post = Post(channel: Json, text: string)

  /** What the Web API call came to: accepted, answered with ok=false (SlackApiError, carrying str(e)), or not reached. */
  datatype Delivery = Delivered | Rejected(message: string) | Unreachable

  /** The exception chat_postMessage raises for a failed delivery. */
  function DeliveryError(d: Delivery): (e: PyError)
    requires !d.Delivered?
    ensures d.Rejected? <==> e.SlackApiError?
  {
    match d
    case Rejected(m) => SlackApiError(m)
    case Unreachable => URLError
  }
}
