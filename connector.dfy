/** The two services of the API connector that the window calls: building a URL
    (`GetURL`) and fetching it (`GetResponse`). Their code is not part of this model:
    a URL is represented by the arguments it is built from, and the network by a
    script of replies. */
module Connector {

  /** The arguments of one `GetURL` call. The signed URL (OAuth signature, nonce,
      timestamp, percent-encoding) is a function of these that this model does not
      compute. Empty credentials mean "do not sign with them". */
  datatype Call = Call(
    path: string,
    args: map<string, string>,
    consumerKey: string,
    consumerSecret: string,
    token: string,
    tokenSecret: string,
    useSsl: bool)

  /** What one `GetResponse` call gives: the response body, or a `WebException`. */
  datatype Reply = Body(text: string) | NetworkError

  /** The scripted network: the k-th `GetResponse` call of a run gets `replies[k]`;
      a call past the end of the script fails. */
  function ReplyAt(replies: seq<Reply>, k: nat): Reply
  {
    if k < |replies| then replies[k] else NetworkError
  }

  /** A call made with the optional arguments of `GetURL` left out: no consumer pair,
      no token pair and no SSL. */
  function Unsigned(path: string, args: map<string, string>): Call
  {
    Call(path, args, "", "", "", "", false)
  }
}
