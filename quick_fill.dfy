/** The "Quick Fill" button: the three-legged OAuth 1.0a handshake of section 2 of
    RFC 5849 as the window runs it. It asks for temporary credentials
    (`services/oauth/request_token`), sends the user's browser to
    `services/oauth/authorize`, takes the PIN the user types in, and trades it for
    token credentials (`services/oauth/access_token`). Each token call is tried over
    HTTPS and, when that fails, once more over plain HTTP.

    The dialogs, the browser and the network are inputs here: the scopes the user picks
    (None when the dialog is cancelled), whether the browser could be started, the PIN,
    and the script of replies the network gives to successive calls. */
module QuickFill {
  import opened Basics
  import opened Text
  import opened Connector
  import opened TokenResponse

  const RequestTokenPath := "services/oauth/request_token"
  const AuthorizePath := "services/oauth/authorize"
  const AccessTokenPath := "services/oauth/access_token"
  /** The developer-centre page offered when no consumer key is filled in. */
  const DevelopersPath := "developers/"

  /** What the handler does to the outside world, in order: fetch a URL, or start the
      browser on one. */
  datatype Effect = Fetch(call: Call) | OpenBrowser(call: Call)

  /** How a run of the handler ends. `Filled` carries the access pair written into the
      token text boxes; every other outcome leaves them alone. */
  datatype Outcome =
    | NoConsumerKey
    | Cancelled
    | TransportFailed
    | RequestTokenUnreadable
    | BrowserFailed
    | AccessTokenUnreadable
    | Filled(access: TokenPair)

  datatype Run = Run(outcome: Outcome, effects: seq<Effect>)

  /** The arguments of the request-token call: always `oauth_callback=oob`, and
      `scopes` (the chosen keys joined with '|') only when at least one scope was
      chosen. */
  function RequestTokenArgs(scopeKeys: seq<string>): (args: map<string, string>)
    ensures args.Keys == {"oauth_callback"} + (if scopeKeys == [] then {} else {"scopes"})
    ensures args["oauth_callback"] == "oob"
    ensures scopeKeys != [] ==> args["scopes"] == Join(scopeKeys, '|')
  {
    var base := map["oauth_callback" := "oob"];
    if scopeKeys == [] then base else base["scopes" := Join(scopeKeys, '|')]
  }

  /** The server gets back exactly the chosen scope keys, provided none holds '|'. */
  lemma ScopesRecoverable(scopeKeys: seq<string>)
    requires scopeKeys != []
    requires forall i :: 0 <= i < |scopeKeys| ==> '|' !in scopeKeys[i]
    ensures Split(RequestTokenArgs(scopeKeys)["scopes"], '|') == scopeKeys
  {
    SplitJoin(scopeKeys, '|');
  }

  /** The request-token call: signed with the consumer pair only. */
  function RequestCall(key: string, secret: string, scopeKeys: seq<string>, ssl: bool): Call
  {
    Call(RequestTokenPath, RequestTokenArgs(scopeKeys), key, secret, "", "", ssl)
  }

  /** The authorize page for a request token: an unsigned URL. */
  function AuthorizeCall(requestToken: string): Call
  {
    Unsigned(AuthorizePath, map["oauth_token" := requestToken])
  }

  /** The access-token call: the PIN as verifier, signed with the consumer pair and the
      request pair. */
  function AccessCall(key: string, secret: string, request: TokenPair, pin: string, ssl: bool): Call
  {
    Call(AccessTokenPath, map["oauth_verifier" := pin], key, secret, request.token, request.secret, ssl)
  }

  /** The result of one token call: the body received, if any, and the fetches made. */
  datatype Fetched = Fetched(body: Option<string>, steps: seq<Effect>)

  /** One token call with its fallback, the k-th call of the run going first: the
      HTTPS call, and only when it fails the same call without SSL; a failure of that
      one as well is the end of the handler (None). */
  function TryTwice(secure: Call, replies: seq<Reply>, k: nat): (f: Fetched)
    requires secure.useSsl
  {
    match ReplyAt(replies, k)
    case Body(text) => Fetched(Some(text), [Fetch(secure)])
    case NetworkError =>
      var plain := secure.(useSsl := false);
      match ReplyAt(replies, k + 1)
      case Body(text) => Fetched(Some(text), [Fetch(secure), Fetch(plain)])
      case NetworkError => Fetched(None, [Fetch(secure), Fetch(plain)])
  }

  /** The handler's nested try/catch around one token call: build the HTTPS URL and
      fetch it; on a network error build the same URL without SSL and fetch that. */
  method FetchWithFallback(secure: Call, replies: seq<Reply>, k: nat) returns (f: Fetched)
    requires secure.useSsl
    ensures f == TryTwice(secure, replies, k)
  {
    var steps := [Fetch(secure)];
    var reply := ReplyAt(replies, k);
    if reply.Body? {
      return Fetched(Some(reply.text), steps);
    }
    var plain := secure.(useSsl := false);
    steps := steps + [Fetch(plain)];
    reply := ReplyAt(replies, k + 1);
    if reply.Body? {
      return Fetched(Some(reply.text), steps);
    }
    return Fetched(None, steps);
  }

  /** The calls of a run that went to the network, in order. The i-th of them got
      `ReplyAt(replies, i)`. */
  function Sent(effects: seq<Effect>): (calls: seq<Call>)
    ensures |calls| <= |effects|
  {
    if effects == [] then []
    else (if effects[0].Fetch? then [effects[0].call] else []) + Sent(effects[1..])
  }

  lemma {:induction false} SentAppend(a: seq<Effect>, b: seq<Effect>)
    ensures Sent(a + b) == Sent(a) + Sent(b)
  {
    if a == [] {
      assert a + b == b;
    } else {
      var head := if a[0].Fetch? then [a[0].call] else [];
      assert (a + b)[0] == a[0];
      assert (a + b)[1..] == a[1..] + b;
      SentAppend(a[1..], b);
      assert Sent(a + b) == head + (Sent(a[1..]) + Sent(b));
      assert head + (Sent(a[1..]) + Sent(b)) == (head + Sent(a[1..])) + Sent(b);
    }
  }

  /** The calls among `calls` that go to `path`, in order. */
  function ToPath(calls: seq<Call>, path: string): (r: seq<Call>)
    ensures forall i :: 0 <= i < |r| ==> r[i].path == path
  {
    if calls == [] then []
    else (if calls[0].path == path then [calls[0]] else []) + ToPath(calls[1..], path)
  }

  lemma {:induction false} ToPathAppend(a: seq<Call>, b: seq<Call>, path: string)
    ensures ToPath(a + b, path) == ToPath(a, path) + ToPath(b, path)
  {
    if a == [] {
      assert a + b == b;
    } else {
      var head := if a[0].path == path then [a[0]] else [];
      assert (a + b)[0] == a[0];
      assert (a + b)[1..] == a[1..] + b;
      ToPathAppend(a[1..], b, path);
      assert ToPath(a + b, path) == head + (ToPath(a[1..], path) + ToPath(b, path));
      assert head + (ToPath(a[1..], path) + ToPath(b, path)) == (head + ToPath(a[1..], path)) + ToPath(b, path);
    }
  }

  /** The handler, from the click to the token boxes. */
  function Flow(key: string, secret: string, register: bool, scopeChoice: Option<seq<string>>,
                browserOpens: bool, pin: string, replies: seq<Reply>): Run
  {
    if key == "" then
      Run(NoConsumerKey, if register then [OpenBrowser(Unsigned(DevelopersPath, map[]))] else [])
    else if scopeChoice.None? then
      Run(Cancelled, [])
    else
      AfterRequest(key, secret, TryTwice(RequestCall(key, secret, scopeChoice.value, true), replies, 0),
                   browserOpens, pin, replies)
  }

  /** The handler once the request-token call has been made: read the request pair,
      open the authorize page, and make the access-token call. */
  function AfterRequest(key: string, secret: string, req: Fetched, browserOpens: bool, pin: string,
                        replies: seq<Reply>): Run
  {
    if req.body.None? then Run(TransportFailed, req.steps)
    else match ParseTokenResponse(req.body.value)
      case None => Run(RequestTokenUnreadable, req.steps)
      case Some(request) =>
        var launched := req.steps + [OpenBrowser(AuthorizeCall(request.token))];
        if !browserOpens then Run(BrowserFailed, launched)
        else Finish(launched, TryTwice(AccessCall(key, secret, request, pin, true), replies, |req.steps|))
  }

  /** The handler once the access-token call has been made: read the access pair. */
  function Finish(before: seq<Effect>, acc: Fetched): Run
  {
    if acc.body.None? then Run(TransportFailed, before + acc.steps)
    else match ParseTokenResponse(acc.body.value)
      case None => Run(AccessTokenUnreadable, before + acc.steps)
      case Some(access) => Run(Filled(access), before + acc.steps)
  }

  /** What a run does after the request-token call, step by step: the tries of that
      call; then, when it gave a readable pair, the authorize page; then, when the
      browser started, the tries of the access-token call. */
  lemma AfterRequestEffects(key: string, secret: string, req: Fetched, browserOpens: bool, pin: string,
                            replies: seq<Reply>)
    ensures var r := AfterRequest(key, secret, req, browserOpens, pin, replies);
      if req.body.None? || ParseTokenResponse(req.body.value).None? then r.effects == req.steps
      else
        var request := ParseTokenResponse(req.body.value).value;
        var launched := req.steps + [OpenBrowser(AuthorizeCall(request.token))];
        if !browserOpens then r.effects == launched
        else r.effects == launched + TryTwice(AccessCall(key, secret, request, pin, true), replies, |req.steps|).steps
  {
  }

  /** A run after the request-token call fills the token boxes exactly when both
      calls gave readable pairs and the browser started; what it fills in is the
      access pair read. */
  lemma AfterRequestFilled(key: string, secret: string, req: Fetched, browserOpens: bool, pin: string,
                           replies: seq<Reply>)
    ensures var r := AfterRequest(key, secret, req, browserOpens, pin, replies);
      r.outcome.Filled? ==>
        && req.body.Some? && ParseTokenResponse(req.body.value).Some? && browserOpens
        && var acc := TryTwice(AccessCall(key, secret, ParseTokenResponse(req.body.value).value, pin, true),
                               replies, |req.steps|);
        && acc.body.Some?
        && ParseTokenResponse(acc.body.value) == Some(r.outcome.access)
  {
  }

  /** The request pair the run obtains, when the first leg gives a readable one. */
  function RequestPair(key: string, secret: string, scopeKeys: seq<string>, replies: seq<Reply>): Option<TokenPair>
  {
    var req := TryTwice(RequestCall(key, secret, scopeKeys, true), replies, 0);
    if req.body.None? then None else ParseTokenResponse(req.body.value)
  }

  /** What one token call sends: the HTTPS call, then possibly the same call without
      SSL, and nothing else; the reply it reads is the reply to its last call. */
  lemma TryTwiceSends(secure: Call, replies: seq<Reply>, k: nat)
    requires secure.useSsl
    ensures var f := TryTwice(secure, replies, k);
      && Sent(f.steps) == (if |f.steps| == 1 then [secure] else [secure, secure.(useSsl := false)])
      && (|f.steps| == 2 <==> ReplyAt(replies, k).NetworkError?)
      && (f.body.Some? <==> ReplyAt(replies, k + |f.steps| - 1).Body?)
      && (f.body.Some? ==> f.body.value == ReplyAt(replies, k + |f.steps| - 1).text)
  {
    var one := [Fetch(secure)];
    var two := [Fetch(secure), Fetch(secure.(useSsl := false))];
    assert one[1..] == [] && two[1..][1..] == [];
  }

  /** Without a consumer key nothing goes to the network; at most the developer
      centre is launched, when the user asks for it. */
  lemma NoKeyNoCalls(secret: string, register: bool, scopeChoice: Option<seq<string>>,
                     browserOpens: bool, pin: string, replies: seq<Reply>)
    ensures var r := Flow("", secret, register, scopeChoice, browserOpens, pin, replies);
      && r.outcome == NoConsumerKey
      && Sent(r.effects) == []
      && r.effects == (if register then [OpenBrowser(Unsigned(DevelopersPath, map[]))] else [])
  {
    var r := Flow("", secret, register, scopeChoice, browserOpens, pin, replies);
    if register {
      assert r.effects[1..] == [];
    }
  }

  /** Cancelling the scope dialog ends the handler with no effect at all. */
  lemma CancelDoesNothing(key: string, secret: string, register: bool, browserOpens: bool,
                          pin: string, replies: seq<Reply>)
    requires key != ""
    ensures Flow(key, secret, register, None, browserOpens, pin, replies) == Run(Cancelled, [])
  {
  }

  /** Starting the browser sends nothing over the network. */
  lemma SentLaunch(steps: seq<Effect>, c: Call)
    ensures Sent(steps + [OpenBrowser(c)]) == Sent(steps)
  {
    SentAppend(steps, [OpenBrowser(c)]);
    assert [OpenBrowser(c)][1..] == [];
  }

  /** The tries of one call, filtered by an endpoint: all of them when the call goes
      there, none otherwise. */
  lemma ToPathTries(c: Call, path: string)
    ensures ToPath([c], path) == (if c.path == path then [c] else [])
    ensures ToPath([c, c.(useSsl := false)], path) == (if c.path == path then [c, c.(useSsl := false)] else [])
  {
    var c' := c.(useSsl := false);
    assert [c][1..] == [] && [c'][1..] == [];
    assert [c, c'][1..] == [c'];
  }

  /** The calls one token call sends to `path`: its tries when it goes there, none
      otherwise; the first try is the HTTPS one and a second is the same call
      without SSL. */
  lemma TriesToPath(secure: Call, replies: seq<Reply>, k: nat, path: string)
    requires secure.useSsl
    ensures var a := ToPath(Sent(TryTwice(secure, replies, k).steps), path);
      && |a| <= 2
      && (|a| >= 1 ==> a[0] == secure)
      && (|a| == 2 ==> a[1] == secure.(useSsl := false))
      && (secure.path != path ==> a == [])
  {
    TryTwiceSends(secure, replies, k);
    ToPathTries(secure, path);
  }

  /** Every call to each token endpoint is made at most twice: over HTTPS first, then
      the very same call without SSL. */
  lemma AtMostTwoAttempts(key: string, secret: string, register: bool, scopeChoice: Option<seq<string>>,
                          browserOpens: bool, pin: string, replies: seq<Reply>, path: string)
    requires path == RequestTokenPath || path == AccessTokenPath
    ensures var a := ToPath(Sent(Flow(key, secret, register, scopeChoice, browserOpens, pin, replies).effects), path);
      && |a| <= 2
      && (|a| >= 1 ==> a[0].useSsl)
      && (|a| == 2 ==> a[1] == a[0].(useSsl := false))
  {
    if key == "" {
      NoKeyNoCalls(secret, register, scopeChoice, browserOpens, pin, replies);
    } else if scopeChoice.Some? {
      var reqCall := RequestCall(key, secret, scopeChoice.value, true);
      var req := TryTwice(reqCall, replies, 0);
      TriesToPath(reqCall, replies, 0, path);
      AfterRequestEffects(key, secret, req, browserOpens, pin, replies);
      if req.body.Some? && ParseTokenResponse(req.body.value).Some? {
        var request := ParseTokenResponse(req.body.value).value;
        var launched := req.steps + [OpenBrowser(AuthorizeCall(request.token))];
        SentLaunch(req.steps, AuthorizeCall(request.token));
        if browserOpens {
          var accCall := AccessCall(key, secret, request, pin, true);
          var acc := TryTwice(accCall, replies, |req.steps|);
          TriesToPath(accCall, replies, |req.steps|, path);
          SentAppend(launched, acc.steps);
          ToPathAppend(Sent(req.steps), Sent(acc.steps), path);
        }
      }
    }
  }

  /** When both tries of the request-token call fail, the handler stops there: two
      calls made, no browser, no token. */
  lemma TwoFailuresStop(key: string, secret: string, register: bool, scopeKeys: seq<string>,
                        browserOpens: bool, pin: string, replies: seq<Reply>)
    requires key != ""
    requires ReplyAt(replies, 0) == NetworkError && ReplyAt(replies, 1) == NetworkError
    ensures Flow(key, secret, register, Some(scopeKeys), browserOpens, pin, replies)
      == Run(TransportFailed, [Fetch(RequestCall(key, secret, scopeKeys, true)),
                               Fetch(RequestCall(key, secret, scopeKeys, false))])
  {
    var reqCall := RequestCall(key, secret, scopeKeys, true);
    assert TryTwice(reqCall, replies, 0) == Fetched(None, [Fetch(reqCall), Fetch(reqCall.(useSsl := false))]);
  }

  /** A request-token reply without both fields stops the handler before the browser
      is opened: every call made went to the request-token endpoint. */
  lemma UnreadableRequestStops(key: string, secret: string, register: bool, scopeKeys: seq<string>,
                               browserOpens: bool, pin: string, replies: seq<Reply>)
    requires key != ""
    requires TryTwice(RequestCall(key, secret, scopeKeys, true), replies, 0).body.Some?
    requires RequestPair(key, secret, scopeKeys, replies).None?
    ensures var r := Flow(key, secret, register, Some(scopeKeys), browserOpens, pin, replies);
      && r.outcome == RequestTokenUnreadable
      && forall e :: e in r.effects ==> e.Fetch? && e.call.path == RequestTokenPath
  {
    var reqCall := RequestCall(key, secret, scopeKeys, true);
    var req := TryTwice(reqCall, replies, 0);
    var r := Flow(key, secret, register, Some(scopeKeys), browserOpens, pin, replies);
    assert r == Run(RequestTokenUnreadable, req.steps);
  }

  /** After a request-token call whose steps all went to that endpoint, the browser
      is only sent to the authorize page of the pair read, and access-token calls
      carry the PIN and are signed with the consumer pair and that request pair. */
  lemma AfterRequestCalls(key: string, secret: string, req: Fetched, browserOpens: bool, pin: string,
                          replies: seq<Reply>, r: Run)
    requires forall e :: e in req.steps ==> e.Fetch? && e.call.path == RequestTokenPath
    requires r == AfterRequest(key, secret, req, browserOpens, pin, replies)
    ensures forall e :: e in r.effects && (e.OpenBrowser? || e.call.path == AccessTokenPath) ==>
        && req.body.Some? && ParseTokenResponse(req.body.value).Some?
        && var request := ParseTokenResponse(req.body.value).value;
        && (e.OpenBrowser? ==> e.call == AuthorizeCall(request.token))
        && (e.Fetch? ==> e.call.(useSsl := true) == AccessCall(key, secret, request, pin, true))
  {
    AfterRequestEffects(key, secret, req, browserOpens, pin, replies);
    if req.body.Some? && ParseTokenResponse(req.body.value).Some? && browserOpens {
      var request := ParseTokenResponse(req.body.value).value;
      var accCall := AccessCall(key, secret, request, pin, true);
      assert forall e :: e in TryTwice(accCall, replies, |req.steps|).steps ==>
        e.Fetch? && e.call.(useSsl := true) == accCall;
    }
  }

  /** The browser is sent to the authorize page of the request token just obtained,
      and the access-token call carries the PIN and is signed with the consumer pair
      and that request pair. */
  lemma AccessUsesRequestPair(key: string, secret: string, register: bool, scopeKeys: seq<string>,
                              browserOpens: bool, pin: string, replies: seq<Reply>)
    requires key != ""
    ensures var r := Flow(key, secret, register, Some(scopeKeys), browserOpens, pin, replies);
      forall e :: e in r.effects && (e.OpenBrowser? || e.call.path == AccessTokenPath) ==>
        && RequestPair(key, secret, scopeKeys, replies).Some?
        && var request := RequestPair(key, secret, scopeKeys, replies).value;
        && (e.OpenBrowser? ==> e.call == AuthorizeCall(request.token))
        && (e.Fetch? ==> e.call.(useSsl := true) == AccessCall(key, secret, request, pin, true))
  {
    var reqCall := RequestCall(key, secret, scopeKeys, true);
    var req := TryTwice(reqCall, replies, 0);
    assert forall e :: e in req.steps ==> e.Fetch? && e.call.path == RequestTokenPath;
    AfterRequestCalls(key, secret, req, browserOpens, pin, replies,
                      Flow(key, secret, register, Some(scopeKeys), browserOpens, pin, replies));
  }

  /** The last leg, when it fills the boxes: the pair is the parse of the reply to the
      last call sent, which went to the endpoint of that leg. */
  lemma FinishFilled(before: seq<Effect>, c: Call, replies: seq<Reply>, r: Run)
    requires c.useSsl
    requires r == Finish(before, TryTwice(c, replies, |Sent(before)|))
    ensures r.outcome.Filled? ==>
        var n := |Sent(r.effects)|;
        && n > |Sent(before)|
        && Sent(r.effects)[n - 1].path == c.path
        && ReplyAt(replies, n - 1).Body?
        && ParseTokenResponse(ReplyAt(replies, n - 1).text) == Some(r.outcome.access)
  {
    var k := |Sent(before)|;
    var acc := TryTwice(c, replies, k);
    TryTwiceSends(c, replies, k);
    SentAppend(before, acc.steps);
    if r.outcome.Filled? {
      var last := k + |acc.steps| - 1;
      assert |Sent(r.effects)| == last + 1;
      assert Sent(r.effects)[last] == Sent(acc.steps)[|acc.steps| - 1];
      assert ParseTokenResponse(acc.body.value) == Some(r.outcome.access);
    }
  }

  /** The same after the request-token call, whose steps were all fetches. */
  lemma AfterRequestLast(key: string, secret: string, req: Fetched, browserOpens: bool, pin: string,
                         replies: seq<Reply>, r: Run)
    requires |Sent(req.steps)| == |req.steps|
    requires r == AfterRequest(key, secret, req, browserOpens, pin, replies)
    ensures r.outcome.Filled? ==>
        var n := |Sent(r.effects)|;
        && n > |req.steps|
        && Sent(r.effects)[n - 1].path == AccessTokenPath
        && ReplyAt(replies, n - 1).Body?
        && ParseTokenResponse(ReplyAt(replies, n - 1).text) == Some(r.outcome.access)
  {
    if r.outcome.Filled? {
      AfterRequestFilled(key, secret, req, browserOpens, pin, replies);
      var request := ParseTokenResponse(req.body.value).value;
      var launched := req.steps + [OpenBrowser(AuthorizeCall(request.token))];
      SentLaunch(req.steps, AuthorizeCall(request.token));
      var accCall := AccessCall(key, secret, request, pin, true);
      FinishFilled(launched, accCall, replies, r);
    }
  }

  /** The pair written into the token boxes is the parse of the reply to the last call
      of the run, which went to the access-token endpoint. */
  lemma FilledIsLastReply(key: string, secret: string, register: bool, scopeChoice: Option<seq<string>>,
                          browserOpens: bool, pin: string, replies: seq<Reply>)
    ensures var r := Flow(key, secret, register, scopeChoice, browserOpens, pin, replies);
      r.outcome.Filled? ==>
        var n := |Sent(r.effects)|;
        && n >= 2
        && Sent(r.effects)[n - 1].path == AccessTokenPath
        && ReplyAt(replies, n - 1).Body?
        && ParseTokenResponse(ReplyAt(replies, n - 1).text) == Some(r.outcome.access)
  {
    if key != "" && scopeChoice.Some? {
      var reqCall := RequestCall(key, secret, scopeChoice.value, true);
      var req := TryTwice(reqCall, replies, 0);
      TryTwiceSends(reqCall, replies, 0);
      AfterRequestLast(key, secret, req, browserOpens, pin, replies,
                       Flow(key, secret, register, scopeChoice, browserOpens, pin, replies));
    }
  }

  /** When each HTTPS call fails and each plain HTTP call gives a readable pair, both
      legs fall back and the handler still completes. */
  lemma PlainHttpCompletes(key: string, secret: string, scopeKeys: seq<string>, pin: string,
                           replies: seq<Reply>, request: TokenPair, access: TokenPair)
    requires key != ""
    requires ReplyAt(replies, 0) == NetworkError && ReplyAt(replies, 2) == NetworkError
    requires ReplyAt(replies, 1).Body? && ParseTokenResponse(ReplyAt(replies, 1).text) == Some(request)
    requires ReplyAt(replies, 3).Body? && ParseTokenResponse(ReplyAt(replies, 3).text) == Some(access)
    ensures var r := Flow(key, secret, false, Some(scopeKeys), true, pin, replies);
      && r.outcome == Filled(access)
      && Sent(r.effects) == [RequestCall(key, secret, scopeKeys, true), RequestCall(key, secret, scopeKeys, false),
                             AccessCall(key, secret, request, pin, true),
                             AccessCall(key, secret, request, pin, false)]
  {
    var reqCall := RequestCall(key, secret, scopeKeys, true);
    var req := TryTwice(reqCall, replies, 0);
    TryTwiceSends(reqCall, replies, 0);
    var launched := req.steps + [OpenBrowser(AuthorizeCall(request.token))];
    SentLaunch(req.steps, AuthorizeCall(request.token));
    var accCall := AccessCall(key, secret, request, pin, true);
    var acc := TryTwice(accCall, replies, 2);
    TryTwiceSends(accCall, replies, 2);
    SentAppend(launched, acc.steps);
    var r := Flow(key, secret, false, Some(scopeKeys), true, pin, replies);
    PlainHttpRun(key, secret, req, pin, replies, request, acc, r);
    var s1 := [reqCall, reqCall.(useSsl := false)];
    var s2 := [accCall, accCall.(useSsl := false)];
    assert Sent(r.effects) == s1 + s2;
    PairsConcat(reqCall, reqCall.(useSsl := false), accCall, accCall.(useSsl := false));
  }

  lemma PairsConcat<T>(a: T, b: T, c: T, d: T)
    ensures [a, b] + [c, d] == [a, b, c, d]
  {
  }

  /** The two legs of a run, once both token calls have given readable pairs. */
  lemma PlainHttpRun(key: string, secret: string, req: Fetched, pin: string, replies: seq<Reply>,
                     request: TokenPair, acc: Fetched, r: Run)
    requires req.body.Some? && ParseTokenResponse(req.body.value) == Some(request)
    requires acc == TryTwice(AccessCall(key, secret, request, pin, true), replies, |req.steps|)
    requires r == AfterRequest(key, secret, req, true, pin, replies)
    ensures r == Finish(req.steps + [OpenBrowser(AuthorizeCall(request.token))], acc)
  {
  }

  /** An installation without SSL, answering with well-formed bodies: both legs fall
      back to plain HTTP and the access pair is filled in. */
  lemma PlainHttpExample(key: string, secret: string, pin: string, request: TokenPair, access: TokenPair)
    requires key != ""
    requires '&' !in request.token && '&' !in request.secret
    requires '&' !in access.token && '&' !in access.secret
    ensures Flow(key, secret, false, Some([]), true, pin,
                 [NetworkError, Body(FormatTokenResponse(request)),
                  NetworkError, Body(FormatTokenResponse(access))]).outcome == Filled(access)
  {
    var replies := [NetworkError, Body(FormatTokenResponse(request)),
                    NetworkError, Body(FormatTokenResponse(access))];
    ParseFormatted(request);
    ParseFormatted(access);
    PlainHttpCompletes(key, secret, [], pin, replies, request, access);
  }
}
