/**
 * The activation-code client of services/bioliteService.js. The module keeps one access
 * token and the time it expires; `getBioliteAccessToken` reuses that token while it is
 * live and otherwise authenticates anew, and `generateBioliteCode` asks for a token and
 * then for a code. The remote calls are parameters: what the authentication endpoint and
 * the code endpoint answered, and the clock readings around them.
 */
module Biolite {
  import opened Common

  /** A new access token is trusted for 55 minutes after it arrives. */
  const TokenLifetimeMs: int := 55 * 60 * 1000

  const AuthFailedMessage: string := "Failed to authenticate with BioLite API"
  const CodeFailedMessage: string := "Failed to generate BioLite code"

  /**
   * How an authentication went: `POST {api}/auth` answered with a token or with an error,
   * or signing the JWT threw (for instance with no private key configured), in which case
   * no request is sent.
   */
  datatype AuthReply = AuthOk(token: string) | AuthFailed | NotSigned

  /** What `POST {api}/codes` answered: the response data, or an error. */
  datatype CodeReply = CodeOk(data: string) | CodeFailed

  /** A request sent to the provider, in the order sent. */
  datatype Request =
    | AuthPost(tokenType: string, issuedAtSeconds: int)
    | CodePost(serialNum: string, codeType: string, arg: int, authorization: string)

  /** The value a call resolves to, or the message of the error it throws. */
  datatype Attempt<+T> = Success(value: T) | Failure(message: string)

  /** The two module-level variables: the cached token and its expiry time in ms. */
  datatype Cache = Cache(accessToken: Option<string>, expiry: int)

  /** The state the module starts in: no token, expiry 0. */
  const EmptyCache: Cache := Cache(None, 0)

  /** `bioliteAccessToken && Date.now() < tokenExpiryTime`: an empty token is falsy. */
  predicate Reusable(c: Cache, now: int) {
    c.accessToken.Some? && c.accessToken.value != "" && now < c.expiry
  }

  /** One call of the token getter: the new cache, what it sent, and what it resolved to. */
  datatype AccessRun = AccessRun(cache: Cache, requests: seq<Request>, result: Attempt<string>)

  /**
   * `getBioliteAccessToken` at time `now`; when it has to authenticate, `auth` is the answer
   * and `receivedAt` the clock when it arrived. A live token is returned without a request.
   * Otherwise the JWT is signed and one authentication request is sent; on success the new
   * token is stored with an expiry 55 minutes after its arrival and returned; on any
   * failure the cache is kept.
   */
  function AccessStep(c: Cache, now: int, auth: AuthReply, receivedAt: int): (r: AccessRun)
    ensures r.requests == [] <==> Reusable(c, now) || auth.NotSigned?
    ensures Reusable(c, now) ==> r.cache == c && r.result == Success(c.accessToken.value)
    ensures !Reusable(c, now) && !auth.NotSigned? ==> r.requests == [AuthPost("auth", now / 1000)]
    ensures r.result.Failure? <==> !Reusable(c, now) && !auth.AuthOk?
    ensures r.result.Failure? ==> r.cache == c && r.result.message == AuthFailedMessage
    ensures !Reusable(c, now) && auth.AuthOk? ==>
      r.cache == Cache(Some(auth.token), receivedAt + TokenLifetimeMs) && r.result == Success(auth.token)
    ensures r.result.Success? ==> r.cache.accessToken == Some(r.result.value)
  {
    if Reusable(c, now) then AccessRun(c, [], Success(c.accessToken.value))
    else
      var sent := [AuthPost("auth", now / 1000)];
      match auth
      case NotSigned => AccessRun(c, [], Failure(AuthFailedMessage))
      case AuthFailed => AccessRun(c, sent, Failure(AuthFailedMessage))
      case AuthOk(t) => AccessRun(Cache(Some(t), receivedAt + TokenLifetimeMs), sent, Success(t))
  }

  /** One call of the code generator: the new cache, what it sent, and what it resolved to. */
  datatype CodeRun = CodeRun(cache: Cache, requests: seq<Request>, result: Attempt<string>)

  /**
   * `generateBioliteCode`: first the token getter, then, with the token it resolved to, one
   * code request carrying the caller's fields. A failure of either step is reported with
   * the one message of the code generator; a token obtained before the code request failed
   * stays cached.
   */
  function GenerateCodeSpec(c: Cache, serialNum: string, codeType: string, arg: int,
                            now: int, auth: AuthReply, receivedAt: int, reply: CodeReply): (r: CodeRun)
    ensures var a := AccessStep(c, now, auth, receivedAt);
      && r.cache == a.cache
      && (a.result.Failure? ==> r.requests == a.requests)
      && (a.result.Success? ==>
            r.requests == a.requests + [CodePost(serialNum, codeType, arg, a.result.value)])
    ensures r.result.Failure? ==> r.result.message == CodeFailedMessage
    ensures r.result.Success? <==> AccessStep(c, now, auth, receivedAt).result.Success? && reply.CodeOk?
    ensures r.result.Success? ==> r.result.value == reply.data
  {
    var a := AccessStep(c, now, auth, receivedAt);
    match a.result
    case Failure(_) => CodeRun(a.cache, a.requests, Failure(CodeFailedMessage))
    case Success(token) =>
      var sent := a.requests + [CodePost(serialNum, codeType, arg, token)];
      match reply
      case CodeFailed => CodeRun(a.cache, sent, Failure(CodeFailedMessage))
      case CodeOk(data) => CodeRun(a.cache, sent, Success(data))
  }

  /**
   * The code request is the last request of a code generation, any authentication request
   * comes before it, and it is authorized with the token that the cache then holds.
   */
  lemma CodeRequestAfterToken(c: Cache, serialNum: string, codeType: string, arg: int,
                              now: int, auth: AuthReply, receivedAt: int, reply: CodeReply)
    ensures var r := GenerateCodeSpec(c, serialNum, codeType, arg, now, auth, receivedAt, reply);
      && (forall i :: 0 <= i < |r.requests| - 1 ==> r.requests[i].AuthPost?)
      && (forall i :: 0 <= i < |r.requests| && r.requests[i].CodePost? ==>
            && i == |r.requests| - 1
            && r.requests[i] == CodePost(serialNum, codeType, arg, r.cache.accessToken.value))
      && |r.requests| <= 2
  {
  }

  /** One call of the token getter, with the answers it would get and the clock readings. */
  datatype Call = Call(now: int, auth: AuthReply, receivedAt: int)

  /** The cache, the requests and the results of a series of token-getter calls. */
  datatype Trace = Trace(cache: Cache, requests: seq<Request>, results: seq<Attempt<string>>)

  function RunCalls(c: Cache, calls: seq<Call>): (r: Trace)
    ensures |r.results| == |calls|
    decreases |calls|
  {
    if calls == [] then Trace(c, [], [])
    else
      var a := AccessStep(c, calls[0].now, calls[0].auth, calls[0].receivedAt);
      var rest := RunCalls(a.cache, calls[1..]);
      Trace(rest.cache, a.requests + rest.requests, [a.result] + rest.results)
  }

  /**
   * While a non-empty token is live, every call before its expiry returns that same token
   * and no authentication request is sent, whatever the provider would have answered.
   */
  lemma {:induction false} NoReauthWhileLive(c: Cache, calls: seq<Call>)
    requires c.accessToken.Some? && c.accessToken.value != ""
    requires forall i :: 0 <= i < |calls| ==> calls[i].now < c.expiry
    ensures RunCalls(c, calls).requests == []
    ensures RunCalls(c, calls).cache == c
    ensures forall i :: 0 <= i < |calls| ==> RunCalls(c, calls).results[i] == Success(c.accessToken.value)
    decreases |calls|
  {
    if calls != [] {
      assert Reusable(c, calls[0].now);
      NoReauthWhileLive(c, calls[1..]);
      forall i | 0 <= i < |calls|
        ensures RunCalls(c, calls).results[i] == Success(c.accessToken.value)
      {
        if i > 0 {
          assert RunCalls(c, calls).results[i] == RunCalls(c, calls[1..]).results[i - 1];
        }
      }
    }
  }

  /**
   * After a fresh authentication that brought a non-empty token, the token is reused by
   * every later call made before 55 minutes from its arrival, and by none made after.
   */
  lemma FreshTokenLifetime(c: Cache, now: int, token: string, receivedAt: int, later: int)
    requires !Reusable(c, now) && token != ""
    ensures var renewed := AccessStep(c, now, AuthOk(token), receivedAt).cache;
      && renewed.accessToken == Some(token)
      && (Reusable(renewed, later) <==> later < receivedAt + TokenLifetimeMs)
  {
  }

  /**
   * A failed authentication changes nothing: the next call sees the same cache and
   * behaves exactly as if the failed call had not happened.
   */
  lemma {:induction false} FailedAuthIsInvisible(c: Cache, failedAt: int, calls: seq<Call>)
    requires !Reusable(c, failedAt)
    ensures var a := AccessStep(c, failedAt, AuthFailed, failedAt);
      && a.result == Failure(AuthFailedMessage)
      && RunCalls(c, [Call(failedAt, AuthFailed, failedAt)] + calls).cache == RunCalls(c, calls).cache
      && RunCalls(c, [Call(failedAt, AuthFailed, failedAt)] + calls).results
         == [Failure(AuthFailedMessage)] + RunCalls(c, calls).results
  {
    var cs := [Call(failedAt, AuthFailed, failedAt)] + calls;
    assert cs[0] == Call(failedAt, AuthFailed, failedAt);
    assert cs[1..] == calls;
  }

  /** The client of services/bioliteService.js, holding the module-level cache. */
  class BioliteClient {
    var accessToken: Option<string>
    var expiry: int
    /** Every request sent to the provider, in order. */
    var sent: seq<Request>

    function Cached(): Cache
      reads this
    {
      Cache(accessToken, expiry)
    }

    /** The module as loaded: no token, expiry 0, nothing sent. */
    constructor ()
      ensures Cached() == EmptyCache && sent == []
      ensures forall now :: !Reusable(Cached(), now)
    {
      accessToken := None;
      expiry := 0;
      sent := [];
    }

    /** `getBioliteAccessToken` */
    method GetAccessToken(now: int, auth: AuthReply, receivedAt: int) returns (res: Attempt<string>)
      modifies this
      ensures var a := AccessStep(old(Cached()), now, auth, receivedAt);
        && Cached() == a.cache && sent == old(sent) + a.requests && res == a.result
    {
      if accessToken.Some? && accessToken.value != "" && now < expiry {
        return Success(accessToken.value);
      }
      if auth.NotSigned? {
        return Failure(AuthFailedMessage);
      }
      sent := sent + [AuthPost("auth", now / 1000)];
      match auth
      case AuthFailed =>
        res := Failure(AuthFailedMessage);
      case AuthOk(t) =>
        accessToken := Some(t);
        expiry := receivedAt + TokenLifetimeMs;
        res := Success(accessToken.value);
    }

    /** `generateBioliteCode` */
    method GenerateCode(serialNum: string, codeType: string, arg: int,
                        now: int, auth: AuthReply, receivedAt: int, reply: CodeReply)
      returns (res: Attempt<string>)
      modifies this
      ensures var r := GenerateCodeSpec(old(Cached()), serialNum, codeType, arg, now, auth, receivedAt, reply);
        && Cached() == r.cache && sent == old(sent) + r.requests && res == r.result
    {
      var token := GetAccessToken(now, auth, receivedAt);
      match token
      case Failure(_) =>
        res := Failure(CodeFailedMessage);
      case Success(t) =>
        sent := sent + [CodePost(serialNum, codeType, arg, t)];
        match reply
        case CodeFailed =>
          res := Failure(CodeFailedMessage);
        case CodeOk(data) =>
          res := Success(data);
    }
  }
}
