/** The rate-limiting middleware: derives the caller's key, asks the limiter
    about it, passes the limiter's figures back as headers, and answers 429
    when the limiter refuses. The limiter (a sliding window of 100 requests
    per 60 seconds in this deployment) is a parameter. */
module RateLimit {
  import opened Common

  /** The limiter's answer for a key, or the error it threw. */
  datatype LimiterReply =
    | Answer(success: bool, limit: int, remaining: int, reset: int)
    | Threw(error: string)

  datatype Header = Header(name: string, value: string)

  /** Exactly one of: call `next`, or answer 429 without calling it. Either
      way with the headers set so far. */
  datatype LimitOutcome =
    | Continue(headers: seq<Header>)
    | TooManyRequests(headers: seq<Header>, message: string)

  /** The key the limiter counts under: the signed-in user, else the client
      address, taken from `X-Forwarded-For` when that is non-empty. An
      absent address reads as "undefined", as the template literal gives it. */
  function IdentityKey(userId: Option<string>, forwardedFor: Option<string>, ip: Option<string>): (k: string)
    ensures Given(userId) <==> "user_" <= k
    ensures Given(userId) ==> k[5..] == userId.value
    ensures !Given(userId) ==> "ip_" <= k
    ensures !Given(userId) && Given(forwardedFor) ==> k[3..] == forwardedFor.value
    ensures !Given(userId) && !Given(forwardedFor) ==>
              k[3..] == if ip.Some? then ip.value else "undefined"
  {
    if Given(userId) then "user_" + userId.value
    else
      var client := if Given(forwardedFor) then forwardedFor.value
                    else if ip.Some? then ip.value else "undefined";
      var k := "ip_" + client;
      assert k[0] == 'i';
      k
  }

  /** A signed-in user never shares a key with an anonymous caller, whatever
      address the latter claims, and two users share a key only if they are
      the same user. */
  lemma KeysSeparateUsers(u1: Option<string>, f1: Option<string>, i1: Option<string>,
                          u2: Option<string>, f2: Option<string>, i2: Option<string>)
    requires Given(u1)
    ensures Given(u2) ==> (IdentityKey(u1, f1, i1) == IdentityKey(u2, f2, i2) <==> u1 == u2)
    ensures !Given(u2) ==> IdentityKey(u1, f1, i1) != IdentityKey(u2, f2, i2)
  {
    var k1, k2 := IdentityKey(u1, f1, i1), IdentityKey(u2, f2, i2);
    if Given(u2) && k1 == k2 {
      assert u1.value == k1[5..] && u2.value == k2[5..];
    }
    if !Given(u2) {
      assert k1[0] == 'u' && k2[0] == 'i';
    }
  }

  const TooManyMessage: string := "Too many requests. Please slow down and try again later."

  /** The three headers, set from the limiter's figures. */
  function LimitHeaders(limit: int, remaining: int, reset: int): seq<Header> {
    [Header("X-RateLimit-Limit", IntToString(limit)),
     Header("X-RateLimit-Remaining", IntToString(remaining)),
     Header("X-RateLimit-Reset", IntToString(reset))]
  }

  /** The decision for one limiter reply. */
  function Decide(reply: LimiterReply): (r: LimitOutcome)
    ensures r.TooManyRequests? <==> reply.Answer? && !reply.success
    ensures reply.Answer? ==> r.headers == LimitHeaders(reply.limit, reply.remaining, reply.reset)
    ensures reply.Threw? ==> r == Continue([])
    ensures r.TooManyRequests? ==> r.message == TooManyMessage
  {
    match reply
    case Threw(_) => Continue([])
    case Answer(success, limit, remaining, reset) =>
      var headers := LimitHeaders(limit, remaining, reset);
      if success then Continue(headers) else TooManyRequests(headers, TooManyMessage)
  }

  /** The middleware: the limiter is asked about the caller's key only. */
  function RateLimiter(userId: Option<string>, forwardedFor: Option<string>, ip: Option<string>,
                       limiter: string -> LimiterReply): (r: LimitOutcome)
    ensures r.TooManyRequests? <==>
              var reply := limiter(IdentityKey(userId, forwardedFor, ip));
              reply.Answer? && !reply.success
  {
    Decide(limiter(IdentityKey(userId, forwardedFor, ip)))
  }

  /** The limiter failing never blocks a request: it goes on without headers. */
  lemma FailsOpen(userId: Option<string>, forwardedFor: Option<string>, ip: Option<string>,
                  limiter: string -> LimiterReply)
    requires limiter(IdentityKey(userId, forwardedFor, ip)).Threw?
    ensures RateLimiter(userId, forwardedFor, ip, limiter) == Continue([])
  {
  }

  /** Requests that map to the same key are treated alike, whatever else
      differs between them. */
  lemma SameKeySameOutcome(u1: Option<string>, f1: Option<string>, i1: Option<string>,
                           u2: Option<string>, f2: Option<string>, i2: Option<string>,
                           limiter: string -> LimiterReply)
    requires IdentityKey(u1, f1, i1) == IdentityKey(u2, f2, i2)
    ensures RateLimiter(u1, f1, i1, limiter) == RateLimiter(u2, f2, i2, limiter)
  {
  }

  /** When the limiter answers, its figures are reported whether the request
      is let through or refused, and a header value reads back as the figure. */
  lemma HeadersReportFigures(reply: LimiterReply)
    requires reply.Answer?
    ensures var hs := Decide(reply).headers;
      && |hs| == 3
      && ParseInt(hs[0].value) == Some(reply.limit)
      && ParseInt(hs[1].value) == Some(reply.remaining)
      && ParseInt(hs[2].value) == Some(reply.reset)
  {
    ParseIntToString(reply.limit);
    ParseIntToString(reply.remaining);
    ParseIntToString(reply.reset);
  }
}
