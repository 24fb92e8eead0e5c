/** The waitlist endpoint `POST /api/notify` as a step function: derive the
    client id, consult and update the rate limiter, validate the email,
    compose the notification and hand it to the email-delivery service. */
module NotifyRoute {
  import opened Wrappers
  import opened JsStrings
  import opened RateLimiter
  import opened EmailCheck
  import opened Notification

  /** The request headers the handler reads (None when absent). */
  datatype Headers = Headers(
    forwardedFor: Option<string>,   // x-forwarded-for
    realIp: Option<string>,         // x-real-ip
    userAgent: Option<string>)      // user-agent

  /** The request body after `req.json()`. */
  datatype Body =
    | NonObject          // unparseable, or JSON that is not an object or null: no fields
    | Null               // the JSON literal null: destructuring it throws
    | Object(payload: Payload)

  datatype Request = Request(headers: Headers, body: Body)

  /** Process configuration: RESEND_API_KEY, NOTIFY_TO, NOTIFY_FROM. */
  datatype Env = Env(apiKey: Option<string>, notifyTo: Option<string>, notifyFrom: Option<string>)

  /** How the email-delivery call ends. */
  datatype SendOutcome = Delivered | Throws(err: Thrown)

  datatype ResponseBody = OkBody | ErrorBody(error: string)

  datatype Response = Response(status: int, body: ResponseBody)

  /** The new bucket, the response, and the message handed to the delivery
      service, if the handler got that far. */
  datatype Outcome = Outcome(bucket: Bucket, response: Response, sent: Option<Message>)

  const UnknownClient := "0.0.0.0"
  const TooManyRequests := "Too many requests"
  const InvalidEmail := "Invalid email"
  const MissingKeyMessage := "RESEND_API_KEY is missing. Add it to .env.local or Vercel env."
  /** Stands for the TypeError the runtime throws when destructuring null;
      its exact wording belongs to the JavaScript engine. */
  const NullBodyMessage := "Cannot destructure property 'email' of 'body' as it is null."

  /** A value thrown inside the handler. */
  datatype Thrown =
    | ErrorObject(message: string)   // an `Error` instance
    | StringValue(text: string)      // a thrown string
    | OtherValue                     // anything else

  const GenericError := "Server error"

  /** `getErrorMessage`: the message of an Error, a thrown string itself,
      otherwise a generic text. */
  function ErrorMessage(err: Thrown): string {
    match err
    case ErrorObject(m) => m
    case StringValue(t) => t
    case OtherValue => GenericError
  }

  /** The first hop of x-forwarded-for: `(xff || "").split(",")[0].trim()`. */
  function FirstHop(h: Headers): string {
    Trim(Split(h.forwardedFor.GetOr(""), ',')[0])
  }

  /** The client id keying the rate limiter. */
  function ClientIdFor(h: Headers): (id: string)
    ensures id != ""
    ensures FirstHop(h) != "" ==> id == FirstHop(h)
    ensures FirstHop(h) == "" && h.realIp.Some? && h.realIp.value != "" ==> id == h.realIp.value
    ensures FirstHop(h) == "" && (h.realIp.None? || h.realIp.value == "") ==> id == UnknownClient
  {
    var hop := FirstHop(h);
    if hop != "" then hop
    else if h.realIp.Some? && h.realIp.value != "" then h.realIp.value
    else UnknownClient
  }

  /** A client id taken from x-forwarded-for is the trimmed text before the
      header's first comma: a comma-free prefix of the header, cut only at
      surrounding whitespace. */
  lemma ForwardedIdIsFirstHop(h: Headers)
    requires h.forwardedFor.Some?
    requires FirstHop(h) != ""
    ensures var xff := h.forwardedFor.value;
            var k := IndexOf(xff, ',');
            && ',' !in ClientIdFor(h)
            && IsTrimOf(ClientIdFor(h), xff[..k])
            && (k == |xff| || xff[k] == ',')
  {
    var xff := h.forwardedFor.value;
    var k := IndexOf(xff, ',');
    var first := Split(xff, ',')[0];
    SplitFirst(xff, ',');
    assert first == xff[..k];
    TrimIsTrim(first);
    var i, j :| 0 <= i <= j <= |first| && Trim(first) == first[i..j]
                && AllWhitespace(first[..i]) && AllWhitespace(first[j..]);
    assert FirstHop(h) == Trim(first);
    assert ',' !in first[i..j] by {
      forall x | 0 <= x < j - i ensures first[i..j][x] != ',' {
        assert first[i..j][x] == first[i + x];
      }
    }
  }

  /** The body's fields; a body without usable JSON behaves as `{}`. */
  function PayloadOf(body: Body): Payload
    requires !body.Null?
  {
    match body
    case NonObject => EmptyPayload
    case Object(p) => p
  }

  /** One request: `now` stands for Date.now(), `time` for the ISO timestamp,
      `send` for how the delivery call ends. */
  function Post(b: Bucket, req: Request, now: int, time: string, env: Env, send: SendOutcome): (o: Outcome)
    ensures o.response.status in {200, 400, 429, 500}
    ensures o.response.status == 200 <==> o.response.body == OkBody
    // the rate limiter runs first and alone decides 429
    ensures var id := ClientIdFor(req.headers);
            o.response.status == 429 <==> id in b && InWindow(b[id], now) && b[id].n >= Limit
    ensures o.response.status == 429 ==> o.bucket == b && o.sent == None
    ensures o.response.status == 429 ==> o.response.body == ErrorBody(TooManyRequests)
    ensures o.response.status != 429 ==> o.bucket == Hit(b, ClientIdFor(req.headers), now).bucket
    ensures OnlyKeyChanged(b, o.bucket, ClientIdFor(req.headers))
    ensures Valid(b) ==> Valid(o.bucket)
    // nothing is sent on 429 or 400; 400 is exactly a rejected email
    ensures o.response.status == 400 <==>
              o.response.status != 429 && !req.body.Null? && !Accepts(PayloadOf(req.body).email)
    ensures o.response.status == 400 ==> o.response.body == ErrorBody(InvalidEmail) && o.sent == None
    // a message goes out only for an accepted email with an API key
    ensures o.sent.Some? ==>
              && !req.body.Null? && Accepts(PayloadOf(req.body).email)
              && env.apiKey.Some? && env.apiKey.value != ""
              && o.sent.value.subject == SubjectPrefix + PayloadOf(req.body).email.value
              && o.sent.value.to == env.notifyTo && o.sent.value.from == env.notifyFrom
    ensures o.response.status == 200 <==> o.sent.Some? && send == Delivered
    ensures o.response.status == 500 && o.sent.Some? ==> o.response.body == ErrorBody(ErrorMessage(send.err))
  {
    var id := ClientIdFor(req.headers);
    var v := Hit(b, id, now);
    if v.decision == Rejected then
      Outcome(v.bucket, Response(429, ErrorBody(TooManyRequests)), None)
    else if req.body.Null? then
      Outcome(v.bucket, Response(500, ErrorBody(ErrorMessage(ErrorObject(NullBodyMessage)))), None)
    else
      var p := PayloadOf(req.body);
      if !Accepts(p.email) then
        Outcome(v.bucket, Response(400, ErrorBody(InvalidEmail)), None)
      else if env.apiKey.None? || env.apiKey.value == "" then
        Outcome(v.bucket, Response(500, ErrorBody(ErrorMessage(ErrorObject(MissingKeyMessage)))), None)
      else
        var m := Compose(p.email.value, p, req.headers.userAgent, id, time, env.notifyFrom, env.notifyTo);
        match send
        case Delivered => Outcome(v.bucket, Response(200, OkBody), Some(m))
        case Throws(err) => Outcome(v.bucket, Response(500, ErrorBody(ErrorMessage(err))), Some(m))
  }

  /** Rate limiting happens before the body is looked at: two requests with
      the same headers leave the same bucket and agree on 429, whatever
      their bodies, configuration or delivery outcome. */
  lemma LimitIgnoresBody(b: Bucket, h: Headers, body1: Body, body2: Body, now: int,
                         time1: string, time2: string, env1: Env, env2: Env,
                         send1: SendOutcome, send2: SendOutcome)
    ensures var o1 := Post(b, Request(h, body1), now, time1, env1, send1);
            var o2 := Post(b, Request(h, body2), now, time2, env2, send2);
            o1.bucket == o2.bucket && (o1.response.status == 429 <==> o2.response.status == 429)
  {
  }

  /** A rejected email still uses up quota: the counter moves exactly as for
      an accepted one. */
  lemma InvalidEmailConsumesQuota(b: Bucket, req: Request, now: int, time: string, env: Env, send: SendOutcome)
    requires Post(b, req, now, time, env, send).response.status == 400
    ensures var id := ClientIdFor(req.headers);
            var o := Post(b, req, now, time, env, send);
            id in o.bucket
            && (id in b && InWindow(b[id], now) ==> o.bucket[id].n == b[id].n + 1)
            && (id !in b || !InWindow(b[id], now) ==> o.bucket[id] == Entry(1, now))
  {
  }

  /** Every failure after validation (no API key, or the delivery call
      throwing) yields 500 with the extracted message. */
  lemma FailuresAfterValidation(b: Bucket, req: Request, now: int, time: string, env: Env, send: SendOutcome)
    requires Hit(b, ClientIdFor(req.headers), now).decision == Allowed
    requires req.body.Object? && Accepts(req.body.payload.email)
    ensures var o := Post(b, req, now, time, env, send);
            (env.apiKey.None? || env.apiKey.value == "" ==>
               o.response == Response(500, ErrorBody(MissingKeyMessage)) && o.sent.None?)
            && (env.apiKey.Some? && env.apiKey.value != "" && send.Throws? ==>
               o.response == Response(500, ErrorBody(ErrorMessage(send.err))) && o.sent.Some?)
  {
  }

  /** The 500 body carries the thrown value's message: an Error's message, a
      thrown string itself, or "Server error" for anything else. */
  lemma ThrownValuesReported(b: Bucket, req: Request, now: int, time: string, env: Env, err: Thrown)
    requires Hit(b, ClientIdFor(req.headers), now).decision == Allowed
    requires req.body.Object? && Accepts(req.body.payload.email)
    requires env.apiKey.Some? && env.apiKey.value != ""
    ensures var o := Post(b, req, now, time, env, Throws(err));
            && o.response.status == 500 && o.sent.Some?
            && (err.ErrorObject? ==> o.response.body == ErrorBody(err.message))
            && (err.StringValue? ==> o.response.body == ErrorBody(err.text))
            && (err.OtherValue? ==> o.response.body == ErrorBody("Server error"))
  {
  }

  /** A JSON null body passes the rate limiter and then fails with 500, not
      400, because the handler destructures it before any check. */
  lemma NullBodyIs500(b: Bucket, h: Headers, now: int, time: string, env: Env, send: SendOutcome)
    requires Hit(b, ClientIdFor(h), now).decision == Allowed
    ensures Post(b, Request(h, Null), now, time, env, send).response.status == 500
  {
  }

  /** A body that is not a JSON object (or not JSON at all) behaves as `{}`:
      once past the limiter it has no email and gets 400, and nothing is sent. */
  lemma NonObjectIs400(b: Bucket, h: Headers, now: int, time: string, env: Env, send: SendOutcome)
    requires Hit(b, ClientIdFor(h), now).decision == Allowed
    ensures var o := Post(b, Request(h, NonObject), now, time, env, send);
            o.response == Response(400, ErrorBody(InvalidEmail)) && o.sent == None
  {
    RejectedExamples();
  }

  /** The message handed to the delivery service is the composition of this
      request: its email and fields, its user-agent header, the rate-limit
      client id as IP, the request's timestamp, and the configured addresses. */
  lemma SentIsComposed(b: Bucket, req: Request, now: int, time: string, env: Env, send: SendOutcome)
    ensures var o := Post(b, req, now, time, env, send);
            o.sent.Some? ==>
              o.sent.value == Compose(PayloadOf(req.body).email.value, PayloadOf(req.body),
                                      req.headers.userAgent, ClientIdFor(req.headers), time,
                                      env.notifyFrom, env.notifyTo)
  {
  }

  /** A missing NOTIFY_TO or NOTIFY_FROM is not checked: the message goes out
      with an undefined address and the response follows the delivery call. */
  lemma MissingAddressIsNotChecked(b: Bucket, req: Request, now: int, time: string, key: string)
    requires Hit(b, ClientIdFor(req.headers), now).decision == Allowed
    requires req.body.Object? && Accepts(req.body.payload.email) && key != ""
    ensures var o := Post(b, req, now, time, Env(Some(key), None, None), Delivered);
            o.response == Response(200, OkBody) && o.sent.Some? && o.sent.value.to.None?
  {
  }

  /** One arriving request with its clock reading, timestamp and delivery outcome. */
  datatype Arrival = Arrival(req: Request, now: int, time: string, send: SendOutcome)

  /** One request handled under configuration env. */
  function Handler(env: Env): (Bucket, Arrival) -> Outcome {
    (b: Bucket, a: Arrival) => Post(b, a.req, a.now, a.time, env, a.send)
  }

  /** Requests handled one after another by `step`: the final bucket, the
      responses, and the messages handed to the delivery service, in order. */
  function RunSteps(step: (Bucket, Arrival) -> Outcome, b: Bucket, arrivals: seq<Arrival>): (r: (Bucket, seq<Response>, seq<Message>))
    ensures |r.1| == |arrivals|
    ensures |r.2| <= |arrivals|
    decreases |arrivals|
  {
    if |arrivals| == 0 then (b, [], [])
    else
      var o := step(b, arrivals[0]);
      var rest := RunSteps(step, o.bucket, arrivals[1..]);
      var sent := if o.sent.Some? then [o.sent.value] + rest.2 else rest.2;
      (rest.0, [o.response] + rest.1, sent)
  }

  /** The endpoint handling a sequence of requests. */
  function Run(b: Bucket, env: Env, arrivals: seq<Arrival>): (r: (Bucket, seq<Response>, seq<Message>))
    ensures |r.1| == |arrivals|
  {
    RunSteps(Handler(env), b, arrivals)
  }

  /** Requests that all carry the client id of headers h (their other
      header contents may differ) and all get through validation and
      delivery. */
  ghost predicate SameClientDelivered(h: Headers, env: Env, arrivals: seq<Arrival>) {
    && env.apiKey.Some? && env.apiKey.value != ""
    && forall i :: 0 <= i < |arrivals| ==>
         && ClientIdFor(arrivals[i].req.headers) == ClientIdFor(h)
         && arrivals[i].req.body.Object?
         && Accepts(arrivals[i].req.body.payload.email)
         && arrivals[i].send == Delivered
  }

  /** The response a valid, delivered request gets for a limiter decision. */
  function ResponseFor(d: Decision): Response {
    if d == Allowed then Response(200, OkBody) else Response(429, ErrorBody(TooManyRequests))
  }

  /** One valid, delivered request: 200 and one message when the limiter
      allows it, 429 and nothing otherwise. */
  lemma DeliveredStep(b: Bucket, a: Arrival, env: Env)
    requires env.apiKey.Some? && env.apiKey.value != ""
    requires a.req.body.Object? && Accepts(a.req.body.payload.email) && a.send == Delivered
    ensures var o := Post(b, a.req, a.now, a.time, env, a.send);
            var v := Hit(b, ClientIdFor(a.req.headers), a.now);
            && o.bucket == v.bucket
            && o.response == ResponseFor(v.decision)
            && o.sent.Some? == (v.decision == Allowed)
  {
    if Hit(b, ClientIdFor(a.req.headers), a.now).decision == Allowed {
      AllowedDelivered(b, a, env);
    } else {
      RejectedNotSent(b, a, env);
    }
  }

  /** An allowed, valid, delivered request gets 200 and its message is sent. */
  lemma AllowedDelivered(b: Bucket, a: Arrival, env: Env)
    requires env.apiKey.Some? && env.apiKey.value != ""
    requires a.req.body.Object? && Accepts(a.req.body.payload.email) && a.send == Delivered
    requires Hit(b, ClientIdFor(a.req.headers), a.now).decision == Allowed
    ensures var o := Post(b, a.req, a.now, a.time, env, a.send);
            o.bucket == Hit(b, ClientIdFor(a.req.headers), a.now).bucket
            && o.response == Response(200, OkBody) && o.sent.Some?
  {
    var o := Post(b, a.req, a.now, a.time, env, a.send);
    assert o.response.status != 429 && o.response.status != 400;
    assert o.response.status == 200;
  }

  /** A request the limiter rejects gets 429 "Too many requests" and leaves
      the bucket as it was. */
  lemma RejectedNotSent(b: Bucket, a: Arrival, env: Env)
    requires Hit(b, ClientIdFor(a.req.headers), a.now).decision == Rejected
    ensures var o := Post(b, a.req, a.now, a.time, env, a.send);
            o.bucket == Hit(b, ClientIdFor(a.req.headers), a.now).bucket
            && o.response == Response(429, ErrorBody(TooManyRequests)) && o.sent.None?
  {
  }

  /** The clock readings of a run. */
  function Times(arrivals: seq<Arrival>): (ts: seq<int>)
    ensures |ts| == |arrivals|
    ensures forall i :: 0 <= i < |ts| ==> ts[i] == arrivals[i].now
  {
    seq(|arrivals|, i requires 0 <= i < |arrivals| => arrivals[i].now)
  }

  /** Number of Allowed decisions. */
  function CountAllowed(ds: seq<Decision>): (k: nat)
    ensures k <= |ds|
  {
    if |ds| == 0 then 0 else (if ds[0] == Allowed then 1 else 0) + CountAllowed(ds[1..])
  }

  /** The outcome o of a step from bucket b is the limiter's verdict for
      `key` at `now`, answered as a valid, delivered request. */
  ghost predicate FollowsLimiter(o: Outcome, b: Bucket, key: string, now: int) {
    var v := Hit(b, key, now);
    && o.bucket == v.bucket
    && o.response == ResponseFor(v.decision)
    && o.sent.Some? == (v.decision == Allowed)
  }

  /** Steps that each follow the limiter for `key` answer a run as the
      limiter's replay, and send one message per allowed request. */
  lemma StepsFollowLimiter(step: (Bucket, Arrival) -> Outcome, b: Bucket, key: string, arrivals: seq<Arrival>)
    requires forall b', a :: a in arrivals ==> FollowsLimiter(step(b', a), b', key, a.now)
    ensures var r := RunSteps(step, b, arrivals);
            var ds := Replay(b, key, Times(arrivals));
            && (forall i :: 0 <= i < |arrivals| ==> r.1[i] == ResponseFor(ds[i]))
            && |r.2| == CountAllowed(ds)
  {
    StepsResponses(step, b, key, arrivals);
    StepsSent(step, b, key, arrivals);
  }

  lemma {:induction false} StepsResponses(step: (Bucket, Arrival) -> Outcome, b: Bucket, key: string, arrivals: seq<Arrival>)
    requires forall b', a :: a in arrivals ==> FollowsLimiter(step(b', a), b', key, a.now)
    ensures var r := RunSteps(step, b, arrivals);
            var ds := Replay(b, key, Times(arrivals));
            forall i :: 0 <= i < |arrivals| ==> r.1[i] == ResponseFor(ds[i])
    decreases |arrivals|
  {
    if |arrivals| > 0 {
      var o := step(b, arrivals[0]);
      assert FollowsLimiter(o, b, key, arrivals[0].now);
      var v := Hit(b, key, arrivals[0].now);
      var rest := arrivals[1..];
      StepsResponses(step, o.bucket, key, rest);
      assert forall k :: 0 <= k < |rest| ==> RunSteps(step, o.bucket, rest).1[k] == ResponseFor(Replay(o.bucket, key, Times(rest))[k]);
      var r := RunSteps(step, b, arrivals);
      var r' := RunSteps(step, o.bucket, rest);
      var ds := Replay(b, key, Times(arrivals));
      var ds' := Replay(v.bucket, key, Times(rest));
      assert Times(rest) == Times(arrivals)[1..];
      assert ds == [v.decision] + ds';
      assert r.1 == [o.response] + r'.1;
      assert o.response == ResponseFor(v.decision) && o.bucket == v.bucket;
      forall i | 0 <= i < |arrivals| ensures r.1[i] == ResponseFor(ds[i]) {
        if i > 0 {
          assert r.1[i] == r'.1[i - 1] && ds[i] == ds'[i - 1];
          assert r'.1[i - 1] == ResponseFor(ds'[i - 1]);
        }
      }
    }
  }

  lemma {:induction false} StepsSent(step: (Bucket, Arrival) -> Outcome, b: Bucket, key: string, arrivals: seq<Arrival>)
    requires forall b', a :: a in arrivals ==> FollowsLimiter(step(b', a), b', key, a.now)
    ensures |RunSteps(step, b, arrivals).2| == CountAllowed(Replay(b, key, Times(arrivals)))
    decreases |arrivals|
  {
    if |arrivals| > 0 {
      var o := step(b, arrivals[0]);
      assert FollowsLimiter(o, b, key, arrivals[0].now);
      var v := Hit(b, key, arrivals[0].now);
      var rest := arrivals[1..];
      StepsSent(step, o.bucket, key, rest);
      var ds := Replay(b, key, Times(arrivals));
      var ds' := Replay(v.bucket, key, Times(rest));
      assert Times(rest) == Times(arrivals)[1..];
      assert ds == [v.decision] + ds';
      assert ds[1..] == ds';
      assert |RunSteps(step, b, arrivals).2| == (if o.sent.Some? then 1 else 0) + |RunSteps(step, o.bucket, rest).2|;
    }
  }

  /** A run of valid, delivered requests from one client is the rate
      limiter's replay: each response is decided by the limiter alone, and
      one message goes out per allowed request. */
  lemma RunFollowsLimiter(b: Bucket, h: Headers, env: Env, arrivals: seq<Arrival>)
    requires SameClientDelivered(h, env, arrivals)
    ensures var r := Run(b, env, arrivals);
            var ds := Replay(b, ClientIdFor(h), Times(arrivals));
            && (forall i :: 0 <= i < |arrivals| ==> r.1[i] == ResponseFor(ds[i]))
            && |r.2| == CountAllowed(ds)
  {
    var key := ClientIdFor(h);
    forall b', a | a in arrivals
      ensures FollowsLimiter(Handler(env)(b', a), b', key, a.now)
    {
      DeliveredStep(b', a, env);
    }
    StepsFollowLimiter(Handler(env), b, key, arrivals);
  }

  /** Among decisions where exactly the first m are Allowed, m of them are counted. */
  lemma {:induction false} CountPrefixAllowed(ds: seq<Decision>, m: int)
    requires forall i :: 0 <= i < |ds| ==> (ds[i] == Allowed <==> i < m)
    ensures CountAllowed(ds) == if |ds| < m then |ds| else if m < 0 then 0 else m
    decreases |ds|
  {
    if |ds| > 0 {
      CountPrefixAllowed(ds[1..], m - 1);
    }
  }

  /** In an open window holding n requests, exactly Limit - n more valid,
      delivered requests get 200 and are sent; every later one gets 429 and
      is not. */
  lemma RunWithinWindow(b: Bucket, h: Headers, env: Env, n: int, t0: int, arrivals: seq<Arrival>)
    requires var id := ClientIdFor(h); id in b && b[id] == Entry(n, t0) && 1 <= n <= Limit
    requires SameClientDelivered(h, env, arrivals)
    requires forall i :: 0 <= i < |arrivals| ==> arrivals[i].now - t0 <= Window
    ensures var r := Run(b, env, arrivals);
            && (forall i :: 0 <= i < |arrivals| ==>
                  r.1[i].status == (if i < Limit - n then 200 else 429))
            && |r.2| == (if |arrivals| < Limit - n then |arrivals| else Limit - n)
  {
    var ds := Replay(b, ClientIdFor(h), Times(arrivals));
    RunFollowsLimiter(b, h, env, arrivals);
    QuotaWithinWindow(b, ClientIdFor(h), n, t0, Times(arrivals));
    CountPrefixAllowed(ds, Limit - n);
  }

  /** From a client with no open window, successive valid requests inside the
      window opened by the first get 200 for the first Limit of them and 429
      after that, and exactly min(count, Limit) messages are sent. */
  lemma FreshClientQuota(b: Bucket, h: Headers, env: Env, arrivals: seq<Arrival>)
    requires |arrivals| > 0
    requires var id := ClientIdFor(h); id !in b || !InWindow(b[id], arrivals[0].now)
    requires SameClientDelivered(h, env, arrivals)
    requires forall i :: 0 <= i < |arrivals| ==> arrivals[i].now - arrivals[0].now <= Window
    ensures var r := Run(b, env, arrivals);
            && (forall i :: 0 <= i < |arrivals| ==> r.1[i].status == (if i < Limit then 200 else 429))
            && |r.2| == (if |arrivals| < Limit then |arrivals| else Limit)
  {
    var ds := Replay(b, ClientIdFor(h), Times(arrivals));
    RunFollowsLimiter(b, h, env, arrivals);
    FreshQuota(b, ClientIdFor(h), Times(arrivals));
    CountPrefixAllowed(ds, Limit);
  }

  /** Requests of other clients leave a client's counter alone. */
  lemma {:induction false} RunOtherClients(b: Bucket, env: Env, arrivals: seq<Arrival>, id: string)
    requires forall i :: 0 <= i < |arrivals| ==> ClientIdFor(arrivals[i].req.headers) != id
    ensures var b' := Run(b, env, arrivals).0;
            (id in b' <==> id in b) && (id in b ==> b'[id] == b[id])
    decreases |arrivals|
  {
    if |arrivals| > 0 {
      var a := arrivals[0];
      var o := Post(b, a.req, a.now, a.time, env, a.send);
      assert Run(b, env, arrivals).0 == Run(o.bucket, env, arrivals[1..]).0;
      RunOtherClients(o.bucket, env, arrivals[1..], id);
    }
  }

  /** The stored counters stay within 1..Limit over any run. */
  lemma {:induction false} RunKeepsValid(b: Bucket, env: Env, arrivals: seq<Arrival>)
    requires Valid(b)
    ensures Valid(Run(b, env, arrivals).0)
    decreases |arrivals|
  {
    if |arrivals| > 0 {
      var a := arrivals[0];
      var o := Post(b, a.req, a.now, a.time, env, a.send);
      assert Run(b, env, arrivals).0 == Run(o.bucket, env, arrivals[1..]).0;
      RunKeepsValid(o.bucket, env, arrivals[1..]);
    }
  }

  /** A valid signup from a fresh client is sent once, to the configured
      destination, with the address in the subject, and answered 200. */
  lemma FirstSignupSent(h: Headers, now: int, time: string, env: Env)
    requires env.apiKey.Some? && env.apiKey.value != ""
    ensures var p := EmptyPayload.(email := Some("user@example.com"));
            var o := Post(map[], Request(h, Object(p)), now, time, env, Delivered);
            && o.response == Response(200, OkBody)
            && o.sent.Some? && o.sent.value.to == env.notifyTo
            && o.sent.value.subject == SubjectPrefix + "user@example.com"
  {
    var p := EmptyPayload.(email := Some("user@example.com"));
    AcceptedExamples();
    var req := Request(h, Object(p));
    DeliveredStep(map[], Arrival(req, now, time, Delivered), env);
  }

  /** A malformed email gets 400 and nothing is sent. */
  lemma BadEmailRejected(h: Headers, now: int, time: string, env: Env, send: SendOutcome)
    ensures var p := EmptyPayload.(email := Some("bad"));
            var o := Post(map[], Request(h, Object(p)), now, time, env, send);
            o.response == Response(400, ErrorBody(InvalidEmail)) && o.sent.None?
  {
    RejectedExamples();
  }

  /** A delivery call throwing Error("boom") gives 500 with "boom". */
  lemma ThrownErrorReported(h: Headers, now: int, time: string, env: Env)
    requires env.apiKey.Some? && env.apiKey.value != ""
    ensures var p := EmptyPayload.(email := Some("a@b.com"));
            var o := Post(map[], Request(h, Object(p)), now, time, env, Throws(ErrorObject("boom")));
            o.response == Response(500, ErrorBody("boom"))
  {
    var p := EmptyPayload.(email := Some("a@b.com"));
    AcceptedExamples();
    FailuresAfterValidation(map[], Request(h, Object(p)), now, time, env, Throws(ErrorObject("boom")));
  }
}
