# BudMeet waitlist endpoint and legal lookups, modelled in Dafny

The BudMeet marketing site has one piece of server logic: the waitlist
endpoint `POST /api/notify`. It derives a client id from proxy headers. It
runs a fixed-window rate limiter over an in-process map (window 60 000 ms,
limit 8 per client). It applies a loose email check. It composes a
notification and hands it to the Resend email service. Every failure turns
into a 429, 400 or 500 response. The site also has a small legal library.
It maps one of nine region codes to a governing law and a minimum age, and
a stub region detector always answers `OTHER`.

The model is functional. A request is one call of a pure step function:
`NotifyRoute.Post(bucket, request, now, time, env, send)` returns the new
bucket, the response and the message handed to the delivery service (if
any). The clock, the ISO timestamp, the configuration and the outcome of
the delivery call are all inputs. `NotifyRoute.Run` folds `Post` over a
sequence of requests.

Modules:
- `Wrappers` (wrappers.dfy): `Option`. A JavaScript `null` and `undefined` are both `None`.
- `JsStrings` (js_strings.dfy): the ECMAScript whitespace set, `trim`, and `split`/`join` on one character.
- `RateLimiter` (rate_limiter.dfy): `Entry`, `Bucket`, `Hit`, and replays of one key.
- `EmailCheck` (email_check.dfy): the pattern `\S+@\S+\.\S+` as a predicate, and the computed check.
- `Notification` (notification.dfy): payload, subject, the ten lines, text and HTML.
- `NotifyRoute` (notify_route.dfy): `getErrorMessage` (`ErrorMessage`), client id, the `Post` step, runs and scenarios.
- `Legal` (legal.dfy): `RegionCode`, both tables, both lookups, and `detectRegion`.

Two behaviours of the code are worth stating on their own:
- The handler checks only `RESEND_API_KEY`. `NOTIFY_TO` and `NOTIFY_FROM`
  are read with a type-only `!`, so a missing one is passed on as
  `undefined` and the send goes ahead
  (`NotifyRoute.MissingAddressIsNotChecked`).
- A body that is unparseable, or JSON that is not an object, behaves as
  `{}` and gets 400 (`NotifyRoute.NonObjectIs400`). A body that is the JSON
  literal `null` makes the destructuring on line 51 throw, so the answer
  is 500, not 400 (`NotifyRoute.NullBodyIs500`).

## Model

| member | source | states |
|---|---|---|
| JsStrings.TrimIsTrim | src/app/api/notify/route.ts:36 | `trim()` returns a slice of its input: all that is cut away is whitespace, and the result neither starts nor ends with whitespace |
| JsStrings.TrimUnique | src/app/api/notify/route.ts:36 | Exactly one string satisfies that trim characterisation, namely `Trim`'s result |
| JsStrings.JoinSplit | src/app/api/notify/route.ts:36 | No piece of `split(",")` contains the separator, and joining the pieces with it restores the input |
| JsStrings.SplitFirst | src/app/api/notify/route.ts:36 | `split(",")[0]` is the input up to its first comma |
| JsStrings.SplitJoin | src/app/api/notify/route.ts:83 | Splitting `lines.join("\n")` gives the lines back when no line contains a line break |
| NotifyRoute.ClientIdFor | src/app/api/notify/route.ts:35-38 | The client id is never empty. It is the trimmed first hop of x-forwarded-for when that is non-empty. Otherwise it is x-real-ip when that is non-empty, and otherwise "0.0.0.0" |
| NotifyRoute.ForwardedIdIsFirstHop | src/app/api/notify/route.ts:36 | An id taken from x-forwarded-for has no comma. It is the trimmed prefix of the header before the first comma |
| RateLimiter.Hit | src/app/api/notify/route.ts:42-48 | An unseen or expired key (more than 60 000 ms since its window opened) restarts at count 1. Inside the window, a count of 8 or more is rejected and the bucket is unchanged. Otherwise the count rises by exactly 1 and the window start is kept. Other keys are untouched, and counts stay in 1..8 |
| RateLimiter.QuotaWithinWindow | src/app/api/notify/route.ts:45-48 | Within an open window holding n requests, exactly 8 - n further requests are allowed and all later ones are rejected |
| RateLimiter.FreshQuota | src/app/api/notify/route.ts:42-48 | From an unseen or expired key, exactly the first 8 requests inside the new window are allowed |
| RateLimiter.NinthRequestRejected | src/app/api/notify/route.ts:42-48 | With the limit of 8 (route.ts:19), nine requests at one instant from a fresh key: eight are allowed, then the ninth is rejected |
| RateLimiter.ReplayOtherKeys | src/app/api/notify/route.ts:42-48 | Checks of one key never change another key's entry |
| RateLimiter.BucketAfterQuota | src/app/api/notify/route.ts:43-47 | After k requests inside a fresh window, the entry holds min(k, 8) and the window start of the first request |
| RateLimiter.EntryWithinWindow | src/app/api/notify/route.ts:45-47 | Inside an open window holding n requests, k more requests leave the entry at min(n + k, 8) with the window start unchanged |
| RateLimiter.BoundaryBurst | src/app/api/notify/route.ts:43-44 | The fixed window lets 16 requests through within 60 001 ms: 8 at its start and 8 just after it expires |
| EmailCheck.PatternIffShape | src/app/api/notify/route.ts:61 | The pattern matches exactly when some `@` has a non-whitespace character before it, and a `.` follows after at least one non-whitespace run, with a non-whitespace character after the `.` |
| EmailCheck.DotFromFinds | src/app/api/notify/route.ts:61 | With a whitespace-free run after the `@`, the scan for the `.` succeeds exactly when a shortest match with that `@` exists further on |
| EmailCheck.AtFromFinds | src/app/api/notify/route.ts:61 | The scan for an `@` from a position succeeds exactly when a shortest match with its `@` at or after that position exists |
| EmailCheck.IsLooseEmailMatches | src/app/api/notify/route.ts:61 | The computed check is true exactly when the pattern `\S+@\S+\.\S+` matches somewhere in the string |
| EmailCheck.AcceptsIffPattern | src/app/api/notify/route.ts:61 | An email is accepted iff it is present and the pattern matches it. The empty-string test is subsumed, since a match needs five characters |
| EmailCheck.ShortNeverMatches | src/app/api/notify/route.ts:61 | No string shorter than five characters matches |
| EmailCheck.MatchSurvivesContext | src/app/api/notify/route.ts:61 | The pattern is unanchored: any text, spaces included, may surround a match |
| EmailCheck.AcceptedExamples | src/app/api/notify/route.ts:61 | "a@b.com", "user@example.com" and " hello a@b.c " are accepted |
| EmailCheck.AcceptedShape | src/app/api/notify/route.ts:61 | Any string holding a shortest match anywhere is accepted |
| EmailCheck.RejectedExamples | src/app/api/notify/route.ts:61 | A missing email, "", "bad", "not-an-email" and "a @b.c" are rejected |
| EmailCheck.NoAtNoMatch | src/app/api/notify/route.ts:61 | A string without `@` never matches |
| Notification.Lines | src/app/api/notify/route.ts:71-82 | There are ten lines: "Email: " and the email; the five UTM fields and the referrer, each its value when present (even empty) and "-" when missing; the user agent, or "-" when missing or empty; "IP: " and the client id; "Time: " and the timestamp |
| Notification.Compose | src/app/api/notify/route.ts:67-86 | The subject is "New BudMeet waitlist: " plus the email. The text is the ten lines joined with line breaks. The HTML is the `<pre>` opening tag, then exactly the text, then `</pre>`. The text starts with "Email: " and the email. From and to pass through unchanged |
| Notification.TextLines | src/app/api/notify/route.ts:71-83 | When no value contains a line break, splitting the text at line breaks gives back exactly the ten lines |
| Notification.PlaceholderRules | src/app/api/notify/route.ts:73-79 | For every payload, a UTM or referrer line is its bare label exactly when the value is present and empty (`??` keeps ""). The User-Agent line is never bare: a missing or empty user agent renders "-" (`\|\|`) |
| NotifyRoute.Post | src/app/api/notify/route.ts:33-94 | Rate limiting comes first and alone decides 429. A 429 carries the error "Too many requests", leaves the bucket unchanged and sends nothing. A 400 happens exactly when the email is rejected, and sends nothing. A message is sent only for an accepted email with an API key. 200 happens iff a message went out and the send succeeded. Only the client's own entry changes, and counts stay in 1..8 |
| NotifyRoute.SentIsComposed | src/app/api/notify/route.ts:65-86 | The message handed to the delivery service is the composition of this request: its email and fields, its user-agent header, the rate-limit client id as IP, its timestamp, and NOTIFY_FROM/NOTIFY_TO |
| NotifyRoute.LimitIgnoresBody | src/app/api/notify/route.ts:40-50 | Two requests with the same headers leave the same bucket and agree on 429, whatever their bodies, configuration or send outcome |
| NotifyRoute.InvalidEmailConsumesQuota | src/app/api/notify/route.ts:40-63 | A 400 still counts against the client's quota, exactly as an accepted request would: an open window's count rises by one, and an unseen or expired client starts a new window at count 1 |
| NotifyRoute.FailuresAfterValidation | src/app/api/notify/route.ts:65-92 | After validation, a missing or empty API key yields 500 with its message and no send. A throwing send yields 500 with the extracted message |
| NotifyRoute.ThrownValuesReported | src/app/api/notify/route.ts:27-31 | The 500 body holds an Error's message, a thrown string itself, or "Server error" for any other value |
| NotifyRoute.NullBodyIs500 | src/app/api/notify/route.ts:50-59 | A JSON null body that passes the limiter gets 500, not 400 |
| NotifyRoute.NonObjectIs400 | src/app/api/notify/route.ts:50-63 | An unparseable or non-object body behaves as `{}`: once past the limiter it gets 400 "Invalid email" and nothing is sent |
| NotifyRoute.MissingAddressIsNotChecked | src/app/api/notify/route.ts:67-68 | A missing NOTIFY_TO/NOTIFY_FROM does not stop the send: the message goes out with no address and the response follows the send |
| NotifyRoute.DeliveredStep | src/app/api/notify/route.ts:40-90 | For a valid request whose send succeeds, the response is 200 with one message when the limiter allows it, and 429 with none otherwise |
| NotifyRoute.AllowedDelivered | src/app/api/notify/route.ts:40-90 | A valid request the limiter allows, with a working key and a successful send, gets 200 and its message is sent |
| NotifyRoute.RejectedNotSent | src/app/api/notify/route.ts:42-47 | Any request the limiter rejects gets 429 "Too many requests", leaves the bucket unchanged and sends nothing |
| NotifyRoute.RunFollowsLimiter | src/app/api/notify/route.ts:40-90 | Over a run of valid, delivered requests from one client (one derived client id; the rest of their headers may differ), each response is 200 or 429 exactly as the limiter's replay decides, and one message goes out per allowed request |
| NotifyRoute.RunWithinWindow | src/app/api/notify/route.ts:42-90 | In an open window holding n requests, valid delivered requests with that client id, whatever their other headers, get 200 exactly 8 - n more times and then 429. Exactly that many messages are sent |
| NotifyRoute.FreshClientQuota | src/app/api/notify/route.ts:42-90 | From a fresh client id, successive valid requests carrying it in one window, whatever their other headers, get 200 for the first 8 and 429 after. Exactly min(count, 8) messages are sent, so the 9th never reaches the delivery service |
| NotifyRoute.RunOtherClients | src/app/api/notify/route.ts:42-48 | Requests of other clients never change a client's counter |
| NotifyRoute.RunKeepsValid | src/app/api/notify/route.ts:43-48 | Over any run of requests, every stored count stays in 1..8 |
| NotifyRoute.FirstSignupSent | src/app/api/notify/route.ts:69-90 | "user@example.com" from a fresh client gets 200. It is sent once, to NOTIFY_TO, with the address in the subject |
| NotifyRoute.BadEmailRejected | src/app/api/notify/route.ts:61-63 | The email "bad" gets 400 "Invalid email" and nothing is sent |
| NotifyRoute.ThrownErrorReported | src/app/api/notify/route.ts:88-92 | A send throwing Error("boom") gets 500 with error "boom" |
| Legal.TextFalsyVersusNullish | src/lib/legal.ts:65 | `(region && table[region]) \|\| fallback` agrees with the `??` lookup exactly when the region is missing, its entry is non-empty, or the fallback is empty: an empty entry falls back like a missing region |
| Legal.NumberFalsyVersusNullish | src/lib/legal.ts:69 | The same for a number table: only a zero entry is replaced by the fallback |
| Legal.TablesMakeFalsyHarmless | src/lib/legal.ts:64-70 | With the current tables, `governingLawFor` and `ageMinimumFor` give the same answer as the `??` lookups for every input |
| Legal.GoverningLawFor | src/lib/legal.ts:64-66 | The result is non-empty. For every region it is exactly the table entry. For null/undefined it is the default "Andhra Pradesh, India", which equals the OTHER entry |
| Legal.AgeMinimumFor | src/lib/legal.ts:68-70 | The result is positive and is the region's entry, or the OTHER entry for null/undefined. With the current table it is 15 for every input |
| Legal.TablesTotal | src/lib/legal.ts:2-40 | RegionCode has exactly nine members. Both tables give every one of them a non-empty or positive entry |
| Legal.RenderedLegalTerms | src/lib/region.ts:5-7 | With the stub detector, the pages render governing law "Andhra Pradesh, India" and minimum age 15 |

## Left out

- The Resend client and the `emails.send` call are not modelled. The send is an input: `Delivered` or `Throws(value)`. The value `send` resolves to is ignored by the handler, so an error that Resend returns without throwing looks the same as `Delivered`.
- `process.env` reads are inputs (`Env`): the API key, destination and sender are each present or absent.
- `Date.now()` and `new Date().toISOString()` are the `now` and `time` inputs. No clock and no ISO formatting is modelled.
- `req.json()` parsing is not modelled. The body is a value: no usable fields, JSON null, or an object of optional strings.
- Body fields of non-string JSON types are left out. A number or array email would be coerced to a string by `RegExp.test`.
- The exact TypeError wording for a JSON null body belongs to the JavaScript engine. The model uses a fixed stand-in text; its contracts fix only the status.
- `NextResponse` is reduced to a status and a body: either `{ok: true}` or `{error}`.
- Concurrency between async handlers is left out. The rate-limit read-modify-write runs before the first `await`, so handling requests one after another matches the runtime.
- The `bucket` map grows without bound, since stale entries are never evicted. This has no effect on responses, and the model does not bound it.
- JavaScript strings are UTF-16 code units, while Dafny characters are Unicode scalar values. Every whitespace character is in the Basic Multilingual Plane, so the whitespace class and `trim` agree.
- JavaScript numbers are doubles. Millisecond timestamps are integers far below 2^53, so `now - t` is exact; unbounded integers model it.
- Notification.TextLines: recovers the ten lines from the text only when no value contains a line break. A UTM, referrer or email value holding one yields a longer text; Notification.Compose still states that the text is the ten lines joined, but nothing is stated about splitting it back.
- Everything outside the endpoint and the legal library is left out: pages, layout, 3D scenes, animation, OG images, sitemap, robots, manifest, configuration. It is static markup or wrappers around UI libraries.
- Small client-side handlers are left out: footer locale cycling, the internal-link test, the cookie-banner consent check on `localStorage`, and the reset deep-link builder.
