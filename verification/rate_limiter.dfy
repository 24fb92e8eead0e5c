/** The fixed-window rate limiter of the waitlist endpoint: one counter per
    client id, at most Limit requests per window of Window milliseconds. */
module RateLimiter {

  const Window: int := 60000
  const Limit: int := 8

  /** One bucket entry: `n` requests counted in the window opened at `t`. */
  datatype Entry = Entry(n: int, t: int)

  /** The process-wide `bucket` map, keyed by client id. */
  type Bucket = map<string, Entry>

  datatype Decision = Allowed | Rejected

  datatype Verdict = Verdict(decision: Decision, bucket: Bucket)

  /** A request at `now` still falls in the window the entry opened:
      exactly Window milliseconds later is still inside. */
  predicate InWindow(e: Entry, now: int) {
    now - e.t <= Window
  }

  /** Every stored counter lies in 1..Limit. */
  ghost predicate Valid(b: Bucket) {
    forall k :: k in b ==> 1 <= b[k].n <= Limit
  }

  /** The bucket differs from b at most at `key`. */
  ghost predicate OnlyKeyChanged(b: Bucket, b': Bucket, key: string) {
    forall k :: k != key ==> (k in b' <==> k in b) && (k in b ==> b'[k] == b[k])
  }

  /** One rate-limit check for `key` at time `now`. */
  function Hit(b: Bucket, key: string, now: int): (v: Verdict)
    ensures key in v.bucket
    ensures OnlyKeyChanged(b, v.bucket, key)
    ensures Valid(b) ==> Valid(v.bucket)
    ensures v.decision == Rejected <==> key in b && InWindow(b[key], now) && b[key].n >= Limit
    ensures v.decision == Rejected ==> v.bucket == b
    ensures (key !in b || !InWindow(b[key], now)) ==> v.bucket[key] == Entry(1, now)
    ensures key in b && InWindow(b[key], now) && v.decision == Allowed ==>
              v.bucket[key] == Entry(b[key].n + 1, b[key].t)
  {
    if key !in b || now - b[key].t > Window then
      Verdict(Allowed, b[key := Entry(1, now)])
    else if b[key].n >= Limit then
      Verdict(Rejected, b)
    else
      Verdict(Allowed, b[key := Entry(b[key].n + 1, b[key].t)])
  }

  /** The decisions of successive checks of one key at the given times. */
  function Replay(b: Bucket, key: string, times: seq<int>): (ds: seq<Decision>)
    ensures |ds| == |times|
    decreases |times|
  {
    if |times| == 0 then []
    else
      var v := Hit(b, key, times[0]);
      [v.decision] + Replay(v.bucket, key, times[1..])
  }

  /** Within one open window holding n requests, exactly Limit - n further
      requests are allowed and every later one is rejected. */
  lemma {:induction false} QuotaWithinWindow(b: Bucket, key: string, n: int, t0: int, times: seq<int>)
    requires key in b && b[key] == Entry(n, t0) && 1 <= n <= Limit
    requires forall i :: 0 <= i < |times| ==> times[i] - t0 <= Window
    ensures forall i :: 0 <= i < |times| ==>
              (Replay(b, key, times)[i] == Allowed <==> i < Limit - n)
    decreases |times|
  {
    if |times| > 0 {
      var v := Hit(b, key, times[0]);
      var ds := Replay(b, key, times);
      assert ds == [v.decision] + Replay(v.bucket, key, times[1..]);
      if n < Limit {
        assert v.decision == Allowed && v.bucket[key] == Entry(n + 1, t0);
        QuotaWithinWindow(v.bucket, key, n + 1, t0, times[1..]);
      } else {
        assert v.decision == Rejected && v.bucket == b;
        QuotaWithinWindow(b, key, n, t0, times[1..]);
      }
    }
  }

  /** From an unseen or expired key, of the requests that fall in the window
      opened by the first one, exactly the first Limit are allowed. */
  lemma FreshQuota(b: Bucket, key: string, times: seq<int>)
    requires |times| > 0
    requires key !in b || !InWindow(b[key], times[0])
    requires forall i :: 0 <= i < |times| ==> times[i] - times[0] <= Window
    ensures forall i :: 0 <= i < |times| ==> (Replay(b, key, times)[i] == Allowed <==> i < Limit)
  {
    var v := Hit(b, key, times[0]);
    QuotaWithinWindow(v.bucket, key, 1, times[0], times[1..]);
    assert Replay(b, key, times) == [Allowed] + Replay(v.bucket, key, times[1..]);
  }

  /** Nine requests within one window from a fresh key: eight allowed, then
      the ninth rejected. */
  lemma NinthRequestRejected(key: string, t0: int)
    ensures Replay(map[], key, seq(Limit + 1, _ => t0)) ==
            seq(Limit, _ => Allowed) + [Rejected]
  {
    var times := seq(Limit + 1, _ => t0);
    FreshQuota(map[], key, times);
    var ds := Replay(map[], key, times);
    assert forall i :: 0 <= i < |ds| ==> ds[i] == (seq(Limit, _ => Allowed) + [Rejected])[i];
  }

  /** A check of one key never affects any other key's counter. */
  lemma {:induction false} ReplayOtherKeys(b: Bucket, key: string, times: seq<int>, other: string)
    requires other != key
    ensures var b' := ReplayBucket(b, key, times);
            (other in b' <==> other in b) && (other in b ==> b'[other] == b[other])
    decreases |times|
  {
    if |times| > 0 {
      ReplayOtherKeys(Hit(b, key, times[0]).bucket, key, times[1..], other);
    }
  }

  /** The bucket after successive checks of one key. */
  function ReplayBucket(b: Bucket, key: string, times: seq<int>): Bucket
    decreases |times|
  {
    if |times| == 0 then b
    else ReplayBucket(Hit(b, key, times[0]).bucket, key, times[1..])
  }

  /** The fixed window lets a full quota through at both ends of a window
      boundary: 2 * Limit requests are allowed within Window + 1 ms. */
  lemma BoundaryBurst(key: string, t0: int)
    ensures var late := seq(Limit, _ => t0 + Window + 1);
            var b := ReplayBucket(map[], key, seq(Limit, _ => t0));
            Replay(map[], key, seq(Limit, _ => t0)) == seq(Limit, _ => Allowed)
            && Replay(b, key, late) == seq(Limit, _ => Allowed)
  {
    var early := seq(Limit, _ => t0);
    var late := seq(Limit, _ => t0 + Window + 1);
    FreshQuota(map[], key, early);
    var b := ReplayBucket(map[], key, early);
    BucketAfterQuota(map[], key, early);
    assert b[key].t == t0;
    FreshQuota(b, key, late);
  }

  /** The entry a key holds after requests that all fall in the window
      opened by the first of them. */
  lemma BucketAfterQuota(b: Bucket, key: string, times: seq<int>)
    requires |times| > 0
    requires key !in b || !InWindow(b[key], times[0])
    requires forall i :: 0 <= i < |times| ==> times[i] - times[0] <= Window
    ensures key in ReplayBucket(b, key, times)
    ensures ReplayBucket(b, key, times)[key].t == times[0]
    ensures ReplayBucket(b, key, times)[key].n == if |times| < Limit then |times| else Limit
  {
    var v := Hit(b, key, times[0]);
    EntryWithinWindow(v.bucket, key, 1, times[0], times[1..]);
  }

  lemma {:induction false} EntryWithinWindow(b: Bucket, key: string, n: int, t0: int, times: seq<int>)
    requires key in b && b[key] == Entry(n, t0) && 1 <= n <= Limit
    requires forall i :: 0 <= i < |times| ==> times[i] - t0 <= Window
    ensures key in ReplayBucket(b, key, times)
    ensures ReplayBucket(b, key, times)[key] ==
            Entry(if n + |times| < Limit then n + |times| else Limit, t0)
    decreases |times|
  {
    if |times| > 0 {
      var v := Hit(b, key, times[0]);
      if n < Limit {
        EntryWithinWindow(v.bucket, key, n + 1, t0, times[1..]);
      } else {
        EntryWithinWindow(b, key, n, t0, times[1..]);
      }
    }
  }
}
