/**
 * backend/src/middleware/rateLimit.js: a fixed-window rate limiter over one
 * module-level map from client key to {count, windowStart}. The clock
 * (`Date.now()`) is the parameter `now`, in milliseconds, and the timer that
 * runs the cleanup every five minutes is the method `Cleanup`, called by
 * whoever owns the clock.
 */
module RateLimit {
  import opened Common
  import opened JsText

  /** `{ count, windowStart }`. */
  datatype Entry = Entry(count: int, windowStart: int)

  /** The options of `rateLimit(options)`, with its defaults. */
  datatype Options = Options(windowMs: int, maxRequests: int, message: string)

  const DefaultOptions := Options(60000, 100, "Too many requests, please try again later")

  /** `authRateLimit`: 5 minutes, 20 requests. */
  const AuthOptions := Options(300000, 20, "Too many authentication attempts, please try again later")

  /** `apiRateLimit`: 1 minute, 100 requests. */
  const ApiOptions := Options(60000, 100, "API rate limit exceeded, please slow down")

  /** The age past which the cleanup drops an entry, the same for every limiter. */
  const CleanupAge := 60000

  /** What the middleware does: `next()`, or 429 with the message and `retryAfter` seconds. */
  datatype Verdict = Allow | TooMany(error: string, retryAfter: int)

  /** `Math.ceil(x / d)` for an integer `x` and a positive integer `d`. */
  function CeilDiv(x: int, d: int): (r: int)
    requires d > 0
    ensures (r - 1) * d < x <= r * d
  {
    -((-x) / d)
  }

  // ---------------------------------------------------------------- client key

  /** The request fields the key is taken from; None is `undefined`. */
  datatype Client = Client(ip: Option<string>, forwardedFor: Option<string>, remoteAddress: Option<string>)

  predicate Present(s: Option<string>) {
    s.Some? && s.value != ""
  }

  /** `header.split(',')[0].trim()`. */
  function FirstHop(header: string): (r: string)
    ensures IndexOf(header, ",", 0).None? ==> r == Trim(header)
    ensures IndexOf(header, ",", 0).Some? ==> r == Trim(header[..IndexOf(header, ",", 0).value])
  {
    Trim(SplitOn(header, ",")[0])
  }

  /**
   * `req.ip || forwarded?.split(',')[0]?.trim() || req.connection?.remoteAddress
   * || 'unknown'`: the first of these that is a non-empty string.
   */
  function ClientKey(c: Client): (key: string)
    ensures key != ""
    ensures Present(c.ip) ==> key == c.ip.value
    ensures !Present(c.ip) && c.forwardedFor.Some? && FirstHop(c.forwardedFor.value) != "" ==>
      key == FirstHop(c.forwardedFor.value)
    ensures !Present(c.ip) && !(c.forwardedFor.Some? && FirstHop(c.forwardedFor.value) != "") ==>
      key == (if Present(c.remoteAddress) then c.remoteAddress.value else "unknown")
  {
    if Present(c.ip) then c.ip.value
    else if c.forwardedFor.Some? && FirstHop(c.forwardedFor.value) != "" then FirstHop(c.forwardedFor.value)
    else if Present(c.remoteAddress) then c.remoteAddress.value
    else "unknown"
  }

  // ---------------------------------------------------------------- one request

  /** What one request does: the verdict and the map afterwards. */
  datatype Step = Step(verdict: Verdict, entries: map<string, Entry>)

  /**
   * One request from `key` at `now` through a limiter with `options`: a key
   * without an entry, or whose window is older than `windowMs`, starts a new
   * window with count 1; inside the window a key below the maximum has its
   * count raised by one; a key at the maximum is refused with the seconds
   * left in its window, and its entry stays as it was.
   */
  function RateLimitStep(options: Options, entries: map<string, Entry>, key: string, now: int): (r: Step)
    ensures key !in entries || now - entries[key].windowStart > options.windowMs ==>
      r == Step(Allow, entries[key := Entry(1, now)])
    ensures key in entries && now - entries[key].windowStart <= options.windowMs ==>
      var data := entries[key];
      if data.count >= options.maxRequests then
        r.entries == entries && r.verdict.TooMany? && r.verdict.error == options.message
        && (r.verdict.retryAfter - 1) * 1000 < data.windowStart + options.windowMs - now <= r.verdict.retryAfter * 1000
      else
        r == Step(Allow, entries[key := Entry(data.count + 1, data.windowStart)])
  {
    if key !in entries || now - entries[key].windowStart > options.windowMs then
      Step(Allow, entries[key := Entry(1, now)])
    else
      var data := entries[key];
      if data.count >= options.maxRequests then
        Step(TooMany(options.message, CeilDiv(data.windowStart + options.windowMs - now, 1000)), entries)
      else
        Step(Allow, entries[key := Entry(data.count + 1, data.windowStart)])
  }

  /** Only the requesting key's entry can change; every other entry is untouched. */
  lemma OnlyKeyChanges(options: Options, entries: map<string, Entry>, key: string, now: int)
    ensures var r := RateLimitStep(options, entries, key, now);
      r.entries.Keys == entries.Keys + {key}
      && forall k :: k in entries && k != key ==> r.entries[k] == entries[k]
  {
  }

  /** Every entry of a single limiter's map counts between 1 and `maxRequests` requests. */
  predicate CountsBounded(entries: map<string, Entry>, maxRequests: int) {
    forall k :: k in entries ==> 1 <= entries[k].count <= maxRequests
  }

  /** A request keeps the counts bounded by the limiter's maximum. */
  lemma StepKeepsCountsBounded(options: Options, entries: map<string, Entry>, key: string, now: int)
    requires options.maxRequests >= 1 && CountsBounded(entries, options.maxRequests)
    ensures CountsBounded(RateLimitStep(options, entries, key, now).entries, options.maxRequests)
  {
  }

  /**
   * On a refusal the wait is at most the window, in whole seconds, and not
   * negative, as long as the clock has not gone back past the window start.
   */
  lemma RetryAfterBounds(options: Options, entries: map<string, Entry>, key: string, now: int)
    requires options.windowMs >= 0
    requires key in entries && entries[key].windowStart <= now
    requires RateLimitStep(options, entries, key, now).verdict.TooMany?
    ensures 0 <= RateLimitStep(options, entries, key, now).verdict.retryAfter <= CeilDiv(options.windowMs, 1000)
  {
    var data := entries[key];
    var left := data.windowStart + options.windowMs - now;
    assert 0 <= left <= options.windowMs;
    var r := CeilDiv(left, 1000);
    var w := CeilDiv(options.windowMs, 1000);
    assert (r - 1) * 1000 < left;
    assert w * 1000 >= options.windowMs;
    assert r >= 0;
    assert r <= w;
  }

  /**
   * Both limiters share one map: once the API limiter has counted a key's
   * 20th request inside the minute, the next request through the
   * authentication limiter is refused, whichever limiter counted the others.
   */
  lemma SharedMapAcrossLimiters(entries: map<string, Entry>, key: string, now: int)
    requires key in entries && entries[key] == Entry(19, now)
    ensures var api := RateLimitStep(ApiOptions, entries, key, now);
      api.verdict == Allow && RateLimitStep(AuthOptions, api.entries, key, now).verdict.TooMany?
  {
  }

  // ---------------------------------------------------------------- cleanup

  /** The entry has been opened at most `CleanupAge` ms before `now`. */
  predicate Recent(data: Entry, now: int) {
    now - data.windowStart <= CleanupAge
  }

  /** The map after the cleanup at `now`: exactly the recent entries, unchanged. */
  function Survivors(entries: map<string, Entry>, now: int): (r: map<string, Entry>)
    ensures forall k :: k in r <==> k in entries && Recent(entries[k], now)
    ensures forall k :: k in r ==> r[k] == entries[k]
  {
    map k | k in entries && Recent(entries[k], now) :: entries[k]
  }

  /** The cleanup keeps the counts bounded. */
  lemma CleanupKeepsCountsBounded(entries: map<string, Entry>, now: int, maxRequests: int)
    requires CountsBounded(entries, maxRequests)
    ensures CountsBounded(Survivors(entries, now), maxRequests)
  {
  }

  /**
   * The cleanup ignores the limiter's window: a key the authentication limiter
   * refuses because it made 20 requests just over a minute ago loses its
   * entry, and its next request opens a new window, four minutes early.
   */
  lemma CleanupCutsAuthWindowShort(entries: map<string, Entry>, key: string, t: int)
    requires key in entries && entries[key] == Entry(20, t)
    ensures RateLimitStep(AuthOptions, entries, key, t + 60001).verdict.TooMany?
    ensures RateLimitStep(AuthOptions, Survivors(entries, t + 60001), key, t + 60001).verdict == Allow
  {
  }

  // ---------------------------------------------------------------- the store

  /** The module-level `requestCounts` map. */
  class RequestCounts {
    var entries: map<string, Entry>

    constructor()
      ensures entries == map[]
    {
      entries := map[];
    }

    /** The middleware `rateLimit(options)` returns, run on one request at `now`. */
    method Handle(options: Options, client: Client, now: int) returns (verdict: Verdict)
      modifies this
      ensures Step(verdict, entries) == RateLimitStep(options, old(entries), ClientKey(client), now)
    {
      var clientIp := ClientKey(client);
      if clientIp !in entries || now - entries[clientIp].windowStart > options.windowMs {
        entries := entries[clientIp := Entry(1, now)];
        return Allow;
      }
      var data := entries[clientIp];
      if data.count >= options.maxRequests {
        var retryAfter := CeilDiv(data.windowStart + options.windowMs - now, 1000);
        return TooMany(options.message, retryAfter);
      }
      entries := entries[clientIp := Entry(data.count + 1, data.windowStart)];
      verdict := Allow;
    }

    /** The timer's callback at `now`: every entry older than `CleanupAge` is deleted. */
    method Cleanup(now: int)
      modifies this
      ensures entries == Survivors(old(entries), now)
    {
      var pending := entries.Keys;
      while pending != {}
        invariant pending <= old(entries).Keys
        invariant entries == map k | k in old(entries) && (k in pending || Recent(old(entries)[k], now)) :: old(entries)[k]
        decreases pending
      {
        var ip :| ip in pending;
        var data := entries[ip];
        if now - data.windowStart > CleanupAge {
          entries := entries - {ip};
        }
        pending := pending - {ip};
      }
    }
  }
}
