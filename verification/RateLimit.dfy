/** The fixed-window rate limiters of proxy.ts: three in-memory maps, one counter and
    one reset time per client key, and a sweep that may run between any two requests. */
module RateLimit {
  const RATE_LIMIT_WINDOW_MS: int := 60_000
  const RATE_LIMIT_MAX_REQUESTS: nat := 60
  const PAGE_RATE_LIMIT_MAX_REQUESTS: nat := 120
  const MEDIA_RATE_LIMIT_MAX_REQUESTS: nat := 600
  const SIGNED_IN_API_RATE_LIMIT_MAX_REQUESTS: nat := 240

  datatype Entry = Entry(count: nat, resetAt: int)
  type Limits = map<string, Entry>

  datatype Bucket = Api | Page | Media

  // ---------------------------------------------------------------- one map, one step

  predicate Open(m: Limits, key: string, now: int) { key in m && now <= m[key].resetAt }

  function Counted(m: Limits, key: string, now: int): Entry {
    if Open(m, key, now) then m[key].(count := m[key].count + 1) else Entry(1, now + RATE_LIMIT_WINDOW_MS)
  }

  predicate Refused(m: Limits, key: string, max: nat, now: int) {
    Open(m, key, now) && Counted(m, key, now).count > max
  }

  function Swept(m: Limits, now: int): Limits {
    map k | k in m && now <= m[k].resetAt :: m[k]
  }

  class RateLimiter {
    var rateLimitMap: Limits
    var pageRateLimitMap: Limits
    var mediaRateLimitMap: Limits

    constructor ()
      ensures rateLimitMap == pageRateLimitMap == mediaRateLimitMap == map[]
    {
      rateLimitMap, pageRateLimitMap, mediaRateLimitMap := map[], map[], map[];
    }

    function MapOf(b: Bucket): Limits
      reads this
    {
      match b case Api => rateLimitMap case Page => pageRateLimitMap case Media => mediaRateLimitMap
    }

    method SetEntry(b: Bucket, key: string, e: Entry)
      modifies this
      ensures MapOf(b) == old(MapOf(b))[key := e]
      ensures forall c | c != b :: MapOf(c) == old(MapOf(c))
    {
      match b {
        case Api => rateLimitMap := rateLimitMap[key := e];
        case Page => pageRateLimitMap := pageRateLimitMap[key := e];
        case Media => mediaRateLimitMap := mediaRateLimitMap[key := e];
      }
    }

    /** Counts one request. Only this key of this map changes. */
    method IsRateLimited(key: string, b: Bucket, max: nat, now: int) returns (limited: bool)
      modifies this
      ensures limited == Refused(old(MapOf(b)), key, max, now)
      ensures MapOf(b) == old(MapOf(b))[key := Counted(old(MapOf(b)), key, now)]
      ensures forall c | c != b :: MapOf(c) == old(MapOf(c))
    {
      var m := MapOf(b);
      if key !in m || now > m[key].resetAt {
        SetEntry(b, key, Entry(1, now + RATE_LIMIT_WINDOW_MS));
        return false;
      }
      var entry := m[key].(count := m[key].count + 1);
      SetEntry(b, key, entry);
      return entry.count > max;
    }

    method Cleanup(now: int)
      modifies this
      ensures forall b :: MapOf(b) == Swept(old(MapOf(b)), now)
    {
      rateLimitMap := SweepMap(rateLimitMap, now);
      pageRateLimitMap := SweepMap(pageRateLimitMap, now);
      mediaRateLimitMap := SweepMap(mediaRateLimitMap, now);
    }

    /** The sweep of one map, entry by entry. */
    static method SweepMap(m: Limits, now: int) returns (swept: Limits)
      ensures swept == Swept(m, now)
    {
      swept := m;
      var keys := m.Keys;
      while keys != {}
        invariant keys <= m.Keys
        invariant swept == map k | k in m && (k in keys || now <= m[k].resetAt) :: m[k]
      {
        var key :| key in keys;
        keys := keys - {key};
        if now > m[key].resetAt {
          swept := swept - {key};
        }
      }
    }
  }

  // ---------------------------------------------------------------- whole runs of one map

  /** A run: requests and sweeps, in order. */
  datatype Event = Call(key: string, max: nat, at: int) | Sweep(at: int)

  function Step(m: Limits, e: Event): Limits {
    match e
    case Call(key, _, at) => m[key := Counted(m, key, at)]
    case Sweep(at) => Swept(m, at)
  }

  function After(m: Limits, es: seq<Event>): Limits {
    if es == [] then m else Step(After(m, es[..|es| - 1]), es[|es| - 1])
  }

  /** The clock does not run backwards. */
  ghost predicate Timed(es: seq<Event>) {
    forall i, j | 0 <= i < j < |es| :: es[i].at <= es[j].at
  }

  /** The answers given to the requests of a run, in order. */
  function Answers(m: Limits, es: seq<Event>): seq<bool> {
    if es == [] then [] else
      var front, e := es[..|es| - 1], es[|es| - 1];
      Answers(m, front) + if e.Call? then [Refused(After(m, front), e.key, e.max, e.at)] else []
  }

  function CallsOnly(es: seq<Event>): seq<Event> {
    if es == [] then [] else
      var front, e := es[..|es| - 1], es[|es| - 1];
      CallsOnly(front) + if e.Call? then [e] else []
  }

  /** One step taken from two maps that agree on their live entries. */
  lemma StepKeepsAgreement(a: Limits, b: Limits, e: Event, t: int)
    requires e.at <= t
    requires Swept(a, e.at) == Swept(b, e.at) && Swept(a, t) == Swept(b, t)
    ensures e.Call? ==> Refused(a, e.key, e.max, e.at) == Refused(b, e.key, e.max, e.at)
    ensures e.Call? ==> Swept(Step(a, e), t) == Swept(Step(b, e), t)
    ensures e.Sweep? ==> Swept(Step(a, e), t) == Swept(b, t)
  {
    if e.Call? {
      assert Open(a, e.key, e.at) <==> e.key in Swept(a, e.at);
      assert Open(b, e.key, e.at) <==> e.key in Swept(b, e.at);
      assert Open(a, e.key, e.at) ==> a[e.key] == Swept(a, e.at)[e.key] == Swept(b, e.at)[e.key] == b[e.key];
      SweptUpdate(a, e.key, Counted(a, e.key, e.at), t);
      SweptUpdate(b, e.key, Counted(b, e.key, e.at), t);
    } else {
      assert Swept(Swept(a, e.at), t) == Swept(a, t);
    }
  }

  /** Sweeps cannot be observed: with them or without them, every request gets the same
      answer, whatever the map held at the start. */
  lemma {:induction false} SweepsAreInvisible(m: Limits, es: seq<Event>)
    requires Timed(es)
    ensures Answers(m, es) == Answers(m, CallsOnly(es))
    ensures forall t | es == [] || es[|es| - 1].at <= t :: Swept(After(m, es), t) == Swept(After(m, CallsOnly(es)), t)
  {
    if es != [] {
      var front, e := es[..|es| - 1], es[|es| - 1];
      SweepsAreInvisible(m, front);
      var a, b := After(m, front), After(m, CallsOnly(front));
      assert Swept(a, e.at) == Swept(b, e.at);
      StepKeepsAgreement(a, b, e, e.at);
      if e.Call? {
        assert CallsOnly(es)[..|CallsOnly(es)| - 1] == CallsOnly(front);
      } else {
        assert CallsOnly(es) == CallsOnly(front);
      }
      forall t | e.at <= t ensures Swept(After(m, es), t) == Swept(After(m, CallsOnly(es)), t) {
        assert Swept(a, t) == Swept(b, t);
        StepKeepsAgreement(a, b, e, t);
      }
    }
  }

  lemma SweptUpdate(m: Limits, key: string, e: Entry, t: int)
    ensures Swept(m[key := e], t) == if t <= e.resetAt then Swept(m, t)[key := e] else Swept(m, t) - {key}
  {
  }

  // ---------------------------------------------------------------- the admission bound

  /** The requests of `key` with a ceiling of at most `cap` admitted in [lo, hi]. */
  function Admitted(m: Limits, es: seq<Event>, key: string, cap: nat, lo: int, hi: int): nat {
    if es == [] then 0 else
      var front, e := es[..|es| - 1], es[|es| - 1];
      Admitted(m, front, key, cap, lo, hi)
      + if e.Call? && e.key == key && e.max <= cap && lo <= e.at <= hi && !Refused(After(m, front), key, e.max, e.at)
        then 1 else 0
  }

  /** What windows opened after time e and by time hi can admit. */
  function NewWindows(e: int, hi: int, cap: nat): nat
    decreases hi - e
  {
    if e >= hi then 0 else cap + NewWindows(e + RATE_LIMIT_WINDOW_MS, hi, cap)
  }

  lemma {:induction false} NewWindowsAntitone(e: int, f: int, hi: int, cap: nat)
    requires e <= f
    ensures NewWindows(f, hi, cap) <= NewWindows(e, hi, cap)
    decreases hi - e
  {
    if f < hi {
      NewWindowsAntitone(e + RATE_LIMIT_WINDOW_MS, f + RATE_LIMIT_WINDOW_MS, hi, cap);
    }
  }

  lemma {:induction false} NewWindowsExact(lo: int, n: nat, cap: nat)
    ensures NewWindows(lo, lo + n * RATE_LIMIT_WINDOW_MS, cap) == n * cap
    decreases n
  {
    if n > 0 {
      NewWindowsExact(lo + RATE_LIMIT_WINDOW_MS, n - 1, cap);
      assert lo + n * RATE_LIMIT_WINDOW_MS == lo + RATE_LIMIT_WINDOW_MS + (n - 1) * RATE_LIMIT_WINDOW_MS;
    }
  }

  /** What the limiter can still admit in [lo, hi] once the clock shows `now`. */
  function Budget(m: Limits, key: string, cap: nat, lo: int, hi: int, now: int): nat {
    if now > hi then 0
    else if Open(m, key, now) && lo <= m[key].resetAt then
      (if m[key].count < cap then cap - m[key].count else 0) + NewWindows(m[key].resetAt, hi, cap)
    else if now < lo then cap + NewWindows(lo, hi, cap)
    else NewWindows(now - 1, hi, cap)
  }

  lemma BudgetShrinksWithTime(m: Limits, key: string, cap: nat, lo: int, hi: int, now: int, later: int)
    requires lo <= hi && now <= later
    ensures Budget(m, key, cap, lo, hi, later) <= Budget(m, key, cap, lo, hi, now)
  {
    if later <= hi {
      NewWindowsAntitone(lo, lo - 1 + RATE_LIMIT_WINDOW_MS, hi, cap);
      if later >= lo { NewWindowsAntitone(lo - 1, later - 1, hi, cap); }
      NewWindowsAntitone(now - 1, later - 1, hi, cap);
      if key in m && lo <= m[key].resetAt <= later - 1 { NewWindowsAntitone(m[key].resetAt, later - 1, hi, cap); }
    }
  }

  lemma BudgetBound(m: Limits, key: string, cap: nat, lo: int, hi: int, now: int)
    requires lo <= hi
    ensures Budget(m, key, cap, lo, hi, now) <= cap + NewWindows(lo, hi, cap)
  {
    NewWindowsAntitone(lo, lo - 1 + RATE_LIMIT_WINDOW_MS, hi, cap);
    if now >= lo { NewWindowsAntitone(lo - 1, now - 1, hi, cap); }
    if key in m && lo <= m[key].resetAt { NewWindowsAntitone(lo, m[key].resetAt, hi, cap); }
  }

  lemma BudgetPaysForStep(m: Limits, e: Event, key: string, cap: nat, lo: int, hi: int)
    requires lo <= hi && cap >= 1
    ensures Budget(Step(m, e), key, cap, lo, hi, e.at)
            + (if e.Call? && e.key == key && e.max <= cap && lo <= e.at <= hi && !Refused(m, key, e.max, e.at) then 1 else 0)
            <= Budget(m, key, cap, lo, hi, e.at)
  {
    var now := e.at;
    if e.Call? && e.key == key && now <= hi && !Open(m, key, now) {
      NewWindowsAntitone(now - 1 + RATE_LIMIT_WINDOW_MS, now + RATE_LIMIT_WINDOW_MS, hi, cap);
      if lo <= now + RATE_LIMIT_WINDOW_MS { NewWindowsAntitone(lo, now + RATE_LIMIT_WINDOW_MS, hi, cap); }
    }
  }

  lemma {:induction false} SpentPlusBudget(m: Limits, es: seq<Event>, key: string, cap: nat, lo: int, hi: int)
    requires Timed(es) && es != []
    requires lo <= hi && cap >= 1
    ensures Admitted(m, es, key, cap, lo, hi) + Budget(After(m, es), key, cap, lo, hi, es[|es| - 1].at)
            <= cap + NewWindows(lo, hi, cap)
  {
    var front, e := es[..|es| - 1], es[|es| - 1];
    var before := After(m, front);
    BudgetPaysForStep(before, e, key, cap, lo, hi);
    if front == [] {
      BudgetBound(m, key, cap, lo, hi, e.at);
    } else {
      SpentPlusBudget(m, front, key, cap, lo, hi);
      BudgetShrinksWithTime(before, key, cap, lo, hi, front[|front| - 1].at, e.at);
    }
  }

  /** Over a whole run, from any map, with sweeps anywhere and ceilings mixed: a closed
      interval of n windows admits at most (n + 1) * cap of one key's requests whose
      ceiling is at most cap. */
  lemma AdmissionBound(m: Limits, es: seq<Event>, key: string, cap: nat, lo: int, n: nat)
    requires Timed(es)
    requires cap >= 1
    ensures Admitted(m, es, key, cap, lo, lo + n * 60_000) <= (n + 1) * cap
  {
    var hi := lo + n * RATE_LIMIT_WINDOW_MS;
    NewWindowsExact(lo, n, cap);
    if es != [] {
      SpentPlusBudget(m, es, key, cap, lo, hi);
    }
  }

  // ---------------------------------------------------------------- completeness

  function Requests(es: seq<Event>, key: string, lo: int, hi: int): nat {
    if es == [] then 0 else
      var front, e := es[..|es| - 1], es[|es| - 1];
      Requests(front, key, lo, hi) + if e.Call? && e.key == key && lo <= e.at <= hi then 1 else 0
  }

  /** The counter is the number of requests since its window opened. */
  lemma {:induction false} CountIsRequests(es: seq<Event>, key: string)
    requires Timed(es)
    ensures key in After(map[], es) ==>
              var entry := After(map[], es)[key];
              es != [] && entry.resetAt - RATE_LIMIT_WINDOW_MS <= es[|es| - 1].at &&
              entry.count <= Requests(es, key, entry.resetAt - RATE_LIMIT_WINDOW_MS, entry.resetAt)
  {
    if es != [] {
      CountIsRequests(es[..|es| - 1], key);
    }
  }

  /** A client that never sends more than `max` requests in any closed window length is
      never refused. */
  lemma {:induction false} SlowClientsAreNeverRefused(es: seq<Event>, key: string, max: nat)
    requires Timed(es)
    requires forall e | e in es && e.Call? && e.key == key :: e.max == max
    requires forall lo, hi | hi == lo + 60_000 :: Requests(es, key, lo, hi) <= max
    ensures forall i | 0 <= i < |es| && es[i].Call? && es[i].key == key ::
              !Refused(After(map[], es[..i]), key, max, es[i].at)
  {
    forall i | 0 <= i < |es| && es[i].Call? && es[i].key == key
      ensures !Refused(After(map[], es[..i]), key, max, es[i].at)
    {
      var upTo := es[..i + 1];
      assert upTo[..i] == es[..i] && upTo[i] == es[i] && es[i] in es;
      CountIsRequests(upTo, key);
      var entry := After(map[], upTo)[key];
      RequestsGrow(es, i + 1, key, entry.resetAt - RATE_LIMIT_WINDOW_MS, entry.resetAt);
    }
  }

  lemma {:induction false} RequestsGrow(es: seq<Event>, n: nat, key: string, lo: int, hi: int)
    requires n <= |es|
    ensures Requests(es[..n], key, lo, hi) <= Requests(es, key, lo, hi)
  {
    if n < |es| {
      assert es[..|es| - 1][..n] == es[..n];
      RequestsGrow(es[..|es| - 1], n, key, lo, hi);
    } else {
      assert es[..n] == es;
    }
  }

  // ---------------------------------------------------------------- one window, exactly

  /** Calls of one key with one ceiling, in the closed window that the first of them opens. */
  ghost predicate OneWindow(es: seq<Event>, key: string, max: nat) {
    && Timed(es)
    && (forall i | 0 <= i < |es| :: es[i] == Call(key, max, es[i].at) && es[i].at <= es[0].at + 60_000)
  }

  lemma {:induction false} WindowCounts(m: Limits, es: seq<Event>, key: string, max: nat)
    requires es != [] && OneWindow(es, key, max) && !Open(m, key, es[0].at)
    ensures key in After(m, es) && After(m, es)[key] == Entry(|es|, es[0].at + 60_000)
  {
    var front := es[..|es| - 1];
    if front != [] {
      assert forall i | 0 <= i < |front| :: front[i] == es[i];
      WindowCounts(m, front, key, max);
    } else {
      assert es == [es[0]];
    }
  }

  /** Of the calls in one window, its last millisecond included, exactly the first `max` are
      admitted; one millisecond later the count starts again. */
  lemma WindowAdmitsExactlyMax(m: Limits, es: seq<Event>, key: string, max: nat, now: int)
    requires es != [] && max >= 1 && OneWindow(es, key, max) && !Open(m, key, es[0].at)
    requires es[|es| - 1].at <= now
    ensures now <= es[0].at + 60_000 ==> (Refused(After(m, es), key, max, now) <==> |es| >= max)
    ensures now > es[0].at + 60_000 ==>
              !Refused(After(m, es), key, max, now) && Counted(After(m, es), key, now) == Entry(1, now + 60_000)
  {
    WindowCounts(m, es, key, max);
  }

  // ---------------------------------------------------------------- which ceiling applies

  const MEDIA_PROXY_PREFIXES: seq<string> := [
    "/api/public/pinnacle-image", "/api/public/ipfs-media", "/api/public/ipfs-thumb", "/api/public/arweave-thumb",
    "/api/public/team-logo", "/api/public/avatar-media", "/api/badge-image", "/api/moment-thumbnail", "/api/og"]

  predicate IsMediaProxyPath(pathname: string) {
    exists p :: p in MEDIA_PROXY_PREFIXES && (pathname == p || p + "/" <= pathname)
  }

  function ApiRateLimitFor(pathname: string, signedIn: bool): (nat, Bucket) {
    if IsMediaProxyPath(pathname) then (MEDIA_RATE_LIMIT_MAX_REQUESTS, Media)
    else (if signedIn then SIGNED_IN_API_RATE_LIMIT_MAX_REQUESTS else RATE_LIMIT_MAX_REQUESTS, Api)
  }

  /** The media proxies and everything below them are metered as media, anything else by
      whether its reader is signed in. */
  lemma CeilingIs(pathname: string, signedIn: bool)
    ensures (exists p :: p in MEDIA_PROXY_PREFIXES && (pathname == p || exists x :: pathname == p + "/" + x))
            ==> ApiRateLimitFor(pathname, signedIn) == (600, Media)
    ensures (forall p | p in MEDIA_PROXY_PREFIXES :: pathname != p && forall x :: pathname != p + "/" + x)
            ==> ApiRateLimitFor(pathname, signedIn) == (if signedIn then 240 else 60, Api)
  {
    forall p | p in MEDIA_PROXY_PREFIXES ensures p + "/" <= pathname <==> exists x :: pathname == p + "/" + x {
      if p + "/" <= pathname {
        assert pathname == p + "/" + pathname[|p| + 1..];
      }
    }
  }

  datatype ApiRequest = ApiRequest(key: string, pathname: string, signedIn: bool, at: int)

  /** The ceiling and the map of each request. */
  type Metering = ApiRequest -> (nat, Bucket)

  function ByPath(): Metering { (r: ApiRequest) => ApiRateLimitFor(r.pathname, r.signedIn) }

  /** One map's share of a stream of API requests. */
  function BucketCalls(rs: seq<ApiRequest>, metering: Metering, b: Bucket): seq<Event> {
    if rs == [] then [] else
      var r := rs[|rs| - 1];
      BucketCalls(rs[..|rs| - 1], metering, b) + if metering(r).1 == b then [Call(r.key, metering(r).0, r.at)] else []
  }

  /** Whether the request that follows these ones is one of the key's in [lo, hi] that this
      map admits. */
  predicate AdmitsNext(m: Limits, front: seq<ApiRequest>, r: ApiRequest, metering: Metering, b: Bucket, key: string, lo: int, hi: int) {
    metering(r).1 == b && r.key == key && lo <= r.at <= hi
    && !Refused(After(m, BucketCalls(front, metering, b)), key, metering(r).0, r.at)
  }

  /** The admitted requests whose ceiling is at most `cap`. */
  function BucketAdmitted(m: Limits, rs: seq<ApiRequest>, metering: Metering, b: Bucket, key: string, cap: nat, lo: int, hi: int): nat {
    if rs == [] then 0 else
      var front, r := rs[..|rs| - 1], rs[|rs| - 1];
      BucketAdmitted(m, front, metering, b, key, cap, lo, hi)
      + if AdmitsNext(m, front, r, metering, b, key, lo, hi) && metering(r).0 <= cap then 1 else 0
  }

  /** The admitted requests of anonymous readers. */
  function AnonymousAdmitted(m: Limits, rs: seq<ApiRequest>, metering: Metering, key: string, lo: int, hi: int): nat {
    if rs == [] then 0 else
      var front, r := rs[..|rs| - 1], rs[|rs| - 1];
      AnonymousAdmitted(m, front, metering, key, lo, hi)
      + if AdmitsNext(m, front, r, metering, Api, key, lo, hi) && !r.signedIn then 1 else 0
  }

  lemma {:induction false} BucketCallsTimed(rs: seq<ApiRequest>, metering: Metering, b: Bucket)
    requires forall i, j | 0 <= i < j < |rs| :: rs[i].at <= rs[j].at
    ensures Timed(BucketCalls(rs, metering, b))
    ensures forall e | e in BucketCalls(rs, metering, b) :: e.at <= rs[|rs| - 1].at
  {
    if rs != [] { BucketCallsTimed(rs[..|rs| - 1], metering, b); }
  }

  lemma AdmittedLast(m: Limits, front: seq<Event>, e: Event, key: string, cap: nat, lo: int, hi: int)
    ensures Admitted(m, front + [e], key, cap, lo, hi)
            == Admitted(m, front, key, cap, lo, hi)
               + if e.Call? && e.key == key && e.max <= cap && lo <= e.at <= hi && !Refused(After(m, front), key, e.max, e.at)
                 then 1 else 0
  {
    assert (front + [e])[..|front|] == front;
  }

  lemma BucketCallsLast(rs: seq<ApiRequest>, metering: Metering, b: Bucket)
    requires rs != []
    ensures var front, r := rs[..|rs| - 1], rs[|rs| - 1];
            BucketCalls(rs, metering, b)
            == if metering(r).1 == b then BucketCalls(front, metering, b) + [Call(r.key, metering(r).0, r.at)]
               else BucketCalls(front, metering, b)
  {
  }

  lemma BucketStep(m: Limits, front: seq<ApiRequest>, r: ApiRequest, calls: seq<Event>, more: seq<Event>,
                   metering: Metering, b: Bucket, key: string, cap: nat, lo: int, hi: int)
    requires calls == BucketCalls(front, metering, b)
    requires more == if metering(r).1 == b then calls + [Call(r.key, metering(r).0, r.at)] else calls
    ensures Admitted(m, more, key, cap, lo, hi)
            == Admitted(m, calls, key, cap, lo, hi)
               + if AdmitsNext(m, front, r, metering, b, key, lo, hi) && metering(r).0 <= cap then 1 else 0
  {
    if metering(r).1 == b {
      AdmittedLast(m, calls, Call(r.key, metering(r).0, r.at), key, cap, lo, hi);
    }
  }

  lemma {:induction false} BucketIsCap(m: Limits, rs: seq<ApiRequest>, metering: Metering, b: Bucket, key: string, cap: nat, lo: int, hi: int)
    ensures BucketAdmitted(m, rs, metering, b, key, cap, lo, hi) == Admitted(m, BucketCalls(rs, metering, b), key, cap, lo, hi)
  {
    if rs != [] {
      var front, r := rs[..|rs| - 1], rs[|rs| - 1];
      var calls, more := BucketCalls(front, metering, b), BucketCalls(rs, metering, b);
      BucketIsCap(m, front, metering, b, key, cap, lo, hi);
      BucketCallsLast(rs, metering, b);
      BucketStep(m, front, r, calls, more, metering, b, key, cap, lo, hi);
    }
  }

  lemma BucketBound(m: Limits, rs: seq<ApiRequest>, metering: Metering, b: Bucket, key: string, cap: nat, lo: int, n: nat)
    requires forall i, j | 0 <= i < j < |rs| :: rs[i].at <= rs[j].at
    requires cap >= 1
    ensures BucketAdmitted(m, rs, metering, b, key, cap, lo, lo + n * 60_000) <= (n + 1) * cap
  {
    var calls, hi := BucketCalls(rs, metering, b), lo + n * 60_000;
    var most := (n + 1) * cap;
    BucketCallsTimed(rs, metering, b);
    AdmissionBound(m, calls, key, cap, lo, n);
    assert Admitted(m, calls, key, cap, lo, hi) <= most;
    BucketIsCap(m, rs, metering, b, key, cap, lo, hi);
  }

  lemma {:induction false} AnonymousIsCap(m: Limits, rs: seq<ApiRequest>, metering: Metering, cap: nat, key: string, lo: int, hi: int)
    requires forall r :: metering(r).1 == Api ==> (metering(r).0 <= cap <==> !r.signedIn)
    ensures AnonymousAdmitted(m, rs, metering, key, lo, hi) == BucketAdmitted(m, rs, metering, Api, key, cap, lo, hi)
  {
    if rs != [] { AnonymousIsCap(m, rs[..|rs| - 1], metering, cap, key, lo, hi); }
  }

  /** The anonymous requests on the API map are those with a ceiling of 60. */
  lemma AnonymousIsCapSixty(m: Limits, rs: seq<ApiRequest>, key: string, lo: int, hi: int)
    ensures AnonymousAdmitted(m, rs, ByPath(), key, lo, hi) == Admitted(m, BucketCalls(rs, ByPath(), Api), key, 60, lo, hi)
  {
    AnonymousIsCap(m, rs, ByPath(), 60, key, lo, hi);
    BucketIsCap(m, rs, ByPath(), Api, key, 60, lo, hi);
  }

  /** On the shared API map, where one key's anonymous and signed-in requests count
      together, n windows admit at most (n + 1) * 60 anonymous ones. */
  lemma AnonymousApiBound(m: Limits, rs: seq<ApiRequest>, key: string, lo: int, n: nat)
    requires forall i, j | 0 <= i < j < |rs| :: rs[i].at <= rs[j].at
    ensures AnonymousAdmitted(m, rs, ByPath(), key, lo, lo + n * 60_000) <= (n + 1) * 60
  {
    AnonymousIsCap(m, rs, ByPath(), 60, key, lo, lo + n * 60_000);
    BucketBound(m, rs, ByPath(), Api, key, 60, lo, n);
  }

  /** What a map admits, whatever the ceilings. */
  function AllAdmitted(m: Limits, rs: seq<ApiRequest>, metering: Metering, b: Bucket, key: string, lo: int, hi: int): nat {
    if rs == [] then 0 else
      var front, r := rs[..|rs| - 1], rs[|rs| - 1];
      AllAdmitted(m, front, metering, b, key, lo, hi) + if AdmitsNext(m, front, r, metering, b, key, lo, hi) then 1 else 0
  }

  lemma {:induction false} AllIsCap(m: Limits, rs: seq<ApiRequest>, metering: Metering, b: Bucket, cap: nat, key: string, lo: int, hi: int)
    requires forall r :: metering(r).1 == b ==> metering(r).0 <= cap
    ensures AllAdmitted(m, rs, metering, b, key, lo, hi) == BucketAdmitted(m, rs, metering, b, key, cap, lo, hi)
  {
    if rs != [] { AllIsCap(m, rs[..|rs| - 1], metering, b, cap, key, lo, hi); }
  }

  lemma AllBound(m: Limits, rs: seq<ApiRequest>, metering: Metering, b: Bucket, cap: nat, key: string, lo: int, n: nat)
    requires forall i, j | 0 <= i < j < |rs| :: rs[i].at <= rs[j].at
    requires cap >= 1 && forall r :: metering(r).1 == b ==> metering(r).0 <= cap
    ensures AllAdmitted(m, rs, metering, b, key, lo, lo + n * 60_000) <= (n + 1) * cap
  {
    AllIsCap(m, rs, metering, b, cap, key, lo, lo + n * 60_000);
    BucketBound(m, rs, metering, b, key, cap, lo, n);
  }

  lemma MeteringByPath(r: ApiRequest)
    ensures ByPath()(r).1 == Api ==> ByPath()(r).0 <= 240 && (ByPath()(r).0 <= 60 <==> !r.signedIn)
    ensures ByPath()(r).1 == Media ==> ByPath()(r).0 <= 600
  {
  }

  /** All of a key's API requests together, signed in or not, keep to 240 a window and one
      window more, its media requests to 600. */
  lemma ApiBounds(m: Limits, rs: seq<ApiRequest>, key: string, lo: int, n: nat)
    requires forall i, j | 0 <= i < j < |rs| :: rs[i].at <= rs[j].at
    ensures AllAdmitted(m, rs, ByPath(), Api, key, lo, lo + n * 60_000) <= (n + 1) * 240
    ensures AllAdmitted(m, rs, ByPath(), Media, key, lo, lo + n * 60_000) <= (n + 1) * 600
  {
    forall r ensures ByPath()(r).1 == Api ==> ByPath()(r).0 <= 240 { MeteringByPath(r); }
    AllBound(m, rs, ByPath(), Api, 240, key, lo, n);
    forall r ensures ByPath()(r).1 == Media ==> ByPath()(r).0 <= 600 { MeteringByPath(r); }
    AllBound(m, rs, ByPath(), Media, 600, key, lo, n);
  }
}
