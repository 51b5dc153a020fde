/** The single-flight cache of lib/cache.ts: a map of values with expiry times, and a map
    of the promises callers may join while a factory is still running. */
module Cache {
  import opened Wrappers

  /** A cached value; `Null` is JavaScript's null, which a factory may well produce. */
  datatype Value = Null | Val(id: int)

  datatype Entry = Entry(value: Value, expiresAt: int)
  type Stored = map<string, Entry>
  type Promise = nat

  /** A factory call that has not settled: the key and ttl its caller asked with. */
  datatype Factory = Factory(key: string, ttlMs: int)

  /** Both maps, and the factory calls in flight under their promises. */
  datatype State = State(stored: Stored, pending: map<string, Promise>, flights: map<Promise, Factory>, next: Promise)

  const EMPTY := State(map[], map[], map[], 0)

  datatype Event =
    | Get(key: string, at: int)
    | Set(key: string, value: Value, ttlMs: int, at: int)
    | GetOrSet(key: string, ttlMs: int, at: int)
    | Resolve(promise: Promise, value: Value, at: int)
    | Reject(promise: Promise, at: int)
    | Delete(key: string, at: int)
    | ClearByPrefix(prefix: string, at: int)

  /** What a caller is handed: a value (null for a miss), a promise to wait on, or nothing. */
  datatype Answer = Returned(value: Value) | Waits(promise: Promise) | Done

  function Drop<T>(m: map<string, T>, key: string): map<string, T> { m - {key} }

  function DropPrefix<T>(m: map<string, T>, prefix: string): map<string, T> {
    map k | k in m && !(prefix <= k) :: m[k]
  }

  function Peek(s: Stored, key: string, now: int): Value {
    if key in s && now <= s[key].expiresAt then s[key].value else Null
  }

  /** The map after a read: an expired entry is dropped on the way. */
  function AfterPeek(s: Stored, key: string, now: int): Stored {
    if key in s && now > s[key].expiresAt then Drop(s, key) else s
  }

  /** One atomic turn. `lazy` is whether reads drop expired entries; the source's do. */
  function Step(s: State, e: Event, lazy: bool): State {
    match e
    case Get(key, at) => s.(stored := if lazy then AfterPeek(s.stored, key, at) else s.stored)
    case Set(key, value, ttlMs, at) => s.(stored := s.stored[key := Entry(value, at + ttlMs)])
    case GetOrSet(key, ttlMs, at) =>
      var s' := s.(stored := if lazy then AfterPeek(s.stored, key, at) else s.stored);
      if Peek(s.stored, key, at) != Null || key in s.pending then s'
      else s'.(pending := s.pending[key := s.next], flights := s.flights[s.next := Factory(key, ttlMs)], next := s.next + 1)
    case Resolve(p, value, at) =>
      if p !in s.flights then s else
        var f := s.flights[p];
        s.(stored := s.stored[f.key := Entry(value, at + f.ttlMs)],
           pending := Drop(s.pending, f.key),
           flights := s.flights - {p})
    case Reject(p, _) =>
      if p !in s.flights then s else s.(pending := Drop(s.pending, s.flights[p].key), flights := s.flights - {p})
    case Delete(key, _) => s.(stored := Drop(s.stored, key), pending := Drop(s.pending, key))
    case ClearByPrefix(prefix, _) => s.(stored := DropPrefix(s.stored, prefix), pending := DropPrefix(s.pending, prefix))
  }

  function AnswerTo(s: State, e: Event): Answer {
    match e
    case Get(key, at) => Returned(Peek(s.stored, key, at))
    case GetOrSet(key, _, at) =>
      var v := Peek(s.stored, key, at);
      if v != Null then Returned(v) else if key in s.pending then Waits(s.pending[key]) else Waits(s.next)
    case _ => Done
  }

  // ---------------------------------------------------------------- the module itself

  /** lib/cache.ts with its two module-level maps; the factory calls stay with the runtime,
      which calls back when one settles. */
  class CacheModule {
    var globalCache: Stored
    var pendingCache: map<string, Promise>
    var flights: map<Promise, Factory>
    var next: Promise

    function View(): State
      reads this
    {
      State(globalCache, pendingCache, flights, next)
    }

    constructor ()
      ensures View() == EMPTY
    {
      globalCache, pendingCache, flights, next := map[], map[], map[], 0;
    }

    method GetCache(key: string, now: int) returns (v: Value)
      modifies this
      ensures View() == Step(old(View()), Get(key, now), true)
      ensures Returned(v) == AnswerTo(old(View()), Get(key, now))
    {
      if key !in globalCache {
        return Null;
      }
      var entry := globalCache[key];
      if now > entry.expiresAt {
        globalCache := globalCache - {key};
        return Null;
      }
      return entry.value;
    }

    method SetCache(key: string, value: Value, ttlMs: int, now: int)
      modifies this
      ensures View() == Step(old(View()), Set(key, value, ttlMs, now), true)
    {
      globalCache := globalCache[key := Entry(value, now + ttlMs)];
    }

    method GetOrSetCache(key: string, ttlMs: int, now: int) returns (answer: Answer)
      modifies this
      ensures View() == Step(old(View()), GetOrSet(key, ttlMs, now), true)
      ensures answer == AnswerTo(old(View()), GetOrSet(key, ttlMs, now))
    {
      var cached := GetCache(key, now);
      if cached != Null {
        return Returned(cached);
      }
      if key in pendingCache {
        return Waits(pendingCache[key]);
      }
      var promise := next;
      flights, next := flights[promise := Factory(key, ttlMs)], next + 1;
      pendingCache := pendingCache[key := promise];
      return Waits(promise);
    }

    /** The `then` handler of a factory's promise. */
    method OnResolved(promise: Promise, value: Value, now: int)
      requires promise in flights
      modifies this
      ensures View() == Step(old(View()), Resolve(promise, value, now), true)
    {
      var f := flights[promise];
      flights := flights - {promise};
      SetCache(f.key, value, f.ttlMs, now);
      pendingCache := pendingCache - {f.key};
    }

    /** The `catch` handler: the values stay as they are. */
    method OnRejected(promise: Promise, now: int)
      requires promise in flights
      modifies this
      ensures View() == Step(old(View()), Reject(promise, now), true)
      ensures globalCache == old(globalCache)
    {
      var f := flights[promise];
      flights := flights - {promise};
      pendingCache := pendingCache - {f.key};
    }

    method DeleteCache(key: string, now: int)
      modifies this
      ensures View() == Step(old(View()), Delete(key, now), true)
    {
      globalCache := globalCache - {key};
      pendingCache := pendingCache - {key};
    }

    method ClearCacheByPrefix(prefix: string, now: int)
      modifies this
      ensures View() == Step(old(View()), ClearByPrefix(prefix, now), true)
    {
      var keys := globalCache.Keys;
      while keys != {}
        invariant keys <= old(globalCache).Keys
        invariant globalCache == map k | k in old(globalCache) && (k in keys || !(prefix <= k)) :: old(globalCache)[k]
        invariant pendingCache == old(pendingCache) && flights == old(flights) && next == old(next)
      {
        var key :| key in keys;
        keys := keys - {key};
        if prefix <= key {
          globalCache := globalCache - {key};
        }
      }
      keys := pendingCache.Keys;
      while keys != {}
        invariant keys <= old(pendingCache).Keys
        invariant pendingCache == map k | k in old(pendingCache) && (k in keys || !(prefix <= k)) :: old(pendingCache)[k]
        invariant globalCache == DropPrefix(old(globalCache), prefix) && flights == old(flights) && next == old(next)
      {
        var key :| key in keys;
        keys := keys - {key};
        if prefix <= key {
          pendingCache := pendingCache - {key};
        }
      }
    }
  }

  // ---------------------------------------------------------------- whole runs

  function After(es: seq<Event>, lazy: bool): State {
    if es == [] then EMPTY else Step(After(es[..|es| - 1], lazy), es[|es| - 1], lazy)
  }

  /** The event asks for this key to be forgotten. */
  predicate Forgets(e: Event, key: string) {
    (e.Delete? && e.key == key) || (e.ClearByPrefix? && e.prefix <= key)
  }

  /** The invalidations that found a promise registered under the key, and removed it. */
  function Cuts(es: seq<Event>, key: string): nat {
    if es == [] then 0 else
      var front, e := es[..|es| - 1], es[|es| - 1];
      Cuts(front, key)
      + if Cut(After(front, true), e, key) then 1 else 0
  }

  /** The factories for a key that have not settled. */
  function Running(s: State, key: string): set<Promise> {
    set p | p in s.flights && s.flights[p].key == key
  }

  function Registered(s: State, key: string): set<Promise> {
    if key in s.pending then {s.pending[key]} else {}
  }

  /** Whatever is registered is in flight, and at most one flight per cut is not registered. */
  lemma {:induction false} UnregisteredBound(es: seq<Event>, key: string)
    ensures var s := After(es, true);
            && PromisesOlder(s)
            && Registered(s, key) <= Running(s, key)
            && |Loose(s, key)| <= Cuts(es, key)
  {
    if es != [] {
      var front, e := es[..|es| - 1], es[|es| - 1];
      UnregisteredBound(front, key);
      UnregisteredStep(After(front, true), e, key);
    }
  }

  predicate Cut(s: State, e: Event, key: string) {
    key in s.pending && Forgets(e, key)
  }

  function Loose(s: State, key: string): set<Promise> { Running(s, key) - Registered(s, key) }

  ghost predicate PromisesOlder(s: State) { forall p | p in s.flights :: p < s.next }

  lemma UnregisteredStep(s: State, e: Event, key: string)
    requires PromisesOlder(s) && Registered(s, key) <= Running(s, key)
    ensures var s2 := Step(s, e, true);
            PromisesOlder(s2) && Registered(s2, key) <= Running(s2, key)
            && |Loose(s2, key)| <= |Loose(s, key)| + if Cut(s, e, key) then 1 else 0
  {
    var s2 := Step(s, e, true);
    if e.Resolve? || e.Reject? {
      if e.promise in s.flights { SettleStep(s, s2, e.promise, key); }
    } else if e.GetOrSet? {
      if s2.next != s.next { StartStep(s, s2, e.key, e.ttlMs, key); }
    } else if e.Delete? || e.ClearByPrefix? {
      InvalidateStep(s, e, key);
    }
  }

  lemma InvalidateStep(s: State, e: Event, key: string)
    requires Registered(s, key) <= Running(s, key) && (e.Delete? || e.ClearByPrefix?)
    ensures var s2 := Step(s, e, true);
            Registered(s2, key) <= Running(s2, key) && |Loose(s2, key)| <= |Loose(s, key)| + if Cut(s, e, key) then 1 else 0
  {
    if Cut(s, e, key) { CutStep(s, Step(s, e, true), key); } else { UncutStep(s, Step(s, e, true), key); }
  }

  lemma CutStep(s: State, s2: State, key: string)
    requires Registered(s, key) <= Running(s, key) && key in s.pending
    requires s2.flights == s.flights && key !in s2.pending
    ensures Registered(s2, key) <= Running(s2, key) && |Loose(s2, key)| <= |Loose(s, key)| + 1
  {
    assert Loose(s2, key) == Loose(s, key) + {s.pending[key]};
  }

  lemma UncutStep(s: State, s2: State, key: string)
    requires Registered(s, key) <= Running(s, key)
    requires s2.flights == s.flights && Registered(s2, key) == Registered(s, key)
    ensures Registered(s2, key) <= Running(s2, key) && Loose(s2, key) == Loose(s, key)
  {
    assert Running(s2, key) == Running(s, key);
  }

  /** A settled factory leaves, and with it whatever was registered for its key: if that
      was a newer promise, that one is now loose in its place. */
  lemma SettleStep(s: State, s2: State, p: Promise, key: string)
    requires p in s.flights && Registered(s, key) <= Running(s, key)
    requires s2.flights == s.flights - {p} && s2.pending == Drop(s.pending, s.flights[p].key)
    ensures Registered(s2, key) <= Running(s2, key) && |Loose(s2, key)| <= |Loose(s, key)|
  {
    if s.flights[p].key == key {
      assert Running(s2, key) == Running(s, key) - {p};
      assert Registered(s2, key) == {};
      SwapOne(Running(s, key), Registered(s, key), p);
    } else {
      assert Running(s2, key) == Running(s, key) && Registered(s2, key) == Registered(s, key);
    }
  }

  lemma SwapOne<T>(running: set<T>, registered: set<T>, p: T)
    requires registered <= running && p in running && |registered| <= 1
    ensures |running - {p}| <= |running - registered|
  {
    assert |running - {p}| == |running| - 1;
    assert |running - registered| == |running| - |registered|;
  }

  lemma StartStep(s: State, s2: State, started: string, ttlMs: int, key: string)
    requires PromisesOlder(s) && Registered(s, key) <= Running(s, key) && started !in s.pending
    requires s2.flights == s.flights[s.next := Factory(started, ttlMs)] && s2.pending == s.pending[started := s.next]
    ensures Registered(s2, key) <= Running(s2, key) && Loose(s2, key) == Loose(s, key)
  {
    if started == key {
      assert Running(s2, key) == Running(s, key) + {s.next};
      assert Registered(s2, key) == {s.next} && Registered(s, key) == {};
    } else {
      assert Running(s2, key) == Running(s, key) && Registered(s2, key) == Registered(s, key);
    }
  }

  /** A factory that settles takes whatever is pending for its key with it. Factories of the
      key keep running unregistered exactly when it was not the only one, and it evicts a
      promise other than its own exactly when one is pending. */
  lemma SettlingEvictsIff(s: State, e: Event, key: string)
    requires (e.Resolve? || e.Reject?) && e.promise in Running(s, key)
    requires Registered(s, key) <= Running(s, key)
    ensures var s2 := Step(s, e, true);
            && key !in s2.pending
            && (Loose(s2, key) != {} <==> Running(s, key) != {e.promise})
            && (key in s.pending ==> (s.pending[key] in Loose(s2, key) <==> s.pending[key] != e.promise))
  {
    var s2 := Step(s, e, true);
    assert Loose(s2, key) == Running(s2, key) == Running(s, key) - {e.promise};
    if Loose(s2, key) == {} {
      assert Running(s, key) == {e.promise};
    }
  }

  /** It happens: a call, a delete and a second call, then the first factory resolves. The
      second is still running, and nothing is pending. */
  lemma OldFactoryEvictsNewer(key: string, ttlMs: int, value: Value, at: int)
    ensures var before := [GetOrSet(key, ttlMs, at), Delete(key, at), GetOrSet(key, ttlMs, at)];
            var s, s2 := After(before, true), After(before + [Resolve(0, value, at)], true);
            && Running(s, key) == {0, 1} && key in s.pending && s.pending[key] == 1
            && Running(s2, key) == {1} && key !in s2.pending
  {
    var first, deleted, second := GetOrSet(key, ttlMs, at), Delete(key, at), GetOrSet(key, ttlMs, at);
    AfterLast([], first);
    AfterLast([first], deleted);
    AfterLast([first, deleted], second);
    AfterLast([first, deleted, second], Resolve(0, value, at));
    assert [first] + [deleted] == [first, deleted] && [first, deleted] + [second] == [first, deleted, second];
    assert [] + [first] == [first];
    var s := After([first, deleted, second], true);
    assert s.flights == map[0 := Factory(key, ttlMs), 1 := Factory(key, ttlMs)] && s.pending == map[key := 1];
    assert Running(s, key) == {0, 1};
  }

  lemma AfterLast(es: seq<Event>, e: Event)
    ensures After(es + [e], true) == Step(After(es, true), e, true)
  {
    assert (es + [e])[..|es|] == es;
  }

  /** Single flight with invalidation: over every run, at most one factory per key runs
      unsettled, plus one for each invalidation that cut a registered promise loose. */
  lemma SingleFlight(es: seq<Event>, key: string)
    ensures |Running(After(es, true), key)| <= 1 + Cuts(es, key)
  {
    UnregisteredBound(es, key);
    var s := After(es, true);
    assert Running(s, key) == Loose(s, key) + Registered(s, key);
  }

  /** Until the first cut, the pending map names exactly the factories in flight, so every
      caller that waits for the key waits for the one factory that runs. */
  lemma PendingIsExactUntilCut(es: seq<Event>, key: string)
    requires Cuts(es, key) == 0
    ensures var s := After(es, true);
            && Running(s, key) == Registered(s, key)
            && (key in s.pending <==> |Running(s, key)| == 1)
  {
    UnregisteredBound(es, key);
    var s := After(es, true);
    assert Loose(s, key) == {};
  }

  /** A caller told to wait waits for a factory of its own key that has not settled: the
      pending one if there is one, else a new one, started with the caller's own ttl. */
  lemma WaitersWaitForTheirKey(es: seq<Event>, key: string, ttlMs: int, at: int)
    ensures var e := GetOrSet(key, ttlMs, at);
            var answer := AnswerTo(After(es, true), e);
            answer.Waits? ==>
              && answer.promise in Running(After(es + [e], true), key)
              && (key !in After(es, true).pending ==>
                    answer.promise !in After(es, true).flights
                    && After(es + [e], true).flights[answer.promise] == Factory(key, ttlMs))
  {
    var e := GetOrSet(key, ttlMs, at);
    assert (es + [e])[..|es|] == es;
    UnregisteredBound(es, key);
  }

  // ---------------------------------------------------------------- what callers receive

  /** What became of a promise: it settles at most once. */
  datatype Outcome = Unsettled | Gives(value: Value) | Throws

  function OutcomeOf(es: seq<Event>, p: Promise): Outcome {
    if es == [] then Unsettled else
      var front, e := es[..|es| - 1], es[|es| - 1];
      if OutcomeOf(front, p) != Unsettled || p !in After(front, true).flights then OutcomeOf(front, p)
      else if e.Resolve? && e.promise == p then Gives(e.value)
      else if e.Reject? && e.promise == p then Throws
      else Unsettled
  }

  function AnswerAt(es: seq<Event>, i: nat): Answer
    requires i < |es|
  {
    AnswerTo(After(es[..i], true), es[i])
  }

  /** What the caller of the i-th event has by the end of the run. */
  function Received(es: seq<Event>, i: nat): Outcome
    requires i < |es|
  {
    match AnswerAt(es, i)
    case Returned(v) => Gives(v)
    case Waits(p) => OutcomeOf(es, p)
    case Done => Unsettled
  }

  lemma {:induction false} SettledIsGone(es: seq<Event>, p: Promise)
    ensures OutcomeOf(es, p) != Unsettled ==> p !in After(es, true).flights && p < After(es, true).next
  {
    if es != [] {
      var front := es[..|es| - 1];
      SettledIsGone(front, p);
      UnregisteredBound(front, "");
      GoneStep(After(front, true), es[|es| - 1], p);
    }
  }

  lemma GoneStep(s: State, e: Event, p: Promise)
    requires PromisesOlder(s)
    ensures p < s.next && p !in s.flights ==> p !in Step(s, e, true).flights && p < Step(s, e, true).next
    ensures p in s.flights && (e.Resolve? || e.Reject?) && e.promise == p ==>
              p !in Step(s, e, true).flights && p < Step(s, e, true).next
  {
  }

  /** A promise is used for one factory call only. */
  lemma {:induction false} FlightsKeepTheirKey(es: seq<Event>, n: nat, p: Promise)
    requires n <= |es| && p < After(es[..n], true).next
    ensures p < After(es, true).next
    ensures p in After(es, true).flights ==>
              p in After(es[..n], true).flights && After(es, true).flights[p] == After(es[..n], true).flights[p]
  {
    if n < |es| {
      var front := es[..|es| - 1];
      assert front[..n] == es[..n];
      FlightsKeepTheirKey(front, n, p);
    } else {
      assert es[..n] == es;
    }
  }

  lemma WaiterIsInFlight(es: seq<Event>, i: nat)
    requires i < |es| && es[i].GetOrSet? && AnswerAt(es, i).Waits?
    ensures AnswerAt(es, i).promise in Running(After(es[..i + 1], true), es[i].key)
    ensures AnswerAt(es, i).promise < After(es[..i + 1], true).next
  {
    assert es[..i + 1] == es[..i] + [es[i]];
    WaitersWaitForTheirKey(es[..i], es[i].key, es[i].ttlMs, es[i].at);
    UnregisteredBound(es[..i + 1], es[i].key);
  }

  /** A caller that waits gets what a factory called for its own key resolves to later. */
  lemma {:induction false} WaiterGetsItsFactorysValue(es: seq<Event>, i: nat)
    requires i < |es| && es[i].GetOrSet? && AnswerAt(es, i).Waits? && Received(es, i).Gives?
    ensures exists j :: i < j < |es| && ResolvesFor(es, j, AnswerAt(es, i).promise, es[i].key, Received(es, i).value)
  {
    var p, key := AnswerAt(es, i).promise, es[i].key;
    WaiterIsInFlight(es, i);
    SettledIsGone(es[..i + 1], p);
    assert es[..|es|] == es;
    if i + 1 < |es| {
      var last, front := |es| - 1, es[..|es| - 1];
      assert front[..i] == es[..i] && front[..i + 1] == es[..i + 1];
      if OutcomeOf(front, p) != Unsettled {
        WaiterGetsItsFactorysValue(front, i);
        var j :| i < j < |front| && ResolvesFor(front, j, p, key, Received(front, i).value);
        assert front[..j] == es[..j];
        assert ResolvesFor(es, j, p, key, Received(es, i).value);
      } else {
        FlightsKeepTheirKey(front, i + 1, p);
        assert ResolvesFor(es, last, p, key, Received(es, i).value);
      }
    }
  }

  /** The j-th event is the resolution, to this value, of a factory called for this key. */
  ghost predicate ResolvesFor(es: seq<Event>, j: nat, p: Promise, key: string, value: Value) {
    && j < |es| && es[j].Resolve? && es[j].promise == p && es[j].value == value
    && p in Running(After(es[..j], true), key)
  }

  /** Joining: as long as nothing was cut, a caller that has to wait while an earlier one
      waits is given the same promise, and both receive the same. */
  lemma JoinedCallersReceiveTheSame(es: seq<Event>, i: nat, k: nat)
    requires i < k < |es| && es[i].GetOrSet? && es[k].GetOrSet? && es[i].key == es[k].key
    requires AnswerAt(es, i).Waits? && AnswerAt(es, k).Waits?
    requires AnswerAt(es, i).promise in After(es[..k], true).flights
    requires Cuts(es[..k], es[k].key) == 0
    ensures AnswerAt(es, i) == AnswerAt(es, k) && Received(es, i) == Received(es, k)
  {
    var p, key := AnswerAt(es, i).promise, es[k].key;
    WaiterIsInFlight(es, i);
    assert es[..k][..i + 1] == es[..i + 1];
    FlightsKeepTheirKey(es[..k], i + 1, p);
    PendingIsExactUntilCut(es[..k], key);
    assert p in Running(After(es[..k], true), key);
  }

  // ---------------------------------------------------------------- provenance and freshness

  datatype Write = Write(key: string, value: Value, at: int, ttlMs: int)

  /** What an event puts into the cache: a `setCache`, or a factory for the key. */
  function WriteOf(s: State, e: Event): Option<Write> {
    match e
    case Set(key, value, ttlMs, at) => Some(Write(key, value, at, ttlMs))
    case Resolve(p, value, at) =>
      if p in s.flights then Some(Write(s.flights[p].key, value, at, s.flights[p].ttlMs)) else None
    case _ => None
  }

  /** The last write of the key in a run. */
  function LastWrite(es: seq<Event>, key: string): Option<Write> {
    if es == [] then None else
      var front, w := es[..|es| - 1], WriteOf(After(es[..|es| - 1], true), es[|es| - 1]);
      if w.Some? && w.value.key == key then w else LastWrite(front, key)
  }

  lemma StoredStep(s: State, e: Event, key: string)
    ensures var s2, w := Step(s, e, true), WriteOf(s, e);
            key in s2.stored ==>
              if w.Some? && w.value.key == key then s2.stored[key] == Entry(w.value.value, w.value.at + w.value.ttlMs)
              else key in s.stored && s2.stored[key] == s.stored[key]
  {
  }

  /** What is stored under a key is the last write of that key, with its expiry. */
  lemma {:induction false} StoredIsLastWrite(es: seq<Event>, key: string)
    ensures var s, w := After(es, true).stored, LastWrite(es, key);
            key in s ==> w.Some? && w.value.key == key && s[key] == Entry(w.value.value, w.value.at + w.value.ttlMs)
  {
    if es != [] {
      StoredIsLastWrite(es[..|es| - 1], key);
      StoredStep(After(es[..|es| - 1], true), es[|es| - 1], key);
    }
  }

  /** Every value served at time t is the last one written under that key and has not
      outlived its ttl at t. */
  lemma {:induction false} HitsAreFreshAndOwn(es: seq<Event>, e: Event)
    requires e.Get? || e.GetOrSet?
    requires AnswerTo(After(es, true), e).Returned? && AnswerTo(After(es, true), e).value != Null
    ensures var w := LastWrite(es, e.key);
            w.Some? && w.value.key == e.key && w.value.value == AnswerTo(After(es, true), e).value
            && e.at <= w.value.at + w.value.ttlMs
  {
    StoredIsLastWrite(es, e.key);
  }

  /** A stored null does not count: the caller waits for a factory all the same. */
  lemma StoredNullIsAMiss(s: State, key: string, ttlMs: int, at: int)
    ensures AnswerTo(s, GetOrSet(key, ttlMs, at)).Returned? <==> key in s.stored && at <= s.stored[key].expiresAt && s.stored[key].value != Null
    ensures AnswerTo(s, GetOrSet(key, ttlMs, at)) != Returned(Null)
  {
  }

  // ---------------------------------------------------------------- lazy deletion

  ghost predicate Timed(es: seq<Event>) {
    forall i, j | 0 <= i < j < |es| :: es[i].at <= es[j].at
  }

  function Answers(es: seq<Event>, lazy: bool): seq<Answer> {
    if es == [] then [] else
      Answers(es[..|es| - 1], lazy) + [AnswerTo(After(es[..|es| - 1], lazy), es[|es| - 1])]
  }

  function Alive(s: Stored, now: int): Stored { map k | k in s && now <= s[k].expiresAt :: s[k] }

  /** Same but for expired values. */
  ghost predicate Alike(a: State, b: State, now: int) {
    && a.pending == b.pending && a.flights == b.flights && a.next == b.next
    && Alive(a.stored, now) == Alive(b.stored, now)
  }

  lemma AliveMeansPeek(a: Stored, b: Stored, key: string, now: int)
    requires Alive(a, now) == Alive(b, now)
    ensures Peek(a, key, now) == Peek(b, key, now)
  {
    assert key in a && now <= a[key].expiresAt <==> key in Alive(a, now);
    assert key in b && now <= b[key].expiresAt <==> key in Alive(b, now);
    assert key in Alive(a, now) ==> a[key] == Alive(a, now)[key] == Alive(b, now)[key] == b[key];
  }

  lemma AlikeStep(a: State, b: State, e: Event)
    requires Alike(a, b, e.at)
    ensures AnswerTo(a, e) == AnswerTo(b, e)
    ensures Alike(Step(a, e, true), Step(b, e, false), e.at)
  {
    if e.Get? || e.GetOrSet? {
      AlikeRead(a, b, e);
    } else if e.Set? {
      AliveWrite(a.stored, b.stored, e.key, Entry(e.value, e.at + e.ttlMs), e.at);
    } else if e.Resolve? {
      AlikeResolve(a, b, e);
    } else if e.Delete? {
      AliveDrop(a.stored, b.stored, e.key, e.at);
    } else if e.ClearByPrefix? {
      AliveDropPrefix(a.stored, b.stored, e.prefix, e.at);
    }
  }

  lemma AlikeRead(a: State, b: State, e: Event)
    requires Alike(a, b, e.at) && (e.Get? || e.GetOrSet?)
    ensures AnswerTo(a, e) == AnswerTo(b, e)
    ensures Alike(Step(a, e, true), Step(b, e, false), e.at)
  {
    AliveMeansPeek(a.stored, b.stored, e.key, e.at);
    AlivePeek(a.stored, b.stored, e.key, e.at);
  }

  lemma AlikeResolve(a: State, b: State, e: Event)
    requires Alike(a, b, e.at) && e.Resolve?
    ensures Alike(Step(a, e, true), Step(b, e, false), e.at)
  {
    if e.promise in a.flights {
      var f := a.flights[e.promise];
      AliveWrite(a.stored, b.stored, f.key, Entry(e.value, e.at + f.ttlMs), e.at);
    }
  }

  lemma AliveDrop(a: Stored, b: Stored, key: string, now: int)
    requires Alive(a, now) == Alive(b, now)
    ensures Alive(Drop(a, key), now) == Alive(Drop(b, key), now)
  {
    assert Alive(Drop(a, key), now) == Drop(Alive(a, now), key);
    assert Alive(Drop(b, key), now) == Drop(Alive(b, now), key);
  }

  lemma AliveDropPrefix(a: Stored, b: Stored, prefix: string, now: int)
    requires Alive(a, now) == Alive(b, now)
    ensures Alive(DropPrefix(a, prefix), now) == Alive(DropPrefix(b, prefix), now)
  {
    assert Alive(DropPrefix(a, prefix), now) == DropPrefix(Alive(a, now), prefix);
    assert Alive(DropPrefix(b, prefix), now) == DropPrefix(Alive(b, now), prefix);
  }

  lemma AlivePeek(a: Stored, b: Stored, key: string, now: int)
    requires Alive(a, now) == Alive(b, now)
    ensures Alive(AfterPeek(a, key, now), now) == Alive(b, now)
  {
    assert Alive(AfterPeek(a, key, now), now) == Alive(a, now);
  }

  lemma AliveWrite(a: Stored, b: Stored, key: string, entry: Entry, now: int)
    requires Alive(a, now) == Alive(b, now)
    ensures Alive(a[key := entry], now) == Alive(b[key := entry], now)
  {
    forall s: Stored ensures Alive(s[key := entry], now) == if now <= entry.expiresAt then Alive(s, now)[key := entry] else Alive(s, now) - {key} {
    }
  }

  /** Dropping expired entries on read changes no answer of any run on a clock that does
      not run back: the cache behaves as if nothing were ever dropped. */
  lemma {:induction false} LazyDeletionIsInvisible(es: seq<Event>)
    requires Timed(es)
    ensures Answers(es, true) == Answers(es, false)
    ensures forall t | es == [] || es[|es| - 1].at <= t :: Alike(After(es, true), After(es, false), t)
  {
    if es != [] {
      var front, e := es[..|es| - 1], es[|es| - 1];
      LazyDeletionIsInvisible(front);
      var a, b := After(front, true), After(front, false);
      assert Alike(a, b, e.at);
      AlikeStep(a, b, e);
      forall t | e.at <= t ensures Alike(After(es, true), After(es, false), t) {
        AlikeLater(After(es, true), After(es, false), e.at, t);
      }
    }
  }

  lemma AlikeLater(a: State, b: State, now: int, t: int)
    requires Alike(a, b, now) && now <= t
    ensures Alike(a, b, t)
  {
    assert Alive(a.stored, t) == Alive(Alive(a.stored, now), t);
    assert Alive(b.stored, t) == Alive(Alive(b.stored, now), t);
  }

  // ---------------------------------------------------------------- what reads answer

  /** The last write of the key, if nothing asked to forget the key after it. */
  function Standing(es: seq<Event>, key: string): Option<Write> {
    if es == [] then None else
      var front, e := es[..|es| - 1], es[|es| - 1];
      var w := WriteOf(After(front, true), e);
      if w.Some? && w.value.key == key then w
      else if Forgets(e, key) then None
      else Standing(front, key)
  }

  function EntryOf(w: Write): Entry { Entry(w.value, w.at + w.ttlMs) }

  lemma KeptStep(s: State, e: Event, key: string)
    ensures var s2, w := Step(s, e, false).stored, WriteOf(s, e);
            if w.Some? && w.value.key == key then key in s2 && s2[key] == EntryOf(w.value)
            else if Forgets(e, key) then key !in s2
            else (key in s2 <==> key in s.stored) && (key in s2 ==> s2[key] == s.stored[key])
  {
  }

  /** Were nothing dropped on reads, the map would hold exactly the standing writes. */
  lemma {:induction false} StandingIsKept(es: seq<Event>, key: string)
    requires Timed(es)
    ensures var s, w := After(es, false).stored, Standing(es, key);
            (key in s <==> w.Some?) && (w.Some? ==> s[key] == EntryOf(w.value))
  {
    if es != [] {
      var front, e := es[..|es| - 1], es[|es| - 1];
      StandingIsKept(front, key);
      LazyDeletionIsInvisible(front);
      assert Alike(After(front, true), After(front, false), e.at);
      KeptStep(After(front, false), e, key);
    }
  }

  /** The cache serves what it was given: on a clock that does not run back, a read at time
      t returns a value exactly when the key's last write is that value, is within its ttl
      at t, and nothing asked to forget the key since; a null counts as nothing. */
  lemma ReadsServeStandingWrites(es: seq<Event>, e: Event, v: Value)
    requires Timed(es + [e]) && (e.Get? || e.GetOrSet?) && v != Null
    ensures AnswerTo(After(es, true), e) == Returned(v)
            <==> var w := Standing(es, e.key); w.Some? && w.value.value == v && e.at <= w.value.at + w.value.ttlMs
  {
    assert forall i | 0 <= i < |es| :: (es + [e])[i] == es[i];
    assert (es + [e])[|es|] == e;
    LazyDeletionIsInvisible(es);
    assert Alike(After(es, true), After(es, false), e.at);
    AliveMeansPeek(After(es, true).stored, After(es, false).stored, e.key, e.at);
    StandingIsKept(es, e.key);
  }

  /** Forgetting is exact: the next call for a key that was hit starts a factory, and every
      other key keeps its value and its pending promise. */
  lemma ForgettingIsExact(s: State, e: Event, key: string, ttlMs: int, at: int)
    requires e.Delete? || e.ClearByPrefix?
    ensures var s2 := Step(s, e, true);
            && s2.flights == s.flights
            && (Forgets(e, key) ==> AnswerTo(s2, GetOrSet(key, ttlMs, at)) == Waits(s2.next))
            && (!Forgets(e, key) ==> AnswerTo(s2, GetOrSet(key, ttlMs, at)) == AnswerTo(s, GetOrSet(key, ttlMs, at)))
  {
  }

  // ---------------------------------------------------------------- when a delete is final

  /** No event of the run asks for the key again: nobody sets it or calls a factory. */
  predicate Untouched(es: seq<Event>, key: string) {
    forall e | e in es :: (e.Set? || e.GetOrSet?) ==> e.key != key
  }

  function From(s: State, es: seq<Event>): State {
    if es == [] then s else Step(From(s, es[..|es| - 1]), es[|es| - 1], true)
  }

  /** `deleteCache` is final, in that the key stays away until someone asks for it again,
      if and only if no factory for the key is in flight. An old one still stores. */
  lemma DeleteIsFinalIffNoFlight(s: State, key: string, at: int)
    ensures (forall es | Untouched(es, key) :: key !in From(Step(s, Delete(key, at), true), es).stored)
            <==> Running(s, key) == {}
  {
    var gone := Step(s, Delete(key, at), true);
    if Running(s, key) == {} {
      forall es | Untouched(es, key) ensures key !in From(gone, es).stored {
        StaysAway(gone, es, key);
      }
    } else {
      var p :| p in Running(s, key);
      var late := [Resolve(p, Val(0), at)];
      assert Untouched(late, key);
      assert From(gone, late[..0]) == gone;
      assert key in From(gone, late).stored;
    }
  }

  lemma {:induction false} StaysAway(s: State, es: seq<Event>, key: string)
    requires key !in s.stored && Running(s, key) == {} && Untouched(es, key)
    ensures key !in From(s, es).stored && Running(From(s, es), key) == {}
  {
    if es != [] {
      var front, e := es[..|es| - 1], es[|es| - 1];
      StaysAway(s, front, key);
      assert e in es;
      AwayStep(From(s, front), e, key);
    }
  }

  lemma AwayStep(s: State, e: Event, key: string)
    requires key !in s.stored && Running(s, key) == {} && (e.Set? || e.GetOrSet? ==> e.key != key)
    ensures key !in Step(s, e, true).stored && Running(Step(s, e, true), key) == {}
  {
    assert forall p | p in s.flights :: p !in Running(s, key);
  }
}
