/** The NFL All Day lock refresh (lib/allday-lock.ts): a windowed walk of the chain, a
    keyset-paged read of the cached rows, a three-way diff, and three rounds of chunked
    writes, each shared out between up to four concurrent workers. */
module AllDayLock {
  import opened Wrappers
  import opened Sequences

  const ALLDAY_COLLECTION_ID := "dee28451-5d62-409e-a1ad-a83f763ac070"
  const WINDOW: nat := 20_000
  const MAX_WINDOWS: nat := 50
  const READ_PAGE: nat := 1_000
  const WRITE_CHUNK: nat := 200
  const WRITE_CONCURRENCY: nat := 4

  type Id = string

  /** The unique key of wallet_moments_cache, and the two columns the refresh touches.
      `is_locked` is nullable. */
  datatype Key = Key(wallet: string, collection: string, moment: Id)
  datatype Row = Row(isLocked: Option<bool>, checkedAt: Option<int>)
  type Table = map<Key, Row>

  datatype CachedRow = CachedRow(moment: Id, isLocked: Option<bool>)

  predicate OwnKey(k: Key, wallet: string) {
    k.wallet == wallet && k.collection == ALLDAY_COLLECTION_ID
  }

  function OwnIds(t: Table, wallet: string): set<Id> {
    set k | k in t && OwnKey(k, wallet) :: k.moment
  }

  lemma OwnIdsAreKeys(t: Table, wallet: string)
    ensures forall m :: m in OwnIds(t, wallet) <==> Key(wallet, ALLDAY_COLLECTION_ID, m) in t
  {
    forall m | Key(wallet, ALLDAY_COLLECTION_ID, m) in t ensures m in OwnIds(t, wallet) {
      assert OwnKey(Key(wallet, ALLDAY_COLLECTION_ID, m), wallet);
    }
  }

  // ---------------------------------------------------------------- the chain walk

  function IdSet(ids: seq<Id>): set<Id> { set id | id in ids }

  function Min(a: nat, b: nat): nat { if a <= b then a else b }

  /** What the IDs-only script answers for [start, start + count). */
  function WindowOf(chain: seq<Id>, start: nat, count: nat): seq<Id> {
    chain[Min(start, |chain|)..Min(start + count, |chain|)]
  }

  datatype Walk = Walked(ids: set<Id>) | DeadlineReached(windows: nat) | WalkFailed(window: nat)

  /** `clock(w)` is the time when window w would start and `reachable(w)` says whether its
      call succeeds. */
  predicate MayPass(w: nat, deadline: Option<int>, clock: nat -> int, reachable: nat -> bool) {
    (deadline.Some? ==> clock(w) <= deadline.value) && reachable(w)
  }

  /** No window that the walk has to visit is late or fails. */
  ghost predicate WalkRuns(chain: seq<Id>, deadline: Option<int>, clock: nat -> int, reachable: nat -> bool) {
    forall w: nat | w < MAX_WINDOWS && w * WINDOW <= |chain| :: MayPass(w, deadline, clock, reachable)
  }

  /** The walk gets as far as window w, which it has to visit. */
  ghost predicate Reaches(w: nat, chain: seq<Id>, deadline: Option<int>, clock: nat -> int, reachable: nat -> bool) {
    w < MAX_WINDOWS && w * WINDOW <= |chain| && forall v: nat | v < w :: MayPass(v, deadline, clock, reachable)
  }

  /** Walks window by window. */
  method FetchAllUnlockedIds(chain: seq<Id>, deadline: Option<int>, clock: nat -> int, reachable: nat -> bool)
    returns (r: Walk)
    ensures r.Walked? ==> r.ids == IdSet(chain[..Min(|chain|, MAX_WINDOWS * WINDOW)])
    ensures r.Walked? && |chain| <= MAX_WINDOWS * WINDOW ==> forall id :: id in r.ids <==> id in chain
    ensures r.Walked? <==> WalkRuns(chain, deadline, clock, reachable)
    ensures r.DeadlineReached? ==>
              Reaches(r.windows, chain, deadline, clock, reachable) && deadline.Some? && clock(r.windows) > deadline.value
    ensures r.WalkFailed? ==>
              Reaches(r.window, chain, deadline, clock, reachable) && !reachable(r.window)
              && (deadline.Some? ==> clock(r.window) <= deadline.value)
  {
    var unlocked: set<Id> := {};
    var w := 0;
    while w < MAX_WINDOWS
      invariant 0 <= w <= MAX_WINDOWS
      invariant w * WINDOW <= |chain|
      invariant forall v: nat | v < w :: MayPass(v, deadline, clock, reachable)
      invariant unlocked == IdSet(chain[..w * WINDOW])
    {
      if deadline.Some? && clock(w) > deadline.value {
        assert !MayPass(w, deadline, clock, reachable);
        return DeadlineReached(w);
      }
      if !reachable(w) {
        assert !MayPass(w, deadline, clock, reachable);
        return WalkFailed(w);
      }
      var ids := WindowOf(chain, w * WINDOW, WINDOW);
      assert chain[..w * WINDOW] + ids == chain[..Min((w + 1) * WINDOW, |chain|)];
      unlocked := unlocked + IdSet(ids);
      if |ids| < WINDOW {
        assert chain[..Min((w + 1) * WINDOW, |chain|)] == chain;
        assert chain[..Min(|chain|, MAX_WINDOWS * WINDOW)] == chain;
        return Walked(unlocked);
      }
      w := w + 1;
    }
    return Walked(unlocked);
  }

  /** The exact reach of the walk. On-chain ids are distinct, so a walk that ends holds
      the whole collection if and only if the collection fits in the window cap; past
      the cap the loop stops without an error and the rest of the ids are missing. */
  lemma WalkIsCompleteIffWithinCap(chain: seq<Id>)
    requires Distinct(chain)
    ensures IdSet(chain[..Min(|chain|, MAX_WINDOWS * WINDOW)]) == IdSet(chain)
            <==> |chain| <= 1_000_000
  {
    var n := MAX_WINDOWS * WINDOW;
    if |chain| <= n {
      assert chain[..Min(|chain|, n)] == chain;
    } else {
      assert chain[n] in IdSet(chain);
      assert chain[n] !in chain[..n];
    }
  }

  // ---------------------------------------------------------------- the paged read

  /** `rank` is the database's order on moment ids; `rows` lists the wallet's All Day
      rows in that order, each once. */
  ghost predicate Ascending(rows: seq<CachedRow>, rank: Id -> int) {
    forall i, j | 0 <= i < j < |rows| :: rank(rows[i].moment) < rank(rows[j].moment)
  }

  ghost predicate IsListing(t: Table, wallet: string, rows: seq<CachedRow>, rank: Id -> int) {
    && Ascending(rows, rank)
    && (forall i | 0 <= i < |rows| ::
          var k := Key(wallet, ALLDAY_COLLECTION_ID, rows[i].moment);
          k in t && t[k].isLocked == rows[i].isLocked)
    && (forall m :: m in OwnIds(t, wallet) ==> exists i :: 0 <= i < |rows| && rows[i].moment == m)
  }

  /** The rows past the cursor. */
  ghost function After(rows: seq<CachedRow>, rank: Id -> int, after: Option<Id>): seq<CachedRow> {
    if rows == [] then []
    else if after.None? || rank(rows[0].moment) > rank(after.value) then [rows[0]] + After(rows[1..], rank, after)
    else After(rows[1..], rank, after)
  }

  /** An honest answer to one page query: an error, or some leading rows past the cursor.
      The page may be shorter than the limit, but is empty only when nothing is left. */
  ghost predicate HonestPage(rows: seq<CachedRow>, rank: Id -> int, after: Option<Id>, answer: Result<seq<CachedRow>>) {
    answer.Ok? ==>
      var rest := After(rows, rank, after);
      && answer.value <= rest
      && |answer.value| <= READ_PAGE
      && (answer.value == [] ==> rest == [])
  }

  lemma {:induction false} AfterNothing(rows: seq<CachedRow>, rank: Id -> int)
    ensures After(rows, rank, None) == rows
  {
    if rows != [] { AfterNothing(rows[1..], rank); }
  }

  /** Past the cursor left by the first n rows lie exactly the other rows. */
  lemma {:induction false} AfterPrefix(rows: seq<CachedRow>, rank: Id -> int, n: nat)
    requires Ascending(rows, rank)
    requires 0 < n <= |rows|
    ensures After(rows, rank, Some(rows[n - 1].moment)) == rows[n..]
  {
    if n > 1 {
      AfterPrefix(rows[1..], rank, n - 1);
      assert rows[1..][n - 1..] == rows[n..];
    } else {
      AfterAll(rows[1..], rank, rows[0].moment);
    }
  }

  lemma {:induction false} AfterAll(rows: seq<CachedRow>, rank: Id -> int, cursor: Id)
    requires forall i | 0 <= i < |rows| :: rank(rows[i].moment) > rank(cursor)
    ensures After(rows, rank, Some(cursor)) == rows
  {
    if rows != [] { AfterAll(rows[1..], rank, cursor); }
  }

  /** The cursors of a run of page queries: the first asks from the start, each other one
      past the last row of the page before it. */
  ghost predicate Asked(serve: Option<Id> -> Result<seq<CachedRow>>, cursors: seq<Option<Id>>) {
    && cursors != [] && cursors[0] == None
    && forall i | 0 <= i < |cursors| - 1 :: NextCursor(serve, cursors[i]) == Some(cursors[i + 1])
  }

  /** Where the read goes on after asking from `c`, if it goes on. */
  ghost function NextCursor(serve: Option<Id> -> Result<seq<CachedRow>>, c: Option<Id>): Option<Option<Id>> {
    match serve(c)
    case Err(_) => None
    case Ok(page) => if page == [] then None else Some(Some(page[|page| - 1].moment))
  }

  /** Every page the read asks for is served, to the empty one at the end. */
  ghost predicate ReadCompletes(serve: Option<Id> -> Result<seq<CachedRow>>) {
    exists cursors :: Asked(serve, cursors) && serve(cursors[|cursors| - 1]) == Ok([])
  }

  lemma {:induction false} AskedAlike(serve: Option<Id> -> Result<seq<CachedRow>>, a: seq<Option<Id>>, b: seq<Option<Id>>, i: nat)
    requires Asked(serve, a) && Asked(serve, b) && i < |a| && i < |b|
    ensures a[i] == b[i]
  {
    if i > 0 {
      AskedAlike(serve, a, b, i - 1);
      assert NextCursor(serve, a[i - 1]) == Some(a[i - 1 + 1]) && NextCursor(serve, b[i - 1]) == Some(b[i - 1 + 1]);
    }
  }

  lemma ShorterGoesOn(serve: Option<Id> -> Result<seq<CachedRow>>, a: seq<Option<Id>>, b: seq<Option<Id>>)
    requires Asked(serve, a) && Asked(serve, b) && |a| < |b|
    ensures NextCursor(serve, a[|a| - 1]).Some?
  {
    var i := |a| - 1;
    AskedAlike(serve, a, b, i);
    assert NextCursor(serve, b[i]) == Some(b[i + 1]);
  }

  /** A read that meets an error does not complete. */
  lemma ErrorEndsRead(serve: Option<Id> -> Result<seq<CachedRow>>, cursors: seq<Option<Id>>)
    requires Asked(serve, cursors) && serve(cursors[|cursors| - 1]).Err?
    ensures !ReadCompletes(serve)
  {
    forall other | Asked(serve, other) ensures serve(other[|other| - 1]) != Ok([]) {
      if |cursors| < |other| {
        ShorterGoesOn(serve, cursors, other);
      } else if |other| < |cursors| {
        ShorterGoesOn(serve, other, cursors);
      } else {
        AskedAlike(serve, cursors, other, |other| - 1);
      }
    }
  }

  lemma AskedMore(serve: Option<Id> -> Result<seq<CachedRow>>, cursors: seq<Option<Id>>, c: Option<Id>)
    requires Asked(serve, cursors) && NextCursor(serve, cursors[|cursors| - 1]) == Some(c)
    ensures Asked(serve, cursors + [c])
  {
  }

  lemma PageRead(rows: seq<CachedRow>, rank: Id -> int, out: seq<CachedRow>, after: Option<Id>, page: seq<CachedRow>)
    requires Ascending(rows, rank) && out <= rows && After(rows, rank, after) == rows[|out|..]
    requires HonestPage(rows, rank, after, Ok(page)) && page != []
    ensures out + page <= rows
    ensures After(rows, rank, Some(page[|page| - 1].moment)) == rows[|out + page|..]
  {
    var all := out + page;
    assert all[|all| - 1] == page[|page| - 1];
    AfterPrefix(rows, rank, |all|);
  }

  /** Pages on the unique key until a page comes back empty. However short the pages
      are, an answer is the whole listing: every row once, in key order; there is one
      unless a page on the way fails. */
  method ReadCachedRows(serve: Option<Id> -> Result<seq<CachedRow>>, ghost rows: seq<CachedRow>, ghost rank: Id -> int)
    returns (r: Result<seq<CachedRow>>)
    requires Ascending(rows, rank)
    requires forall c :: HonestPage(rows, rank, c, serve(c))
    ensures r.Ok? ==> r.value == rows
    ensures r.Ok? <==> ReadCompletes(serve)
  {
    var out: seq<CachedRow> := [];
    var after: Option<Id> := None;
    ghost var cursors: seq<Option<Id>> := [None];
    AfterNothing(rows, rank);
    while true
      invariant out <= rows
      invariant After(rows, rank, after) == rows[|out|..]
      invariant Asked(serve, cursors) && cursors[|cursors| - 1] == after
      decreases |rows| - |out|
    {
      var answer := serve(after);
      assert HonestPage(rows, rank, after, answer);
      match answer {
        case Err(message) =>
          ErrorEndsRead(serve, cursors);
          return Err("wallet_moments_cache read: " + message);
        case Ok(page) =>
          if |page| == 0 {
            break;
          }
          PageRead(rows, rank, out, after, page);
          out := out + page;
          after := Some(page[|page| - 1].moment);
          AskedMore(serve, cursors, after);
          cursors := cursors + [after];
      }
    }
    return Ok(out);
  }

  // ---------------------------------------------------------------- the table and one update

  datatype Payload = Payload(isLocked: Option<bool>, checkedAt: int)

  function Patch(row: Row, p: Payload): Row {
    Row(if p.isLocked.Some? then p.isLocked else row.isLocked, Some(p.checkedAt))
  }

  /** The table after `update(payload)` filtered on wallet, collection and moment id. */
  function Updated(t: Table, wallet: string, ids: set<Id>, p: Payload): Table {
    map k | k in t :: if OwnKey(k, wallet) && k.moment in ids then Patch(t[k], p) else t[k]
  }

  class MomentsCache {
    var table: Table

    constructor (t: Table)
      ensures table == t
    {
      table := t;
    }

    method Update(wallet: string, chunk: seq<Id>, p: Payload)
      modifies this
      ensures table == Updated(old(table), wallet, IdSet(chunk), p)
    {
      table := Updated(table, wallet, IdSet(chunk), p);
    }
  }

  class WriteTally {
    var written: nat
    var errors: nat
    var firstError: Option<string>

    constructor ()
      ensures written == 0 && errors == 0 && firstError == None
    {
      written, errors, firstError := 0, 0, None;
    }
  }

  // ---------------------------------------------------------------- chunks

  function ChunksOf(ids: seq<Id>): seq<seq<Id>> {
    if ids == [] then []
    else var n := Min(WRITE_CHUNK, |ids|); [ids[..n]] + ChunksOf(ids[n..])
  }

  function Flatten(chunks: seq<seq<Id>>): seq<Id> {
    if chunks == [] then [] else chunks[0] + Flatten(chunks[1..])
  }

  /** Slicing loses, repeats and reorders nothing, and no chunk is empty or too long. */
  lemma {:induction false} ChunksConcatenateBack(ids: seq<Id>)
    ensures Flatten(ChunksOf(ids)) == ids
    ensures forall i | 0 <= i < |ChunksOf(ids)| :: 0 < |ChunksOf(ids)[i]| <= WRITE_CHUNK
  {
    if ids != [] { ChunksConcatenateBack(ids[Min(WRITE_CHUNK, |ids|)..]); }
  }

  lemma NextChunk(ids: seq<Id>, i: nat, end: nat, chunks: seq<seq<Id>>)
    requires i < |ids| && end == Min(i + WRITE_CHUNK, |ids|)
    ensures chunks + ChunksOf(ids[i..]) == chunks + [ids[i..end]] + ChunksOf(ids[end..])
  {
    var rest := ids[i..];
    assert rest[..end - i] == ids[i..end] && rest[end - i..] == ids[end..];
  }

  method SliceIntoChunks(ids: seq<Id>) returns (chunks: seq<seq<Id>>)
    ensures chunks == ChunksOf(ids)
  {
    chunks := [];
    var i := 0;
    while i < |ids|
      invariant 0 <= i
      invariant chunks + ChunksOf(ids[Min(i, |ids|)..]) == ChunksOf(ids)
    {
      var end := Min(i + WRITE_CHUNK, |ids|);
      NextChunk(ids, i, end, chunks);
      chunks := chunks + [ids[i..end]];
      i := i + WRITE_CHUNK;
    }
  }

  /** The ids of the chunks whose index is in `picked`, and how many rows they hold. */
  function IdsIn(chunks: seq<seq<Id>>, picked: set<nat>): set<Id> {
    set i, id | i in picked && i < |chunks| && id in chunks[i] :: id
  }

  function RowsIn(chunks: seq<seq<Id>>, picked: set<nat>, n: nat): nat
    requires n <= |chunks|
  {
    if n == 0 then 0 else RowsIn(chunks, picked, n - 1) + (if n - 1 in picked then |chunks[n - 1]| else 0)
  }

  lemma {:induction false} RowsInAdd(chunks: seq<seq<Id>>, picked: set<nat>, i: nat, n: nat)
    requires n <= |chunks| && i < |chunks| && i !in picked
    ensures RowsIn(chunks, picked + {i}, n) == RowsIn(chunks, picked, n) + (if i < n then |chunks[i]| else 0)
  {
    if n > 0 { RowsInAdd(chunks, picked, i, n - 1); }
  }

  lemma RowsInNone(chunks: seq<seq<Id>>, n: nat)
    requires n <= |chunks|
    ensures RowsIn(chunks, {}, n) == 0
  {
  }

  // ---------------------------------------------------------------- the worker pool

  /** A worker is between chunks, or awaits the reply to the update of one chunk; the
      database may or may not have applied that update yet. */
  datatype Worker = Idle | Writing(chunk: nat, applied: bool)

  predicate Below(s: set<nat>, n: nat) { forall c | c in s :: c < n }

  /** What became of the chunks: applied by the database, acknowledged to the worker,
      reported to it as failed. A failed chunk may have been applied all the same, when
      the reply was lost. */
  datatype Report = Report(applied: set<nat>, acked: set<nat>, failed: set<nat>) {
    ghost predicate Covers(n: nat) {
      && (forall c: nat :: c in acked || c in failed <==> c < n)
      && acked !! failed
      && acked <= applied
      && Below(applied, n)
    }
  }

  /** The pool's invariant: the chunks issued so far are 0 .. next - 1, and each of them
      is acknowledged, failed, or still with the one worker it was issued to. */
  ghost predicate PoolInv(workers: seq<Worker>, issuedTo: seq<nat>, next: nat, n: nat, r: Report) {
    && |issuedTo| == next <= n
    && r.acked !! r.failed
    && r.acked <= r.applied
    && Below(r.applied, next) && Below(r.failed, next)
    && (forall w | 0 <= w < |workers| && workers[w].Writing? ::
          var c := workers[w].chunk;
          && c < next && issuedTo[c] == w
          && c !in r.acked && c !in r.failed && (workers[w].applied <==> c in r.applied))
    && (forall c | 0 <= c < next && c !in r.acked && c !in r.failed ::
          issuedTo[c] < |workers| && workers[issuedTo[c]].Writing? && workers[issuedTo[c]].chunk == c)
  }

  predicate CanStep(worker: Worker, next: nat, n: nat) {
    worker.Writing? || next < n
  }

  lemma BelowSize(s: set<nat>, n: nat)
    requires Below(s, n)
    ensures |s| <= n
  {
    if n > 0 {
      BelowSize(s - {n - 1}, n - 1);
    } else {
      assert s == {};
    }
  }

  lemma TakeKeepsInv(workers: seq<Worker>, issuedTo: seq<nat>, next: nat, n: nat, r: Report, w: nat)
    requires PoolInv(workers, issuedTo, next, n, r)
    requires w < |workers| && workers[w].Idle? && next < n
    ensures PoolInv(workers[w := Writing(next, false)], issuedTo + [w], next + 1, n, r)
  {
  }

  lemma ApplyKeepsInv(workers: seq<Worker>, issuedTo: seq<nat>, next: nat, n: nat, r: Report, w: nat)
    requires PoolInv(workers, issuedTo, next, n, r)
    requires w < |workers| && workers[w].Writing? && !workers[w].applied
    ensures var c := workers[w].chunk;
            PoolInv(workers[w := Writing(c, true)], issuedTo, next, n, r.(applied := r.applied + {c}))
  {
  }

  lemma ReplyKeepsInv(workers: seq<Worker>, issuedTo: seq<nat>, next: nat, n: nat, r: Report, w: nat, ok: bool)
    requires PoolInv(workers, issuedTo, next, n, r)
    requires w < |workers| && workers[w].Writing? && (ok ==> workers[w].applied)
    ensures var c := workers[w].chunk;
            PoolInv(workers[w := Idle], issuedTo, next, n,
                    if ok then r.(acked := r.acked + {c}) else r.(failed := r.failed + {c}))
  {
  }

  /** One call of writeChunks: the chunk list, the shared counter and the workers. */
  class WritePool {
    const wallet: string
    const store: MomentsCache
    const tally: WriteTally
    const payload: Payload
    const chunks: seq<seq<Id>>
    var next: nat
    var workers: seq<Worker>
    ghost var issuedTo: seq<nat>
    var report: Report
    ghost const table0: Table
    ghost const written0: nat
    ghost const errors0: nat
    ghost const firstError0: Option<string>

    ghost predicate Valid()
      reads this, store, tally
    {
      && |workers| == Min(WRITE_CONCURRENCY, |chunks|)
      && PoolInv(workers, issuedTo, next, |chunks|, report)
      && store.table == Updated(table0, wallet, IdsIn(chunks, report.applied), payload)
      && tally.written == written0 + RowsIn(chunks, report.acked, |chunks|)
      && tally.errors == errors0 + |report.failed|
      && (tally.firstError == None <==> firstError0 == None && report.failed == {})
      && (firstError0.Some? ==> tally.firstError == firstError0)
    }

    constructor (wallet: string, store: MomentsCache, chunks: seq<seq<Id>>, payload: Payload, tally: WriteTally)
      ensures Valid()
      ensures this.wallet == wallet && this.store == store && this.tally == tally
      ensures this.chunks == chunks && this.payload == payload
      ensures table0 == store.table && written0 == tally.written && errors0 == tally.errors && firstError0 == tally.firstError
    {
      this.wallet, this.store, this.tally, this.payload, this.chunks := wallet, store, tally, payload, chunks;
      next, workers := 0, seq(Min(WRITE_CONCURRENCY, |chunks|), _ => Idle);
      issuedTo, report := [], Report({}, {}, {});
      table0, written0, errors0, firstError0 := store.table, tally.written, tally.errors, tally.firstError;
      new;
      RowsInNone(chunks, |chunks|);
      assert IdsIn(chunks, {}) == {};
    }

    /** The steps still to come, at most: a take, an update and a reply for each chunk. */
    ghost function StepsLeft(): int
      reads this
    {
      3 * |chunks| - next - |report.applied| - |report.acked + report.failed|
    }

    lemma StepsLeftNat()
      requires Valid()
      ensures StepsLeft() >= 0
    {
      BelowSize(report.applied, |chunks|);
      BelowSize(report.acked + report.failed, |chunks|);
    }

    /** `const chunk = chunks[next++]`, in one turn of the event loop. */
    method Take(w: nat)
      requires Valid() && w < |workers| && workers[w].Idle? && next < |chunks|
      modifies this
      ensures Valid() && StepsLeft() < old(StepsLeft())
    {
      TakeKeepsInv(workers, issuedTo, next, |chunks|, report, w);
      workers, issuedTo := workers[w := Writing(next, false)], issuedTo + [w];
      next := next + 1;
    }

    /** The database applies the update of the chunk worker w waits for. */
    method Apply(w: nat)
      requires Valid() && w < |workers| && workers[w].Writing? && !workers[w].applied
      modifies this, store
      ensures Valid() && StepsLeft() < old(StepsLeft())
    {
      var c := workers[w].chunk;
      ApplyKeepsInv(workers, issuedTo, next, |chunks|, report, w);
      AppliedAdd(table0, wallet, chunks, report.applied, c, payload);
      store.Update(wallet, chunks[c], payload);
      report := report.(applied := report.applied + {c});
      workers := workers[w := Writing(c, true)];
    }

    /** Worker w reads a reply without an error. */
    method Succeed(w: nat)
      requires Valid() && w < |workers| && workers[w].Writing? && workers[w].applied
      modifies this, tally
      ensures Valid() && StepsLeft() < old(StepsLeft())
    {
      var c := workers[w].chunk;
      ReplyKeepsInv(workers, issuedTo, next, |chunks|, report, w, true);
      RowsInAdd(chunks, report.acked, c, |chunks|);
      assert report.acked + {c} + report.failed == report.acked + report.failed + {c};
      tally.written := tally.written + |chunks[c]|;
      report := report.(acked := report.acked + {c});
      workers := workers[w := Idle];
    }

    /** Worker w reads an error. */
    method Fail(w: nat, message: string)
      requires Valid() && w < |workers| && workers[w].Writing?
      modifies this, tally
      ensures Valid() && StepsLeft() < old(StepsLeft())
      ensures tally.firstError == if old(tally.firstError).Some? then old(tally.firstError) else Some(message)
    {
      var c := workers[w].chunk;
      ReplyKeepsInv(workers, issuedTo, next, |chunks|, report, w, false);
      assert report.acked + (report.failed + {c}) == report.acked + report.failed + {c};
      tally.errors := tally.errors + 1;
      if tally.firstError == None {
        tally.firstError := Some(message);
      }
      report := report.(failed := report.failed + {c});
      workers := workers[w := Idle];
    }

    /** A failed chunk may reach the table after its error was read. */
    predicate LateIsPossible()
      reads this
    {
      exists c :: c in report.failed && c !in report.applied
    }

    method ApplyLate(c: nat)
      requires Valid() && c in report.failed && c !in report.applied
      modifies this, store
      ensures Valid() && StepsLeft() < old(StepsLeft())
    {
      AppliedAdd(table0, wallet, chunks, report.applied, c, payload);
      store.Update(wallet, chunks[c], payload);
      report := report.(applied := report.applied + {c});
    }
  }

  /** Applies one payload to `ids`, chunk by chunk. Each iteration of the loop is one
      atomic step, of an arbitrary worker or of an update that arrives late, so that every
      interleaving and every pattern of failures is a run of this loop. */
  method WriteChunks(wallet: string, store: MomentsCache, ids: seq<Id>, p: Payload, tally: WriteTally)
    returns (ghost report: Report)
    modifies store, tally
    ensures report.Covers(|ChunksOf(ids)|)
    ensures store.table == Updated(old(store.table), wallet, IdsIn(ChunksOf(ids), report.applied), p)
    ensures tally.written == old(tally.written) + RowsIn(ChunksOf(ids), report.acked, |ChunksOf(ids)|)
    ensures tally.errors == old(tally.errors) + |report.failed|
    ensures tally.firstError == None <==> old(tally.firstError) == None && report.failed == {}
    ensures old(tally.firstError).Some? ==> tally.firstError == old(tally.firstError)
  {
    var chunks := SliceIntoChunks(ids);
    var pool := new WritePool(wallet, store, chunks, p, tally);
    var late: bool := *;
    while (exists w :: 0 <= w < |pool.workers| && CanStep(pool.workers[w], pool.next, |chunks|)) || (late && pool.LateIsPossible())
      invariant pool.Valid()
      decreases pool.StepsLeft()
    {
      pool.StepsLeftNat();
      if late && pool.LateIsPossible() {
        var c :| c in pool.report.failed && c !in pool.report.applied;
        pool.ApplyLate(c);
        late := *;
        continue;
      }
      late := *;
      var w :| 0 <= w < |pool.workers| && CanStep(pool.workers[w], pool.next, |chunks|);
      var fails: bool := *;
      if pool.workers[w].Idle? {
        pool.Take(w);
      } else if fails {
        var message: string := *;
        pool.Fail(w, message);
      } else if pool.workers[w].applied {
        pool.Succeed(w);
      } else {
        pool.Apply(w);
      }
    }
    AllIssued(pool.workers, pool.issuedTo, pool.next, |chunks|, pool.report);
    report := pool.report;
  }

  lemma AllIssued(workers: seq<Worker>, issuedTo: seq<nat>, next: nat, n: nat, r: Report)
    requires PoolInv(workers, issuedTo, next, n, r)
    requires |workers| == Min(WRITE_CONCURRENCY, n)
    requires forall w | 0 <= w < |workers| :: !CanStep(workers[w], next, n)
    ensures r.Covers(n)
  {
    assert n > 0 ==> !CanStep(workers[0], next, n);
  }

  lemma AppliedAdd(t: Table, wallet: string, chunks: seq<seq<Id>>, applied: set<nat>, c: nat, p: Payload)
    requires c < |chunks|
    ensures Updated(Updated(t, wallet, IdsIn(chunks, applied), p), wallet, IdSet(chunks[c]), p)
            == Updated(t, wallet, IdsIn(chunks, applied + {c}), p)
  {
    assert IdsIn(chunks, applied + {c}) == IdsIn(chunks, applied) + IdSet(chunks[c]);
  }

  /** Chunks of distinct ids share no id, so counting rows and counting ids agree. */
  ghost predicate Apart(chunks: seq<seq<Id>>) {
    && (forall i | 0 <= i < |chunks| :: Distinct(chunks[i]))
    && (forall i, j | 0 <= i < j < |chunks| :: IdSet(chunks[i]) !! IdSet(chunks[j]))
  }

  lemma {:induction false} ChunksApart(ids: seq<Id>)
    requires Distinct(ids)
    ensures Apart(ChunksOf(ids))
    ensures forall i | 0 <= i < |ChunksOf(ids)| :: IdSet(ChunksOf(ids)[i]) <= IdSet(ids)
    ensures IdsIn(ChunksOf(ids), AllOf(|ChunksOf(ids)|)) == IdSet(ids)
  {
    var chunks := ChunksOf(ids);
    if ids != [] {
      var n := Min(WRITE_CHUNK, |ids|);
      ChunksApart(ids[n..]);
      assert chunks[1..] == ChunksOf(ids[n..]);
      assert IdSet(chunks[0]) !! IdSet(ids[n..]);
      assert ids == chunks[0] + ids[n..];
      forall id | id in ids ensures id in IdsIn(chunks, AllOf(|chunks|)) {
        if id in chunks[0] {
          assert 0 in AllOf(|chunks|);
        } else {
          assert id in IdsIn(chunks[1..], AllOf(|chunks| - 1));
          var i :| i in AllOf(|chunks| - 1) && id in chunks[1..][i];
          assert i + 1 in AllOf(|chunks|) && id in chunks[i + 1];
        }
      }
      forall id | id in IdsIn(chunks, AllOf(|chunks|)) ensures id in ids {
        var i :| i in AllOf(|chunks|) && i < |chunks| && id in chunks[i];
        assert id in IdSet(chunks[i]);
        assert i > 0 ==> IdSet(chunks[1..][i - 1]) <= IdSet(ids[n..]);
      }
    }
  }

  function AllOf(n: nat): (s: set<nat>)
    ensures forall i: nat :: i in s <==> i < n
  {
    if n == 0 then {} else AllOf(n - 1) + {n - 1}
  }

  lemma {:induction false} DistinctSize(ids: seq<Id>)
    requires Distinct(ids)
    ensures |IdSet(ids)| == |ids|
  {
    if ids != [] {
      DistinctSize(ids[1..]);
      assert IdSet(ids) == IdSet(ids[1..]) + {ids[0]};
    }
  }

  lemma OneMoreChunk(chunks: seq<seq<Id>>, picked: set<nat>, n: nat)
    requires Apart(chunks) && n < |chunks|
    ensures var last := if n in picked then IdSet(chunks[n]) else {};
            && IdsIn(chunks[..n + 1], picked) == IdsIn(chunks[..n], picked) + last
            && IdsIn(chunks[..n], picked) !! last
  {
    assert forall i | 0 <= i < n :: IdSet(chunks[i]) !! IdSet(chunks[n]);
    assert forall i | 0 <= i < n :: chunks[..n][i] == chunks[i] == chunks[..n + 1][i];
    assert chunks[..n + 1][n] == chunks[n];
    forall id | id in IdsIn(chunks[..n], picked) ensures id !in IdSet(chunks[n]) {
      var i :| i in picked && i < n && id in chunks[..n][i];
      assert id in IdSet(chunks[i]);
    }
  }

  lemma {:induction false} RowsAreIds(chunks: seq<seq<Id>>, picked: set<nat>, n: nat)
    requires Apart(chunks) && n <= |chunks|
    ensures RowsIn(chunks, picked, n) == |IdsIn(chunks[..n], picked)|
  {
    if n == 0 {
      assert IdsIn(chunks[..0], picked) == {};
    } else {
      RowsAreIds(chunks, picked, n - 1);
      DistinctSize(chunks[n - 1]);
      OneMoreChunk(chunks, picked, n - 1);
    }
  }

  /** A finished pool in terms of ids: which were stamped, which were acknowledged. */
  lemma PoolInIds(ids: seq<Id>, r: Report)
    requires Distinct(ids) && r.Covers(|ChunksOf(ids)|)
    ensures var chunks := ChunksOf(ids);
            && IdsIn(chunks, r.acked) <= IdsIn(chunks, r.applied) <= IdSet(ids)
            && RowsIn(chunks, r.acked, |chunks|) == |IdsIn(chunks, r.acked)|
            && (r.failed == {} ==> IdsIn(chunks, r.acked) == IdSet(ids))
  {
    var chunks := ChunksOf(ids);
    ChunksApart(ids);
    RowsAreIds(chunks, r.acked, |chunks|);
    assert chunks[..|chunks|] == chunks;
    if r.failed == {} {
      assert r.acked == AllOf(|chunks|);
    }
  }

  // ---------------------------------------------------------------- the diff

  datatype Diff = Diff(toLock: seq<Id>, toUnlock: seq<Id>, steady: seq<Id>)

  predicate ShouldLock(m: Id, unlocked: set<Id>) { m !in unlocked }

  function DiffOf(rows: seq<CachedRow>, unlocked: set<Id>): Diff {
    if rows == [] then Diff([], [], [])
    else
      var d, r := DiffOf(rows[..|rows| - 1], unlocked), rows[|rows| - 1];
      if r.moment !in unlocked && r.isLocked != Some(true) then d.(toLock := d.toLock + [r.moment])
      else if r.moment in unlocked && r.isLocked != Some(false) then d.(toUnlock := d.toUnlock + [r.moment])
      else d.(steady := d.steady + [r.moment])
  }

  method DiffRows(rows: seq<CachedRow>, unlocked: set<Id>) returns (d: Diff)
    ensures d == DiffOf(rows, unlocked)
  {
    var toLock: seq<Id>, toUnlock: seq<Id>, steady: seq<Id> := [], [], [];
    for i := 0 to |rows|
      invariant Diff(toLock, toUnlock, steady) == DiffOf(rows[..i], unlocked)
    {
      assert rows[..i + 1][..i] == rows[..i];
      var r := rows[i];
      var shouldLock := ShouldLock(r.moment, unlocked);
      if shouldLock && r.isLocked != Some(true) {
        toLock := toLock + [r.moment];
      } else if !shouldLock && r.isLocked != Some(false) {
        toUnlock := toUnlock + [r.moment];
      } else {
        steady := steady + [r.moment];
      }
    }
    assert rows[..|rows|] == rows;
    return Diff(toLock, toUnlock, steady);
  }

  function MomentsOf(rows: seq<CachedRow>): set<Id> { set r | r in rows :: r.moment }

  /** Where a row's id belongs. */
  predicate Placed(d: Diff, r: CachedRow, unlocked: set<Id>) {
    && (r.moment in d.toLock <==> ShouldLock(r.moment, unlocked) && r.isLocked != Some(true))
    && (r.moment in d.toUnlock <==> r.moment in unlocked && r.isLocked != Some(false))
    && (r.moment in d.steady <==> r.isLocked == Some(ShouldLock(r.moment, unlocked)))
  }

  function DiffIds(d: Diff): set<Id> { IdSet(d.toLock) + IdSet(d.toUnlock) + IdSet(d.steady) }

  /** The diff splits the rows in three by what the chain says against what is stored. */
  lemma {:induction false} DiffSplits(rows: seq<CachedRow>, unlocked: set<Id>)
    requires forall i, j | 0 <= i < j < |rows| :: rows[i].moment != rows[j].moment
    ensures var d := DiffOf(rows, unlocked);
            && Distinct(d.toLock) && Distinct(d.toUnlock) && Distinct(d.steady)
            && DiffIds(d) == MomentsOf(rows)
            && (forall r | r in rows :: Placed(d, r, unlocked))
  {
    if rows != [] {
      var front, last := rows[..|rows| - 1], rows[|rows| - 1];
      DiffSplits(front, unlocked);
      LastRow(rows);
      var f := DiffOf(front, unlocked);
      assert last.moment !in DiffIds(f);
      OneMoreId(f, DiffOf(rows, unlocked), last.moment);
    }
  }

  lemma OneMoreId(f: Diff, d: Diff, m: Id)
    requires m !in DiffIds(f)
    requires d == f.(toLock := f.toLock + [m]) || d == f.(toUnlock := f.toUnlock + [m]) || d == f.(steady := f.steady + [m])
    ensures DiffIds(d) == DiffIds(f) + {m}
    ensures Distinct(f.toLock) && Distinct(f.toUnlock) && Distinct(f.steady) ==>
              Distinct(d.toLock) && Distinct(d.toUnlock) && Distinct(d.steady)
  {
    assert m !in IdSet(f.toLock) && m !in IdSet(f.toUnlock) && m !in IdSet(f.steady);
  }

  lemma LastRow(rows: seq<CachedRow>)
    requires rows != [] && forall i, j | 0 <= i < j < |rows| :: rows[i].moment != rows[j].moment
    ensures var front, last := rows[..|rows| - 1], rows[|rows| - 1];
            && MomentsOf(rows) == MomentsOf(front) + {last.moment}
            && last.moment !in MomentsOf(front)
            && forall r | r in rows :: r == last || (r in front && r.moment != last.moment)
  {
    var front, last := rows[..|rows| - 1], rows[|rows| - 1];
    forall r | r in rows ensures r == last || (r in front && r.moment != last.moment) {
      var i :| 0 <= i < |rows| && rows[i] == r;
      assert i < |front| ==> front[i] == r;
    }
  }

  // ---------------------------------------------------------------- the whole refresh

  datatype AllDayLockResult = AllDayLockResult(
    wallet: string,
    totalCached: nat,
    unlockedOnchain: nat,
    markedLocked: nat,
    markedUnlocked: nat,
    rowsStamped: nat,
    writeErrors: nat,
    firstWriteError: Option<string>)

  datatype Refresh = Refreshed(result: AllDayLockResult) | WalkStopped(walk: Walk) | ReadFailed(message: string)

  /** The one-line meaning of a refresh: of the wallet's All Day rows, the stamped ones say
      locked exactly when their id is not on chain; nothing else in the table moves. */
  ghost function RefreshedTable(t: Table, wallet: string, unlocked: set<Id>, checkedAt: int, stamped: set<Id>): Table {
    map k | k in t ::
      if OwnKey(k, wallet) && k.moment in stamped then Row(Some(ShouldLock(k.moment, unlocked)), Some(checkedAt)) else t[k]
  }

  ghost function FlagOf(t: Table, wallet: string, m: Id): Option<bool> {
    var k := Key(wallet, ALLDAY_COLLECTION_ID, m);
    if k in t then t[k].isLocked else None
  }

  /** The wallet's ids whose stored flag disagrees with the chain, one way and the other. */
  ghost function MustLock(t: Table, wallet: string, unlocked: set<Id>): set<Id> {
    set m | m in OwnIds(t, wallet) && m !in unlocked && FlagOf(t, wallet, m) != Some(true)
  }

  ghost function MustUnlock(t: Table, wallet: string, unlocked: set<Id>): set<Id> {
    set m | m in OwnIds(t, wallet) && m in unlocked && FlagOf(t, wallet, m) != Some(false)
  }

  ghost function Settled(t: Table, wallet: string, unlocked: set<Id>): set<Id> {
    set m | m in OwnIds(t, wallet) && FlagOf(t, wallet, m) == Some(ShouldLock(m, unlocked))
  }

  lemma ListingFacts(t: Table, wallet: string, rows: seq<CachedRow>, rank: Id -> int)
    requires IsListing(t, wallet, rows, rank)
    ensures MomentsOf(rows) == OwnIds(t, wallet)
    ensures |OwnIds(t, wallet)| == |rows|
    ensures forall i, j | 0 <= i < j < |rows| :: rows[i].moment != rows[j].moment
    ensures forall r | r in rows :: r.moment in OwnIds(t, wallet) && FlagOf(t, wallet, r.moment) == r.isLocked
  {
    OwnIdsAreKeys(t, wallet);
    forall m | m in OwnIds(t, wallet) ensures m in MomentsOf(rows) {
      var i :| 0 <= i < |rows| && rows[i].moment == m;
      assert rows[i] in rows;
    }
    MomentsSize(rows);
  }

  lemma {:induction false} MomentsSize(rows: seq<CachedRow>)
    requires forall i, j | 0 <= i < j < |rows| :: rows[i].moment != rows[j].moment
    ensures |MomentsOf(rows)| == |rows|
  {
    if rows != [] {
      MomentsSize(rows[1..]);
      assert MomentsOf(rows) == MomentsOf(rows[1..]) + {rows[0].moment};
    }
  }

  /** On a listing of the table, the diff's three lists are those three sets, and the sets
      share out the wallet's ids. */
  lemma DiffOfListing(t: Table, wallet: string, rows: seq<CachedRow>, rank: Id -> int, unlocked: set<Id>)
    requires IsListing(t, wallet, rows, rank)
    ensures var d := DiffOf(rows, unlocked);
            && Distinct(d.toLock) && Distinct(d.toUnlock) && Distinct(d.steady)
            && IdSet(d.toLock) == MustLock(t, wallet, unlocked)
            && IdSet(d.toUnlock) == MustUnlock(t, wallet, unlocked)
            && IdSet(d.steady) == Settled(t, wallet, unlocked)
  {
    ListingFacts(t, wallet, rows, rank);
    DiffSplits(rows, unlocked);
    PlacedAreParts(t, wallet, rows, unlocked, DiffOf(rows, unlocked));
  }

  lemma PlacedAreParts(t: Table, wallet: string, rows: seq<CachedRow>, unlocked: set<Id>, d: Diff)
    requires DiffIds(d) == MomentsOf(rows) == OwnIds(t, wallet)
    requires forall r | r in rows :: Placed(d, r, unlocked) && FlagOf(t, wallet, r.moment) == r.isLocked
    ensures IdSet(d.toLock) == MustLock(t, wallet, unlocked)
    ensures IdSet(d.toUnlock) == MustUnlock(t, wallet, unlocked)
    ensures IdSet(d.steady) == Settled(t, wallet, unlocked)
  {
    forall m | m in DiffIds(d) ensures Placed(d, CachedRow(m, FlagOf(t, wallet, m)), unlocked) {
      var r :| r in rows && r.moment == m;
    }
  }

  /** Three rounds of updates, each over some ids of its own part of the diff, amount to
      one refreshed table. */
  lemma RoundsRefresh(t: Table, wallet: string, unlocked: set<Id>, checkedAt: int,
                      locks: set<Id>, unlocks: set<Id>, stamps: set<Id>)
    requires locks <= MustLock(t, wallet, unlocked)
    requires unlocks <= MustUnlock(t, wallet, unlocked)
    requires stamps <= Settled(t, wallet, unlocked)
    ensures Updated(Updated(Updated(t,
              wallet, locks, Payload(Some(true), checkedAt)),
              wallet, unlocks, Payload(Some(false), checkedAt)),
              wallet, stamps, Payload(None, checkedAt))
            == RefreshedTable(t, wallet, unlocked, checkedAt, locks + unlocks + stamps)
  {
    OwnIdsAreKeys(t, wallet);
    forall k | k in t && OwnKey(k, wallet) ensures FlagOf(t, wallet, k.moment) == t[k].isLocked {
      assert k == Key(wallet, ALLDAY_COLLECTION_ID, k.moment);
    }
  }

  lemma PartsShareOut(t: Table, wallet: string, unlocked: set<Id>)
    ensures MustLock(t, wallet, unlocked) !! MustUnlock(t, wallet, unlocked)
    ensures MustLock(t, wallet, unlocked) + MustUnlock(t, wallet, unlocked) !! Settled(t, wallet, unlocked)
    ensures MustLock(t, wallet, unlocked) + MustUnlock(t, wallet, unlocked) + Settled(t, wallet, unlocked)
            == OwnIds(t, wallet)
  {
  }

  /** Counts taken inside disjoint parts add up, and each part can be cut out again. */
  lemma DisjointParts<T>(a: set<T>, b: set<T>, c: set<T>, x: set<T>, y: set<T>, z: set<T>)
    requires a !! b && a + b !! c
    requires x <= a && y <= b && z <= c
    ensures |x + y + z| == |x| + |y| + |z|
    ensures (x + y + z) * a == x && (x + y + z) * b == y
  {
  }

  /** The three finished rounds together: which rows were stamped, which were counted. */
  ghost function AllIds(d: Diff, locks: set<nat>, unlocks: set<nat>, stamps: set<nat>): set<Id> {
    IdsIn(ChunksOf(d.toLock), locks) + IdsIn(ChunksOf(d.toUnlock), unlocks) + IdsIn(ChunksOf(d.steady), stamps)
  }

  lemma RoundsAccount(t: Table, wallet: string, unlocked: set<Id>, checkedAt: int, d: Diff, r1: Report, r2: Report, r3: Report)
    requires Distinct(d.toLock) && Distinct(d.toUnlock) && Distinct(d.steady)
    requires IdSet(d.toLock) == MustLock(t, wallet, unlocked)
    requires IdSet(d.toUnlock) == MustUnlock(t, wallet, unlocked)
    requires IdSet(d.steady) == Settled(t, wallet, unlocked)
    requires r1.Covers(|ChunksOf(d.toLock)|) && r2.Covers(|ChunksOf(d.toUnlock)|) && r3.Covers(|ChunksOf(d.steady)|)
    ensures var c1, c2, c3 := ChunksOf(d.toLock), ChunksOf(d.toUnlock), ChunksOf(d.steady);
            var stamped := AllIds(d, r1.applied, r2.applied, r3.applied);
            var acked := AllIds(d, r1.acked, r2.acked, r3.acked);
            && acked <= stamped <= OwnIds(t, wallet)
            && Updated(Updated(Updated(t,
                 wallet, IdsIn(c1, r1.applied), Payload(Some(true), checkedAt)),
                 wallet, IdsIn(c2, r2.applied), Payload(Some(false), checkedAt)),
                 wallet, IdsIn(c3, r3.applied), Payload(None, checkedAt))
               == RefreshedTable(t, wallet, unlocked, checkedAt, stamped)
            && RowsIn(c1, r1.acked, |c1|) == |acked * MustLock(t, wallet, unlocked)|
            && RowsIn(c2, r2.acked, |c2|) == |acked * MustUnlock(t, wallet, unlocked)|
            && RowsIn(c1, r1.acked, |c1|) + RowsIn(c2, r2.acked, |c2|) + RowsIn(c3, r3.acked, |c3|) == |acked|
            && var errors := |r1.failed| + |r2.failed| + |r3.failed|;
               errors <= |OwnIds(t, wallet)| - |acked| <= 200 * errors
  {
    var c1, c2, c3 := ChunksOf(d.toLock), ChunksOf(d.toUnlock), ChunksOf(d.steady);
    PoolInIds(d.toLock, r1);
    PoolInIds(d.toUnlock, r2);
    PoolInIds(d.steady, r3);
    PartsShareOut(t, wallet, unlocked);
    DisjointParts(IdSet(d.toLock), IdSet(d.toUnlock), IdSet(d.steady),
                  IdsIn(c1, r1.acked), IdsIn(c2, r2.acked), IdsIn(c3, r3.acked));
    RoundsRefresh(t, wallet, unlocked, checkedAt, IdsIn(c1, r1.applied), IdsIn(c2, r2.applied), IdsIn(c3, r3.applied));
    ErrorsMissRows(d.toLock, r1);
    ErrorsMissRows(d.toUnlock, r2);
    ErrorsMissRows(d.steady, r3);
    DisjointParts(IdSet(d.toLock), IdSet(d.toUnlock), IdSet(d.steady), IdSet(d.toLock), IdSet(d.toUnlock), IdSet(d.steady));
  }

  /** In one round each failed chunk misses one to two hundred rows. */
  lemma ErrorsMissRows(ids: seq<Id>, r: Report)
    requires Distinct(ids) && r.Covers(|ChunksOf(ids)|)
    ensures |r.failed| <= |IdSet(ids)| - RowsIn(ChunksOf(ids), r.acked, |ChunksOf(ids)|) <= 200 * |r.failed|
  {
    var chunks := ChunksOf(ids);
    ChunksApart(ids);
    ChunksConcatenateBack(ids);
    RowsAreIds(chunks, AllOf(|chunks|), |chunks|);
    assert chunks[..|chunks|] == chunks;
    RowsShareOut(chunks, r.acked, r.failed, |chunks|);
    RowsOfFailed(chunks, r.failed, |chunks|);
  }

  lemma {:induction false} RowsShareOut(chunks: seq<seq<Id>>, acked: set<nat>, failed: set<nat>, n: nat)
    requires n <= |chunks| && acked !! failed && forall c: nat | c < n :: c in acked || c in failed
    ensures RowsIn(chunks, acked, n) + RowsIn(chunks, failed, n) == RowsIn(chunks, AllOf(|chunks|), n)
  {
    if n > 0 { RowsShareOut(chunks, acked, failed, n - 1); }
  }

  lemma {:induction false} RowsOfFailed(chunks: seq<seq<Id>>, failed: set<nat>, n: nat)
    requires n <= |chunks| && Below(failed, n)
    requires forall i | 0 <= i < |chunks| :: 0 < |chunks[i]| <= WRITE_CHUNK
    ensures |failed| <= RowsIn(chunks, failed, n) <= 200 * |failed|
  {
    if n == 0 {
      assert failed == {};
    } else {
      var rest := failed - {n - 1};
      RowsOfFailed(chunks, rest, n - 1);
      RowsBelow(chunks, failed, rest, n - 1);
      assert n - 1 in failed ==> failed == rest + {n - 1};
      assert n - 1 !in failed ==> failed == rest;
    }
  }

  lemma {:induction false} RowsBelow(chunks: seq<seq<Id>>, a: set<nat>, b: set<nat>, n: nat)
    requires n <= |chunks| && forall c: nat | c < n :: c in a <==> c in b
    ensures RowsIn(chunks, a, n) == RowsIn(chunks, b, n)
  {
    if n > 0 { RowsBelow(chunks, a, b, n - 1); }
  }

  /** The outcome of a complete run over the table `t`: the table `t2`, the rows `stamped`
      in it, the rows `acked` whose write was acknowledged, and the report. Each error stands
      for one to two hundred rows that were not, so without errors they all were. */
  ghost predicate Accounts(t: Table, t2: Table, wallet: string, unlocked: set<Id>, checkedAt: int,
                           stamped: set<Id>, acked: set<Id>, result: AllDayLockResult) {
    && acked <= stamped <= OwnIds(t, wallet)
    && t2 == RefreshedTable(t, wallet, unlocked, checkedAt, stamped)
    && result.wallet == wallet
    && result.totalCached == |OwnIds(t, wallet)|
    && result.unlockedOnchain == |unlocked|
    && result.rowsStamped == |acked|
    && result.markedLocked == |acked * MustLock(t, wallet, unlocked)|
    && result.markedUnlocked == |acked * MustUnlock(t, wallet, unlocked)|
    && result.writeErrors <= |OwnIds(t, wallet)| - |acked| <= 200 * result.writeErrors
    && (result.firstWriteError == None <==> result.writeErrors == 0)
  }

  /** The report the rounds add up to is exact. */
  lemma ReportAccounts(t: Table, t2: Table, wallet: string, unlocked: set<Id>, checkedAt: int, d: Diff,
                       r1: Report, r2: Report, r3: Report, result: AllDayLockResult)
    requires Distinct(d.toLock) && Distinct(d.toUnlock) && Distinct(d.steady)
    requires IdSet(d.toLock) == MustLock(t, wallet, unlocked)
    requires IdSet(d.toUnlock) == MustUnlock(t, wallet, unlocked)
    requires IdSet(d.steady) == Settled(t, wallet, unlocked)
    requires r1.Covers(|ChunksOf(d.toLock)|) && r2.Covers(|ChunksOf(d.toUnlock)|) && r3.Covers(|ChunksOf(d.steady)|)
    requires t2 == Updated(Updated(Updated(t,
                     wallet, IdsIn(ChunksOf(d.toLock), r1.applied), Payload(Some(true), checkedAt)),
                     wallet, IdsIn(ChunksOf(d.toUnlock), r2.applied), Payload(Some(false), checkedAt)),
                     wallet, IdsIn(ChunksOf(d.steady), r3.applied), Payload(None, checkedAt))
    requires result.wallet == wallet && result.totalCached == |OwnIds(t, wallet)| && result.unlockedOnchain == |unlocked|
    requires result.markedLocked == RowsIn(ChunksOf(d.toLock), r1.acked, |ChunksOf(d.toLock)|)
    requires result.markedUnlocked == RowsIn(ChunksOf(d.toUnlock), r2.acked, |ChunksOf(d.toUnlock)|)
    requires result.rowsStamped == result.markedLocked + result.markedUnlocked
                                   + RowsIn(ChunksOf(d.steady), r3.acked, |ChunksOf(d.steady)|)
    requires result.writeErrors == |r1.failed| + |r2.failed| + |r3.failed|
    requires result.firstWriteError == None <==> |r1.failed| + |r2.failed| + |r3.failed| == 0
    ensures Accounts(t, t2, wallet, unlocked, checkedAt,
                     AllIds(d, r1.applied, r2.applied, r3.applied), AllIds(d, r1.acked, r2.acked, r3.acked), result)
  {
    RoundsAccount(t, wallet, unlocked, checkedAt, d, r1, r2, r3);
  }

  lemma NoneInAny(a: set<nat>, b: set<nat>, c: set<nat>)
    ensures |a| + |b| + |c| == 0 <==> a == b == c == {}
  {
  }

  /** The payload of the round that writes some part of the diff. */
  ghost predicate RoundOf(t: Table, wallet: string, unlocked: set<Id>, checkedAt: int, ids: set<Id>, p: Payload) {
    || (ids <= MustLock(t, wallet, unlocked) && p == Payload(Some(true), checkedAt))
    || (ids <= MustUnlock(t, wallet, unlocked) && p == Payload(Some(false), checkedAt))
    || (ids <= Settled(t, wallet, unlocked) && p == Payload(None, checkedAt))
  }

  /** An update reported as failed that lands only after the run has returned: the table is
      still a refreshed one, with more rows stamped, and the report is still exact. */
  lemma LateUpdateKeepsAccounts(t: Table, t2: Table, wallet: string, unlocked: set<Id>, checkedAt: int,
                                stamped: set<Id>, acked: set<Id>, result: AllDayLockResult, late: set<Id>, p: Payload)
    requires Accounts(t, t2, wallet, unlocked, checkedAt, stamped, acked, result)
    requires RoundOf(t, wallet, unlocked, checkedAt, late, p)
    ensures Accounts(t, Updated(t2, wallet, late, p), wallet, unlocked, checkedAt, stamped + late, acked, result)
  {
    LateUpdateRefreshes(t, wallet, unlocked, checkedAt, stamped, late, p);
  }

  lemma LateUpdateRefreshes(t: Table, wallet: string, unlocked: set<Id>, checkedAt: int, stamped: set<Id>, late: set<Id>, p: Payload)
    requires RoundOf(t, wallet, unlocked, checkedAt, late, p)
    ensures Updated(RefreshedTable(t, wallet, unlocked, checkedAt, stamped), wallet, late, p)
            == RefreshedTable(t, wallet, unlocked, checkedAt, stamped + late)
  {
    var t2 := RefreshedTable(t, wallet, unlocked, checkedAt, stamped);
    var u := RefreshedTable(t, wallet, unlocked, checkedAt, stamped + late);
    forall k | k in t ensures Updated(t2, wallet, late, p)[k] == u[k] {
      if OwnKey(k, wallet) { assert k == Key(wallet, ALLDAY_COLLECTION_ID, k.moment); }
    }
  }

  /** And one that lands during a later round might as well have landed in its own, since
      the rounds write different ids. */
  lemma UpdatesCommute(t: Table, wallet: string, a: set<Id>, p: Payload, b: set<Id>, q: Payload)
    requires a !! b
    ensures Updated(Updated(t, wallet, a, p), wallet, b, q) == Updated(Updated(t, wallet, b, q), wallet, a, p)
  {
  }

  /** The three rounds of writes that follow the diff. */
  method WriteRounds(wallet: string, store: MomentsCache, d: Diff, rowCount: nat, unlocked: set<Id>, checkedAt: int)
    returns (result: AllDayLockResult, ghost stamped: set<Id>, ghost acked: set<Id>)
    requires Distinct(d.toLock) && Distinct(d.toUnlock) && Distinct(d.steady)
    requires IdSet(d.toLock) == MustLock(store.table, wallet, unlocked)
    requires IdSet(d.toUnlock) == MustUnlock(store.table, wallet, unlocked)
    requires IdSet(d.steady) == Settled(store.table, wallet, unlocked)
    requires rowCount == |OwnIds(store.table, wallet)|
    modifies store
    ensures Accounts(old(store.table), store.table, wallet, unlocked, checkedAt, stamped, acked, result)
  {
    ghost var t := store.table;
    var tally := new WriteTally();
    ghost var r1 := WriteChunks(wallet, store, d.toLock, Payload(Some(true), checkedAt), tally);
    var lockedWritten := tally.written;
    ghost var r2 := WriteChunks(wallet, store, d.toUnlock, Payload(Some(false), checkedAt), tally);
    var unlockedWritten := tally.written - lockedWritten;
    ghost var r3 := WriteChunks(wallet, store, d.steady, Payload(None, checkedAt), tally);

    stamped := AllIds(d, r1.applied, r2.applied, r3.applied);
    acked := AllIds(d, r1.acked, r2.acked, r3.acked);
    result := AllDayLockResult(wallet, rowCount, |unlocked|, lockedWritten, unlockedWritten,
                               tally.written, tally.errors, tally.firstError);
    NoneInAny(r1.failed, r2.failed, r3.failed);
    ReportAccounts(t, store.table, wallet, unlocked, checkedAt, d, r1, r2, r3, result);
  }

  /** A refresh reaches the writes exactly when no window it visits is late or fails and no
      page it asks for does. If not, it leaves the table alone. If so, it leaves a refreshed table whatever the interleaving and the failures; its tallies
      count exactly the acknowledged rows; without write errors that is every row. */
  method RefreshAllDayWalletLocks(
    wallet: string, store: MomentsCache, chain: seq<Id>, deadline: Option<int>, clock: nat -> int,
    reachable: nat -> bool, serve: Option<Id> -> Result<seq<CachedRow>>, checkedAt: int,
    ghost rows: seq<CachedRow>, ghost rank: Id -> int)
    returns (r: Refresh, ghost stamped: set<Id>, ghost acked: set<Id>)
    requires IsListing(store.table, wallet, rows, rank)
    requires forall c :: HonestPage(rows, rank, c, serve(c))
    modifies store
    ensures !r.Refreshed? ==> store.table == old(store.table)
    ensures r.Refreshed? ==>
              Accounts(old(store.table), store.table, wallet, IdSet(chain[..Min(|chain|, MAX_WINDOWS * WINDOW)]),
                       checkedAt, stamped, acked, r.result)
    ensures r.Refreshed? <==> WalkRuns(chain, deadline, clock, reachable) && ReadCompletes(serve)
    ensures deadline.Some? && clock(0) > deadline.value ==> !r.Refreshed?
  {
    stamped, acked := {}, {};
    assert WalkRuns(chain, deadline, clock, reachable) ==> MayPass(0, deadline, clock, reachable);
    var walk := FetchAllUnlockedIds(chain, deadline, clock, reachable);
    if !walk.Walked? {
      return WalkStopped(walk), stamped, acked;
    }
    var read := ReadCachedRows(serve, rows, rank);
    if read.Err? {
      return ReadFailed(read.message), stamped, acked;
    }
    var d := DiffRows(read.value, walk.ids);
    ListingFacts(store.table, wallet, rows, rank);
    DiffOfListing(store.table, wallet, rows, rank, walk.ids);
    var result;
    result, stamped, acked := WriteRounds(wallet, store, d, |read.value|, walk.ids, checkedAt);
    r := Refreshed(result);
  }

  // ---------------------------------------------------------------- what a refreshed table says

  /** Stamped implies correct, for a timestamp that is new to the table: exactly the
      wallet's stamped rows carry it, and each says locked iff its id is not on chain. */
  lemma StampedImpliesCorrect(t: Table, wallet: string, unlocked: set<Id>, checkedAt: int, stamped: set<Id>)
    requires stamped <= OwnIds(t, wallet)
    requires forall k | k in t :: t[k].checkedAt != Some(checkedAt)
    ensures var after := RefreshedTable(t, wallet, unlocked, checkedAt, stamped);
            && after.Keys == t.Keys
            && (forall k | k in t :: after[k].checkedAt == Some(checkedAt) <==> OwnKey(k, wallet) && k.moment in stamped)
            && (forall k | k in t && after[k].checkedAt == Some(checkedAt) :: after[k].isLocked == Some(ShouldLock(k.moment, unlocked)))
            && (forall k | k in t && after[k].checkedAt != Some(checkedAt) :: after[k] == t[k])
  {
  }

  /** After a refresh that stamped every row, a diff against the same chain flips nothing. */
  lemma SecondRunFlipsNothing(t: Table, wallet: string, unlocked: set<Id>, checkedAt: int,
                              again: seq<CachedRow>, rank: Id -> int)
    requires IsListing(RefreshedTable(t, wallet, unlocked, checkedAt, OwnIds(t, wallet)), wallet, again, rank)
    ensures DiffOf(again, unlocked).toLock == [] && DiffOf(again, unlocked).toUnlock == []
    ensures IdSet(DiffOf(again, unlocked).steady) == OwnIds(t, wallet)
  {
    var after := RefreshedTable(t, wallet, unlocked, checkedAt, OwnIds(t, wallet));
    DiffOfListing(after, wallet, again, rank, unlocked);
    OwnIdsAreKeys(t, wallet);
    OwnIdsAreKeys(after, wallet);
    assert OwnIds(after, wallet) == OwnIds(t, wallet) == Settled(after, wallet, unlocked);
    DistinctSize(DiffOf(again, unlocked).toLock);
    DistinctSize(DiffOf(again, unlocked).toUnlock);
  }

  /** A moment past the window cap is on chain, yet a complete run marks it locked: the
      whole spec `locked iff not on chain` is met for every row iff no cached moment lies
      past the cap. */
  lemma LockedIffNotOnChain(t: Table, wallet: string, chain: seq<Id>, checkedAt: int)
    requires Distinct(chain)
    ensures var cap := MAX_WINDOWS * WINDOW;
            var after := RefreshedTable(t, wallet, IdSet(chain[..Min(|chain|, cap)]), checkedAt, OwnIds(t, wallet));
            (forall k | k in t && OwnKey(k, wallet) :: after[k].isLocked == Some(k.moment !in chain))
            <==> (forall i | cap <= i < |chain| :: chain[i] !in OwnIds(t, wallet))
  {
  }
}
