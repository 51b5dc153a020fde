# Verification of the stateful core

A Dafny model of the parts of the app whose behaviour cannot be read off one function body, with
proofs of what they guarantee over whole runs. Code that works step by step in TypeScript is a class
or a method here, proved equal to a specification function or predicate; what the app promises is
then proved of that specification.

| file | models |
|---|---|
| `AllDayLock.dfy` | the NFL All Day lock refresh: windowed chain walk, keyset-paged read, three-way diff, chunked writes by a pool of concurrent workers, any of which may fail |
| `RateLimit.dfy` | the proxy's fixed-window limiters over three maps, with the periodic sweep |
| `AllowGate.dfy` | the allow-list gate: a signed one-minute cookie in front of an RPC, as a state machine of arrivals and answers |
| `Redirects.dfy` | case folding on an array, the thin and retired tabs, and the redirect table of `next.config.ts`, as one rewrite system |
| `SessionCookie.dfy`, `Base64Url.dfy` | reassembly of a chunked session cookie; base64url (sections 4 and 5 of RFC 4648) over `btoa` and `atob` |
| `Cache.dfy` | the single-flight TTL cache as a transition system whose events are calls, settling factories and invalidations |
| `AdminSession.dfy` | the signed admin session: printer, parser and the comparison without early exit |
| `EditionMarket.dfy` | the live edition market against filter-then-aggregate |
| `StreamSplit.dfy` | the support chat's reader loop |
| `Autographs.dfy` | the signed-edition read and the all-editions-signed fold |
| `Address.dfy` | address recognisers and five normal forms |
| `SeriesCharts.dfy`, `MarketplaceMix.dfy` | the chart rollups and their conservation laws |
| `Text.dfy`, `Sequences.dfy`, `Wrappers.dfy` | string operations, filtering and stable sorting, result types |

## Where the code does less than its documentation or a reader would expect

Each is stated as an exact condition, both ways.

- `lib/allday-lock.ts` stops after 50 windows without an error. A wallet whose on-chain ids number at
  most 1,000,000 is walked completely, a larger one never (`AllDayLock.WalkIsCompleteIffWithinCap`);
  a fully stamped table then agrees with "locked iff not on chain" if and only if no cached moment lies
  past that cap (`AllDayLock.LockedIffNotOnChain`).
- The comment at `proxy.ts:418` says the target of a case fold has no upper-case letter. It has one if
  and only if some segment that does not fold has one: a segment past the tab, outside the hub paths and
  under a tab that is no entity tab (`Redirects.FoldKeepsCapitalsIff`; an edition and a moment as inputs
  in `Redirects.FoldMayKeepCapitals`). Redirects still end, because folding is stable
  (`Redirects.FoldIsStable`).
- `deleteCache` is final if and only if no factory for the key is in flight: an old factory still
  stores its value (`Cache.DeleteIsFinalIffNoFlight`). The old factory also removes a newer pending entry,
  if and only if the entry is not its own, and then factories of the key keep running unregistered if and
  only if it was not the only one (`Cache.SettlingEvictsIff`; a run in `Cache.OldFactoryEvictsNewer`).
  The bound on concurrent factories therefore counts invalidations (`Cache.SingleFlight`).
- `normalizeAddress` keeps the detected chain except for two families of strings, exactly: unknown strings
  that fold to base58 become Solana addresses, and hex addresses written with a capital X, which no
  recogniser accepts, become Cadence or EVM ones (`Address.NormalizingMovesChainIff`; an input of each in
  `Address.NormalizingCanMoveChain`).
- The second read of `readAllDayPairs` matches set names exactly while the pair key trims and folds
  them. For a given table the pairs are right about all of it if and only if every key that mixes signed and
  unsigned editions has an unsigned one under the set name of some signed edition
  (`Autographs.TrueIffMixedKeysShow`); they are right however its editions come to be signed if and only if
  no two of them share a key under different set names (`Autographs.ClaimHoldsIffKeysTellSetsApart`).
- A pair key of `lib/autographs.ts` is shared by two different pairs if and only if a player's name holds
  a bar and spills over into the other's set (`Autographs.PairKeysAgreeIff`; an input in
  `Autographs.BarsCanClash`).
- An admin session whose expiry is outside 10^12 .. 10^13 - 1 ms never verifies, because the parser wants
  thirteen digits (`AdminSession.MintedVerifiesIff`).
- The slices of the marketplace mix add up to its total if and only if the volume outside the known
  marketplaces is not negative (`MarketplaceMix.SlicesSumToTotal`; an input that misses in
  `MarketplaceMix.NegativeRestIsNotShown`).

## Model

| member | source | states |
|---|---|---|
| `AllDayLock.FetchAllUnlockedIds` | lib/allday-lock.ts:96-107 | the walk ends iff none of the windows it has to visit starts past the deadline or fails; it then holds exactly the ids of the first 50 windows, hence the whole collection up to 1,000,000 ids, exact multiples of the window included; otherwise it stops at the first such window, a late one before it is asked |
| `AllDayLock.WalkIsCompleteIffWithinCap` | lib/allday-lock.ts:44-45 | the walk is complete iff the wallet holds at most 50 * 20,000 ids |
| `AllDayLock.AfterPrefix` | lib/allday-lock.ts:125-131 | past the cursor left by the last row read lie exactly the rows not yet read |
| `AllDayLock.ErrorEndsRead` | lib/allday-lock.ts:119-132 | a run of page queries that meets an error has no continuation that completes the read |
| `AllDayLock.ReadCachedRows` | lib/allday-lock.ts:112-134 | however short the server's non-empty pages are, an answer is every row once, in key order; there is one iff every page asked for is served, to the empty one at the end |
| `AllDayLock.ChunksConcatenateBack` | lib/allday-lock.ts:152-153 | the chunks concatenate back to the ids; none is empty or longer than 200 |
| `AllDayLock.SliceIntoChunks` | lib/allday-lock.ts:152-153 | the slicing loop produces those chunks |
| `AllDayLock.TakeKeepsInv` | lib/allday-lock.ts:156-157 | `chunks[next++]` by any worker keeps every chunk below the counter with exactly one owner: acknowledged, failed, or in that worker's hands |
| `AllDayLock.ApplyKeepsInv` | lib/allday-lock.ts:158-163 | so does the database applying an update, before or without its reply |
| `AllDayLock.ReplyKeepsInv` | lib/allday-lock.ts:164-169 | so does reading a reply, good or bad |
| `AllDayLock.WritePool.Take` | lib/allday-lock.ts:156-157 | one worker's turn keeps the pool valid and comes closer to the end |
| `AllDayLock.WritePool.Apply` | lib/allday-lock.ts:158-163 | the table stays the initial one updated with exactly the applied chunks |
| `AllDayLock.WritePool.Succeed` | lib/allday-lock.ts:167-169 | `written` stays the number of rows in acknowledged chunks |
| `AllDayLock.WritePool.Fail` | lib/allday-lock.ts:164-166 | `errors` stays the number of failed chunks; the first message, and only it, is kept; whether the update was applied is left open |
| `AllDayLock.WritePool.ApplyLate` | lib/allday-lock.ts:158-166 | an update may still reach the table after its error was read, and the pool stays valid |
| `AllDayLock.LateUpdateKeepsAccounts` | lib/allday-lock.ts:158-232 | one that lands after the run has returned leaves a refreshed table with more rows stamped, and the reported tallies still count exactly the acknowledged rows |
| `AllDayLock.UpdatesCommute` | lib/allday-lock.ts:215-221 | one that lands during a later round might as well have landed in its own |
| `AllDayLock.WriteChunks` | lib/allday-lock.ts:144-173 | for every interleaving of up to four workers, every pattern of failures and late updates: each chunk is issued once and ends acknowledged or failed, never both; the table, `written`, `errors` and `firstError` are exact |
| `AllDayLock.PoolInIds` | lib/allday-lock.ts:144-173 | in terms of ids: acknowledged ids are applied ids, `written` counts acknowledged ids, and without a failure they are all the ids |
| `AllDayLock.DiffRows` | lib/allday-lock.ts:202-210 | the loop computes the diff |
| `AllDayLock.DiffSplits` | lib/allday-lock.ts:202-210 | the three lists are duplicate-free, cover the rows, and each id is where the chain and its stored flag put it |
| `AllDayLock.DiffOfListing` | lib/allday-lock.ts:199-210 | on a listing of the table: the wallet's rows to lock, to unlock, and already right |
| `AllDayLock.RoundsRefresh` | lib/allday-lock.ts:215-221 | three rounds of partial updates, the last of which writes no flag, amount to one refreshed table |
| `AllDayLock.ErrorsMissRows` | lib/allday-lock.ts:152-170 | in one round each failed chunk stands for one to two hundred rows that were not acknowledged |
| `AllDayLock.RoundsAccount` | lib/allday-lock.ts:215-232 | table and tallies of the three rounds together, in terms of the rows stamped and acknowledged |
| `AllDayLock.WriteRounds` | lib/allday-lock.ts:212-232 | the result counts exactly the acknowledged rows: total, newly locked, newly unlocked; the errors number the failed chunks, so that one to two hundred cached rows per error are unacknowledged and without errors none; no first message iff no error |
| `AllDayLock.RefreshAllDayWalletLocks` | lib/allday-lock.ts:193-233 | a run reaches the writes iff no window it visits is late or fails and no page it asks for does; one that does not, a deadline exit included, writes nothing; one that does leaves a refreshed table with exact tallies |
| `AllDayLock.StampedImpliesCorrect` | lib/allday-lock.ts:193-233 | a row carrying this run's timestamp says locked iff its id is not in the walked set; every other row, of this or another wallet or collection, is as it was |
| `AllDayLock.SecondRunFlipsNothing` | lib/allday-lock.ts:202-221 | after a run that stamped every row, a second diff against the same chain set has nothing to flip and everything to stamp |
| `AllDayLock.LockedIffNotOnChain` | lib/allday-lock.ts:96-107 | a fully stamped table meets "locked iff not on chain" iff no cached moment lies past the window cap |
| `RateLimit.RateLimiter.IsRateLimited` | proxy.ts:302-315 | the decision, and the one entry of the one map that changes |
| `RateLimit.RateLimiter.Cleanup` | proxy.ts:317-326 | expired entries leave all three maps, others stay |
| `RateLimit.RateLimiter.SweepMap` | proxy.ts:319-325 | the loop over one map removes exactly its expired entries |
| `RateLimit.SweepsAreInvisible` | proxy.ts:317-326 | from any map, a run with sweeps anywhere gives every request the answer it gets without them |
| `RateLimit.AdmissionBound` | proxy.ts:302-315 | in any closed interval of n windows at most (n + 1) * M requests of a key with a ceiling of at most M are admitted, from any starting map, with sweeps anywhere and other ceilings mixed in |
| `RateLimit.CountIsRequests` | proxy.ts:309-313 | a counter never exceeds the requests of its window |
| `RateLimit.SlowClientsAreNeverRefused` | proxy.ts:302-315 | a key that never exceeds its ceiling in any closed window is never refused |
| `RateLimit.WindowAdmitsExactlyMax` | proxy.ts:307-314 | of the calls in one window, its last millisecond included, exactly the first M are admitted; a millisecond later the count starts again |
| `RateLimit.CeilingIs` | proxy.ts:176-199 | the listed proxies and everything below them are metered as media at 600, all else at 60 or, signed in, 240 |
| `RateLimit.AnonymousIsCapSixty` | proxy.ts:187-199 | the anonymous requests among those on the shared API map are those with ceiling 60; media paths do not touch it |
| `RateLimit.AnonymousApiBound` | proxy.ts:187-199 | n windows admit at most (n + 1) * 60 anonymous API requests, whatever the signed-in ones do |
| `RateLimit.ApiBounds` | proxy.ts:187-199 | n windows admit at most (n + 1) * 240 API requests of a key, signed in or not, and (n + 1) * 600 media requests |
| `AllowGate.AnswerDecides` | proxy.ts:1772-1802 | the verdict is to pass iff the RPC said yes, unavailable iff it failed, revoked iff it said no |
| `AllowGate.StepKeepsSound` | proxy.ts:1757-1803 | every arrival and every RPC answer keeps: each signed cookie runs out a minute after a yes for its own address, each pass rested on a yes less than a minute old |
| `AllowGate.ApprovalsAreYesAnswers` | proxy.ts:1768-1803 | the approvals these statements speak of are exactly the RPC's yes answers in the run |
| `AllowGate.PassesAreFreshlyApproved` | proxy.ts:1483-1505 | over every run, with any earlier cookie of any user replayed: a request let through at t belongs to an address approved at some t0 with t - 60 s < t0 <= t |
| `AllowGate.PassesRestOnYesAnswers` | proxy.ts:1757-1803 | the same in terms of the run's events: some answer yes for that address at such a t0 is among them |
| `AllowGate.AnswersLetThroughIffYes` | proxy.ts:1772-1802 | a yes lets its request through at once, any other answer lets none through |
| `AllowGate.EveryRequestIsDecidedOnce` | proxy.ts:1757-1807 | in every run arrivals equal passes plus those waiting for the RPC plus those turned away |
| `AllowGate.RevokedWithinAMinute` | proxy.ts:1760-1801 | without an approval in the last minute no cookie lets a request through |
| `AllowGate.CookiePassesIff` | proxy.ts:1483-1490 | a verified cookie spares the RPC iff it is this user's, has not run out, and runs out within two minutes |
| `AllowGate.OwnCookieSparesTheRpc` | proxy.ts:1492-1505 | after a yes the proxy has signed a cookie, if it has a key, that passes its own user for exactly the rest of the minute |
| `Cache.CacheModule.GetCache` | lib/cache.ts:9-20 | the value, and the lazy deletion of an expired entry |
| `Cache.CacheModule.SetCache` | lib/cache.ts:22-27 | the new state |
| `Cache.CacheModule.GetOrSetCache` | lib/cache.ts:29-53 | the new state and what the caller gets: a hit, a pending promise, or a new one |
| `Cache.CacheModule.OnResolved` | lib/cache.ts:41-45 | the new state when a factory resolves |
| `Cache.CacheModule.OnRejected` | lib/cache.ts:46-49 | the new state when a factory rejects; stored values do not change |
| `Cache.CacheModule.DeleteCache` | lib/cache.ts:55-58 | the new state |
| `Cache.CacheModule.ClearCacheByPrefix` | lib/cache.ts:60-68 | both loops drop exactly the keys with the prefix |
| `Cache.UnregisteredBound` | lib/cache.ts:29-68 | in every run what is pending is in flight, and at most one flight per invalidation that hit the key is not pending |
| `Cache.SingleFlight` | lib/cache.ts:29-68 | unfinished factories of a key never exceed one plus the invalidations that hit it |
| `Cache.PendingIsExactUntilCut` | lib/cache.ts:37-51 | with no such invalidation, a key is pending iff exactly one factory for it runs, and it is that one |
| `Cache.WaitersWaitForTheirKey` | lib/cache.ts:37-52 | a caller told to wait waits for an unfinished factory of its own key, the pending one if there is one, else a new one with the caller's own ttl |
| `Cache.WaiterGetsItsFactorysValue` | lib/cache.ts:37-52 | the value a waiting caller receives is what a factory called for its key resolves to, after the call |
| `Cache.JoinedCallersReceiveTheSame` | lib/cache.ts:37-52 | while nothing was cut, a caller that has to wait while another waits for the key is given the same promise and receives the same outcome |
| `Cache.SettleStep` | lib/cache.ts:41-49 | a settling factory never raises the number of unregistered ones |
| `Cache.SettlingEvictsIff` | lib/cache.ts:41-49 | after it settles nothing is pending for its key; factories of the key keep running unregistered iff it was not the only one; a pending promise is left running unregistered iff it is not the settling one |
| `Cache.OldFactoryEvictsNewer` | lib/cache.ts:29-58 | call, delete, call, first factory resolves: the second still runs and nothing is pending |
| `Cache.StoredIsLastWrite` | lib/cache.ts:22-45 | what is stored under a key is the last value put under that key, by a set or by a factory called for it, with that expiry |
| `Cache.HitsAreFreshAndOwn` | lib/cache.ts:9-35 | every hit at t is the last value written under that key and t is within its ttl |
| `Cache.StandingIsKept` | lib/cache.ts:22-68 | were nothing deleted on reads, the map would hold exactly the last write of each key that nothing has cleared since |
| `Cache.ReadsServeStandingWrites` | lib/cache.ts:9-53 | on a clock that does not run back, a read at t returns a value other than null iff it is the key's last write, is within its ttl at t, and no delete or clear hit the key since; whether it came from a set or a factory |
| `Cache.ForgettingIsExact` | lib/cache.ts:55-68 | after a delete or clear a call for a key that was hit starts a factory, and a call for any other key is answered as before |
| `Cache.StoredNullIsAMiss` | lib/cache.ts:34-38 | a call returns at once iff an unexpired value other than null is stored; null is never served |
| `Cache.LazyDeletionIsInvisible` | lib/cache.ts:14-17 | on a clock that does not run back, all answers of all runs are as if reads deleted nothing |
| `Cache.DeleteIsFinalIffNoFlight` | lib/cache.ts:41-58 | a deleted key stays away until asked for again iff no factory for it was in flight |
| `Base64Url.B64Url` | lib/admin-session.ts:27-31 | by way of a binary string, the padded encoding, two replacements and a stripping: the result is unpadded base64url, and decoding it returns the bytes |
| `Base64Url.PassesEncode` | lib/admin-session.ts:30 | the replacements and the stripping turn the padded encoding into the unpadded one, whatever the padding |
| `Base64Url.B64UrlShape` | lib/admin-session.ts:30 | the output has no `+`, `/` or `=`, and swapping the alphabet back gives the letters of the standard encoding |
| `Base64Url.BytesOfSextets` | proxy.ts:261 | cutting bytes into sextets and back loses nothing |
| `Base64Url.DecodeUnpadded` | proxy.ts:259-262 | the padding formula makes any unpadded encoding acceptable to `atob`, which drops that padding again |
| `Base64Url.DecodeUndoesEncode` | proxy.ts:259-262 | decoding an encoding returns the bytes, for every byte sequence |
| `Base64Url.B64UrlInjective` | lib/admin-session.ts:27-31 | different bytes never share an encoding |
| `SessionCookie.ChunkNames` | proxy.ts:271-274 | a cookie is the chunk n iff its name is the session's, a dot and a numeral worth n |
| `SessionCookie.WholeCookieWins` | proxy.ts:269-270 | the first cookie with the session's own name is the session, whatever the chunks, unless it is empty |
| `SessionCookie.WholeSessionSurvives` | proxy.ts:264-279 | encoded and stored in one piece, the session bytes are unchanged |
| `SessionCookie.ChunksReassemble` | proxy.ts:267-276 | a value cut into any number of numbered chunks, mixed with unrelated cookies in any order, reassembles, also past chunk 9 |
| `SessionCookie.SessionSurvivesTheJar` | proxy.ts:264-279 | encoded, cut, shuffled, reassembled and decoded, the session bytes are unchanged |
| `AdminSession.BitXorZero` | lib/admin-session.ts:39 | the exclusive or of two codes or lengths is zero iff they are equal |
| `AdminSession.BitOrZero` | lib/admin-session.ts:40 | the accumulator is zero iff it was and the next difference is |
| `AdminSession.Equal` | lib/admin-session.ts:37-42 | the loop returns true iff the strings are equal |
| `AdminSession.VerifyAdminSession` | lib/admin-session.ts:59-70 | the checks in order amount to the acceptance predicate |
| `AdminSession.ParseInvertsPrint` | lib/admin-session.ts:51-66 | parsing gives (digits, signature) iff the string is the prefix, thirteen digits, a dot and that signature |
| `AdminSession.MintedVerifiesIff` | lib/admin-session.ts:45-70 | with a master a session is minted, its stated expiry is 12 h on, and it verifies at t iff t0 - 60 s <= t < that expiry and the expiry has thirteen digits |
| `AdminSession.FailsClosed` | lib/admin-session.ts:49-61 | without a master nothing is minted and nothing verifies, nor does a missing session |
| `AdminSession.ExpiryCannotBeChanged` | lib/admin-session.ts:33-69 | if one signature is accepted under two expiries, two different messages of the scheme have one code under the master |
| `AdminSession.RotationEndsSessions` | lib/admin-session.ts:33-69 | if one session is accepted under two masters, some message of the scheme has one code under both |
| `AdminSession.AcceptedIff` | lib/admin-session.ts:59-70 | at any time the accepted strings are exactly those with thirteen digits worth an expiry in the window and the signature of that expiry |
| `AdminSession.AcceptedIsMintable` | lib/admin-session.ts:45-70 | from 10^12 ms on: accepted iff it is the session of some expiry in (now, now + TTL + 60 s] below 10^13, and no string is the session of two expiries |
| `Redirects.CaseFoldedPath` | proxy.ts:421-439 | for a root in the set the result has root and tab in lower case and, on a hub or under one of the seven entity tabs, everything after them too, all else unchanged; null iff the root is not in the set or the path has that form already |
| `Redirects.EntityTargetsAreLower` | proxy.ts:428-436 | the target of a hub path or an entity page has no capital |
| `Redirects.PlayerLinkFolds` | proxy.ts:433-434 | a player's page typed with capitals folds to the page |
| `Redirects.FoldIsStable` | proxy.ts:419-438 | the target of a fold never folds again |
| `Redirects.FoldKeepsCapitalsIff` | proxy.ts:414-438 | a fold's target has a capital iff some segment that does not fold has one |
| `Redirects.FoldMayKeepCapitals` | proxy.ts:414-418 | two inputs with such targets, against the comment |
| `Redirects.TabRedirectLandsOnOverview` | proxy.ts:1572-1607 | a tab redirect lands on /slug/overview, which no stage redirects and which is public |
| `Redirects.ThinTabIff` | proxy.ts:441-442 | on paths: a thin tab is one of the ten under the slug, or anything below it |
| `Redirects.RetiredTabIff` | proxy.ts:484-496 | on paths: a retired tab is a listed slug and tab, with or without a slash at the end |
| `Redirects.ProxyChainsEndInTwo` | proxy.ts:1562-1607 | the proxy's own redirects end within two hops |
| `Redirects.ShortcutsAsWritten` | next.config.ts:63-72 | the three shortcuts, the wrong root, the trophy-case alias and the old UFC root lead where the table says, with their parameters |
| `Redirects.PinnacleAsWritten` | next.config.ts:91-107 | so do the pinnacle rules, a player before the general one |
| `Redirects.DisneyAsWritten` | next.config.ts:133-153 | so do the rules for Disney players, moments and editions |
| `Redirects.MovedIff` | next.config.ts:63-153 | where literals match exactly, the table moves these paths and no others |
| `Redirects.TableComesFirst` | next.config.ts:124-128 | a page that both would move is moved by the table, its spelling unfolded |
| `Redirects.NextLowersRank` | next.config.ts:63-153 | each path rule of the table strictly lowers a rank of paths |
| `Redirects.HopDecreases` | next.config.ts:63-153 | so does every hop of table and proxy together, whether literals match exactly or in any case |
| `Redirects.NoPathIsRevisited` | proxy.ts:1562-1607 | no chain of redirects visits a path twice |
| `Redirects.ThreeHopsAtMost` | proxy.ts:1562-1607 | and every chain ends within three hops |
| `EditionMarket.BuildLiveEditionMarketMap` | lib/edition-market-live.ts:51-119 | the one-pass grouping equals filter-then-aggregate per key |
| `EditionMarket.GroupRows` | lib/edition-market-live.ts:61-88 | after the loop each key holds the asks, offers and sales of its own rows, in order |
| `EditionMarket.Resolve` | lib/edition-market-live.ts:92-115 | the resolved figures of a group; the fallback to the first sale is unreachable |
| `EditionMarket.MarketExtremes` | lib/edition-market-live.ts:29-94 | the low ask is asked in one of the two ask fields of one of the key's rows and no such field asks less; likewise the best offer from above; each missing iff no row has one |
| `EditionMarket.ScopeByEdition` | lib/wallet-normalize.ts:17-30 | rows with edition keys share a scope iff keys, trimmed, and parallels agree |
| `EditionMarket.ScopeByName` | lib/wallet-normalize.ts:17-30 | rows without share one iff set, player and parallel agree |
| `EditionMarket.ParallelDefaults` | lib/wallet-normalize.ts:7-10 | a row's own parallel goes before its subedition, trimmed; none or blank is Base |
| `EditionMarket.MarketCounts` | lib/edition-market-live.ts:83-111 | the counts are the numbers of the key's rows with an ask, an offer, a sale |
| `EditionMarket.MarketSales` | lib/edition-market-live.ts:96-102 | the last sale is a whole number of hundredths within half of one of the median of the key's sales, which has at least half of them on either side; missing iff there are none |
| `EditionMarket.MedianIsMiddle` | lib/edition-market-live.ts:41-49 | the median is the mean of the two middle values of any sorted arrangement |
| `EditionMarket.MedianHalves` | lib/edition-market-live.ts:41-49 | the median has at least half of the values on either side |
| `EditionMarket.MarketIgnoresRowOrder` | lib/edition-market-live.ts:51-119 | permuting the rows changes nothing |
| `StreamSplit.ReadReply` | components/SupportChat.tsx:727-745 | for every cutting into chunks: text before the first separator, everything after it as metadata; each text shown extends the last |
| `StreamSplit.PartedIsUnique` | components/SupportChat.tsx:727-745 | a stream parts in one way only, so the reading cannot depend on the cutting |
| `Autographs.SignedSetIsComplete` | lib/autographs.ts:37-60 | an ok read is exactly the signed editions, a full page is an error, and no unsigned row ever comes out |
| `Autographs.FoldPairs` | lib/autographs.ts:125-131 | the fold returns the pairs with a fetched edition all of whose fetched editions are signed |
| `Autographs.PairKeysAgreeIff` | lib/autographs.ts:90-92 | two pairs share a key iff both names agree up to case and outer space, or one player's name, holding a bar, spills over into the other's set |
| `Autographs.PairKeyTellsApart` | lib/autographs.ts:90-92 | keys tell pairs apart as long as no player's name holds a bar |
| `Autographs.BarsCanClash` | lib/autographs.ts:90-92 | two different pairs with one key |
| `Autographs.ReadAllDayPairs` | lib/autographs.ts:107-132 | an ok result is the pairs of the two reads; ok iff no read that is made fails or fills a page |
| `Autographs.TrueWhenKeysTellSetsApart` | lib/autographs.ts:90-132 | when keys tell sets apart: returned iff some named edition of the table has the pair and every edition that has it is signed |
| `Autographs.ReturnedIff` | lib/autographs.ts:107-131 | a pair is returned iff a signed edition with a set name has it and no unsigned edition of a signed set does |
| `Autographs.TrueIffMixedKeysShow` | lib/autographs.ts:110-131 | for one given table the pairs are right about all of it iff every key that mixes signed and unsigned editions shows an unsigned one to the second read |
| `Autographs.ClaimHoldsIffKeysTellSetsApart` | lib/autographs.ts:110-131 | they are right for every way of signing the table's editions iff keys tell sets apart |
| `Address.ShapesAreDisjoint` | lib/address.ts:14-45 | the three recognisers exclude each other, so the order of detection does not matter |
| `Address.NormalizeAddressIdempotent` | lib/address.ts:99-102 | normalising twice is normalising once |
| `Address.NormalizingMovesChainIff` | lib/address.ts:39-102 | normalising changes the detected chain iff the trimmed string is 32 to 44 characters that fold to base58 with an O or I among them, or `0X` with 16 or 40 hex digits |
| `Address.NormalizingCanMoveChain` | lib/address.ts:99-102 | an unknown string that becomes a Solana address, and one that becomes a Cadence address |
| `Address.NormalizeFlowEventAddressIdempotent` | lib/address.ts:110-113 | the padded event form is idempotent on every string |
| `Address.EventFormRestoresZeros` | lib/address.ts:104-113 | a Flow address that lost any number of leading zeros, with or without its prefix, comes back whole |
| `Address.NormalizeFlowAddressIdempotent` | lib/address.ts:127-136 | both validated Flow forms are idempotent where defined |
| `Address.DisplayAddressIdempotent` | lib/address.ts:176-183 | the display form is idempotent where defined |
| `Address.WalletQueryKeyIdempotent` | lib/address.ts:221-228 | the query key is idempotent |
| `Address.QueryKeyKeepsCase` | lib/address.ts:216-228 | the key of a hex wallet is the wallet as given but for a missing prefix |
| `Address.DisplayIsFoldedKeyIff` | lib/address.ts:172-228 | the display form is that key folded, iff the wallet was not given with a capital X |
| `Address.CaseMattersOnlyForSolana` | lib/address.ts:95-102 | two Solana addresses normalise alike iff they are the same, two other strings iff they are up to case |
| `Address.Base58PassesVerbatim` | lib/address.ts:99-228 | a Solana address passes the three chain-agnostic forms as it is |
| `Address.StrictFormAgrees` | lib/address.ts:99-183 | what the strict Flow form accepts, every other folding form maps to the same Cadence address |
| `Address.StrictAcceptsIff` | lib/address.ts:99-136 | the strict form accepts exactly what normalises to a Cadence address |
| `Address.LenientIsStrictOncePrefixed` | lib/address.ts:127-136 | the lenient form is the strict one once the prefix is supplied |
| `MarketplaceMix.BuildMarketplaceMix` | lib/analytics-marketplace-mix-compute.ts:76-123 | the merging, deleting and pushing loops compute the mix, with its two empty outcomes |
| `MarketplaceMix.MixedIffVolume` | lib/analytics-marketplace-mix-compute.ts:76-91 | there is a mix iff the input's total volume is positive, and it reports that total; it is empty iff the input is |
| `MarketplaceMix.MergeAllVolumes` | lib/analytics-marketplace-mix-compute.ts:81-88 | after merging, each key holds the volume and count of the input entries that fold to it |
| `MarketplaceMix.SlicesAreTrue` | lib/analytics-marketplace-mix-compute.ts:76-120 | each slice shows volume and count of the input keys it stands for in any case, Pinnacle's under both its names, the last slice those of all other keys; no known marketplace is missed, and the last slice is there iff its volume is positive |
| `MarketplaceMix.SlicesInOrder` | lib/analytics-marketplace-mix-compute.ts:93-119 | slices come in render order, each marketplace at most once, the rest last |
| `MarketplaceMix.SlicesSumToTotal` | lib/analytics-marketplace-mix-compute.ts:90-122 | the total is the input's; the slices add up to it iff the volume outside the known marketplaces is not negative |
| `MarketplaceMix.NegativeRestIsNotShown` | lib/analytics-marketplace-mix-compute.ts:109-122 | an input whose slices do not add up to the total |
| `MarketplaceMix.FewSlices` | lib/analytics-marketplace-mix-compute.ts:38-48 | at most four slices, since one known key is merged away |
| `MarketplaceMix.WidthIsShare` | lib/analytics-marketplace-mix-compute.ts:71-74 | a width is the exact share, or half a percent where that is less or there is no volume |
| `MarketplaceMix.WidthsFillTheBar` | lib/analytics-marketplace-mix-compute.ts:71-74 | for non-negative volumes the widths add up to between 100 and 101.5 percent |
| `SeriesCharts.Accumulate` | lib/analytics-sets-dashboard-compute.ts:185-192 | the buckets hold every row that counts in its own cell, rows that do not count are skipped, and there is nothing else |
| `SeriesCharts.BuildSeriesChart` | lib/analytics-sets-dashboard-compute.ts:184-219 | each label with a row once, in order, the unmapped one last, with one sum per collection |
| `SeriesCharts.ChartShowsRows` | lib/analytics-sets-dashboard-compute.ts:184-219 | read off the rows: the labels are the rows' own but for the empty one, and each bar is the value of the rows with its label and collection |
| `SeriesCharts.BuildSeriesTableRows` | lib/analytics-sets-dashboard-compute.ts:241-267 | the rows of the given labels, in their order, absent ones left out |
| `SeriesCharts.TableShowsRows` | lib/analytics-sets-dashboard-compute.ts:241-267 | read off the rows: a table row for each label that some row has, holding for each column the sum of that column over the label's rows |
| `SeriesCharts.ChartAndTableAgree` | lib/analytics-sets-dashboard-compute.ts:184-267 | over the chart's labels, table rows and bar stacks correspond one to one and a row's total is the sum of the bars in its stack |
| `SeriesCharts.TableConserves` | lib/analytics-sets-dashboard-compute.ts:241-267 | every column adds up to that column over all input rows |
| `SeriesCharts.CellsAddUp` | lib/analytics-sets-dashboard-compute.ts:185-192 | the cells of a group add up to the group |
| `SeriesCharts.PivotDailySeries` | lib/analytics-pivot.ts:58-80 | one day per date with a kept row, in order; each top series on each day, holding that day's volume of it or zero |
| `SeriesCharts.PivotShowsRows` | lib/analytics-pivot.ts:58-80 | read off the rows: a day for each date with a row of a top series, and on it each top series' volume of that date |
| `SeriesCharts.PivotConserves` | lib/analytics-pivot.ts:66-78 | the bars of every day add up to the volume of that date's rows of the top series |
| `Text.SplitJoin` | proxy.ts:423-437 | splitting a path undoes joining its segments |
| `Text.JoinSplit` | proxy.ts:423-437 | and the other way round |
| `Text.NumberOfDigits` | lib/admin-session.ts:51-67 | reading a printed number gives the number |
| `Text.DigitsOfNumber` | lib/admin-session.ts:51-67 | printing a numeral's value gives the numeral back, if it has no leading zero |
| `Text.TrimDropsSpace` | lib/address.ts:28-44 | trimming drops white space at the ends and nothing else |
| `Sequences.FilterMapPermuted` | lib/edition-market-live.ts:61-88 | filtering a permutation gives a permutation |
| `Sequences.SortedUnique` | proxy.ts:271-275 | without ties between different elements there is one sorted arrangement |

## Left out

- AllDayLock: no other writer touches the wallet's rows between the read and the writes, and the chain's id list stays as it is during the walk. The refresh's timestamp is taken to be new to the table.
- AllDayLock: an update that lands late does so in its own round in the model of the run; landing in a later round or after the run is covered by two lemmas about the table instead.
- AllDayLock: a database client that rejects its promise instead of returning an error would end the pool early; the app's client returns errors.
- AllDayLock: the Flow and PostgREST calls are oracles that answer or fail; the deadline is a clock read per window. Moment ids are in the database's order through an abstract rank.
- RateLimit: the client key is given, not taken from request headers. The 300-second trigger of the sweep is replaced by sweeps at arbitrary points. Maps are per process, as in the source.
- AllowGate: the HMAC of `lib/auth/allow-cookie.ts` and its JSON are not modelled; a cookie is assumed to verify only if the proxy signed that entry. The several clock reads of one request, apart from the RPC, are one time.
- Cache: a factory that throws before returning a promise, or that calls the cache itself while starting, is not modelled. Handlers run in the turn in which the factory settles.
- AdminSession: HMAC-SHA256 is an arbitrary function of key and message, so that forging is outside the model; what rests on its strength is stated as a collision that would have to exist. Strings are shorter than 2^31, where the source's bitwise operators would start to truncate. Times are whole milliseconds below 10^21, where printing changes to exponents.
- Text: case folding and white space are ASCII; Unicode folding and the wider set of white-space characters are not modelled.
- SessionCookie: the older cookie form read with `decodeURIComponent`, the JSON, the token's claims and the project reference are not modelled.
- Redirects: the canonical-host rule, query strings, trailing-slash handling and other corner cases of path-to-regexp are library behaviour; case is covered by proving everything for exact and for case-insensitive literals. The 404 for paths with a backslash comes before the proxy's redirects and only removes hops.
- Redirects: of `isPublicPath` only the overview rule is modelled, the one that tab redirects need.
- EditionMarket: prices are reals, so rounding, overflow of the median's sum and the binary error of `toFixed` are not modelled. `source`, `notes` and `tags` are constants. The insertion order of the result map is not modelled.
- StreamSplit: the chunks are already decoded text; parsing the metadata JSON and an aborted read are not modelled.
- Autographs: the Top Shot read, the badge-slug helper and the time bound on reads are single-branch wrappers. A read returns the rows in table order, up to 1000.
- Address: username checks, truncation for display and the per-chain validation table are single-branch.
- MarketplaceMix: record keys named like members of JavaScript's object prototype are not modelled, nor are labels, colours and formatters. Counts are integers, volumes reals; entries keep insertion order.
- SeriesCharts: labels come from an abstract total order without ties, in place of the rank table and `localeCompare`; series labels are given. No collection or label is named like the reserved columns `series_label` and `date`. Missing or non-finite inputs are already zero or absent.
- SeriesCharts: `pivotDailyTier` keeps the last value per date and tier and would add only an easier variant of the same loop.
- Rendering, routes, telemetry, alerts, formatters, slug and label registries have no invariant beyond one branch each.
