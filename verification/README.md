# Verification of the investment platform's stateful core

This project models five components of the repository in Dafny 4.11 and proves what they keep over
whole runs. To check it, run `dafny verify dfyconfig.toml` in this directory.

| component | modules |
|---|---|
| shared-cash backtest engine (`packages/backtesting/engine.py`) | `Rounding`, `BacktestModel`, `BacktestAccounts`, `BacktestRisk`, `BacktestTrades`, `BacktestRun`, `BacktestTiming`, `BacktestTargets`, `BacktestCausality`, `BacktestSnapshots`, `BacktestEngine`, `BacktestOversell` |
| native authentication (`packages/auth/native.py`) | `AuthModel`, `AuthProtocol`, `AuthGuarantees`, `AuthAcceptance`, `AuthStore`, `AuthHashGate`, `RateLimit`, `RateLimitBound`, `RateLimitTightness` |
| temporal graph, its queries and its write side (`packages/economic_graph/`) | `GraphModel`, `GraphTraversal`, `GraphValidity`, `GraphEquivalence`, `GraphEvidence`, `GraphFacts`, `IdentifierResolution` |
| scenario propagation (`packages/adversarial_intelligence/service.py`) | `ScenarioModel`, `ScenarioSearch`, `ScenarioPropagation`, `ScenarioValues`, `ScenarioSensitivity` |
| feature pipeline (`packages/hypothesis/dsl.py`) | `FeaturePipeline`, `FeatureMeaning`, `FeatureCausality` |

## How the model is built

Code that changes state is imperative here too: the engine's positions and simulation, the
authentication tables, the rate buckets, the evidence and identifier tables are classes whose methods
update their fields in place, and the traversal, the propagation, the sensitivity curve and the array
transforms are methods with the source's loops. Each such method is proved equal to a specification
function of its inputs or of the old state, and the properties below are lemmas about those functions,
so they hold of what the methods leave behind. Beside the laws that relate several functions, each
component has lemmas that say what its specification means in the tables', edges' and bars' own fields
and in the source's own constants, without the functions that compute it (`BacktestTargets.BarAims`,
`AuthAcceptance.AcceptedIff`, `RateLimitTightness.AttemptByFields`, `GraphValidity.PathsByFields`,
`GraphFacts.RelationshipDoes`, `ScenarioValues.PropagationDelivers`, `FeatureMeaning.OperationMeans`).

- **Backtest engine.** Decimals are exact reals. Each explicit `quantize` call is a real rounding
  function: half-even to 1e-6 for money and 1e-8 for prices, toward zero to 1e-8 for shares.
  The strategy is an arbitrary pure function of the closes so far and the bar index. `After(u, k)` is
  the state after `k` bars; its `journal` lists every rebalance with its fills, and a fill carries the
  unrounded realized profit and the share remainder that a sale writes off.
- **Authentication.** Every transaction is one step of a transition system over profiles, credentials,
  sessions and the callers that are between their first read and their commit. Passwords and hashes
  are uninterpreted; the hasher's verdict is a parameter. `Run(actions, cfg)` is the state after any
  interleaving. The rate limiter and the hash gate have runs of their own.
- **Graph.** `Level(g, q, k)` and `Paths(g, q, k)` are built hop by hop; the traversal returns them,
  and they are proved to be exactly the simple visible paths. The recursive SQL query is modelled as
  the least fixed point of its two terms, up to the depth bound.
- **Scenario.** The search is separated from the values it carries: `Visits` says which nodes are
  reached along which edges, `Fold` what a shock is worth after a path.
- **Features.** A missing value (NaN) is `None`, floats are reals, and the library's standard
  deviation is an uninterpreted function of the window.

## Where the code and its documentation disagree

The model follows the code; each disagreement is a theorem with its exact condition.

- `docs/graph/query-limits.md` calls the recursive query and the bounded traversal behaviorally
  equivalent, says both enforce entity validity, and promises an explicit error when the node budget is
  exceeded. The recursive query looks neither at the start's validity, nor at that of the entities it
  reaches, nor at a predicate filter, and its `LIMIT` counts rows where the traversal counts nodes. For
  one set of limits the two give the same answer if and only if the limits are valid, the start is
  visible, there are fewer paths than `max_nodes`, and the traversal follows every live relationship
  within reach, or else the row limit happens to cut off just the rows it does not follow
  (`GraphEquivalence.QueriesAgreeIff`; before any limit, `RowsArePathsIff`). They differ past an expired
  entity (`ExpiredEntityDiffers`), and over two parallel relationships with a limit of two, though
  everything is visible (`ParallelLinksDiffer`). Past the budget the traversal raises and the recursive
  query silently returns its first rows (`TruncatesSilently`).
- The engine and `docs/backtesting-methodology.md` describe a long-only simulator. A rebalance sells
  shares it does not hold if and only if equity at the open, times some target weight, is at least one
  share tick's worth below zero (`BacktestRisk.OversellsIff`). A valid four-bar run gets there, through
  a sale worth less than its commission (`BacktestOversell.OversellReachable`); without a commission no
  run does (`BacktestRun.FreeTradingIsPrudent`), nor with initial cash of at most one commission, which
  never trades (`PennilessNeverTrades`).

## Where a guarantee stops

These are consequences of the code that a caller may not expect, again with their exact conditions.

- The fixed windows of the rate limiter admit up to twice a limit in sixty seconds that straddle two
  windows (`RateLimitBound.WindowBound`). An account reaches that if and only if its limit is below the
  global one, or equals it while the source limit is below; a source likewise, and the global bucket if
  and only if an account or a source runs out before it (`RateLimitTightness.AccountReachedIff`,
  `SourceReachedIff`, `GlobalReachedIff`).
- The hash gate's database locks go with their connection while a hash goes on. In any reachable state
  more than two tasks can come to hash at once, with no further loss, if and only if some task already
  hashes without a lock (`AuthHashGate.ThirdHashIff`).
- `create_relationship` inserts the row and then links the evidence item by item, until a direction is
  unknown. What a write of a new, acceptable fact leaves in the session is in order if and only if the
  fact is not verified or a supporting item precedes every item of unknown direction
  (`GraphEvidence.PartialWriteIff`); otherwise the unit of work's rollback is what restores the
  invariant.
- `create_resolution_candidate` trusts its status argument. It keeps the tables in order if and only if
  the claim is stored already or is opened undecided (`IdentifierResolution.ClaimKeepsInvIff`), as every
  caller in the repository opens it. What a key maps to is permanent either way (`MappingIsForever`).
- A response to a larger shock can be smaller. For nonnegative gains this happens on a path if and only
  if the path has a binary disruption and passes anything on at all (`ScenarioSensitivity.FoldMonotoneIff`);
  every ascending list of shocks is called `MONOTONIC` if and only if the path that decides the target's
  response is not of that kind (`AlwaysMonotonicIff`).

## Model

| member | source | states |
|---|---|---|
| Rounding.MoneyNearest | packages/backtesting/engine.py:18-24 | rounding money moves it by at most half a micro, onto the micro grid |
| Rounding.MoneyMonotone | packages/backtesting/engine.py:23-24 | rounding money keeps order |
| Rounding.PriceBounds | packages/backtesting/engine.py:383 | rounding never carries a price across a grid-aligned open, in either direction |
| Rounding.HalfEvenTies | packages/backtesting/engine.py:23-24 | a value halfway between two goes to the even one |
| Rounding.PriceNearest | packages/backtesting/engine.py:383 | a price is rounded to within half a tick |
| Rounding.SharesBounds | packages/backtesting/engine.py:276-279 | share counts are rounded toward zero, and come out negative exactly from one tick below zero on |
| BacktestEngine.ExecuteOrder | packages/backtesting/engine.py:328-377 | executing an order in place yields the specified fill, cash and position: cost averaged on a buy, profit realized and a last tick written off on a sale |
| BacktestAccounts.ExecuteSettles | packages/backtesting/engine.py:341-377 | every execution moves cash by gross and fee, conserves shares up to the written-off remainder, and changes cash plus cost basis by exactly the realized profit less the basis written off |
| BacktestAccounts.BuyAffordable | packages/backtesting/engine.py:305-323 | a buy never spends cash the account does not have: the estimate is the execution price, and rounding fits the budget |
| BacktestEngine.SellDown | packages/backtesting/engine.py:280-298 | the selling loop over all positions computes the specified pass and sums its fees |
| BacktestEngine.BuyUp | packages/backtesting/engine.py:299-325 | the buying loop, cut to the cash left and recording rejections, computes the specified pass and sums its fees |
| BacktestEngine.RebalancePortfolio | packages/backtesting/engine.py:250-326 | a rebalance is sells then buys towards the desired quantities at one equity, against one cash balance |
| BacktestAccounts.SellPassAccounted | packages/backtesting/engine.py:280-298 | through all sells cash, basis and every symbol's shares stay accounted for, and cash loses no more than fees exceed proceeds |
| BacktestAccounts.BuyPassAccounted | packages/backtesting/engine.py:299-325 | the same through all buys |
| BacktestRisk.WeightsWithinLimits | packages/backtesting/engine.py:264-273 | whatever the strategy asks for, each weight is within 0.99 of the position limit and their sum within 0.99 of the exposure limit |
| BacktestRisk.SharesForBounds | packages/backtesting/engine.py:276-279 | a desired quantity costs at most its weight's part of equity, and is negative exactly when that part is a tick's worth below zero |
| BacktestRisk.GrossAdverse | packages/backtesting/engine.py:341-342 | spread and slippage never favour the trader by more than half a micro of rounding |
| BacktestRisk.BuyAtMostWanted | packages/backtesting/engine.py:304-309 | cutting a buy to the cash at hand never makes it larger than wanted |
| BacktestRisk.SellPassSound | packages/backtesting/engine.py:280-298 | selling towards nonnegative targets sells only shares held, leaves every position at most at its target, and creates no value |
| BacktestRisk.BuyPassSound | packages/backtesting/engine.py:299-325 | buying keeps every position at most at its target and creates no value |
| BacktestRisk.RebalancePrudent | packages/backtesting/engine.py:263-326 | with nonnegative equity at the open every rebalance ends within the position and exposure caps, never sells more than is held, and leaves at most the old equity less fees plus half a micro per trade |
| BacktestRisk.OversellsIff | packages/backtesting/engine.py:276-285 | a rebalance sells shares it does not hold if and only if equity times some weight is at least a tick's worth below zero |
| BacktestTrades.ExecuteMoves | packages/backtesting/engine.py:328-377 | a fill's price is the open moved against the trader by half the spread and the slippage, to half a tick; a buy adds its whole cost to the position's and dates a position it opens; a sale realizes its proceeds less the average cost, counts the bars since the opening, and closes a position of at most a tick |
| BacktestTrades.SellsEnd | packages/backtesting/engine.py:280-298 | the sells bring exactly the symbols above what is desired down to it, one trade each, in order, and touch no other position |
| BacktestTrades.BuysEnd | packages/backtesting/engine.py:299-325 | the buys bring the symbols below what is desired up to it, in order, and fall short of it, or are rejected, only where the cash left would not pay for one more tick |
| BacktestTrades.RebalanceCarriedOut | packages/backtesting/engine.py:250-326 | a rebalance wants of each symbol the last whole number of ticks within its weight's part of equity at the opens, sells and then buys towards it, and every trade records the cash it left |
| BacktestOversell.OversellReachable | packages/backtesting/engine.py:353-354 | a valid run of four bars from the initial cash that sells shares it does not hold, through a sale worth less than its commission |
| BacktestRun.RebalanceKeepsBooks | packages/backtesting/engine.py:112-144 | a rebalance in a run keeps the books: balances, fee counter, cash floor, and a prudent journal entry at the bar's own time and opens |
| BacktestRun.BooksBalance | packages/backtesting/engine.py:109-220 | after every bar of every run the books balance |
| BacktestRun.CashFloor | packages/backtesting/engine.py:341-360 | cash is never below minus the fees that sales failed to cover, and never negative without a commission |
| BacktestRun.ProfitConserved | packages/backtesting/engine.py:100-145 | cash plus cost basis plus written-off basis is the initial cash plus the exact realized profit, and the fee counter is the sum of the trades' fees, after every bar of every run |
| BacktestRun.SharesConserved | packages/backtesting/engine.py:351-360 | shares held are shares bought less sold less written off, and with nonnegative equity at every rebalance at most one tick per sale is written off |
| BacktestRun.FreeTradingIsPrudent | packages/backtesting/engine.py:109-145 | with no commission and whole-micro initial cash, every rebalance of every run has nonnegative equity, ends within the caps, creates no value and sells only shares held, nothing assumed about equity |
| BacktestRun.PennilessNeverTrades | packages/backtesting/engine.py:304-312 | with initial cash of at most one commission no run ever trades |
| BacktestEngine.EligibleExecutionIndex | packages/backtesting/engine.py:241-248 | the search loop finds the specified bar or none |
| BacktestTiming.EligibleIndexFirst | packages/backtesting/engine.py:241-248 | that bar is the first one at or after the delay whose time is strictly after the signal; none only if there is no such bar |
| BacktestTiming.QueueIsUndue | packages/backtesting/engine.py:109-220 | before every bar the queue holds exactly the scheduled target sets that are not yet due, in order, and there is one snapshot per past bar |
| BacktestTiming.FiresExactlyOnce | packages/backtesting/engine.py:111-145 | the target sets that fire at a bar are exactly those scheduled anywhere in the run for that bar: none is lost, repeated or moved |
| BacktestTiming.BarEntries | packages/backtesting/engine.py:111-145 | each bar adds one rebalance for each due target set, in order, or, with none due, at most one risk-limit rebalance signalled by the previous bar |
| BacktestTiming.NeverBeforeSignal | packages/backtesting/validation.py:28 | every rebalance of every run executes strictly after its signal |
| BacktestTiming.NoSameBarTrade | packages/backtesting/validation.py:28 | so does every trade, risk-limit ones included: the same-bar rule of the report can never fail |
| BacktestTargets.ColumnsAre | packages/backtesting/engine.py:110-183 | opens, closes and the closes so far are those of the aligned bars |
| BacktestTargets.WeightsExact | packages/backtesting/engine.py:264-273 | the weights are the targets capped to the position limit or, where these exceed the exposure limit, use all of it in the same proportions |
| BacktestTargets.ScheduledUnlessLate | packages/backtesting/engine.py:179-219 | a bar schedules one target set, unless no symbol has a weight or no bar past the delay is later than what one of them decided on |
| BacktestTargets.ScheduledAsks | packages/backtesting/engine.py:184-219 | that set names exactly the symbols whose decision on the closes so far has a weight, with that weight and explanation, and carries the latest of their publication and effective times |
| BacktestTargets.TargetsOverRuns | packages/backtesting/engine.py:130-131 | before every bar of every run a symbol's target is the weight that the last fired set naming it asked for, and zero if none did: a set leaves the targets of symbols it does not name |
| BacktestTargets.BarAims | packages/backtesting/engine.py:111-145 | each bar makes one rebalance for each set due, in order, each starting from the account the one before it left, aimed at what had been asked for by then and giving the reasons of its set; or, with none due, one towards the standing targets exactly when the last close was over a buffered limit |
| BacktestCausality.SameState | packages/backtesting/engine.py:109-220 | runs whose markets agree before a bar's close are in the same state, up to targets due later |
| BacktestCausality.JournalThrough | packages/backtesting/engine.py:109-145 | later bars never alter the rebalances made so far |
| BacktestCausality.Causality | packages/backtesting/engine.py:109-220 | two finished runs whose markets agree below bar n and on its times and opens made identical rebalances, trade for trade, through bar n and identical snapshots and signals below it, however they continue |
| BacktestSnapshots.SnapshotsTrackPeak | packages/backtesting/engine.py:147-177 | there is one snapshot per bar, the peak is the highest of initial cash and recorded equities, and every drawdown is the equity against the peak by then: never positive, zero exactly at the peak |
| BacktestSnapshots.SnapshotsAreExact | packages/backtesting/engine.py:157-172 | with whole-micro initial cash and commission the recorded cash and cumulative fees are exact: rounding them loses nothing |
| BacktestSnapshots.BarRecords | packages/backtesting/engine.py:147-206 | each bar records one snapshot, which values the account it ends with at the bar's closes, position by position and to half a micro, with exposure and benchmark, and one signal for each symbol with a weight |
| BacktestEngine.GenerateSignals | packages/backtesting/engine.py:179-206 | the per-symbol loop collects the strategy's signals, target updates, reasons and latest signal time |
| BacktestEngine.Simulation.Rebalance | packages/backtesting/engine.py:117-129 | one rebalance inside the run updates cash, positions, fees, trades and rejections as specified and nothing else |
| BacktestEngine.Simulation.FireDue | packages/backtesting/engine.py:130-144 | due target sets update the targets and rebalance one after the other, in the order scheduled |
| BacktestEngine.Simulation.TradeBar | packages/backtesting/engine.py:110-145 | at a bar's open due targets fire in order, and only with none due can a breached limit rebalance |
| BacktestEngine.Simulation.RecordSnapshot | packages/backtesting/engine.py:147-177 | the close is marked into one snapshot and the running peak |
| BacktestEngine.Simulation.EmitSignals | packages/backtesting/engine.py:179-220 | a bar's signals are recorded and schedule at most one target set |
| BacktestEngine.Simulation.CloseBar | packages/backtesting/engine.py:147-220 | the closing half of a bar computes the specified state |
| BacktestEngine.Run | packages/backtesting/engine.py:46-225 | the whole loop refuses runs with too few bars and otherwise reports exactly the specified trades, snapshots, signals and rejections |
| AuthModel.FindLogin | packages/auth/native.py:222-227 | the lookup by login finds the credential with that login if there is one |
| AuthStore.Store.RevokeSessions | packages/auth/native.py:202-206 | exactly the user's unrevoked sessions are revoked; no row appears or vanishes, and nothing but the revocation time of those rows changes |
| AuthStore.Store.CommitEnrollment | packages/auth/native.py:182-208 | enrolment or reset has the specified effect, and an error leaves the tables alone |
| AuthStore.Store.CommitLogin | packages/auth/native.py:230-271 | a sign-in issues exactly when its checks pass, drops expired and surplus rows and adds one |
| AuthStore.Store.Authenticate | packages/auth/native.py:285-328 | a session is accepted exactly when live and current, and touched only when stale |
| AuthStore.Store.SignOut | packages/auth/native.py:331-341 | only the owner's named session is revoked, and it is then rejected; every other row is unchanged |
| AuthStore.Store.CommitChange | packages/auth/native.py:370-397 | a password change replaces the hash, advances the version and revokes every session, or changes nothing |
| AuthStore.SessionsNewestFirst | packages/auth/native.py:251-255 | the selection lists each of a user's sessions once, newest first |
| AuthProtocol.IssueKeepsNewest | packages/auth/native.py:250-270 | of a user's unexpired sessions exactly the nine newest survive a sign-in beside the new one; everyone else's survive unchanged |
| AuthProtocol.NextKeepsInv | packages/auth/native.py:169-397 | every step of every caller keeps the protocol invariant |
| AuthProtocol.InvOverRuns | packages/auth/native.py:169-397 | in every reachable state logins are unique, every unrevoked session carries the current credential version, nobody has more than ten sessions, and idle expiry is the earlier of last-seen plus idle and the absolute expiry |
| AuthGuarantees.TokenMeansCurrentPassword | packages/auth/native.py:221-271 | under every interleaving a token is issued only to a caller whose password matches the hash still current at that step, for an enabled user, and such a caller does get one |
| AuthGuarantees.HashChangesOnlyWithCurrentPassword | packages/auth/native.py:344-397 | an enrolled credential changes only by a reset or by a caller who gave the current password and presents a live session, of the current version, of that user's own |
| AuthGuarantees.EndedNeverAccepted | packages/auth/native.py:202-206 | a session ended by a reset, change, logout or clean-up is never accepted again, whatever follows and at any clock reading |
| AuthGuarantees.DeadForever | packages/auth/native.py:293-303 | a revoked, deleted or outdated session stays so |
| AuthGuarantees.RowsKeepIdentity | packages/auth/native.py:304-320 | owner, version, issue time and absolute expiry of a session never change, last-seen never goes back, and a deleted row never returns |
| AuthGuarantees.AbsoluteExpiryIsFinal | packages/auth/native.py:313-319 | no sequence of touches, even split between read and compare-and-set, carries a session past its absolute expiry |
| AuthGuarantees.OwnedOverRuns | packages/auth/native.py:277-328 | every authenticated principal, and every password change under way, names a user and a session of that user's own |
| AuthAcceptance.AcceptedIff | packages/auth/native.py:293-303 | in every reachable state a session is accepted if and only if it is unrevoked, its user's profile exists and is enabled, it was seen less than the idle time ago and its absolute expiry is ahead |
| AuthAcceptance.DisabledIsShutOut | packages/auth/native.py:239-301 | once a profile is disabled, and until it is enabled again, whatever else happens none of its sessions is accepted at any clock reading, no authentication vouches for it, it gets no session and its credential stays |
| AuthAcceptance.SignIn | packages/auth/native.py:211-274 | an undisturbed sign-in issues a session if and only if the login is that of an enabled user with that password; the session is theirs and, unused, is accepted for the idle time, or the absolute time where that is shorter |
| AuthAcceptance.AcceptedUntil | packages/auth/native.py:261-270 | however it is used, a session is never accepted once the absolute time has passed since its issue |
| AuthAcceptance.TenSessions | packages/auth/native.py:250-260 | nobody has more than ten sessions, and a sign-in keeps nine of the user's unexpired ones, or all if there are fewer, none older than one it drops |
| AuthAcceptance.Authenticate | packages/auth/native.py:277-328 | an undisturbed authentication vouches for the user and renews the idle time if the session was last seen the touch interval ago, changes no other session's acceptance, and never passes the absolute expiry |
| AuthAcceptance.LateTouch | packages/auth/native.py:304-320 | a delayed touch sets last-seen exactly where the row is unrevoked, unexpired, stale and untouched since it was read, and otherwise changes nothing |
| AuthAcceptance.StaysAccepted | packages/auth/native.py:169-397 | an accepted session stays accepted at every step that neither ends it nor disables its user |
| AuthAcceptance.EnrolIff | packages/auth/native.py:182-208 | an enrolment or reset succeeds if and only if the profile is enabled, the login is nobody else's and there is a credential just when it is a reset; it installs login, hash and version, and a reset revokes all of that user's sessions and nobody else's |
| AuthAcceptance.ChangeIff | packages/auth/native.py:370-397 | a password change commits if and only if the user is enabled, the credential is the one read and matches the password given, and the session is neither revoked nor expired; it installs the new hash and revokes all of that user's sessions |
| AuthAcceptance.ChangeRemembers | packages/auth/native.py:355-364 | a change under way remembers the caller's user, session and the credential's version as read |
| AuthAcceptance.SignOutOnlyOwn | packages/auth/native.py:331-341 | signing out revokes the named session only if it is the caller's own, and touches nothing else |
| AuthHashGate.InvOverRuns | packages/auth/native.py:60-84 | in every reachable state permits out equal tasks inside, and every lock belongs to a task hashing under it |
| AuthHashGate.PermitsConserved | packages/auth/native.py:62-84 | a process never has more than two tasks inside, no permit leaks on any path, and a task is refused at the semaphore exactly when two are inside |
| AuthHashGate.HashingBounded | packages/auth/native.py:70-82 | over all processes at most two tasks hash under a lock, whatever connections are lost |
| AuthHashGate.TwoHashAtMost | packages/auth/native.py:68-82 | from the start, while connections survive, at most two tasks hash at once over all processes |
| AuthHashGate.ThirdHashIff | packages/auth/native.py:68-84 | from a reachable state more than two tasks can come to hash at once, with no further connection lost, if and only if some task already hashes without a lock |
| AuthHashGate.LossAdmitsAThird | packages/auth/native.py:68-70 | in any reachable state, losing the connection of any hashing task lets a third hash |
| AuthHashGate.AdmittedIff | packages/auth/native.py:60-84 | on PostgreSQL a task that asks undisturbed hashes if and only if its process has a permit left and a lock is free, under the first free one, and otherwise leaves no trace |
| AuthHashGate.AdmittedByPermitIff | packages/auth/native.py:62-67 | elsewhere the permit alone decides, and no lock is taken |
| AuthHashGate.LeavingFrees | packages/auth/native.py:68-84 | a task that leaves gives back its permit and its lock and nothing else; a lost connection gives back the lock alone |
| RateLimit.RateTable.Sweep | packages/auth/native.py:140-150 | the global bucket is ensured, exactly the other expired buckets are deleted, and no remaining bucket changes |
| RateLimit.RateTable.Prepare | packages/auth/native.py:151-161 | the attempt's three buckets are created or restarted, and exhaustion of any is reported |
| RateLimit.RateTable.CountAttempt | packages/auth/native.py:162-164 | each of the attempt's buckets counts one more and no other changes |
| RateLimit.RateTable.Throttle | packages/auth/native.py:138-166 | an attempt is admitted exactly when all three counters are below their limits, and counted only then |
| RateLimit.RefreshedIsReady | packages/auth/native.py:146-160 | deleting and then refreshing key by key is the same as taking each bucket's present value at once |
| RateLimitBound.WindowBound | packages/auth/native.py:125-166 | for every account slot, source slot and globally, no half-open sixty-second interval, to the microsecond, admits more than twice the limit |
| RateLimitTightness.BelowGlobalIsReached | packages/auth/native.py:151-164 | a run that admits one account twice its limit within one interval, wherever that is below the global one |
| RateLimitTightness.GlobalIsReached | packages/auth/native.py:151-164 | a run that admits twice the global limit within one interval, wherever a source limit is below it |
| RateLimitTightness.MirrorRun | packages/auth/native.py:133-137 | accounts and sources are interchangeable: exchanging them throughout a run exchanges their counts |
| RateLimitTightness.AttemptByFields | packages/auth/native.py:125-166 | an attempt is admitted if and only if none of its three live buckets has counted its limit; it is then counted in all three, those not alive start a life of sixty seconds, and the others stay as long as they live |
| RateLimitTightness.GlobalBoundsAll | packages/auth/native.py:133-137 | no account or source is admitted more than twice the global limit |
| RateLimitTightness.NeverTwice | packages/auth/native.py:151-164 | where neither account nor source limit is below the global one, every interval admits less than twice the global limit |
| RateLimitTightness.AccountReachedIff | packages/auth/native.py:133-166 | an account is admitted twice its limit in some such interval if and only if that is below the global one, or equals it while the source limit is below |
| RateLimitTightness.SourceReachedIff | packages/auth/native.py:133-166 | a source is admitted twice its limit if and only if that is below the global one, or equals it while the account limit is below |
| RateLimitTightness.GlobalReachedIff | packages/auth/native.py:125-166 | twice the global limit is admitted in some such interval if and only if an account or a source limit is below it |
| RateLimitBound.RefusalConsumesNothing | packages/auth/native.py:151-166 | a refused attempt leaves the bucket that counts each key as it was, attempts and expiry, but starts a fresh lifetime for each of its keys that had none running |
| RateLimitBound.BucketsBounded | packages/auth/native.py:129-137 | there are never more than 1 + 2 * 4096 buckets |
| GraphTraversal.PathsAreSimplePaths | packages/economic_graph/traversal.py:78-134 | the paths built hop by hop are exactly the simple paths of visible relationships and entities of those lengths |
| GraphTraversal.ReachedIsWithinHops | packages/economic_graph/traversal.py:77-134 | the nodes returned are exactly the entities within the depth by any walk, not just a simple one |
| GraphTraversal.RecordKeepsProgress | packages/economic_graph/traversal.py:104-134 | recording and queueing one extension keeps the traversal's invariant |
| GraphTraversal.FinishedIsAll | packages/economic_graph/traversal.py:80-134 | with the queue empty every path has been recorded |
| GraphTraversal.Expand | packages/economic_graph/traversal.py:86-134 | trying all edges of one path records all its extensions, or stops because too many nodes are reachable |
| GraphTraversal.Traverse | packages/economic_graph/traversal.py:45-146 | the traversal terminates, fails exactly when more than the allowed nodes are reachable, and otherwise returns every simple visible path once, with exactly their nodes and relationships |
| GraphValidity.PathsByFields | packages/economic_graph/traversal.py:24-134 | the paths are the sequences of at most that many joins from the start that repeat no entity, where a join is a row of the workspace, verified or disputed, eligible, begun and not ended at the query's time, of an asked predicate, and leads to an entity of which the same holds |
| GraphValidity.AnswersByFields | packages/economic_graph/traversal.py:45-146 | in the same terms, the limits the traversal refuses, the start it does not see, the entities it returns and, as relationships, exactly the rows joining an entity reached a hop before the last to another |
| GraphValidity.RelationshipEnds | packages/economic_graph/traversal.py:37-40 | giving a relationship an end leaves the answer before that time, and from then on removes exactly the paths that use it, with their entities and relationships |
| GraphValidity.EntityEnds | packages/economic_graph/traversal.py:28 | the like for an entity: from its end on the paths through it are gone, and it is no start |
| GraphValidity.RelationshipStarts | packages/economic_graph/traversal.py:36 | the like for a relationship that begins later |
| GraphValidity.EntityStarts | packages/economic_graph/traversal.py:27 | the like for an entity that begins later |
| GraphValidity.RelationshipLearnt | packages/economic_graph/traversal.py:35 | the like for a relationship that becomes eligible later |
| GraphValidity.EntityLearnt | packages/economic_graph/traversal.py:26 | the like for an entity that becomes eligible later |
| GraphValidity.RelationshipJudged | packages/economic_graph/traversal.py:41 | a change of status removes the paths of a verified or disputed relationship unless it stays one of the two |
| GraphValidity.EntityJudged | packages/economic_graph/traversal.py:29 | the like for an entity |
| GraphEquivalence.PointInTimeStable | packages/economic_graph/traversal.py:24-42 | rows that become eligible after the query time change no path, node or limit failure |
| GraphEquivalence.RowsArePathsIff | packages/economic_graph/traversal.py:162-190 | before any limit, the rows beyond the root are the traversal's paths from a visible start if and only if the traversal follows every live relationship within reach |
| GraphEquivalence.RowsByFields | packages/economic_graph/traversal.py:162-190 | the recursive query's rows are all sequences of at most that many live rows of the workspace from the start that repeat no entity, whatever entities they pass |
| GraphEquivalence.LexicalIff | packages/economic_graph/traversal.py:193 | of two rows of one depth the earlier has the smaller identifier where they first differ |
| GraphEquivalence.QueriesAgreeIff | packages/economic_graph/traversal.py:45-206 | the traversal's outcome and the rows the limited query returns give the same answer if and only if limits are valid, the start is visible, there are fewer paths than the limit, and every live relationship within reach is followed, or the limit cuts off just the rows not followed |
| GraphEquivalence.QueriesAgreeOnVisibleEnds | packages/economic_graph/traversal.py:45-206 | without a filter and where live relationships join visible entities, the answers are the same exactly when there are fewer paths than the limit |
| GraphEquivalence.ProductionAgrees | packages/economic_graph/traversal.py:191-206 | with every live relationship within reach followed and fewer paths than the limit the answers are the same, whatever the filter |
| GraphEquivalence.TruncatesSilently | packages/economic_graph/traversal.py:121-122 | with as many paths as the limit or more, the recursive query returns that many rows of more and no error, while the traversal raises exactly past the node limit |
| GraphEquivalence.ExpiredEntityDiffers | packages/economic_graph/traversal.py:174-190 | a graph with an expired entity on which no two answers are the same |
| GraphEquivalence.ParallelLinksDiffer | packages/economic_graph/traversal.py:191-206 | a graph, wholly visible, of two parallel relationships on which the traversal returns both paths and the query with the same limit one |
| GraphEvidence.EvidenceStore.CreateEvidence | packages/economic_graph/service.py:345-394 | recording evidence checks checksum and eligibility and is idempotent by workspace, checksum and source |
| GraphEvidence.EvidenceStore.CreateRelationship | packages/economic_graph/service.py:397-486 | creating a relationship validates, is idempotent, and writes links one by one, keeping what was written when a direction is unknown and failing whole when a link is repeated |
| GraphEvidence.EvidenceStore.CreateRelationshipInScope | packages/database/session.py:32-43 | inside a unit of work the failed write is rolled back |
| GraphEvidence.EvidenceStore.ExpireRelationship | packages/economic_graph/service.py:489-499 | expiry must follow the start of validity; then the relationship is visible at no time, and no other row changes |
| GraphEvidence.EvidenceStore.ExplainPath | packages/economic_graph/traversal.py:209-247 | the explanation lists, in order, each eligible relationship with exactly its links to evidence eligible by then |
| GraphEvidence.LatestSupport | packages/economic_graph/service.py:422-430 | the evidence floor is at least every supporting item's eligibility |
| GraphEvidence.InvOverRuns | packages/economic_graph/service.py:345-499 | in every reachable state evidence is eligible no earlier than published, verified relationships have support, and none is eligible before its support |
| GraphEvidence.EvidencePrecedesVisibility | packages/economic_graph/service.py:422-430 | a verified relationship visible as of t has supporting evidence, all of it published by t and all of it listed in the explanation as of t |
| GraphEvidence.ReturnedRelationshipsRestOnEvidence | packages/economic_graph/traversal.py:33-42 | so every verified relationship a traversal returns as of t rests on evidence published by t |
| GraphEvidence.PartialWriteIff | packages/economic_graph/service.py:460-485 | what the write of a new, acceptable fact leaves behind is in order, even unrolled back, if and only if the fact is not verified or a supporting item precedes every item of unknown direction |
| GraphEvidence.PartialWriteIsUnsupported | packages/economic_graph/service.py:460-476 | a verified fact whose first item has an unknown direction, left behind without any support |
| GraphFacts.EvidenceDoes | packages/economic_graph/service.py:345-394 | evidence is stored if and only if its checksum has 64 lower-case hexadecimal digits, it is not eligible before it is published, and no record of its workspace, checksum and source is stored |
| GraphFacts.RelationshipDoes | packages/economic_graph/service.py:397-486 | a fact is stored, with exactly its items' links, if and only if it joins two different entities of its workspace in the vocabulary's terms, rests on known evidence eligible no later, has support if it is verified, names known directions without repeating an item, and no row states it already |
| GraphFacts.WriteStopsAt | packages/economic_graph/service.py:460-476 | where a direction is unknown the write fails with the row and exactly the links of the items before it in the session |
| GraphFacts.ExpireDoes | packages/economic_graph/service.py:489-499 | a relationship is expired if and only if it began before the given time, which becomes its end, and nothing else changes |
| GraphFacts.StoredOnce | packages/economic_graph/service.py:366-458 | in every reachable state no fact and no record of evidence is stored twice |
| GraphFacts.ExplanationInOrder | packages/economic_graph/traversal.py:215-247 | the explanation of a path is that of its parts, in order |
| GraphFacts.ExplanationOfOne | packages/economic_graph/traversal.py:217-247 | a relationship unknown or not yet eligible is skipped, and any other is given with exactly its links to eligible evidence |
| IdentifierResolution.ResolutionStore.CreateCandidate | packages/economic_graph/service.py:234-279 | afterwards the entity has a claim to the key; one row is added only when it had none, and no stored row changes |
| IdentifierResolution.ResolutionStore.AttachIdentifier | packages/economic_graph/service.py:163-231 | attaching maps a free key, does nothing for its owner, and opens an ambiguous claim for anyone else |
| IdentifierResolution.ResolutionStore.DecideResolution | packages/economic_graph/service.py:282-342 | a decision is final and repeatable, maps the key on confirmation, and is refused when the key belongs to another entity |
| IdentifierResolution.InvOverRuns | packages/economic_graph/service.py:163-342 | through a whole run claims are unique, confirmed claims own their keys and decisions mirror claims, if and only if every claim is opened undecided or is stored already |
| IdentifierResolution.ClaimKeepsInvIff | packages/economic_graph/service.py:259-279 | creating a claim keeps the tables in order if and only if it is stored already or is opened undecided |
| IdentifierResolution.MappingIsForever | packages/economic_graph/service.py:178-231 | once mapped, a key maps to that entity and no other after any later operations, whatever statuses claims are given |
| IdentifierResolution.ConfirmedIsForever | packages/economic_graph/service.py:290-342 | a confirmed claim of a run that opens claims undecided stays confirmed and owns its key, whatever follows |
| IdentifierResolution.ConflictNeverConfirmed | packages/economic_graph/service.py:186-203 | a claim that an attach creates over another entity's key is never confirmed, whatever is done later |
| IdentifierResolution.ConfirmedAtBirthOwnsNothing | packages/economic_graph/service.py:261-276 | a claim created with a confirmed status owns no key |
| IdentifierResolution.AttachDoes | packages/economic_graph/service.py:163-231 | after attaching a key it maps to some entity, and to the one given if and only if no other owned it before; one row is added if the key was free, one ambiguous claim if another owns it and the entity had none, and nothing else changes |
| IdentifierResolution.AttachedIsForever | packages/economic_graph/service.py:163-231 | and so it is after any later operations |
| IdentifierResolution.DecisionDoes | packages/economic_graph/service.py:282-342 | a decision settles a claim if and only if that is undecided and, to confirm it, no other entity owns its key, which it then maps; it is refused unless it does or repeats the decision that settled it, and changes nothing else |
| ScenarioModel.Adjacent | packages/adversarial_intelligence/service.py:167-170 | a node's edges are exactly the supported ones with positive confidence leaving it |
| ScenarioModel.Fan | packages/adversarial_intelligence/service.py:180-185 | trying a node's edges adds unmarked targets once each, off the present path, and leaves every edge's target marked or on the path |
| ScenarioPropagation.BuildAdjacency | packages/adversarial_intelligence/service.py:167-170 | the adjacency lists hold each node's live edges in the order listed |
| ScenarioPropagation.TryEdges | packages/adversarial_intelligence/service.py:180-213 | one node's edges add exactly the specified outputs and queue entries, each carrying the first shock folded along its path, or stop at an unsupported function |
| ScenarioPropagation.ExpandGoing | packages/adversarial_intelligence/service.py:176-213 | one turn of the queue loop keeps every queued value right and what is still to be visited exact, and makes progress |
| ScenarioPropagation.PropagateScenario | packages/adversarial_intelligence/service.py:161-214 | the queue loop returns exactly the specified result, even with several shocks on one origin |
| ScenarioSearch.WalkKeepsInv | packages/adversarial_intelligence/service.py:176-213 | the search keeps its breadth-first invariant until the queue is empty |
| ScenarioSearch.VisitsAreBreadthFirst | packages/adversarial_intelligence/service.py:161-214 | per origin the subjects are exactly the other nodes at supported distance 1 to the depth bound, and the origin itself just when it has a self-loop; each once, along a simple path of shortest length |
| ScenarioSearch.PropagationIsExact | packages/adversarial_intelligence/service.py:161-214 | the propagation fails exactly when some walked path has an unsupported function, and otherwise each output's value is the first listed shock on its origin folded along its breadth-first path |
| ScenarioSearch.FoldSupported | packages/adversarial_intelligence/service.py:142-158 | a path has a value for every shock exactly when all its functions are supported |
| ScenarioValues.TransmitSends | packages/adversarial_intelligence/service.py:142-158 | what each function makes of a value with the edge's weight times its confidence and its lag discount: in proportion, clamped to the bound, from the threshold on, or all or nothing |
| ScenarioValues.ArrivesInProportion | packages/adversarial_intelligence/service.py:186-190 | along linear, lagged and weighted edges the first shock arrives times the product of weight, confidence and lag discount |
| ScenarioValues.ConfidenceScales | packages/adversarial_intelligence/service.py:186-190 | scaling the confidence of one edge of such a path scales what arrives |
| ScenarioValues.DisruptionArrives | packages/adversarial_intelligence/service.py:156-157 | past a binary disruption arrives its weight times its confidence, or nothing |
| ScenarioValues.PropagationDelivers | packages/adversarial_intelligence/service.py:161-214 | depths outside 1 to 8 are refused; every impact lies at the end of a shortest route of supported edges of positive confidence, has the value the first listed shock arrives with, edge by edge, and a range a fifth below and above it; each node some route within the depth leads to is hit once from each origin |
| ScenarioValues.AdjacentInOrder | packages/adversarial_intelligence/service.py:167-170 | a node's edges are tried in the order listed |
| ScenarioValues.FanTakesFirst | packages/adversarial_intelligence/service.py:180-213 | an item is continued, in order, along exactly the edges that are the first to a target not yet taken and not on the way there |
| ScenarioValues.VisitsAreServed | packages/adversarial_intelligence/service.py:172-213 | the queue is first in, first out: the impacts are those of the shocks and then of the impacts themselves, in their own order |
| ScenarioSensitivity.TransmitMonotone | packages/adversarial_intelligence/service.py:142-158 | with nonnegative gain a larger shock never transmits less, for binary disruptions from nonnegative shocks on |
| ScenarioSensitivity.FoldMonotone | packages/adversarial_intelligence/service.py:186-190 | nor along a whole path |
| ScenarioSensitivity.FoldMirror | packages/adversarial_intelligence/service.py:142-158 | a negative shock arrives as the negative of the positive one, or, past a binary disruption, as the same value |
| ScenarioSensitivity.StrongestBounds | packages/adversarial_intelligence/service.py:142-158 | no nonnegative shock is worth more at the end of a path than the strength computed from its edges |
| ScenarioSensitivity.StrongestReached | packages/adversarial_intelligence/service.py:142-158 | and some shock attains that strength, or any amount where there is no bound |
| ScenarioSensitivity.FoldMonotoneIff | packages/adversarial_intelligence/service.py:142-158 | a larger shock never arrives smaller at the end of a path if and only if no edge of it is a binary disruption or its strength is zero |
| ScenarioSensitivity.VisitsIgnoreValue | packages/adversarial_intelligence/service.py:180-185 | which paths are taken does not depend on the shock's value |
| ScenarioSensitivity.ResponseMonotone | packages/adversarial_intelligence/service.py:221-224 | two shock values both fail or both propagate, meet a target along the same path or not at all, and the larger never has the smaller response when the deciding path is of that kind or no shock is negative |
| ScenarioSensitivity.SensitivityCurve | packages/adversarial_intelligence/service.py:217-227 | the curve holds one propagation's last impact per shock value, fails when one fails, and is called monotonic exactly when its present responses ascend |
| ScenarioSensitivity.CurveMeans | packages/adversarial_intelligence/service.py:217-227 | a point has a response if and only if some route of at most four edges leads to the target, namely what arrives there, and the curve is monotonic if and only if no response is below an earlier one |
| ScenarioSensitivity.AscendingIsMonotonic | packages/adversarial_intelligence/service.py:217-227 | ascending shock values are always classified monotonic when gains are nonnegative and the deciding path has no binary disruption or passes nothing on, or no shock is negative |
| ScenarioSensitivity.AlwaysMonotonicIff | packages/adversarial_intelligence/service.py:217-227 | every ascending list of shock values is classified monotonic if and only if the deciding path has no binary disruption or passes nothing on |
| ScenarioSensitivity.NoBinaryIsCalm | packages/adversarial_intelligence/service.py:156-157 | which holds whenever no live edge is a binary disruption |
| ScenarioSensitivity.BinaryFallsAcrossZero | packages/adversarial_intelligence/service.py:156-157 | one binary disruption whose response falls when the shock rises to zero |
| FeaturePipeline.LagArray | packages/hypothesis/dsl.py:135-138 | the array shifted by the periods, missing before them |
| FeaturePipeline.RollingArray | packages/hypothesis/dsl.py:141-151 | the statistic of each full window, missing before the first |
| FeaturePipeline.ExecuteOperations | packages/hypothesis/dsl.py:86-132 | the loop applies the operations in order and stops at the first invalid one |
| FeatureMeaning.OperationMeans | packages/hypothesis/dsl.py:62-151 | periods outside 1 to 2520 and denominators of another length are refused; otherwise an output plus the earlier input is the later one for a difference, times the count is the sum of those present for a mean, times the denominator is the input for a ratio, and ranks count from one, smaller first, earlier first among equals, missing last |
| FeatureMeaning.PipelineInOrder | packages/hypothesis/dsl.py:86-132 | a pipeline is its rest on what its beginning gives, or the error its beginning meets |
| FeatureCausality.OutputDependsOnLookback | packages/hypothesis/dsl.py:86-110 | output i of a backward pipeline depends only on inputs i - L to i, L being the lag and difference periods plus each window less one |
| FeatureCausality.LookbackIsReached | packages/hypothesis/dsl.py:86-110 | on complete inputs to lags, differences, means and changes over more than one value, changing the one input that lies L before an output changes that output |
| FeatureCausality.PrefixOfResult | packages/hypothesis/dsl.py:86-110 | a backward pipeline run on a prefix gives the prefix of the full result |
| FeatureCausality.BackwardUnlessRank | packages/hypothesis/dsl.py:93-127 | of the modelled operations exactly the rank does not give prefixes for prefixes |
| FeatureCausality.GapIsExact | packages/hypothesis/dsl.py:135-151 | on complete inputs exactly the first outputs are missing, as many as the operations' gaps compose to |
| FeatureCausality.GapWithinLookback | packages/hypothesis/dsl.py:86-110 | the warm-up gap never exceeds the lookback |

## Left out

Assumptions of the model:

- BacktestRun.CashFloor: assumes initial cash and commission are whole micros; the type limits cash to two decimals but does not limit the commission's.
- BacktestRisk.RebalancePrudent: assumes opens on the micro grid for the value bound, because a finer open can round in the trader's favour; the caps need no such assumption.
- BacktestCausality.Causality: is by bar index, because publication-time causality does not hold: a risk-limit rebalance uses the previous close whenever it was published.
- RateLimitBound.WindowBound: assumes clock readings never go back in commit order, and takes the slots a login and source hash to as given.
- RateLimitTightness.AccountReachedIff: assumes at least ten slots more than three times the global limit, as the settings always leave; so do its two companions.
- GraphEquivalence.QueriesAgreeIff: assumes, with a predicate filter, that the paths do not exactly fill the row limit, where the answer turns on how the database breaks ties.
- AuthGuarantees.EndedNeverAccepted: does not cover idle expiry, because a caller who read the clock before it can still touch the row after another was refused.
- GraphTraversal.Traverse: ignores the wall-clock timeout, and tries edges and lists results without the SQL and Python sort orders.
- ScenarioValues.VisitsAreServed: leaves the value after each hop out of the recorded path; it is what `Arrives` passes on.
- FeatureCausality.LookbackIsReached: leaves out the standard deviation, which is uninterpreted, ratios, and a change over one value, which is always zero.
- FeatureCausality.GapIsExact: assumes the library deviation of a window is missing only when the whole window is.
- Opens of at least 1e-6 and a positive first benchmark close are required; the types do not enforce them.
- Decimal's 28-digit context rounding is not modelled; only explicit `quantize` calls round.
- Floating-point rounding, infinities and NaN inputs of scenario values, strategy weights and features are not modelled.

Not modelled:

- Backtest: aligning bars by time, sorting symbols, source identifiers, signal factors, asset identifiers and the metrics.
- Authentication: login and password syntax, Argon2, tokens and their digests, audit rows, and the composition of login with the rate limiter and the hash gate, which are proved on their own.
- Graph: the byte order of identifiers (they are numbers here), serializers, aliases, quality issues, confidence aggregation, recompute queues, entity creation rules, and the profiles built on paths.
- Scenario: challenges, counterfactuals, confidence profiles, and the relationship and lag labels copied into an output.
- Features: weighted average, z-score, percentile and winsorization, which look at the whole array as ranking does, and specifications that give both a period and a window.
