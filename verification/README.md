# Fleet manager: verified models

Dafny models of the parts of the Kafka service fleet manager whose correctness
is hard to see from the code: the search-query parser, leader election, the
worker lifecycle, the signal bus, the deployment watch stream, the relocation of
connector secrets, transactions with post-commit actions, version ordering, and
migrations. `dafny verify dfyconfig.toml` checks the whole project.

Concurrent code is modelled as a state machine. A step is one operation that
the code performs at once (a read, a lock, a commit, one element of a walk); a
schedule is any sequence of steps, and a step that cannot be taken is skipped.
Theorems about runs hold for every schedule of every length. Code that updates
fields, slices or arrays is a class or a method proved against a function on
values, and the theorems are about that function.

- `Options`, `Subscriptions`: the optional value; lists that shrink by moving
  their last entry.
- `QueryTokens`, `QueryPatterns`, `QueryGrammar`, `QueryParser`, `QueryErrors`,
  `QueryMeaning`, `QueryReading`: a search filter becomes a parameterised WHERE
  clause. The tokens are compared with regular expressions, the machine with a
  grammar, the errors with what a query could still be, and the clause, read as
  SQL with its values bound, with the input.
- `LeaderLease`: workers of all processes compete for one lease row per type.
- `LeaderElectionManager`, `Reconciler`: ticks start, stop and drop workers;
  the reconcile loop and those who wake it.
- `SignalBus`, `NotifyWalk`: the bus as atomic calls, and one notification
  walking the shared backing array while lists change under it.
- `WatchStream`, `WatchWakeup`, `WatchProgress`: the cursor of one watch client
  over a changing table, the same stream with notifications, each walking the
  shared list while other clients come and go, and how it catches up.
- `SecretPaths`, `SecretMove`, `ConnectorSecrets`: secret fields of a schema,
  moving the strings found there to a vault, and what connectors do with both.
- `Transactions`: the transaction kept in a request context.
- `SemanticVersions`, `VersionPrecedence`, `VersionSort`, `ComparisonSorts`,
  `StrimziVersions`: build-aware comparison, the same order said on the fields,
  sorting in place, what any sort by comparisons must do, and the Strimzi
  versions of a cluster.
- `Migrations`: lists of actions run forwards and undone backwards.

## Where the code does not do what might be expected

The members named with each give the failing runs and the exact condition.

- A worker does not look at the row again once it holds the lock. It can replace
  another worker's unexpired lease, exactly when the newest commit on the row
  landed between its read and its lock (`StealsOnlyPastAnotherCommit`,
  `OverlapSteals`).
- The result of the lease commit is not looked at. Even without overlap two
  workers can both have been told that they lead. Beside a worker that believes
  it leads another can come to believe so exactly if the row is not the first
  one's or is over before its belief; only a failed commit leaves such a row
  (`BeliefIsSharedExactly`, `StoredBeliefIsBacked`, `LostCommitMakesTwoLeaders`).
- Deployment versions are drawn from a sequence before the commit. A row that
  commits behind the cursor is never sent (`LateCommitIsMissed`).
- The cursor moves only when a row is sent, and every listing reads the first
  page above it. A full page of rows that cannot be presented blocks the stream:
  the bookmark is sent with all rows beyond the page missing, and nothing is
  sent for as long as those rows stay (`UnpresentablePageHidesTheRest`,
  `UnpresentablePageBlocksTheStream`). `MissingAtBookmark` gives the exact
  condition for a row to be missing, for both causes.
- `Notify` walks a slice that shares its array with later calls. Closes alone do
  no harm; a close followed by a subscribe can make it skip an open
  subscription, exactly when the append hits the last cell in which the walk
  could have found it (`MissedExactly`, `SubscribeAfterCloseLosesASignal`). A
  watch stream can lose its wakeup this way and sleep on a committed change
  until its timeout (`NoLostWakeup`, `LosingCostsTheWakeup`, `WakeupIsLost`).
- A quoted value that ends in a backslash loses the backslash
  (`QuoteRoundTrip`); a column prefix that holds `?` breaks the match between
  marks and values (`PlaceholdersMatchValues`).
- A waiting `Wakeup` returns after the loop has ended exactly if its reconcile
  was complete by then; a call still queued or sending never does
  (`CallReturnsExactly`, `CallCanReturnExactly`, `CallIsStranded`).
- Alternatives of a schema can make a field and a field below it both secret. A
  move then goes wrong, for some document and order, exactly if the inner field
  is named `ref` or `kind` (`PathsAreSafeExactly`, `AlwaysKeptExactly`,
  `NestedSecretsAreSafeExactly`, `NestedSecretsLoseAReference`).
- A list with a single malformed version sorts without error, because nothing is
  compared (`StrimziVersionsDeepSort`).

The grammar comment above `initStateMachine` leaves out `NOT` and `IN` after a
column and gives a wider value pattern than the token table; the table is what
is modelled. The limit on joins counts `NOT` as well as `AND` and `OR`.

## Model

| member | source | states |
|---|---|---|
| QueryTokens.FirstAccepting | pkg/shared/utils/state_machine/statemachine.go:58-82 | The chosen successor is listed and accepts the token; there is none only if no listed state accepts it. |
| QueryTokens.SuccessorsAreDisjoint | pkg/services/queryparser/query_parser.go:166-206 | No token is accepted by two successors of one state, for every string. |
| QueryTokens.MovesTo | pkg/services/queryparser/query_parser.go:186-205 | So first match finds any accepting successor: the order of the transition lists decides nothing. |
| QueryPatterns.AcceptsItsPattern | pkg/services/queryparser/query_parser.go:166-185 | For every token and every string: the state accepts the string if and only if the whole of it matches the state's regular expression in the token table, keyword letters in both cases. |
| QueryPatterns.FoldsCaseOnly | pkg/services/queryparser/query_parser.go:149-159 | Lower-casing leaves no capital, changes no letter but in its case, and makes two strings equal if and only if they agree letter by letter in their places in the alphabet. |
| QueryPatterns.KnownInAnyCase | pkg/services/queryparser/query_parser.go:149-159 | A column is known if and only if it matches the column pattern and some listed name without capitals agrees with it up to case. |
| QueryGrammar.DerivationIsUnique | pkg/services/queryparser/query_parser.go:166-206 | A token sequence has at most one tree, although list and group braces share tokens and counter. |
| QueryGrammar.ExprUnambiguous | pkg/services/queryparser/query_parser.go:166-206 | The same with input left over: two readings of one sequence agree on the tree and on the rest. |
| QueryGrammar.TermUnambiguous | pkg/services/queryparser/query_parser.go:166-206 | As above for one term: group, comparison or membership test. |
| QueryGrammar.ValsUnambiguous | pkg/services/queryparser/query_parser.go:199-204 | As above for the values of an IN list, which may themselves be spelled `)` or `,`. |
| QueryParser.RunExpr | pkg/services/queryparser/query_parser.go:98-206 | From any expecting state the machine takes a well-formed tree within the join limit to exactly its rendering, values and counters, brace depth unchanged. |
| QueryParser.ReadExpr | pkg/services/queryparser/query_parser.go:98-206 | Conversely an accepted run begins with the tokens of a well-formed tree within the join limit. |
| QueryParser.RecognisesExactly | pkg/services/queryparser/query_parser.go:98-245 | The transition table with its two counters accepts a sequence if and only if it derives from the grammar with at most 10 joins; AcceptsItsPattern says what the tokens are. |
| QueryParser.EmitsItsTree | pkg/services/queryparser/query_parser.go:120-164 | The clause and values of an accepted input are the rendering and values of its one tree. |
| QueryErrors.ViablePrefix | pkg/shared/utils/state_machine/statemachine.go:58-82 | The parser goes on exactly as long as the tokens read begin some query: it stops at the first token that no query can have there. For every configuration with one usable column. |
| QueryErrors.RefusesForAReason | pkg/services/queryparser/query_parser.go:98-164 | A token is refused with an error if and only if that error explains it: no successor's pattern matches, a brace closes none, an eleventh join, or a column that no listed name matches; the clause stays as it was. |
| QueryErrors.FailsForAReason | pkg/services/queryparser/query_parser.go:222-245 | Every failing input fails at one token for such a reason, or at an end that is no end, or at one with braces open; clause and values are those of the tokens before. |
| QueryErrors.TrimmedEnds | pkg/services/queryparser/query_parser.go:243 | The trimmed clause has no space at either end and lacks nothing but spaces from the ends. |
| QueryParser.Parser.constructor | pkg/services/queryparser/query_parser.go:247-260 | A new parser has an empty clause, no values, the prefix, and the given columns or the six default ones. |
| QueryParser.Parser.Parse | pkg/services/queryparser/query_parser.go:222-245 | Succeeds exactly on derivable input; clause and values are those of the tree appended to what the parser held; the error is that of the machine. |
| QueryMeaning.QuoteRoundTrip | pkg/services/queryparser/query_parser.go:132-141 | Quoting a string and reading the quoted value gives it back if and only if it does not end in a backslash. |
| QueryMeaning.PlaceholdersMatchValues | pkg/services/queryparser/query_parser.go:120-164 | The clause has as many `?` as values if and only if the column prefix holds none. |
| QueryMeaning.LexExpr | pkg/services/queryparser/query_parser.go:120-164 | Splitting the clause into SQL tokens gives the spelling of the translated tree: no two tokens run together, none is split. |
| QueryMeaning.BindExpr | pkg/services/queryparser/query_parser.go:128-141 | Binding the values in order to the marks puts every value in its own place. |
| QueryMeaning.QualifiedResolves | pkg/services/queryparser/query_parser.go:149-159 | The word emitted for a column resolves in the table to that column, lower-cased, and to no other. |
| QueryMeaning.SelectsTheSameRows | pkg/services/queryparser/query_parser.go:149-159 | From every table, with `like` and `ilike` matching in any way: comparing the columns that the emitted words resolve to with the bound values selects exactly the rows for which the named columns, in any case, compare so with the values the literals denote. |
| QueryReading.OrSplits | pkg/services/queryparser/query_parser.go:142-148 | What an input asks for, split at any OR: what stands left of it, or what stands right of it. |
| QueryReading.AndJoins | pkg/services/queryparser/query_parser.go:142-148 | Without an OR, all comparisons have to hold: AND binds tighter. |
| QueryReading.OperatorsMean | pkg/services/queryparser/query_parser.go:173-177 | Each comparison operator in any of its spellings means equal, not equal, like or ilike. |
| QueryReading.ComparisonsMean | pkg/services/queryparser/query_parser.go:149-159 | A comparison reads the column of that name in whatever case, fails on a null, and IN and NOT IN are opposite elsewhere. |
| QueryReading.SelectsWhatHolds | pkg/services/queryparser/query_parser.go:222-245 | A table gives up exactly the rows that hold, each as often as it has them. |
| QueryMeaning.ClauseMeansInput | pkg/services/queryparser/query_parser.go:222-245 | For a fresh parser, the emitted clause with its values bound is the spelling of one tree only, and that tree, read as SQL on the prefixed table, selects from every table the rows the input asks for. |
| LeaderLease.StepKeepsInv | pkg/workers/leader_election_mgr.go:140-217 | Every step of any attempt keeps the protocol invariant: a snapshot with no later commit is the row, and only the lock holder may save. |
| LeaderLease.RunKeepsInv | pkg/workers/leader_election_mgr.go:140-217 | The same over every schedule. |
| LeaderLease.StealsOnlyPastAnotherCommit | pkg/workers/leader_election_mgr.go:156-217 | A worker about to save replaces another's unexpired lease if and only if the newest commit is such a lease and landed between its read and its lock; with no commit in between the lease is expired, empty or its own. |
| LeaderLease.RunKeepsOrigin | pkg/workers/leader_election_mgr.go:140-217 | Over every schedule, overlapping or failing: each lease that an attempt works on was on the row; one it works on beyond the first check is expired or the worker's own; no expiry lies more than the lease time ahead. |
| LeaderLease.LeadersHoldTheirOwnLease | pkg/workers/leader_election_mgr.go:156-217 | Over every schedule a worker that was told it leads, until some time and stored, has committed a lease of its own until that time, or had it on the row at the start. |
| LeaderLease.LeasesAreShort | pkg/workers/leader_election_mgr.go:157-158 | Over every schedule no committed lease lasts longer than the lease time from now. |
| LeaderLease.MissedLockIsAnswered | pkg/workers/leader_election_mgr.go:174-206 | In every state reached: a worker that missed the lock is told that it leads if and only if the lease it read is its own and not over; on an expired one it is refused. Nothing else changes. |
| LeaderLease.ErrorsRefuse | pkg/workers/leader_election_mgr.go:120-136 | In every state reached an error refuses the worker, frees the lock it held and no other, and leaves the row alone. |
| LeaderLease.RenewsInTheLastHalfMinute | pkg/workers/leader_election_mgr.go:162-222 | A single attempt wins exactly a lease that is empty, over or its own, and rewrites its own only with less than 30 seconds left. |
| LeaderLease.StepKeepsAloneInv | pkg/workers/leader_election_mgr.go:156-222 | Without overlap, every worker told it leads by a stored attempt still holds the row or is past the expiry it saw. |
| LeaderLease.RunKeepsAloneInv | pkg/workers/leader_election_mgr.go:156-222 | The same over every schedule without overlap. |
| LeaderLease.AtMostOneLeader | pkg/workers/leader_election_mgr.go:156-222 | Without overlap two workers believe they lead at one time only if one was told so by an attempt whose commit failed. |
| LeaderLease.BackedBeliefStandsAlone | pkg/workers/leader_election_mgr.go:156-222 | Beside a worker whose belief the row backs (the row is its own and lasts as long), no other comes to believe, however the others attempt, overlapping and failing included. |
| LeaderLease.UnbackedBeliefIsShared | pkg/workers/leader_election_mgr.go:156-222 | A row that is empty, the other worker's, or over before the belief lets that worker come to believe as well. |
| LeaderLease.BeliefIsSharedExactly | pkg/workers/leader_election_mgr.go:156-222 | Some other worker can come to believe beside a believing one if and only if the row does not back the belief, which the row and the answer show. |
| LeaderLease.StoredBeliefIsBacked | pkg/workers/leader_election_mgr.go:192-217 | In every run without overlap, a belief from an attempt whose commit succeeded is backed. |
| LeaderLease.OverlapSteals | pkg/workers/leader_election_mgr.go:174-209 | For any two workers and any expired lease, a schedule in which the second is about to replace the lease the first was just granted. |
| LeaderLease.LostCommitMakesTwoLeaders | pkg/workers/leader_election_mgr.go:192-217 | For any two workers and any expired lease, a schedule without overlap after which both believe they lead. |
| LeaderLease.LeaseTable.AcquireLeaderLease | pkg/workers/leader_election_mgr.go:140-217 | The attempt as straight-line code does what the single action says: the row, the answer and the lease returned. |
| LeaderLease.UndisturbedAttempt | pkg/workers/leader_election_mgr.go:140-217 | The steps of an attempt that nothing disturbs have exactly the effect and answer of the single action. |
| LeaderLease.LeaderIsNeverReplaced | pkg/workers/leader_election_mgr.go:157-212 | Over every schedule of attempts, a leader that succeeds at least every min(30s, lease time) is always confirmed, all others are always refused, and its lease never expires. |
| LeaderLease.LargerGapLosesTheLease | pkg/workers/leader_election_mgr.go:157-212 | The bound is tight: any larger gap admits a schedule that hands the lease to another worker. |
| LeaderLease.DefaultsKeepTheLeader | pkg/workers/reconciler_config.go:15-21 | With the default interval and lease time the leader is always confirmed, all others are always refused, and the lease never expires, over every schedule. |
| LeaderElectionManager.Worker.constructor | pkg/workers/worker_interface.go:23-30 | A new worker is not running and has no stop channel. |
| LeaderElectionManager.Worker.Start | pkg/workers/reconciler.go:42-78 | Afterwards the worker runs, with an open stop channel and one live loop that its sync group counts. |
| LeaderElectionManager.Worker.WaitForLoop | pkg/workers/reconciler.go:54-105 | Waiting on the sync group returns only when the loop, after any steps of its own and its callers, has ended and left the group; its state is one those steps lead to. |
| LeaderElectionManager.Worker.Stop | pkg/workers/reconciler.go:95-105 | The stop channel is never nil when closed and never closed twice; whatever the loop did before and while stopping, it has ended, every reconcile it began is complete, and no further step begins one. |
| LeaderElectionManager.RunEnds | pkg/workers/reconciler.go:56-77 | Once the stop channel is closed, after any steps the loop can still end. |
| LeaderElectionManager.TickResult | pkg/workers/leader_election_mgr.go:89-118 | Following the answers worker by worker leaves running exactly the workers that have not terminated and lead. |
| LeaderElectionManager.Manager.constructor | pkg/workers/leader_election_mgr.go:32-39 | Starts with no worker running and the wait group at zero. |
| LeaderElectionManager.Manager.StopWorker | pkg/workers/leader_election_mgr.go:93-97 | Stops one running worker, and the wait group still counts the running ones. |
| LeaderElectionManager.Manager.StartWorker | pkg/workers/leader_election_mgr.go:103-106 | Starts one worker, and the wait group still counts the running ones. |
| LeaderElectionManager.Manager.Follow | pkg/workers/leader_election_mgr.go:102-111 | After its turn a worker runs exactly if it leads; no other worker changes. |
| LeaderElectionManager.Manager.Sweep | pkg/workers/leader_election_mgr.go:89-112 | The loop of a tick returns the workers that have not terminated, in order, with the running set of the plain reading. |
| LeaderElectionManager.Manager.StartWorkers | pkg/workers/leader_election_mgr.go:89-118 | After a tick only workers that have not terminated are kept, exactly the leaders among them run, dropped ones do not, and the wait group is their number. |
| LeaderElectionManager.Manager.TearDown | pkg/workers/leader_election_mgr.go:55-64 | Brings the wait group to zero; no worker runs, no loop is alive, every reconcile begun is complete and none can begin, dropped workers included. |
| LeaderElectionManager.Manager.RunUntilStopped | pkg/workers/leader_election_mgr.go:41-71 | Over any number of ticks: after each one exactly the leaders among the workers that no tick so far has found terminated are running; at the end none runs, every loop has ended for good, and the wait group is at zero. |
| LeaderElectionManager.SurvivorsAre | pkg/workers/leader_election_mgr.go:89-118 | The workers kept over a sequence of ticks are exactly those that no tick has found terminated. |
| Reconciler.StepKeepsInv | pkg/workers/reconciler.go:26-105 | Every step of callers, loop and stop keeps the invariant that ties calls to the reconciles that serve them. |
| Reconciler.RunKeepsInv | pkg/workers/reconciler.go:26-105 | The same over every schedule. |
| Reconciler.WaitingCallSeesAWholeReconcile | pkg/workers/reconciler.go:26-39 | A waiting call returns only after a reconcile that began after the call has completed. |
| Reconciler.StoppedMeansQuiet | pkg/workers/reconciler.go:95-105 | Once Stop has returned no reconcile is in flight and none ever begins again. |
| Reconciler.UnservedCallNeverReturns | pkg/workers/reconciler.go:26-39 | A waiting call that has not been released when the loop ends never is. |
| Reconciler.ReturnsAfterExitExactly | pkg/workers/reconciler.go:26-39 | Once the loop has ended, a waiting call has a continuation in which it returns if and only if it has been released. |
| Reconciler.CallReturnsExactly | pkg/workers/reconciler.go:26-78 | Over every run that ends the loop, a waiting call can still return if and only if it was neither sending nor queued. |
| Reconciler.CallIsStranded | pkg/workers/reconciler.go:26-78 | For any call, a run from the start in which it is made, the loop is stopped, and it never returns. |
| Reconciler.PostedCallIsFollowedByAReconcile | pkg/workers/reconciler.go:26-78 | After a call that does not wait, dropped or not, a message is waiting or a later reconcile has begun; two loop steps on, one has begun unless the loop has ended. |
| Reconciler.ReconcileBeginsAfterTheCall | pkg/workers/reconciler.go:26-39 | For a waiting call made after any run: whenever it returns, a reconcile that had not begun when it was made has begun and completed. |
| Reconciler.ReconcileFollowsTheCall | pkg/workers/reconciler.go:26-78 | For a call that does not wait made after any run: two steps of the loop later a reconcile has begun that had not begun by then, unless the loop has ended. |
| Reconciler.FirstReconcileComesFirst | pkg/workers/reconciler.go:42-56 | Over every run, whenever the loop selects or has ended, one reconcile is complete. |
| Reconciler.TimerReconciles | pkg/workers/reconciler.go:56-71 | Whenever the loop selects, the timer or the bus begins a reconcile and changes nothing else. |
| Reconciler.LiveLoopServes | pkg/workers/reconciler.go:26-78 | From every state in which the loop lives, some schedule lets the waiting call return, whatever is in the channel. |
| Reconciler.CallCanReturnExactly | pkg/workers/reconciler.go:26-105 | In every state reached a waiting call can still return if and only if the loop has not ended or its reconcile is complete. |
| Reconciler.StopCanReturn | pkg/workers/reconciler.go:95-105 | From every state reached Stop can return, with no reconcile begun but the initial one. |
| SignalBus.SwapRemoveDropsOne | pkg/services/signalbus/signalbus.go:59-77 | Moving the last entry into the hole removes exactly the one subscription and keeps entries distinct. |
| SignalBus.ApplyKeepsLists | pkg/services/signalbus/signalbus.go:30-77 | Every call keeps the lists sound: no duplicates, no empty list, open subscriptions only. |
| SignalBus.RunAgrees | pkg/services/signalbus/signalbus.go:30-120 | After every history lists, channels and close flags agree with the history read plainly. |
| SignalBus.BusIsASetOfOpenSubscriptions | pkg/services/signalbus/signalbus.go:30-120 | After every history a name lists exactly its open subscriptions, once each, only names with one are kept, and a channel is full exactly when a notification came since creation or last consumption. |
| SignalBus.MemoryBus.constructor | pkg/services/signalbus/signalbus.go:23-28 | A new bus has no subscription. |
| SignalBus.MemoryBus.Subscribe | pkg/services/signalbus/signalbus.go:45-57 | The whole new state is that of the bus on values, which the theorems are about. |
| SignalBus.MemoryBus.Notify | pkg/services/signalbus/signalbus.go:30-42 | The loop over one-slot channels fills exactly the channels listed under the name. |
| SignalBus.MemoryBus.Close | pkg/services/signalbus/signalbus.go:59-77 | The search loop with swap-remove is the removal on values; a second close changes nothing. |
| SignalBus.MemoryBus.IsSignaled | pkg/services/signalbus/signalbus.go:106-113 | Reports and empties the channel. |
| NotifyWalk.WalkReachesEveryOpenSubscription | pkg/services/signalbus/signalbus.go:30-77 | A walk over the shared array signals every subscription listed at its start and still open at its end, over every schedule that appends nothing into the part it walks. |
| NotifyWalk.AddedKeepsExactly | pkg/services/signalbus/signalbus.go:45-57 | A walk keeps a subscription ahead of it through an append if and only if the append does not write the last cell that holds it. |
| NotifyWalk.StepKeepsPendingExactly | pkg/services/signalbus/signalbus.go:30-77 | The same for every step: only such an append takes an open subscription out of reach, and nothing brings one back. |
| NotifyWalk.MissedExactly | pkg/services/signalbus/signalbus.go:30-77 | Over every schedule, a finished walk has missed a subscription listed at its start and still open if and only if some append hit the last cell in which it could have been found. |
| NotifyWalk.ClosesDoNotLoseSignals | pkg/services/signalbus/signalbus.go:30-77 | So it does for any number of closes with no subscribe after a close, although closing overwrites the array in place. |
| NotifyWalk.SubscribeAfterCloseLosesASignal | pkg/services/signalbus/signalbus.go:30-77 | For every list of two or more, a close and a later subscribe make the walk miss an open subscription. |
| NotifyWalk.RemovedIsSwapRemove | pkg/services/signalbus/signalbus.go:59-77 | The list left by a removal in the shared array is the swap-removal of the bus. |
| WatchStream.Stream.NextTurn | internal/connector/internal/handlers/connector_agent.go:160-215 | One turn of the event loop: cursor, list, index, bookmark and event sent are those of the turn on values. |
| WatchStream.StepKeepsInv | internal/connector/internal/handlers/connector_agent.go:115-216 | Writers and stream keep the cursor, the list and the events in version order. |
| WatchStream.StepKeepsCover | internal/connector/internal/handlers/connector_agent.go:151-216 | Every stored row not above the cursor has been sent or is recorded as committed late or not presentable. |
| WatchStream.RunKeepsInv | internal/connector/internal/handlers/connector_agent.go:115-216 | Both over every schedule of draws, commits, deletes, listings and events. |
| WatchStream.VersionsIncreaseAndOneBookmark | internal/connector/internal/handlers/connector_agent.go:160-215 | Versions sent strictly increase from above the start, and the bookmark is sent at most once. |
| WatchStream.MissingAtBookmark | internal/connector/internal/handlers/connector_agent.go:151-216 | At the bookmark a stored row above the start is missing if and only if it committed behind the cursor, could not be presented, or lies beyond a page of which nothing could be. |
| WatchStream.NothingMissingAtBookmark | internal/connector/internal/handlers/connector_agent.go:151-216 | If rows commit in version order and all can be presented, every stored row above the start has been sent at its current version when the bookmark is. |
| WatchStream.LateCommitIsMissed | internal/connector/internal/migrations/add_connector_tables.go:141-154 | For any two rows and any page size, a run in which the one that draws its version first and commits second is missing at the bookmark. |
| WatchStream.PageIsUnique | internal/connector/internal/services/connector_cluster.go:432-492 | The first page of a table above a version is determined by the table. |
| WatchStream.UnpresentablePageHidesTheRest | internal/connector/internal/handlers/connector_agent.go:136-147 | For any table whose first page holds nothing that can be presented, the bookmark is sent with every row beyond the page missing, none of them late or passed over. |
| WatchStream.UnpresentablePageBlocksTheStream | internal/connector/internal/handlers/connector_agent.go:122-216 | Over every run in which the rows of a full first page stay and cannot be presented, and commits have larger versions, no change is ever sent. |
| WatchWakeup.NoLostWakeup | internal/connector/internal/handlers/connector_agent.go:151-216 | Whenever the stream waits with an empty channel it has listed after the commit of every change whose notification has finished its walk, unless another client appended over the last cell in which that walk could have found the sleeping stream; over every schedule of writers, walks, timeouts, listings and other clients. |
| WatchWakeup.LosingCostsTheWakeup | pkg/services/signalbus/signalbus.go:30-57 | Every such append does cost the wakeup: with the walk run to its end the stream still sleeps and has not listed since the commit. |
| WatchWakeup.WakeupIsLost | pkg/services/signalbus/signalbus.go:30-77 | For any clients and any row, a run from an idle start in which one client leaves, one subscribes, the notification finishes, and the subscribed stream sleeps without the change. |
| WatchWakeup.NoWakeupLostWhileJoinsComeFirst | pkg/services/signalbus/signalbus.go:45-77 | If no client subscribes after another has left, no wakeup is lost. |
| WatchWakeup.IdleStreamIsUpToDate | internal/connector/internal/services/connector_cluster.go:397-415 | A client whose stream waits with an empty channel lacks a stored change whose notification has finished if and only if it committed behind the cursor or after the latest listing, and the latter only if the walk lost the stream. |
| WatchProgress.SignalWakes | internal/connector/internal/handlers/connector_agent.go:160-215 | From every state reached that waits with a full channel: the signal and one turn of the loop empty the channel and take a listing after every commit, and the next turn sends its first presentable row. |
| WatchProgress.FinishedNotificationIsFollowed | internal/connector/internal/handlers/connector_agent.go:151-216 | A finished notification that did not lose the stream is followed up: the stream has listed since the commit, or, woken, lists after every commit, sends all stored rows above its start that were not left behind before, and waits again. |
| WatchProgress.CatchesUp | internal/connector/internal/handlers/connector_agent.go:160-215 | From any state in which the stream runs, its own loop leads to a wait with nothing stored above its cursor. |
| WatchProgress.CanCatchUp | internal/connector/internal/handlers/connector_agent.go:151-216 | After every run a stream that runs can reach a wait at which a stored row above its start is missing only if it was late or could not be presented. |
| WatchProgress.SomePage | internal/connector/internal/services/connector_cluster.go:432-492 | Every table has a first page above every version, of every size. |
| WatchProgress.ZeroAsksForEverything | internal/connector/internal/services/connector_cluster.go:432-492 | Above version zero a page that is not full holds every row. |
| WatchProgress.WritesAreStored | internal/connector/internal/migrations/add_connector_tables.go:141-154 | A write puts its row at a version above all others and leaves them alone; a delete takes one row away. |
| WatchProgress.WrittenRowIsLocked | internal/connector/internal/migrations/add_connector_tables.go:141-154 | A row that is being written takes neither another write nor a delete until its writer commits. |
| WatchProgress.RowVersionsNeverGoBack | internal/connector/internal/migrations/add_connector_tables.go:141-154 | Over every run with row locks the version of a row never goes back, deletes and rewrites included. |
| WatchProgress.ListedExactlyWhileSubscribed | internal/connector/internal/handlers/connector_agent.go:151-158 | Over every run the stream's subscription is on the list of its name once while it is subscribed and not at all otherwise, whoever else joins and leaves. |
| WatchProgress.NotificationCanFinish | pkg/services/signalbus/signalbus.go:30-42 | From any state the notification of any commit can be made and finished, at once if there is no list, and fills the channel of a listed stream. |
| SecretPaths.FindsExactlyTheSecretPaths | pkg/shared/secrets/secrets.go:44-113 | The walk over a schema of any depth adds exactly the secret paths, whatever the order of properties. |
| SecretPaths.SecretPathsAre | pkg/shared/secrets/secrets.go:44-113 | From the root, the paths found are exactly the secret paths of the schema. |
| SecretPaths.SecretEitherWay | pkg/shared/secrets/secrets.go:56-69 | A schema is a secret if and only if its alternatives are, in either order, a `string` of format `password` and an `object` without format. |
| SecretPaths.PathsToPasswordFields | pkg/shared/secrets/secrets.go:44-77 | Returns each secret path of the schema once, in an order of its own. |
| SecretPaths.ReplaceFrames | pkg/shared/secrets/secrets.go:20-42 | Replacing a node changes that node, nothing beside it, and above it only what lies below. |
| SecretPaths.ModifySecrets | pkg/shared/secrets/secrets.go:20-42 | The loop with early exit is the rewriting on values, over the secret paths of the schema in some order. |
| SecretPaths.ModifyIsOverNodes | pkg/shared/secrets/secrets.go:20-42 | On prefix-free paths it is the callback on the original nodes in turn, each result in its place and all else as it was, failures included. |
| SecretMove.MoveOver | internal/connector/internal/handlers/connector_secrets.go:51-76 | Over any nodes, every string goes to the vault under its own new id and is replaced by a reference to it; other nodes stay. |
| SecretMove.IdsAreDistinct | internal/connector/internal/handlers/connector_secrets.go:51-76 | No two strings are moved to one id. |
| SecretMove.RefsInAnyOrder | internal/connector/internal/handlers/connector_secrets.go:94-127 | The references found, as a multiset, do not depend on the order of the paths. |
| SecretMove.CollectedRefs | internal/connector/internal/handlers/connector_secrets.go:94-120 | For any paths, nested or not, the collecting callback returns the references at the paths, in visiting order. |
| SecretMove.DocumentSecretsMove | internal/connector/internal/handlers/connector_secrets.go:43-92 | A successful move of a document without a clash leaves no string at a secret path, changes nothing but at and below the strings moved, stores every string under a fresh id of its own, and the references listed afterwards in any order are the earlier ones and exactly the new ids. |
| SecretMove.MoveIsOverStrings | internal/connector/internal/handlers/connector_secrets.go:51-80 | Without a clash only the strings of the original document matter, whatever else the secret paths name and however they nest. |
| SecretMove.MoveFailsAt | internal/connector/internal/handlers/connector_secrets.go:56-80 | A failing move fails at the first node that cannot be stored or is not accepted, all before it moved; only the id of a string is spent. |
| SecretMove.KeptExactly | internal/connector/internal/handlers/connector_secrets.go:43-127 | If no moved string has a key of its reference at a secret path, a move keeps all of this if and only if no listed reference lies at a secret path itself. |
| SecretMove.AlwaysKeptExactly | internal/connector/internal/handlers/connector_secrets.go:43-127 | Every order of moving and listing succeeds and keeps all of this if and only if the document has no clash: a string with `ref` or `kind` below its path secret, or a reference whose `ref` is itself at a secret path. |
| SecretMove.PathsAreSafeExactly | internal/connector/internal/handlers/connector_secrets.go:56-80 | A set of paths keeps it for every document, when objects are accepted, if and only if no path is another followed by `ref` or `kind`. |
| SecretMove.PathsAreSafeForStrictMovesExactly | internal/connector/internal/handlers/connector_secrets.go:56-80 | When objects are rejected, if and only if above every such pair lies a third path. |
| SecretMove.PrefixFreeIsClean | internal/connector/internal/handlers/connector_secrets.go:56-80 | Paths of which none lies above another are safe. |
| ConnectorSecrets.SchemaSecretsMove | internal/connector/internal/handlers/connector_secrets.go:43-127 | For every schema tree and every document without a clash: no string is left at any path the schema makes secret, and all of the above holds. |
| ConnectorSecrets.SpecSecretsMove | internal/connector/internal/handlers/connector_secrets.go:43-92 | The same for a connector that may have no spec, with what is kept stated for the spec; earlier vault entries stay as they were. |
| ConnectorSecrets.MoveSecretsToVault | internal/connector/internal/handlers/connector_secrets.go:43-92 | The method on the resource, schema and vault object has the effect of the move on values over the schema's secret paths in some order, errors included. |
| ConnectorSecrets.GetSecretRefs | internal/connector/internal/handlers/connector_secrets.go:94-127 | Lists the references of the client secret and of the spec at the schema's secret paths; as a multiset they are the same in every order of the paths. |
| ConnectorSecrets.StripSecretReferences | internal/connector/internal/handlers/connector_secrets.go:14-41 | The method has the effect of stripping on values over the schema's secret paths in some order. |
| ConnectorSecrets.ConnectorRefsAfterMove | internal/connector/internal/handlers/connector_secrets.go:43-127 | After a successful move the client secret is in the vault under a new id, which the connector refers to, and is nowhere in clear; the spec has kept all of the above; and the connector's references are the new ids and the earlier ones not replaced, as a multiset. |
| ConnectorSecrets.FailedMoveKeepsTheSpec | internal/connector/internal/handlers/connector_secrets.go:43-92 | A move that fails leaves the spec and every earlier vault entry as they were; the client secret is still in place, or in the vault under its new reference. |
| ConnectorSecrets.StrippedConnectorHasNoRefs | internal/connector/internal/handlers/connector_secrets.go:14-41 | For every schema, nested secrets included, stripping empties both client fields; at a secret path with no secret above it an empty object stands exactly where an object was and a null exactly where anything else was, and below another secret nothing but nulls and empty objects is left; nothing else changes, and no reference is left. |
| ConnectorSecrets.NestedSecretsLoseAReference | internal/connector/internal/handlers/connector_secrets.go:43-127 | For a schema with such alternatives and `ref` as the inner field: visiting the outer field first moves the new reference away again, and no listing finds the id of the original string. |
| ConnectorSecrets.NestedPaths | pkg/shared/secrets/secrets.go:86-113 | An anyOf of `{key: secret}` and `{key: {inner: secret}}` has exactly the secret paths `key` and `key.inner`. |
| ConnectorSecrets.NestedSecretsAreSafeExactly | internal/connector/internal/handlers/connector_secrets.go:43-127 | That schema is safe for every document and order if and only if the inner field is neither `ref` nor `kind`. |
| Transactions.TxFactory.constructor | pkg/db/connection.go:126-135 | A new transaction is open, not marked, with no action registered. |
| Transactions.TxFactory.Begin | pkg/db/connection.go:137-160 | The whole new state; a begin that fails changes nothing, and registered actions survive a begin. |
| Transactions.TxFactory.Resolve | pkg/db/context.go:38-60 | The whole new state, and the registered actions run exactly if the transaction commits. |
| Transactions.ResolveContext | pkg/db/context.go:33-60 | Fails without a transaction, and otherwise resolves it. |
| Transactions.AddPostCommitAction | pkg/db/context.go:75-83 | Fails without a transaction, and otherwise registers last. |
| Transactions.MarkForRollback | pkg/db/context.go:95-104 | Marks the transaction if there is one. |
| Transactions.FlagsAreTheReading | pkg/db/context.go:33-104 | After every history the two flags say what the history says: resolved since the last begin, marked since the last begin. |
| Transactions.HistoryRunsWhatIsDue | pkg/db/context.go:33-104 | After every history exactly the registrations whose first resolve that was not a no-op committed have run, once each and in order; those that no such resolve came to are still held. |
| SemanticVersions.BuildAwareTotalPreorder | pkg/api/semverutil.go:23-48 | The build-aware comparison is total, changes sign when turned round, and is transitive. |
| VersionPrecedence.ComparesByFields | pkg/api/semverutil.go:23-48 | Said on the fields alone: -1 if and only if major, minor or patch is the first to be smaller, or a pre-release meets its release, or the first differing identifier is smaller, numbers as numbers, strings by character, numbers below strings, shorter lists first, or, with all that equal, the dotted build is smaller; 0 if and only if all agree. |
| VersionPrecedence.ListsByFirstDifference | pkg/api/semverutil.go:23-48 | Comparing lists is deciding at their first difference, where the one that ends comes first. |
| VersionPrecedence.MajorMinorByFields | pkg/api/semverutil.go:54-76 | The major/minor comparison is that of the two fields, in this order, and sees no other. |
| VersionPrecedence.JoinSplits | pkg/api/semverutil.go:40-46 | The dotted build gives back its pieces in order. |
| VersionPrecedence.AtMostByFields | pkg/api/cluster_types.go:428-434 | Sorting lets one label stand before another if and only if both parse and the second is not below the first by its fields. |
| VersionSort.SortInPlace | pkg/api/cluster_types.go:428-434 | Sorting in place permutes the entries; it reports a failed comparison if and only if there are two or more and one is malformed; otherwise they ascend. |
| VersionSort.AscendingHasNoMinorDowngrade | pkg/api/semverutil.go:54-76 | Along an ascending list the major/minor comparison never reports a downgrade. |
| ComparisonSorts.FailsExactlyOnMalformed | pkg/api/cluster_types.go:428-438 | Any sort that only compares entries, and sorts whatever their order, meets a failing comparison if and only if there are two or more entries and one is malformed: it cannot leave an entry uncompared. |
| ComparisonSorts.SucceedsAscending | pkg/api/cluster_types.go:428-438 | When none fails, the order it names is ascending and complete. |
| StrimziVersions.DeepCopy | pkg/api/cluster_types.go:284-301 | An equal record whose two lists are new and not shared, nil where the original's are. |
| StrimziVersions.SortInsides | pkg/api/cluster_types.go:440-467 | Sorts the lists of every record, and fails exactly if one list cannot be sorted. |
| StrimziVersions.SortCopies | pkg/api/cluster_types.go:428-467 | Sorting records that share no list sorts all three levels, although records move while their lists stay in place; fails exactly if a list of two or more has a malformed entry. |
| StrimziVersions.StrimziVersionsDeepSort | pkg/api/cluster_types.go:411-470 | Succeeds if and only if every list of two or more is well formed; the result is new and deeply sorted; the input, records and lists, is as it was. |
| StrimziVersions.DeepSortingIsSorted | pkg/api/cluster_types.go:405-470 | A deep sorting of the versions ascends, and pairs every version given with one of the result that has its lists sorted and nothing else changed, and the other way round. |
| StrimziVersions.Cluster.SetAvailableStrimziVersions | pkg/api/cluster_types.go:478-493 | What is read back afterwards is the versions deeply sorted, the empty list for nil, and what was stored before if they cannot be sorted. |
| StrimziVersions.Cluster.GetLatestAvailableAndReadyStrimziVersion | pkg/api/cluster_types.go:334-364 | The ready version with no ready one after it, or none exactly if none is ready. |
| StrimziVersions.LatestIsGreatestReady | pkg/api/cluster_types.go:345-364 | For versions stored from any order, and entries that compare equal placed in any way, the latest ready one read back is one of them, sorted inside, and no ready one is above it by the fields of the versions. |
| StrimziVersions.LatestOfList | pkg/api/cluster_types.go:308-329 | The last Kafka version, or protocol version, of any sorting is one of those given, and none exceeds it. |
| Migrations.Migrate | pkg/db/migrations.go:342-350 | On success all actions were applied in order; on failure exactly the first k were, and then the effect of the failing one. |
| Migrations.Rollback | pkg/db/migrations.go:351-359 | Undoes last to first up to the first failure. |
| Migrations.UndoneFirst | pkg/db/migrations.go:351-359 | The first action is undone after all others, and only if they were undone. |
| Migrations.RollbackRestores | pkg/db/migrations.go:339-361 | If each action undoes itself along the way, rolling back a migration that went through restores the exact starting state. |

## Left out

- The SQL scanner: parsing starts from the tokens it yields. Positions in error messages go with it.
- Non-ASCII query text: removing quotes mixes byte length and rune index there.
- ClauseMeansInput: holds for a fresh parser and a column prefix that is empty or a plain name, because the clause is not reset between calls and a prefix with other characters is not one SQL word.
- SQL text of the lease queries: the second SELECT returns the row locked, or nothing, as the comments there say; a database error or a missing row is one failing step, after which the worker counts as refused.
- LeaderIsNeverReplaced: attempts are single actions here; UndisturbedAttempt ties a single action to the steps of an attempt.
- LeaseTable.AcquireLeaderLease: is the attempt that nothing disturbs and no error ends; lock, failed commit and errors are steps of the interleaved protocol, which the other lease theorems are about.
- Stop waits on the schedules in which a loop whose stop channel is closed comes to select it; that it always does is the runtime's fairness.
- A tick's lease answers, and which workers have terminated, are inputs of the tick; the manager's Stop is the end of its ticks followed by TearDown, and its own guards against a second call are not modelled.
- Log lines, metrics, sentry reports, and the duration a reconcile takes.
- The Postgres signal bus with its reconnect loop, and the lock of the memory bus: calls are atomic in SignalBus, and NotifyWalk opens up only the walk that the code performs outside the lock.
- MemoryBus.Subscribe: the new subscription object is passed in by the caller of the model, where the code allocates it.
- The watch stream reads page 1 with a page size of at least one, without a search filter, and counts and finds rows in one listing; connectors deleted under a deployment are deletes of the deployment; errors of the listing or the transaction end the stream.
- Schemas that refer to themselves, the encoding of paths as strings, the JSON codec, and vault errors other than a failed store.
- DocumentSecretsMove: asks that the document has no clash, which AlwaysKeptExactly shows to be the exact condition.
- Post-commit actions that call back into the transaction are further calls of the history after the resolve that ran them.
- Parsing of version strings, tolerant parsing included, and the pattern that cuts the number out of a Strimzi version: a label carries what parsing makes of it, or that it fails.
- The library's sort is carried out by insertion, which it uses for short slices; contracts promise only what ComparisonSorts shows of any sort by comparisons.
- Column values are text, and null where a row has no such column; numbers and times are not told apart.
- JSON columns of a cluster are the values written to them; a column that does not decode is not modelled.
- The concrete migration actions, and the transaction a migration runs in.
- API handlers, authorisation, cloud, identity and quota clients, cluster and Kafka reconcilers, presenters, validators and error tables: long but easy, or calls into other services.
