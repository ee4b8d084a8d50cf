# A verified model of Seta's core

Seta checks domains on a schedule, stores what it finds, and tells people what
changed. This project models the parts whose value lies in what their loops and
state keep over every input and every run, and proves it.

| module | file | models |
|---|---|---|
| `Core`, `Ordering` | core.dfy, ordering.dfy | findings, fingerprints, the comparison functions, sorting |
| `Lifecycle` | lifecycle.dfy | one finding's life over whole histories |
| `State`, `History` | store.dfy, history.dfy | the database: recording runs, renames, dirty write-back, pruning, the key-value table; the table over whole histories |
| `Recording` | recording.dfy | what a recorded run means, read off what the run holds |
| `Notify`, `Delivery` | notify.dfy, delivery.dfy | filtering, merging the backlog, delivering digests, heartbeats |
| `Concurrent` | concurrent.dfy | all channels served at once, their database calls interleaved |
| `Pending` | pending.dfy | the backlog over any sequence of deliveries, and its cap |
| `Sync`, `Daemon` | sync.dfy, daemon.dfy | what a recipient knows after every round, whatever fails; the round and the service themselves |
| `SPF`, `Walk` | spf.dfy, walker.dfy | what an SPF record means, and the bounded walker that evaluates it |
| `SPFTree` | spftree.dfy | the tree of records an evaluation visits, and what is counted over it |
| `Macros` | macros.dfy | the macro-string scanner and domain-spec check against the grammar |
| `Registry` | registry.dfy | the glob matcher, registration, aliases, selection |
| `Packing`, `Discord` | packing.dfy, discord.dfy | splitting messages under limits |
| `SingleFlight` | singleflight.dfy | the per-run memo and the DNS cache as one concurrent protocol |
| `Engine` | engine.dfy | the scheduler with its two semaphores, result collection, `normalize` |
| `Partition` | partition.dfy | suppressions and baselines, in place |
| `DNSSEC` | dnssec.dfy | chain validation over abstract cryptography |
| `Suggest`, `Interpolate` | suggest.dfy, interpolate.dfy | edit distance, the nearest setting name, `${VAR}` expansion |

How to read it: operations that change things step by step are methods (the
store, the walker, the check registry and a run's results are classes; rows and
buffers are updated in loops), each proved against a specification function;
the theorems are lemmas about those functions. Concurrent code is a step relation,
and its theorems are about every interleaving.

The main theorems:

- **When the recipient is in sync** (`Sync.SyncExactlyWhen`,
  `Sync.InSyncExactlyWhile`). What a channel was told, and then what is still
  pending for it, is exactly what alerts in the store (open and not suppressed).
  Over every history of rounds, whatever fails, this holds throughout if and only
  if every round was good: no alerting finding was renamed, suppressed or dropped
  with its target, and the delivery was not faulty in the exact sense of
  `Sync.Faulty`. In ordinary operation every round is good, so a recipient is
  always in sync (`Sync.AlwaysInSync`). `Daemon.Serve` runs the service from an empty
  database and is proved to produce just such histories, for every channel.
- **A finding resolves exactly in the N-th clean absence**
  (`Lifecycle.ResolvedExactlyWhen`), for every history; likewise when it is
  reported as regressed and as new. `History.ReportedResolvedExactlyWhen` says it
  of the runs themselves: N runs that kept the target, ran the check without an
  error and did not list the finding, since the last that did.
- **The SPF walker computes the record's meaning within hard bounds**
  (`Walk.Evaluate`): for every DNS, cyclic or not, at most 61 lookups and 111 of
  the walker's own queries, and when it is complete every counter, list and the effective `all` are
  those of a pure recursive evaluator. It is complete whenever that evaluator
  needs at most 50 lookups and fewer than 100 queries. That meaning is in turn what is
  counted over the records visited (`SPFTree.TreesMean`): one lookup for each include,
  a, mx, ptr and exists, and for each redirect of a record without `all`.
- **The macro-string scanner accepts exactly the grammar** of section 7.1 of
  RFC 7208 (`Macros.ParseMacroString`), and the domain-spec check accepts the
  grammar but for one family (`Macros.ValidateDomainSpec`).
- **The glob matcher** computes exactly its own reading of globs for all inputs,
  and that is the glob on every pattern if and only if the id has no star
  (`Registry.Match`, `Registry.AgreesExactlyWithoutStars`).
- **Packing is optimal** (`Packing.Pack`, `Discord.Messages`).
- **Single flight** over every interleaving, panic and cancellation: what callers
  share some computation returned, and never under a context that had ended
  (`SingleFlight.PublishedWasReturned`); and **an
  engine that never exceeds its limits, never gets stuck, always ends and always
  returns the same sorted result** (`Engine.SameResultEveryTime`).
- **Silence means a valid chain** or something that cannot be judged
  (`DNSSEC.Validate`), with the exact condition.

## What turned out false of the code

- The comment at internal/notify/notify.go:153-154 says the oldest undelivered changes are
  dropped. The code drops those that sort first. A fresh change is dropped if and
  only if at least 500 merged changes sort after it (`Pending.DroppedExactlyWhen`);
  with a full backlog and one fresh change, the fresh one goes if and only if it
  sorts first, however old the others are (`Pending.CapDropsFirst`, with both cases
  exhibited by `Pending.FullBacklogExists`).
- The comment at checks/email/internal/spf/parse.go:255-257 says domain-spec =
  macro-string domain-end. In section 7.1 of RFC 7208 a domain-end may be any
  macro-expand, and "%%", "%_" and "%-" are macro-expands; the code refuses domain-specs
  that end in one of them, such as `a%%` (`Macros.EscapeIsRefused`). It accepts a
  text if and only if the grammar does and the text does not end so
  (`Macros.ValidateDomainSpec`).
- Nobody is told when an alerting finding is forgotten with its target
  (internal/state/diff.go:82-83 says so of the store), suppressed, or filed under a new check
  ID: the recipient goes on believing in it. A round with a delivery that is not
  faulty keeps the recipient in sync if and only if none of this happens
  (`Sync.SyncExactlyWhen`; `Sync.ForgettingHappens` exhibits a run).
- A delivery is faulty in exactly three ways (`Sync.Faulty`): the backlog could not be
  read, or sending and storing both failed, and the run had something to say; the
  digest was sent but the backlog not deleted, and the run contradicts an entry of
  it; or the cap drops a change that the recipient needs. `Sync.FailedReadLosesChanges` and
  `Sync.FailedDeleteMisleads` exhibit runs for the first two. Where a round both
  loses a finding and drops changes at the cap, the exact condition is that of
  `Sync.SyncOverTheCap`.
- When a rename sends two stored rows to one fingerprint, writing back can lose or
  leave behind a row. With idempotent renames it is exact for every order the rows
  are loaded and written in if and only if no two rows meet (`State.ExactExactlyWhen`).
- `Match` compares literally before it looks at a star, so a star that faces a star
  stands for exactly that one. It agrees with the glob on every pattern if and only
  if the id contains no `*` (`Registry.AgreesExactlyWithoutStars`); registered ids
  never do (`Registry.ValidIDIsStarFree`).

## Model

| member | source | states |
|---|---|---|
| Sync.AlwaysInSync | internal/notify/notify.go:181-266 | from an empty store, for every sequence of rounds over a fixed target set with nothing suppressed or renamed, a database that answers and never over the cap, after every round replaying all digests that arrived and then the pending changes gives exactly the open findings |
| Sync.InSyncExactlyWhile | internal/cli/daemon.go:107-133 | for every history of rounds, whatever fails: the recipient is in sync throughout if and only if every round loses no alerting finding and delivers without fault |
| Sync.SyncExactlyWhen | internal/notify/notify.go:181-225 | one round from a synced state, for every pattern of database and send failures, with renames, suppressions and forgotten targets: it ends synced if and only if nothing alerting is lost and the delivery is not faulty (unless the cap drops changes in the very round that loses a finding, for which see SyncOverTheCap) |
| Sync.SyncOverTheCap | internal/notify/notify.go:206-217 | a failed send stored over the cap in a round that also loses findings: synced if and only if every lost finding is dropped and whatever is dropped is what the recipient believes anyway |
| Sync.FaultsDecide | internal/notify/notify.go:186-224 | with nothing lost, somebody is left with a wrong belief if and only if the delivery stored nothing of a change that matters, could not delete an entry the run contradicts, or dropped a needed change at the cap |
| Sync.LostIsWrong | internal/state/diff.go:162-163 | a finding whose check is renamed, whose target leaves or that is suppressed while it alerts stays believed in, though it no longer alerts |
| Sync.OneFinding | internal/state/diff.go:136-175 | per finding not lost: merging the run's change into the backlog entry gives the belief that matches the new row, and the row's alerting flips iff the change reported is unsuppressed and not "persisting" |
| Sync.RoundKeepsSane | internal/state/diff.go:136-175 | every round, whatever fails, keeps the table keyed by fingerprint and the backlog free of repeats |
| Sync.ReplayThen | internal/notify/notify.go:181-225 | what a reader of two lists in order believes depends on the second where it mentions the finding and on the first elsewhere |
| Sync.ForgettingHappens | internal/state/diff.go:162-163 | a run of two rounds after which the recipient believes in a forgotten finding |
| Sync.FailedReadLosesChanges | internal/notify/notify.go:187-189 | a run of two rounds in which a failed read loses a resolution, so the recipient is out of sync |
| Sync.FailedDeleteMisleads | internal/notify/notify.go:219-223 | a run of two rounds in which a failed delete leaves a "new" in the backlog after its "resolved" was sent, so the recipient is out of sync |
| Daemon.RunOnce | internal/cli/daemon.go:113-133 | if the run names no finding twice and only current ids and stored rows can be renamed without meeting: record, dispatch and prune are one round of the model for every channel, whatever fails for it, and leave backlogs without repeats and every row under a current id |
| Daemon.Serve | internal/daemon/daemon.go:58-88 | run after run from an empty database (runs without repeats, with current ids): for any channel the states passed through are a history of rounds, ending in the store's table and that channel's backlog |
| Daemon.RoundOfChannel | internal/cli/daemon.go:126-133 | recording, this channel's delivery and pruning compose to a round whatever happens to other channels' keys in between |
| Pending.DeliveryIsAttempt | internal/notify/notify.go:181-225 | for every pattern of failures a delivery turns the stored backlog into the next one and sends exactly the merged changes; a heartbeat carries none |
| Pending.BacklogIsTidy | internal/notify/notify.go:206-218 | after any sequence of deliveries, over the cap or not, whatever fails, the backlog has at most 500 entries, one per finding, sorted |
| Pending.BacklogIsCollapse | internal/notify/notify.go:181-266 | with a database that answers and under the cap, after any sequence of deliveries the backlog says about each finding exactly the collapse of all changes let through since the last digest that arrived |
| Pending.CapKeepsExactly | internal/notify/notify.go:208-210 | the cap keeps an entry if and only if fewer than 500 entries sort after it |
| Pending.DroppedExactlyWhen | internal/notify/notify.go:206-217 | for any stored failure, a change about a finding new to the backlog is dropped if and only if at least 500 merged changes sort after it |
| Pending.CapDropsFirst | internal/notify/notify.go:153-210 | a full backlog and one fresh change: the fresh one is dropped iff it sorts first, else the first entry is, and all others stay |
| Pending.FullBacklogExists | internal/notify/notify.go:153-155 | a full sorted backlog with a fresh change that is dropped and another that is kept |
| Pending.OnlyAskedForEver | internal/notify/notify.go:59-67 | over any sequence of deliveries from an empty backlog, whatever fails, every change sent or stored was reported by a run so far, is not suppressed, is of a kind the channel wants and has at least its severity |
| Pending.AllAskedFor | internal/notify/notify.go:181-200 | a message that arrives is a digest with every such change of the run, unless a "persisting" has an undelivered change about its finding in its place |
| Pending.DigestsHaveChanges | internal/notify/notify.go:198-204 | a message is a heartbeat iff it holds no change |
| Delivery.CheckHeartbeat | internal/notify/notify.go:227-240 | due iff the channel wants heartbeats, the stamp could be read, and nothing was heard less than an interval ago; an error iff heartbeats are wanted and the stamp could not be read |
| Delivery.NeverSilentLonger | internal/notify/notify.go:198-240 | over any sequence of deliveries with a database that answers, whenever one ends without error the channel heard something less than a heartbeat interval ago |
| Delivery.HeartbeatWaits | internal/notify/notify.go:198-204 | a heartbeat is only ever sent a full interval after what was heard last |
| Delivery.Dispatch | internal/notify/notify.go:157-179 | served one by one, every channel ends as if it were alone (message, failure, own keys), no other key changes, and exactly the failing channels are reported |
| Concurrent.FinishIsAttempted | internal/notify/notify.go:181-225 | a delivery's single calls, one after the other, make up the specified outcome |
| Concurrent.EachAsIfAlone | internal/notify/notify.go:166-177 | however the single database and send calls of all deliveries interleave, each channel ends exactly as if it were alone, and no other key changes |
| Concurrent.EveryOrderAgrees | internal/notify/notify.go:157-179 | every interleaving leaves the very table that serving the channels one by one leaves |
| Concurrent.DispatchEnds | internal/notify/notify.go:166-178 | every interleaving ends after at most five calls per channel |
| Concurrent.DispatchHappens | internal/notify/notify.go:157-179 | any differently named channels can be served to the end, whatever the database and the notifiers answer |
| Concurrent.CanFinish | internal/notify/notify.go:166-178 | from wherever an interleaving stands it can be finished |
| Delivery.Deliver | internal/notify/notify.go:181-225 | for every pattern of database and send failures, the kv table, the message and the error are those of the specified outcome: nothing on a failed read, the capped merge kept on a failed send, cleared and stamped on success; what these are is SentLeaves, FailedLeaves and AllAskedFor |
| Delivery.SentLeaves | internal/notify/notify.go:219-224 | after a message without an error: the time to the second under the channel's key, and no backlog that the message held |
| Delivery.FailedLeaves | internal/notify/notify.go:206-218 | after a failed send: the last 500 merged changes under the channel's key |
| Delivery.OwnKeysOnly | internal/notify/notify.go:184-224 | a delivery depends on and changes no key but the channel's own two |
| Delivery.KeysDiffer | internal/notify/notify.go:184 | keys of channels with different names never meet, nor do the two kinds of key |
| Notify.FilterChanges | internal/notify/notify.go:59-67 | the loop computes the filter |
| Notify.FilterKeeps | internal/notify/notify.go:59-67 | a change is kept iff it is unsuppressed, of a kind the rule names, and at least as severe as the rule asks; a list stays sorted and one per finding |
| Notify.FilterFor | internal/notify/notify.go:59-67 | per finding, the filtered list holds its change iff that change meets those three conditions |
| Notify.Merge | internal/notify/notify.go:242-266 | the indexed, overwriting merge computes the specified merge and never shortens the backlog |
| Notify.PlaceIndexed | internal/notify/notify.go:254-263 | one pass of the loop keeps the index exact and places the change where it belongs |
| Notify.MergedFor | internal/notify/notify.go:242-266 | per finding the merge keeps the newer change unless it is "persisting" over one that is not; one entry per finding, sorted, empty only if both lists are |
| Notify.OverlayFor | internal/notify/notify.go:254-263 | laying a list over the backlog collapses it onto each finding's entry |
| Notify.CollapseMeans | internal/notify/notify.go:242-244 | the collapse of a list is its last change that is not "persisting", or else its last "persisting" one |
| Notify.CollapseConcat | internal/notify/notify.go:242-266 | collapsing may be done piecewise |
| Lifecycle.ResolvedExactlyWhen | internal/state/diff.go:159-171 | for every history: reported resolved iff absent now with a clean check, and this is exactly the N-th clean absence since it was last present; failed or unselected runs and prunes make no difference |
| Lifecycle.RegressedExactlyWhen | internal/state/diff.go:142-148 | reported regressed iff it resolved since it was last present and no prune after that was late enough to drop it |
| Lifecycle.NewExactlyWhen | internal/state/diff.go:142-151 | reported new iff never present or forgotten, or dropped by a prune after resolving, or still open but suppressed until now |
| Lifecycle.RowTellsHistory | internal/state/diff.go:155-171 | over any history, the stored row (open, absence count, last seen, resolved at, suppression, content) is what the history since the last presence says |
| Lifecycle.FirstSeenTells | internal/state/diff.go:142-155 | first_seen is the time of the first run to list the finding since it was last forgotten or pruned |
| Lifecycle.NothingStored | internal/state/diff.go:143-163 | no row is stored for a finding never present, or forgotten since |
| History.StoreFollowsHistory | internal/state/diff.go:84-231 | over any sequence of recorded runs, renames and prunes, the row a finding has under its current fingerprint is the state of that finding's own history, renames followed |
| History.TraceBack | internal/state/diff.go:222-228 | whatever fingerprint is asked for at the end, it can be followed back through all renames |
| History.ReportedResolvedExactlyWhen | internal/state/diff.go:117-171 | over any history of recorded runs, renames and prunes: resolved is reported iff the run does not list the finding though its target is there and its check ran without error, and is exactly the N-th such run since a run last listed it |
| History.ReportedRegressedExactlyWhen | internal/state/diff.go:142-148 | likewise regressed: iff the run lists the finding after one resolved it and no prune since was late enough to delete it |
| Recording.RunMeansTable | internal/state/diff.go:112-175 | one run, read off its lists: a listed finding is open as listed, a finding without its target is gone, one missed by a check that ran without error comes one step closer to being resolved, and every other row (its check failed or did not run) stays as it is |
| Recording.RunMeansChanges | internal/state/diff.go:112-175 | the changes are exactly: the listed findings as new, regressed or persisting by their rows, and as resolved the open ones missed by a check that ran without error for the last time they may |
| State.Store.Record | internal/state/diff.go:84-194 | the whole run in place: every finding takes one lifecycle step and is reported accordingly (spelled out over the run in Recording), the open count is the table's, the changes are sorted and logged once each under (run, finding), other tables are untouched |
| State.RunRecorded | internal/state/diff.go:136-175 | after both loops the rows in memory are consistent with the table, survive to one lifecycle step per finding, and the changes are exactly those to report |
| State.MarkPresent | internal/state/diff.go:136-157 | loop 1 over the map, as a fold |
| State.AgeAbsent | internal/state/diff.go:159-175 | loop 2, for any iteration order: rows aged, exactly the resolutions, and the number of open unsuppressed rows not forgotten |
| State.LoopsTakeOneStep | internal/state/diff.go:136-175 | loading, both loops and the forgetting together take each finding exactly one lifecycle step |
| State.ReportedIsReport | internal/state/diff.go:136-175 | a change is reported by one of the two loops iff the lifecycle reports it |
| State.MarkAllOneEvent | internal/state/diff.go:137-157 | even when a run lists a finding twice, at most one of its changes is not "persisting" |
| State.Store.LogEvents | internal/state/diff.go:180-188 | the primary key (run, finding) of the events table is never violated, and exactly the changes that are not "persisting" are logged |
| State.Store.InsertEvent | internal/state/diff.go:184-187 | an insert demands a fresh key and an existing run |
| State.Store.LoadRows | internal/state/diff.go:207-231 | every stored row is loaded under its current fingerprint, and nothing else, for any row order |
| State.LoadedConsistent | internal/state/diff.go:222-228 | with no two rows meeting under a rename, clean rows equal their stored columns, renamed rows know their old key, and first_seen agrees |
| State.WriteBackStep | internal/state/diff.go:234-264 | writing back one more row, in any order, keeps the half-written table exact |
| State.WriteBackDone | internal/state/diff.go:233-266 | written back entirely, the table equals the rows in memory minus the forgotten ones |
| State.Store.SaveRows | internal/state/diff.go:233-266 | for every iteration order, skipping clean rows and leaving columns out of the upsert loses nothing |
| State.ExactExactlyWhen | internal/state/diff.go:207-266 | with idempotent renames, loading and writing back is exact for every load order and write order if and only if no two stored rows are renamed to one fingerprint |
| State.MeetingIsInexact | internal/state/diff.go:222-228 | of two rows that meet, the one not kept in memory can stay behind in the table |
| State.ChangesOrdered | internal/state/diff.go:196-205 | CompareChanges is a total order relation |
| State.SortedDiff | internal/state/diff.go:196-205 | in a sorted diff targets ascend, and each target's changes go new, regressed, resolved, persisting |
| State.DiffUnique | internal/state/diff.go:192 | a sorted list with one change per finding is determined by what it says per finding, so map order never shows in a diff |
| State.Store.Prune | internal/state/store.go:137-147 | expired runs go with their events, the latest run stays, old resolved findings go, the count is exact, the rest is untouched |
| State.LatestRunIsKept | internal/state/store.go:139 | below every run, expired or not, stands one that is kept |
| State.PruneFindings | internal/state/store.go:143 | pruning is the lifecycle's prune for every finding and touches nothing open |
| State.PruneMeans | internal/state/store.go:137-147 | kept are exactly the runs that started at the cutoff or later and the latest, the events of kept runs, and the findings that are open or resolved at the cutoff or later, all unchanged |
| State.Store.Read | internal/state/store.go:115-122 | the stored value, none, or an error |
| State.Store.Write | internal/state/store.go:124-127 | sets one key, or nothing when the database does not answer |
| State.Store.Delete | internal/state/store.go:129-132 | removes one key, or nothing when the database does not answer |
| Walk.Evaluate | checks/email/internal/spf/eval.go:73-79 | for every DNS: at most 61 lookups and 111 of the walker's own queries, costs sum to lookups, voids counted, no problem twice, path restored; complete evaluations equal the pure meaning and what is counted over the tree of records visited (lookups, costs, queries, voids, unexpanded, the effective "all"); evaluations needing at most 50 lookups and fewer than 100 queries are complete |
| Walk.Walker.WalkRecord | checks/email/internal/spf/eval.go:103-151 | a record adds exactly its meaning's tally unless incomplete or failed; "all" beats redirect and only counts on the top chain; the path is one larger than the depth and restored |
| Walk.Walker.WalkTerms | checks/email/internal/spf/eval.go:105-123 | the loop over terms: stopping early only ever happens when the whole record exceeds the work caps; costs per term are exact |
| Walk.Walker.CostedTerm | checks/email/internal/spf/eval.go:109-119 | a term's recorded cost is what it added to the lookups |
| Walk.Walker.WalkTerm | checks/email/internal/spf/eval.go:153-162 | a counting term adds one lookup and its target's work; macro terms are counted but not followed |
| Walk.Walker.WalkTarget | checks/email/internal/spf/eval.go:164-200 | what each kind of term asks the DNS |
| Walk.Walker.Queries | checks/email/internal/spf/eval.go:168-185 | a void is noted iff all queries of the term came back empty |
| Walk.Walker.MailServers | checks/email/internal/spf/eval.go:187-198 | void without MX, a problem with more than ten |
| Walk.Walker.WalkFollow | checks/email/internal/spf/eval.go:205-244 | loops are reported, depth is cut off as incomplete, permissive includes are noted, and the path set is restored |
| Walk.Walker.WalkRedirect | checks/email/internal/spf/eval.go:134-150 | a redirect costs one lookup plus its record's, on the target's own record exactly as noted |
| Walk.Walker.Fetch | checks/email/internal/spf/eval.go:215-235 | one query; none, several or an invalid record end the branch with their problem, and an empty answer is void |
| Walk.Walker.Report | checks/email/internal/spf/eval.go:297-304 | a problem is recorded unless it already is |
| Walk.Walker.Stop | checks/email/internal/spf/eval.go:93-99 | stops, incomplete, exactly at the caps |
| SPF.MeaningIsUnique | checks/email/internal/spf/eval.go:103-244 | the pure meaning does not depend on the depth allowance, as long as it suffices |
| SPFTree.TreesMean | checks/email/internal/spf/eval.go:103-244 | a record has a meaning iff the tree of records it leads to is at most ten names deep; its lookups are those counted over the records of the tree, its effective "all" is the first of the last record on the top redirect chain |
| SPFTree.LookupsAreCounted | checks/email/internal/spf/parse.go:44-52 | the lookups are the include, a, mx, ptr and exists terms of the records visited and one for each redirect of a visited record without "all" |
| SPFTree.AllMeans | checks/email/internal/spf/parse.go:61-69 | All is the record's first "all", or none |
| SPFTree.PublishedMeans | checks/email/internal/spf/parse.go:71-78 | a text is an SPF record iff it begins with "v=spf1", in either case, and ends there or goes on with a space |
| SPFTree.PassesAllMeans | checks/email/internal/spf/eval.go:236-240 | an include admits everyone iff the first "all" of its record is a pass |
| SPFTree.MailMeans | checks/email/internal/spf/eval.go:187-198 | more than ten mail servers are a problem, and none is void |
| Macros.ParseMacroString | checks/email/internal/spf/parse.go:294-347 | accepts exactly the macro-string grammar, c r t only for exp, and says truthfully of every reading whether it ends in an expansion |
| Macros.ScanElement | checks/email/internal/spf/parse.go:301-345 | finds an element in front iff the grammar has one there, with its length and kind |
| Macros.ScanBody | checks/email/internal/spf/parse.go:327-342 | the greedy scan of digits, r and delimiters accepts exactly the bodies that some reading explains |
| Macros.ReadingIsUnique | checks/email/internal/spf/parse.go:294-347 | any two readings of a string agree element by element |
| Macros.ValidateDomainSpec | checks/email/internal/spf/parse.go:255-275 | accepts a text if and only if section 7.1's domain-spec grammar does and the text's last element is not one of %%, %_ and %- |
| Macros.EscapeIsRefused | checks/email/internal/spf/parse.go:263-270 | a%% is a domain-spec of the grammar of the kind that is refused |
| Macros.ValidTopLabel | checks/email/internal/spf/parse.go:277-292 | accepts exactly letters and digits with a letter, or with inner hyphens |
| Macros.DotSplits | checks/email/internal/spf/parse.go:266-273 | a dot with no closing brace after it stands between elements, so the text before it is a macro-string too |
| Macros.OnlyOneLabel | checks/email/internal/spf/parse.go:266-267 | the last dot of the text without its final dot is the only one a label can follow |
| Macros.Alphabets | checks/email/internal/spf/parse.go:294-345 | the letters, delimiters and escapes of section 7.1, written out |
| Registry.Match | internal/registry/registry.go:178-203 | for every id and pattern, true iff the pattern meets the id under the declarative reading in which a star that faces a star is that star; always within (id+1)*(pattern+1) iterations |
| Registry.NewStarSuffices | internal/registry/registry.go:188-194 | a later star can do whatever an earlier one still could, so one backtracking point is enough |
| Registry.ReadsAtLeastAsFar | internal/registry/registry.go:185-194 | a segment that stands in the text, stars and all, takes any later reading at least as far |
| Registry.MeetsIsGlob | internal/registry/registry.go:176-177 | whatever Match accepts, the glob matches |
| Registry.NoStarNoDifference | internal/registry/registry.go:176-203 | with no star in the id, or none in the pattern, Match accepts exactly what the glob matches |
| Registry.AgreesExactlyWithoutStars | internal/registry/registry.go:184-190 | Match agrees with the glob on every pattern if and only if the id has no star |
| Registry.ValidIDIsStarFree | internal/core/check.go:71 | no registered id contains a star |
| Registry.ValidIDMeans | internal/core/check.go:71-79 | a check id is three words joined by dots, each a lower-case letter and then lower-case letters, digits and underscores |
| Registry.ValidMeans | internal/core/check.go:82-107 | metadata is valid iff its id and aliases are such ids, no alias is the id, the module is the id up to its first dot, and the rest is complete |
| Registry.SortedByID | internal/registry/registry.go:205-209 | in the selection ids strictly ascend |
| Registry.Checks.Register | internal/registry/registry.go:43-63 | accepted iff valid and neither the id nor an alias is a registered id or alias; ids and aliases stay disjoint and every alias names a check; a refusal changes nothing |
| Registry.Checks.CanonicalIDSettles | internal/cli/output.go:187-193 | renaming is idempotent, leaves registered ids alone, sends aliases to their registered ids, and leaves an unknown id as it is |
| Registry.Checks.Matches | internal/registry/registry.go:154-162 | a pattern selects by glob with wildcards, else by id or former id |
| Registry.Checks.PicksMeans | internal/registry/registry.go:154-162 | a pattern picks a check by the glob if it has a star or question mark, else by its id or a former id |
| Registry.Checks.IncludedMeans | internal/registry/registry.go:94-137 | included is every check if all patterns begin with "!", else what some pattern without it names |
| Registry.Checks.ExcludedMeans | internal/registry/registry.go:103-144 | excluded is what the rest of some pattern that begins with "!" names |
| Registry.Checks.RefusedMeans | internal/registry/registry.go:106-136 | refused iff a pattern, without its "!", is empty or has a character that may not stand in one, or an inclusion names no check |
| Registry.Checks.KeepWanted | internal/registry/registry.go:122-137 | fails iff some inclusion matches no check, else keeps exactly what some inclusion matches (everything without one) |
| Registry.Checks.DropUnwanted | internal/registry/registry.go:138-144 | drops exactly what some exclusion matches |
| Registry.Checks.SortedChecks | internal/registry/registry.go:146-151 | for any map order: each selected check once, sorted by id |
| Registry.Checks.Select | internal/registry/registry.go:94-152 | an error iff a pattern is malformed or an inclusion matches nothing; else exactly the included checks that no exclusion matches, wherever the exclusions stand, once each, sorted |
| Packing.Pack | internal/notify/render.go:74-98 | blocks in order, exactly once, each chunk under its first block's heading, every chunk within budget if each block is, and no order-preserving split needs fewer chunks |
| Packing.GreedyIsFewest | internal/notify/render.go:74-76 | any greedy split is as short as any feasible one, whenever parts of what fits fit |
| Packing.PartIsSmaller | internal/notify/render.go:77-98 | part of a chunk, with its own heading, is never larger than the chunk |
| Discord.Messages | internal/notify/discord.go:114-128 | embeds in order, at most ten per message, at most 5800 units if each embed is, and no other such grouping has fewer messages |
| Discord.LimitsShrink | internal/notify/discord.go:44-50 | a part of a message within both limits is within both |
| Discord.Utf16LenIsAdditive | internal/notify/render.go:111 | the UTF-16 length of a concatenation is the sum, so packing applies |
| Discord.UnitsCounted | internal/notify/render.go:111 | a character counts once, and twice above U+FFFF |
| Discord.SizeIsTextLength | internal/notify/discord.go:44-50 | an embed is as long as its title, description and footer written one after the other |
| SingleFlight.InvStep | internal/core/memo.go:26-70 | every step of every call keeps the protocol's invariant |
| SingleFlight.OneComputation | internal/core/memo.go:25-41 | in every interleaving at most one computation per key is in progress |
| SingleFlight.DeletesOwnBeforeRelease | internal/core/memo.go:58-70 | a call deletes nothing but its own entry, before its waiters are released, and a retried entry is gone by then |
| SingleFlight.PublishedForever | internal/core/memo.go:43-51 | a published result stays, unchanged |
| SingleFlight.NeverComputedAgain | internal/dnsx/cache.go:53-64 | once a result is published, no call for its key is computing |
| SingleFlight.LaterReplies | internal/dnsx/cache.go:53-77 | later replies are the published result or the caller's own cancellation, but for a leader whose own cut-short computation was over before |
| SingleFlight.WaitersReplyPublished | internal/dnsx/cache.go:67-75 | a waiter never returns a result marked for retry |
| SingleFlight.PublishedWasReturned | internal/core/memo.go:66-70 | in every behaviour, what is published for a key some computation for it returned, and if it is a failure, under a context that had not ended |
| SingleFlight.ReturnIsPublished | internal/core/memo.go:43-70 | in every behaviour, a value, or a failure returned under a live context, is what is published for the key in every state after its leader released the waiters |
| SingleFlight.EndedExactlyWhen | internal/core/memo.go:69 | in every behaviour a call counts as cancelled exactly if its context was ended before |
| SingleFlight.TakingOverHappens | internal/core/memo.go:43-70 | a run in which the leader is cut short, and the caller waiting for it computes afresh and publishes its own value |
| SingleFlight.NobodyIsStuck | internal/dnsx/cache.go:79-99 | after panics and cancellations too, every call can move or waits for a leader that can |
| Engine.Normalize | internal/engine/engine.go:228-263 | rejects exactly findings that repeat a subject, claim another check or target, or an invalid severity; else fills the defaults in order |
| Engine.InvStep | internal/engine/engine.go:139-155 | every step keeps tokens equal to holders, both limits, and results equal to what was recorded |
| Engine.SlotsAreBounded | internal/engine/engine.go:129-145 | in every reachable state the slots held are at most workers (16 unless positive) in all and perTarget (4 unless positive) for one target |
| Engine.NeverStuck | internal/engine/engine.go:140-145 | until all checks are done some step is enabled: acquiring the two semaphores never deadlocks |
| Engine.RunsEnd | internal/engine/engine.go:104-158 | every schedule ends after six steps per check |
| Engine.FinishedRunHoldsEverything | internal/engine/engine.go:104-106 | a finished run holds exactly each pair's findings or its one error |
| Engine.EveryFinding | internal/engine/engine.go:147-154 | a finding is in the result iff some pair reported it, and once |
| Engine.EveryError | internal/engine/engine.go:150-153 | an error is in the result iff its pair failed, and once |
| Engine.FailedPair | internal/engine/engine.go:147-153 | a pair that fails (it returned an error, a subject twice, another check or target, or a severity there is not) has one error in a finished run and no finding |
| Engine.CompletedPair | internal/engine/engine.go:228-263 | one that does not has no error and all its findings, with its check and target and the check's severity, title, remediation and references where it gave none, and no others |
| Engine.NothingElse | internal/engine/engine.go:147-154 | every finding and error of a finished run is some pair's |
| Engine.SortedErrors | internal/engine/engine.go:165-167 | in sorted errors targets ascend, then check ids |
| Engine.FindingsAreDistinct | internal/engine/engine.go:230-235 | no two findings of a run share check, target and subject |
| Engine.OnceEach | internal/engine/engine.go:228-263 | no position of the result repeats another's fingerprint |
| Engine.SameResultEveryTime | internal/engine/engine.go:158-168 | any two finished runs of one plan, however scheduled, have the same sorted findings and errors |
| Ordering.FindingsOrdered | internal/engine/engine.go:265-274 | CompareFindings is a total order relation |
| Ordering.CompareMeans | internal/engine/engine.go:269 | comparing strings is dictionary order |
| Ordering.SortedFindings | internal/engine/engine.go:265-274 | in a sorted result targets ascend, then severities descend, then check ids and subjects ascend |
| Ordering.SortedUnique | internal/engine/engine.go:164 | without ties, a sorted permutation is unique, so an unstable sort is harmless |
| Partition.Results.ApplyConfig | internal/config/apply.go:14-39 | filtering in place leaves exactly the kept findings and the moved ones, severities overridden, both sorted, and returns exactly the expired suppressions |
| Partition.Results.MoveSuppressed | internal/config/apply.go:24-35 | overwriting the slice that is being read loses nothing still to be read |
| Partition.FindMatch | internal/config/apply.go:41-48 | the loop finds the first match |
| Partition.NothingIsLost | internal/config/apply.go:24-37 | kept and moved findings together are all findings, as a multiset, severities overridden |
| Partition.MovedForAReason | internal/config/apply.go:29-31 | no active suppression covers a kept finding; a moved one carries the reason and expiry of the first that covers it |
| Partition.ConfigMeans | internal/config/apply.go:14-39 | kept are exactly the findings, under the severity the configuration gives their check, that no suppression in force names by check, target and subject; moved are the others, with reason and expiry of the first that does; returned are the suppressions whose expiry has come; all in report order |
| Partition.Results.ApplyBaseline | internal/baseline/baseline.go:89-107 | in place, findings split by whether the baseline knows them; gone is the number of known fingerprints that do not occur |
| Partition.BaselineSplits | internal/baseline/baseline.go:95-105 | the split loses and doubles nothing |
| Partition.SplitByBaseline | internal/baseline/baseline.go:95-105 | a finding is baselined iff its fingerprint is known |
| Partition.ConfigKeepsDistinct | internal/config/apply.go:14-39 | suppressing keeps a run free of repeats, kept and suppressed taken together |
| Partition.RecordedRunsHaveNoRepeats | internal/state/diff.go:129-135 | whatever checks return in whatever order, the run handed to the store names no finding twice |
| Suggest.EditDistance | internal/config/load.go:316-334 | the two reused rows compute the distance |
| Suggest.FillRow | internal/config/load.go:323-330 | one row from the one before |
| Suggest.NoScriptIsShorter | internal/config/load.go:316-334 | no sequence of single insertions, deletions and substitutions, anywhere in any order, is shorter than the distance |
| Suggest.SomeScriptReachesIt | internal/config/load.go:316-334 | some such sequence is that short |
| Suggest.Suggest | internal/config/load.go:306-314 | for any map order: the nearest name within two edits, the least among equals, or none |
| Interpolate.Expand | internal/config/load.go:220-249 | the search-and-cut loop computes the reading from the front, errors included |
| Interpolate.ExpandsExactly | internal/config/load.go:220-249 | a value expands to a text if and only if it reads as characters, escapes and variables that mean that text |
| Interpolate.ExpandsAsRead | internal/config/load.go:220-249 | however a value is read as such pieces, it expands to what they mean, and fails with the first variable that is not set |
| Interpolate.QuotedExpandsToItself | internal/config/load.go:228-232 | any text, its `${` written as `$${`, expands to itself under every environment |
| Interpolate.ValuesAreNotRescanned | internal/config/load.go:242-247 | a variable's value is inserted as it is and never expanded again |
| Interpolate.ValidNameMeans | internal/config/load.go:218 | a variable's name is letters, digits and underscores, and no digit first |
| DNSSEC.Validate | checks/dns/dnssec.go:127-177 | a problem only if no chain DS, key, key set, SOA is valid now; a stale DS is reported iff there are keys and signatures but no key whose tag, algorithm and digest (up to case, if it can be computed) a DS names; silence exactly under the stated condition, which implies a valid chain or something that cannot be judged; an error exactly for keys without signatures |
| DNSSEC.VerifySet | checks/dns/dnssec.go:79-117 | each verdict holds exactly when it should: a proof exists, a judged pair failed (with true faults), only uncheckable algorithms, no matching key, no signatures |
| DNSSEC.VerdictDecides | checks/dns/dnssec.go:164-175 | verified iff some signature proves the set, unsupported iff that is what the verdict means |
| DNSSEC.FindAnchors | checks/dns/dnssec.go:140-153 | the anchors are exactly the keys some DS vouches for, and an unknown digest is noticed |
| DNSSEC.ChainFromAnchors | checks/dns/dnssec.go:127-130 | a valid chain exists iff some anchor proves the key set and some key the SOA |
| DNSSEC.ChainMeans | checks/dns/dnssec.go:127-177 | a valid chain, written out: a DS and a key agree in tag, algorithm and digest up to case, that key verifies a signature on the key set that is valid now, and some key one on the SOA |

## Left out

- State.Store.Record: the lifecycle clauses assume that no finding is listed twice, listed ids are current, and renames are idempotent and send no two rows to one fingerprint; the first is proved of every run the engine and the configuration produce (Partition.RecordedRunsHaveNoRepeats), the last is needed, as State.ExactExactlyWhen shows. Database errors and rollback are not modelled: a run is recorded whole.
- State.MarkPresent: rows are values in a map that is reassigned, so two names for one row object are not modelled; the same goes for AgeAbsent.
- Delivery.Deliver: the backlog must hold one change per finding, which every delivery keeps (Pending.BacklogIsTidy); sending is one atomic success or failure, and the JSON round trip of a backlog is the identity.
- Delivery.Dispatch: serves the channels one by one; the concurrent deliveries of the source are the subject of Concurrent, where each kv call and each send is one step.
- Sync.SyncExactlyWhen: needs a rule with new, regressed and resolved and no minimum severity, and findings with named severities; where the cap drops changes in the very round that loses a finding the condition is that of Sync.SyncOverTheCap, which leaves out one case, an alerting finding renamed in that round.
- Sync.AlwaysInSync: what a recipient knows after a failed recording or a cancelled run is not modelled; nothing is recorded or sent then.
- Daemon.RunOnce: a run that cannot be recorded as described promises nothing about rounds; that every run of the engine names no finding twice is Partition.RecordedRunsHaveNoRepeats.
- Daemon.Serve: the schedule, shutdown and health report of the service are left out, and the renaming of check ids is one function for the whole service.
- Packing.Pack: needs an additive size, and blocks with a target and a text, which is what the notifiers give it.
- Engine.NeverStuck: a running check ends or times out; a check that was abandoned may go on outside its slot, so the limits are about slots.
- SingleFlight.NobodyIsStuck: a computation ends; nested calls that wait for their own key are not modelled.
- DNSSEC.Validate: digests, signature checks and validity periods are functions; which message a problem turns into is not modelled.
- Walk.Evaluate: the resolver, the parser of SPF records and name canonicalisation are functions of their input, so the warming of the cache by prefetch has no effect, and the extra queries it sends to the resolver are not counted; problem texts are a datatype with one value per text.
- Fingerprint hashing: taken to be injective on check, target and subject.
- Text: strings are sequences of characters, not bytes; for the byte-wise scanners and the edit distance read a character as a byte.
- Severity columns: stored as the severity that reading the column gives.
- Check metadata: title, default severity and mode checks are one Boolean of the registry model.
- A check's timeout, panic and cancellation in runOne: one outcome, failed; the error texts are left out.
- Sorting: a functional sort stands for slices.SortFunc; Ordering.SortedUnique shows that no other sort could give another result where keys do not tie.
- SQLite, transactions and migrations, YAML and JSON decoding, cron parsing, plugins, the command line, report formats, message texts and the network code of the checks.
