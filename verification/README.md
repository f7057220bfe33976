# go-firewall: a verified model

go-firewall is a reverse proxy and WAF whose configuration is edited while it serves: IP lists are
changed from an admin dashboard, reloaded on SIGHUP, saved to disk and replayed at startup; rate-limit
buckets come and go; rules are indexed by request field and overridden one by one; upstreams go down
and come back. This project models those parts in Dafny and proves what they promise, over every
input, every run or every interleaving.

| file | models |
|---|---|
| `Netmatch.dfy` | CIDR matching: linear scan, sorted merged ranges, binary search |
| `Overlay.dfy` | one IP list: base layer, admin overlay, effective list, edits and their runs |
| `CasLoop.dfy` | the compare-and-swap retry loop, for any state and any number of goroutines |
| `OverlayCas.dfy` | that loop on an IP list |
| `OverrideCas.dfy` | that loop on the override map |
| `IpFilter.dfy` | the filter object: list pointers, geo check, the decision, reload |
| `ListPersistence.dfy` | saving a list's overlay and replaying it over another base |
| `GeoSwap.dfy` | the read/write-lock protocol around the geo database |
| `TokenBucket.dfy` | token buckets with idle eviction, as one map |
| `SplitLimiter.dfy` | the same with a request split where the lock is released |
| `ShardedLimiter.dfy` | the 32 hash shards, refining the one map |
| `RateStage.dfy` | the default and per-route limiters |
| `Waf.dfy` | rule loading, grouping by field, and inspection |
| `WafEngine.dfy` | overrides, the effective view, PATCH, reload, save and replay |
| `AdminRuns.dfy` | runs of edits, failing saves, reloads and restarts, with the state file |
| `Admin.dfy` | the admin server: handlers, snapshots, startup |
| `ConfigReload.dfy` | reload on SIGHUP as a composition of three reloads |
| `RoundRobin.dfy` | upstream health and round-robin fairness |
| `Proxy.dfy` | the request path with its single retry |
| `Ring.dfy` | the access log's ring buffer |
| `ClientIp.dfy` | X-Forwarded-For resolution |
| `Wrappers.dfy`, `Word.dfy`, `Text.dfy` | options, word sizes, string prefixes |

Code that changes fields in place is a class here, and each of its methods is tied to a specification
function on values; the theorems are about those functions. Concurrent protocols are step systems in
which an action that is not possible changes nothing, so a theorem about all action sequences is one
about all interleavings. Text parsing, regular expressions, percent-decoding, the geo lookup, the
transport and the clock are parameters.

## Main results

- Any interleaving of concurrent compare-and-swap calls is one sequential run in commit order
  (`CasLoop.Linearizable`); a swap fails only when another one succeeded, and a call left alone ends
  within a turn (`CasLoop.CasOutcome`, `CasLoop.EndsAlone`). So no list edit and no override edit is lost, however many reloads
  race it (`OverlayCas.NoEditLost`, `OverlayCas.CommittedEditStands`, `OverrideCas.NoOverrideLost`).
- One CIDR's fate over any run of edits and reloads is that of a three-bit machine which only its own
  edits and the reloads move (`Overlay.MarksDecide`, `Overlay.OnlyOwnEditsMatter`).
- Restarting over a config publishes the same list, entry by entry, as reloading that config
  (`ListPersistence.RestartEqualsReload`). Over every run of edits, failing saves, reloads and restarts,
  a restart restores exactly what was last saved (`AdminRuns.RestartRestoresLastSave`,
  `AdminRuns.OverrideRuns`), and the file keeps up with the live state if and only if nothing changed
  since the last good save (`AdminRuns.CurrentSinceSave`). The handlers, the reload and startup are
  steps of these runs (`Admin.Server.AddIp`, `ConfigReload.Process.OnSighup`, `Admin.Start` and others).
- Evicting idle buckets is invisible if and only if the TTL is long enough to refill a bucket
  (`TokenBucket.EvictionInvisible`); the rate bounds hold in every window of every run.
- The grouped rule search blocks exactly what the flat rule list says (`Waf.Inspect`).
- Crossing the matcher's size threshold never changes an answer (`Netmatch.ThresholdUnobservable`).
- No reload closes a geo database that is being read, and each displaced one is closed once; when a
  shutdown breaks either is stated exactly (`GeoSwap.ShutdownRaces`, `GeoSwap.ClosedTwice`).
- In every round of n picks each healthy upstream gets one plus the down upstreams just before it.

## Where the code differs from its own documentation

The model follows the code. Each difference is proved, with the condition under which the
code does as documented and inputs for which it does not.

- The repository's README says that admin edits survive a SIGHUP reload. An added CIDR does so
  over every later run without an edit of it exactly when it was not already covered by the base alone
  (`Overlay.AddSurvivesReload`); a removed one stays out exactly when it was in the base
  (`Overlay.RemoveSurvivesReload`).
- It also says that a bad config is rejected in full. A config that validates but whose geo database does
  not open leaves new WAF rules beside old lists and limits (`AdminRuns.ReloadInPart`);
  `ConfigReload.Process.ReloadOnce` states exactly when.
- The comment on `Override` promises that an override of the enabled flag keeps following the rules
  file. A second PATCH of that flag stores the shown action instead (`WafEngine.PatchFollowsFile`,
  `WafEngine.SecondPatchPins`).
- The comment on `Proxy` says that only safe requests are retried and requests with a body are not. The
  code retries any request without a body, POST included, and any GET, HEAD or OPTIONS, with a body or
  without. The two rules differ exactly on requests that are safe or bodiless and not both
  (`Proxy.RetryRuleDiffers`, with both cases in `Proxy.RetriedBeyondDocumentation`).
- The rate bound by evictions alone holds while no request is admitted on an evicted entry or with
  an old clock reading (`SplitLimiter.PlainBoundHolds`). The lock is released between lookup and charge, so both can
  happen, and either alone breaks the bound for every choice of parameters
  (`SplitLimiter.OrphansBreakPlainBound`, `SplitLimiter.OldReadingsBreakPlainBound`).
  `SplitLimiter.SplitRateBound` is the bound that always holds.
- Closing the filter at shutdown takes only the read lock and leaves the closed database installed. A
  lookup comes to read a closed database exactly when one reads during a shutdown, or starts reading
  after it and before the next swap (`GeoSwap.ShutdownRaces`); a database is closed twice exactly when a
  reload swaps it out after a shutdown, or it is shut down twice (`GeoSwap.ClosedTwice`). Runs for each:
  `GeoSwap.ReadDuringShutdown`, `GeoSwap.ReadAfterShutdown`, `GeoSwap.ReloadAfterShutdown`,
  `GeoSwap.ShutDownTwice`.

## Model

| member | source | states |
|---|---|---|
| Netmatch.PrefixContainsMeaning | internal/netmatch/matcher.go:41-48 | a prefix contains an address iff the families agree and both values are equal with the bits past the prefix length shifted out |
| Netmatch.RangeOfMeaning | internal/netmatch/matcher.go:80-83 | the range of a prefix holds exactly the addresses of its network, read bit by bit |
| Netmatch.MergeSortedMeaning | internal/netmatch/matcher.go:50-52 | sorting and merging gives ordered disjoint ranges covering the same addresses |
| Netmatch.ThresholdUnobservable | internal/netmatch/matcher.go:76-88 | for every prefix list and address, the range set answers as the linear scan |
| Netmatch.BuildMeaning | internal/netmatch/matcher.go:66-89 | building succeeds iff every CIDR parses; then the matcher covers exactly what the listed CIDRs contain |
| Netmatch.LinearContains | internal/netmatch/matcher.go:41-48 | true iff the address is in the network of some prefix, read bit by bit |
| Netmatch.RangeSetContains | internal/netmatch/matcher.go:57-59 | binary search over ordered disjoint ranges finds the address iff some range holds it |
| Netmatch.NewMatcher | internal/netmatch/matcher.go:66-89 | fails iff a CIDR does not parse; either form answers as the list reads |
| Overlay.EffectiveMeaning | internal/middleware/ipfilter/filter.go:47-69 | membership is (base + added) minus removed, no duplicates, first-occurrence order |
| Overlay.InvMeaning | internal/middleware/ipfilter/filter.go:17-45 | in every reachable state the cached list and the matcher agree with the layers |
| Overlay.MakeStateOk | internal/middleware/ipfilter/filter.go:32-45 | rebuilding fails iff an entry that stays effective does not parse |
| Overlay.AddMeaning | internal/middleware/ipfilter/filter.go:288-311 | an add fails iff the CIDR does not parse, else exactly that CIDR becomes effective; invariant kept |
| Overlay.RemoveMeaning | internal/middleware/ipfilter/filter.go:313-333 | a removal reports whether the CIDR was effective, drops exactly it, never fails; invariant kept |
| Overlay.ReloadMeaning | internal/middleware/ipfilter/filter.go:210-221 | a reload fails iff the new base does not parse, and keeps both overlay sequences |
| Overlay.FreshMeaning | internal/middleware/ipfilter/filter.go:127-140 | startup succeeds iff the base parses, and satisfies the invariant |
| Overlay.RunKeepsInv | internal/middleware/ipfilter/filter.go:17-45 | the invariant holds after every run of adds, removals and reloads |
| Overlay.LastEditWins | internal/middleware/ipfilter/filter.go:288-333 | until the base changes, membership is decided by the last accepted edit of the CIDR |
| Overlay.EditsCommute | internal/middleware/ipfilter/filter.go:20-23 | edits of different CIDRs give the same members in either order |
| Overlay.MarksDecide | internal/middleware/ipfilter/filter.go:206-333 | over every run with reloads, a CIDR's membership and layers are those of a machine on its three bits |
| Overlay.OnlyOwnEditsMatter | internal/middleware/ipfilter/filter.go:206-333 | a CIDR ends up as if only its own edits and the reloads had been made |
| Overlay.AddSurvivesReload | internal/middleware/ipfilter/filter.go:151-156 | an add outlives every run without an edit of its CIDR, any number of reloads included, iff the CIDR was admin-added or missing from the base |
| Overlay.RemoveSurvivesReload | internal/middleware/ipfilter/filter.go:151-156 | after a removal the CIDR stays out over every such run iff the base or the overlay's removals had it, or it does not parse |
| CasLoop.Linearizable | internal/middleware/ipfilter/filter.go:277-281 | for every interleaving, state and outcomes equal the sequential run in commit order; each call once, in program order |
| CasLoop.CasFailsOnlyToProgress | internal/middleware/ipfilter/filter.go:292-310 | a swap fails iff another goroutine's swap committed since the load |
| CasLoop.CasOutcome | internal/middleware/ipfilter/filter.go:306-310 | after a foreign swap the call loads again and nothing changes; otherwise it publishes its state, is logged and returns |
| CasLoop.CallAlone | internal/middleware/ipfilter/filter.go:288-311 | a call nobody interferes with takes one turn: published, logged once, returned |
| CasLoop.EndsAlone | internal/middleware/ipfilter/filter.go:288-311 | a call under way ends within one more turn once it is left alone |
| CasLoop.RealTimeOrder | internal/middleware/ipfilter/filter.go:288-333 | calls that took effect earlier stand earlier in the commit order |
| OverlayCas.ListLinearizable | internal/middleware/ipfilter/filter.go:288-333 | for every interleaving of adds, removals and reloads, the published list is that of the sequential run and satisfies the invariant |
| OverlayCas.NoEditLost | internal/middleware/ipfilter/filter.go:206-333 | whatever the interleaving, reloads included, a CIDR is as its own committed edits and the committed reloads make it; with no reload its last edit decides |
| OverlayCas.EditAlone | internal/middleware/ipfilter/filter.go:288-333 | from any reachable state an undisturbed add or removal returns in one turn with its CIDR listed or gone, and no other touched |
| OverlayCas.CommittedEditStands | internal/middleware/ipfilter/filter.go:206-209 | an edit the overlay records stands against every interleaving of later reloads and edits of other CIDRs |
| OverlayCas.ReloadNeverClobbers | internal/middleware/ipfilter/filter.go:206-221 | a committed reload keeps the overlay live at its commit |
| OverrideCas.NoOverrideLost | internal/middleware/waf/engine.go:123-133 | whatever the interleaving of sets and clears, each id ends with what its last committed edit left |
| IpFilter.ContainsStr | internal/middleware/ipfilter/filter.go:71-78 | membership |
| IpFilter.RemoveStr | internal/middleware/ipfilter/filter.go:80-88 | every other entry, in order, and nothing else |
| IpFilter.EffectiveCIDRs | internal/middleware/ipfilter/filter.go:47-69 | the loops compute the effective list, with its membership, order and no duplicates |
| IpFilter.NewListState | internal/middleware/ipfilter/filter.go:32-45 | builds the state of the given layers, or fails with its matcher |
| IpFilter.ListPointer.Add | internal/middleware/ipfilter/filter.go:288-311 | the call run alone: state, outcome and members as specified; invariant kept |
| IpFilter.ListPointer.Remove | internal/middleware/ipfilter/filter.go:313-333 | the call run alone: state, outcome and members as specified; invariant kept |
| IpFilter.ListPointer.Reload | internal/middleware/ipfilter/filter.go:210-221 | the call run alone: new base, same overlay, or nothing changed |
| IpFilter.BuildGeoState | internal/middleware/ipfilter/filter.go:96-109 | fails iff the check is enabled with countries and the database does not open; then the countries are the upper-cased ones |
| IpFilter.Filter.Decide | internal/middleware/ipfilter/filter.go:233-258 | denied iff outside the networks of a nonempty allow list or inside one of the deny list; geo-denied iff unresolved or not listed |
| IpFilter.Filter.Reload | internal/middleware/ipfilter/filter.go:182-204 | succeeds iff both lists parse and the database opens; exactly what each failure leaves changed |
| IpFilter.NewFilter | internal/middleware/ipfilter/filter.go:127-149 | startup over a config, with empty overlays, or failure iff a part is bad |
| ListPersistence.ReplayNormalises | internal/admin/admin.go:106-126 | replay leaves the additions the base lacks and the removals it has, in saved order |
| ListPersistence.RestartEqualsReload | internal/admin/admin.go:106-126 | replay over any base publishes the sequence and matcher that reloading that base publishes |
| ListPersistence.OverlayRoundTrip | internal/admin/admin.go:139-149 | the saved overlay comes back unchanged iff no addition is in the base and every removal is |
| ListPersistence.AnyReplayOrder | internal/admin/state.go:20-25 | any order of the saved edits gives the same members |
| ListPersistence.ReplayAnyFile | internal/admin/admin.go:106-126 | replaying any file at all gives a valid list: the base less the file's removals, plus its additions that parse |
| ListPersistence.RestartIsIdentity | internal/admin/admin.go:65-72 | with no reload since startup, a restart over the same config restores the very same state |
| GeoSwap.NoUseAfterClose | internal/middleware/ipfilter/filter.go:169-204 | in every interleaving, shutdowns included, a database being read is installed and no reload has closed it |
| GeoSwap.OnePlaceEach | internal/middleware/ipfilter/filter.go:182-204 | every opened database is installed, in one reload's hand, closed once, or leaked, and only one of these |
| GeoSwap.AllDisplacedClosed | internal/middleware/ipfilter/filter.go:195-203 | with no reload under way, exactly the displaced databases have been closed, once each |
| GeoSwap.ShutdownRaces | internal/middleware/ipfilter/filter.go:223-230 | over every interleaving, a lookup ever reads a closed database iff one reads at a shutdown, or starts to after it and before the next swap |
| GeoSwap.ClosedTwice | internal/middleware/ipfilter/filter.go:195-230 | with no reload under way, a database was closed twice iff it was swapped out after a shutdown, or shut down twice |
| GeoSwap.LookupThenReload | internal/middleware/ipfilter/filter.go:169-204 | no reload can lock while a lookup reads; once it is over the reload goes through |
| GeoSwap.LookupRun | internal/middleware/ipfilter/filter.go:232-258 | a whole lookup reads the installed database and leaves everything as it was |
| GeoSwap.ReloadingRun | internal/middleware/ipfilter/filter.go:182-204 | a whole reload, with or without a database, installs the new one, closes the old and leaks nothing |
| GeoSwap.FailedReload | internal/middleware/ipfilter/filter.go:182-194 | a reload that fails after opening its database leaves the old one installed and leaks the new |
| GeoSwap.ReadAfterShutdown | internal/middleware/ipfilter/filter.go:223-230 | a lookup that follows a shutdown reads a closed database |
| GeoSwap.ReadDuringShutdown | internal/middleware/ipfilter/filter.go:223-230 | a lookup that the shutdown finds reading reads a closed database |
| GeoSwap.ShutDownTwice | internal/middleware/ipfilter/filter.go:223-230 | two shutdowns close one database twice |
| GeoSwap.ReloadAfterShutdown | internal/middleware/ipfilter/filter.go:195-230 | a reload after a shutdown closes the same database again |
| TokenBucket.AllowOutright | internal/middleware/ratelimit/limiter.go:66-78 | outright: refill at rps capped at burst, a whole token admits and is spent, the address is seen now, no other is touched |
| TokenBucket.SweepOutright | internal/middleware/ratelimit/limiter.go:98-109 | a sweep keeps exactly the entries seen since the cutoff, unchanged |
| TokenBucket.AllowMeaning | internal/middleware/ratelimit/limiter.go:66-78 | a request is admitted iff a whole token is there, costs one, and touches no other address |
| TokenBucket.EvictionInvisible | internal/middleware/ratelimit/limiter.go:98-109 | every run gets the answers of a limiter that never evicts iff rps * idleTTL >= burst |
| TokenBucket.RateBound | internal/middleware/ratelimit/limiter.go:66-78 | at most burst * (1 + evictions) + rps * (t - s) admissions in every window of every run |
| TokenBucket.FullBucketsIsProduct | internal/middleware/ratelimit/limiter.go:71-71 | n full buckets hold burst * n tokens |
| TokenBucket.TightRateBound | internal/middleware/ratelimit/limiter.go:66-78 | at most burst + rps * (t - s) when idling refills a bucket |
| SplitLimiter.VisitIsAllow | internal/middleware/ratelimit/limiter.go:66-78 | a request whose steps nothing interrupts is one request of the one-map limiter: same entries, same answer |
| SplitLimiter.SplitSweepIsSweep | internal/middleware/ratelimit/limiter.go:98-109 | a sweep drops from the table what the one-map sweep drops |
| SplitLimiter.OldReadingTakes | internal/middleware/ratelimit/limiter.go:76-77 | a charge with an older reading finds no refill and sets the bucket's clock back |
| SplitLimiter.EvictsMeaning | internal/middleware/ratelimit/limiter.go:98-109 | a step evicts an address iff its entry was in the table before and is not after |
| SplitLimiter.SplitRateBound | internal/middleware/ratelimit/limiter.go:60-78 | with the lock released after lookup, the bound gains one per request admitted on an evicted entry, and the refill of the time the others admitted spent since reading the clock |
| SplitLimiter.OrphansWereStranded | internal/middleware/ratelimit/limiter.go:66-78 | requests admitted on evicted entries are at most those that held an entry when it was evicted |
| SplitLimiter.PlainBoundHolds | internal/middleware/ratelimit/limiter.go:60-78 | with nobody admitted on an evicted entry or with an old reading, burst * (1 + evictions) + rps * (to - from) |
| SplitLimiter.OrphansBreakPlainBound | internal/middleware/ratelimit/limiter.go:66-78 | for every limiter, a window of one instant without evictions or old readings that admits burst + 1 |
| SplitLimiter.OldReadingsBreakPlainBound | internal/middleware/ratelimit/limiter.go:60-78 | for every limiter, a window of one instant with no eviction and nobody admitted on an evicted entry that admits burst + 1 |
| ShardedLimiter.SliceRoundTrip | internal/middleware/ratelimit/limiter.go:129-129 | the hashed bytes are the address in network byte order |
| ShardedLimiter.XorBits | internal/middleware/ratelimit/limiter.go:125-134 | a bit of the exclusive or is set iff the two numbers differ in it |
| ShardedLimiter.FnvOutright | internal/middleware/ratelimit/limiter.go:125-134 | the 32-bit FNV-1a start value, round and prime |
| ShardedLimiter.XorMeaning | internal/middleware/ratelimit/limiter.go:125-134 | exclusive or stays in range, commutes and undoes itself |
| ShardedLimiter.RoundUndone | internal/middleware/ratelimit/limiter.go:125-134 | a hash round loses nothing: the earlier hash follows from the later one and the byte |
| ShardedLimiter.LastByteSeparates | internal/middleware/ratelimit/limiter.go:125-134 | addresses that differ in their last byte alone hash differently |
| ShardedLimiter.ComputeShardIndex | internal/middleware/ratelimit/limiter.go:125-134 | the loop is the FNV-1a fold modulo 32, in range |
| ShardedLimiter.SweepRefines | internal/middleware/ratelimit/limiter.go:98-109 | sweeping one shard sweeps exactly its addresses of the one map |
| ShardedLimiter.CountKeys | internal/middleware/ratelimit/limiter.go:111-119 | shard sizes add up to the number of distinct addresses placed in them |
| ShardedLimiter.Limiter.AllowAt | internal/middleware/ratelimit/limiter.go:66-78 | acts and answers as on one map keyed by address; the address was seen now, admitted or not, and no other changes |
| ShardedLimiter.Limiter.EvictIdle | internal/middleware/ratelimit/limiter.go:98-109 | exactly the addresses seen since the cutoff stay, unchanged; the sweep of all shards is that of the one map |
| ShardedLimiter.Limiter.ActiveCount | internal/middleware/ratelimit/limiter.go:111-119 | the number of distinct tracked addresses |
| ShardedLimiter.SweepOne | internal/middleware/ratelimit/limiter.go:102-106 | deleting while ranging leaves exactly the entries with lastSeen >= now - idleTTL, unchanged |
| RateStage.BuildState | internal/middleware/ratelimit/middleware.go:25-41 | new empty limiters with the config's rate, burst and TTL, route by route |
| RateStage.LimiterFor | internal/middleware/ratelimit/middleware.go:64-71 | the first route that the path begins with, character by character; the default iff there is none |
| RateStage.StopAll | internal/middleware/ratelimit/middleware.go:43-51 | every limiter of the stage is stopped |
| RateStage.Stage.Reload | internal/middleware/ratelimit/middleware.go:94-98 | every limiter is replaced by a new one without buckets, and the old ones are stopped |
| Waf.LoadRuleSet | internal/middleware/waf/ruleset.go:56-101 | accepts exactly the well-formed rule lists, and indexes them |
| Waf.AddTargets | internal/middleware/waf/ruleset.go:80-98 | files a rule under each target, or fails iff a target is none of the known names |
| Waf.GroupSearch | internal/middleware/waf/ruleset.go:17-19 | searching a group finds what scanning the whole file for the field finds |
| Waf.FirstHitMeaning | internal/middleware/waf/engine.go:245-274 | the flat search returns the first rule in file order that targets the field and blocks the value |
| Waf.Check | internal/middleware/waf/engine.go:247-274 | the first rule of the group that blocks under overrides and log-only mode |
| Waf.CheckUrl | internal/middleware/waf/engine.go:197-212 | line, then path, then a nonempty query, each by file order |
| Waf.CheckHeaders | internal/middleware/waf/engine.go:214-230 | whatever the map order, a hit iff some header value is blocked by a rule targeting it |
| Waf.HitOutright | internal/middleware/waf/engine.go:185-274 | the search's reading of a rule is: enabled, blocking, not log-only, and its pattern matches a value that one of its targets names, spelled out from the request |
| Waf.Inspect | internal/middleware/waf/engine.go:185-243 | blocks iff some rule, read outright, blocks; the rule returned is one, first in file order outside headers; exact read-error case |
| WafEngine.ViewAgreesWithCheck | internal/middleware/waf/engine.go:82-102 | a rule can block iff the admin view shows it enabled with action block and the mode is not log-only |
| WafEngine.PatchMeaning | internal/admin/admin.go:343-366 | a PATCH shows what it asks, keeps omitted fields and every other rule as shown |
| WafEngine.PatchChanges | internal/admin/admin.go:343-366 | an accepted PATCH leaves the overrides as they were iff it asks for exactly what is stored |
| WafEngine.PatchFollowsFile | internal/admin/admin.go:347-355 | an enabled-only PATCH keeps following the rules file iff the rule had no override |
| WafEngine.SecondPatchPins | internal/admin/admin.go:347-355 | of two enabled-only PATCHes in a row the second pins the action against every later file |
| WafEngine.ReplayRestores | internal/admin/admin.go:128-136 | for any saved map and any order, exactly the saved overrides with a valid action whose rules are loaded |
| AdminRuns.RunKeeps | internal/admin/admin.go:98-136 | over every run from any file, both list invariants, well-formed rules and valid stored actions |
| AdminRuns.FileIsLastSave | internal/admin/admin.go:160-173 | the file holds the overlay as it was right after the last good save, or what it held at first |
| AdminRuns.ChangesExactly | internal/admin/admin.go:139-158 | an action changes what would be saved iff it adds what is not effective, removes what is, patches to something not stored, or restarts over a config that leaves part of the overlay meaningless |
| AdminRuns.StaysCurrent | internal/admin/admin.go:160-173 | an action leaves a current file current iff it saves or changes nothing |
| AdminRuns.CurrentSinceSave | internal/admin/admin.go:160-173 | over every run, the file was current all the time since the last good save iff no action since then changed the overlay |
| AdminRuns.FileCurrent | internal/admin/admin.go:160-173 | at the end of every run the file is current iff the overlay equals that of the last good save |
| AdminRuns.UndoneEditsStayCurrent | internal/admin/admin.go:160-173 | two unsaved edits that undo each other leave the file current |
| AdminRuns.RestartMeaning | internal/admin/admin.go:88-136 | over any file, the lists and overrides a restart comes up with |
| AdminRuns.RestartRestoresLastSave | internal/admin/admin.go:65-72 | after every run, a restart gives the lists that a reload at the last good save would have given, and the overrides saved then that still apply |
| AdminRuns.RestartStaysCurrent | internal/admin/admin.go:101-136 | a restart from a current file leaves it current iff the new config has no saved addition, has every saved removal and loads every overridden rule |
| AdminRuns.RestartWithoutFile | internal/admin/state.go:48-55 | with no file, the config's lists alone and no override |
| AdminRuns.ReloadInPart | cmd/go-firewall/main.go:208-225 | a loaded config whose geo database does not open leaves new rules under old lists |
| AdminRuns.OverrideRuns | internal/middleware/waf/engine.go:49-61 | over every run, an override is that of the last accepted PATCH of its id, or what the last restart found saved |
| WafEngine.Engine.Reload | internal/middleware/waf/engine.go:54-61 | loads the file iff well-formed, else keeps the old rules; overrides untouched |
| WafEngine.Engine.SetOverride | internal/middleware/waf/engine.go:107-134 | refuses unknown ids and invalid actions, else sets exactly that override |
| WafEngine.Engine.ClearOverride | internal/middleware/waf/engine.go:164-180 | removes exactly that override |
| WafEngine.Engine.ListRules | internal/middleware/waf/engine.go:82-102 | every loaded rule in order, as its file says or as its override does |
| WafEngine.Engine.Inspect | internal/middleware/waf/engine.go:185-243 | blocks iff some rule, read outright under the live overrides, does, by a rule the view shows as blocking |
| WafEngine.Engine.PatchRule | internal/admin/admin.go:343-366 | the handler's loop and calls perform the specified PATCH |
| Admin.Server.CurrentState | internal/admin/admin.go:139-158 | the snapshot of both overlays and the raw overrides |
| Admin.Server.Persist | internal/admin/admin.go:165-173 | the file becomes the snapshot iff a store is set and the save works |
| Admin.Server.AddIp | internal/admin/admin.go:260-282 | one step of a run: edits only the named list and saves, or changes nothing; exact condition of each status |
| Admin.Server.RemoveIp | internal/admin/admin.go:284-311 | one step of a run, as for adding; found iff the CIDR was effective |
| Admin.Server.PatchRule | internal/admin/admin.go:326-369 | one step of a run: performs the PATCH and saves, or changes nothing |
| Admin.ReplayList | internal/admin/admin.go:107-116 | the loops perform the removals and then the additions |
| Admin.ReplayEngine | internal/admin/admin.go:131-135 | the loop sets the saved overrides in iteration order, skipping what no longer applies |
| Admin.ReplayState | internal/admin/admin.go:106-136 | both lists and the overrides are replayed |
| Admin.StartEngine | cmd/go-firewall/main.go:89-96 | an engine iff the WAF is on, a failure iff its rules do not load |
| Admin.Start | internal/admin/admin.go:74-99 | over any state file, missing or stale, starts iff every part loads and the file can be read; lists and overrides as replaying it gives |
| ConfigReload.ValidateCIDRs | internal/config/config.go:299-306 | accepts exactly the lists that parse |
| ConfigReload.Load | internal/config/config.go:234-242 | a loaded config has lists that parse |
| ConfigReload.Process.ReloadOnce | cmd/go-firewall/main.go:208-225 | all old, all new, or new rules only, with the exact condition of each; overlays and overrides survive |
| ConfigReload.Process.ReloadListsAndLimits | cmd/go-firewall/main.go:219-222 | lists, geo check and limits of a loaded config are all swapped, or none of them when the geo database does not open |
| ConfigReload.Process.OnSighup | cmd/go-firewall/main.go:173-190 | a reload is one step of the runs of the admin state, whatever the state file holds |
| RoundRobin.CountWraps | internal/proxy/proxy.go:44-45 | the int32 failure count wraps from its largest to its smallest value |
| RoundRobin.HealthRefinesHistory | internal/proxy/proxy.go:34-49 | down iff at least 3 failures since the last success and the last one less than 30 s ago |
| RoundRobin.PickedExactly | internal/proxy/proxy.go:136-150 | a start picks a healthy upstream iff it lies within the run of down upstreams before it |
| RoundRobin.FairWithOutages | internal/proxy/proxy.go:136-150 | over any number of rounds of n picks, in each 1 plus the down upstreams just before it, and never a down one |
| RoundRobin.FairWhenUniform | internal/proxy/proxy.go:134-150 | all healthy or all down: any number of picks differ by at most one between upstreams |
| Proxy.Upstream.RecordSuccess | internal/proxy/proxy.go:39-42 | the health state after a success |
| Proxy.Upstream.RecordFailure | internal/proxy/proxy.go:44-49 | the health state after a failure, with int32 wrap-around |
| Proxy.RetryRuleDiffers | internal/proxy/proxy.go:51-56 | the code's rule and the documented one agree iff the request is both safe and bodiless or neither |
| Proxy.RetriedBeyondDocumentation | internal/proxy/proxy.go:123-132 | a bodiless POST and a GET with a body are retried |
| Proxy.ReverseProxy.ChosenIsPicked | internal/proxy/proxy.go:136-150 | while health is steady the choice is the one the fairness results are about |
| Proxy.ReverseProxy.Pick | internal/proxy/proxy.go:136-150 | the first upstream in turn found healthy as the clock reads at its probe, the first of all if none; none iff there are no upstreams |
| Proxy.ReverseProxy.PickOtherThan | internal/proxy/proxy.go:209-216 | the first other healthy upstream, none iff there is none |
| Proxy.ReverseProxy.Forward | internal/proxy/proxy.go:154-188 | retries once, elsewhere, exactly when it may and can, also when a protocol switch fails after a response; records health of those tried only |
| Proxy.ReverseProxy.HandleError | internal/proxy/proxy.go:165-188 | records the failure, then retries or reports it |
| Proxy.ReverseProxy.ServeHTTP | internal/proxy/proxy.go:109-132 | a second attempt iff the request is bodiless or a GET, HEAD or OPTIONS, the first fails and another upstream is up; the record shows an error iff the last failed, and names it |
| Ring.NewestFirstMeaning | internal/log/ring.go:34-54 | the listing holds exactly the wanted entries, later ones first |
| Ring.IndexOf | internal/log/ring.go:43-43 | the modular index is the slot of the i-th newest entry, in range |
| Ring.RingBuffer.constructor | internal/log/ring.go:16-21 | an empty buffer of the given capacity, 1000 if not positive |
| Ring.RingBuffer.Add | internal/log/ring.go:23-32 | the history grows by the entry and the array still holds its end |
| Ring.RingBuffer.Recent | internal/log/ring.go:36-54 | the first `limit` wanted entries of the retained history, newest first |
| ClientIp.UnmapMeaning | internal/middleware/clientip.go:27-27 | unmapping undoes the IPv4 mapping, leaves all other addresses alone and is idempotent |
| ClientIp.SplitRoundTrip | internal/middleware/clientip.go:71-71 | joining undoes splitting; no part holds a comma |
| ClientIp.SplitConcat | internal/middleware/clientip.go:71-71 | a text before a comma splits apart from the header |
| ClientIp.ResolveClientIP | internal/middleware/clientip.go:52-85 | the loop returns the specified address; no address iff the peer has none |
| ClientIp.ResolveMeaning | internal/middleware/clientip.go:66-84 | the rightmost parseable untrusted entry, else the peer |
| ClientIp.LeftExtension | internal/middleware/clientip.go:66-84 | header, then prepended text, then peer decide, in that order |
| ClientIp.LeftExtensionIndependence | internal/middleware/clientip.go:66-70 | no prepended text changes the result iff the peer is untrusted, or the header names an untrusted address, or no text does |

## Left out

- HTTP servers, TLS, listeners, draining, WebSocket passthrough and the reverse proxy's transport: plumbing over the standard library.
- YAML and JSON decoding, file reads and the atomic rename of the state file: a saved state is a value, and reading or saving succeeds or fails by parameter.
- Text parsing of addresses and CIDRs, regular expressions, percent-decoding, canonical header names and the geo lookup: function parameters.
- Addresses with an IPv6 zone: the model's addresses have none.
- Floating point and nanosecond rounding in the token bucket: reals. The one-map and sharded limiters take a call as one step at one clock reading; `SplitLimiter` splits it, and there a reading older than the bucket's clock refills nothing and sets that clock back, as golang.org/x/time/rate does.
- Concurrent admin handlers: saving a snapshot and patching a rule are not atomic in the code, so handlers and reloads run one at a time in `AdminRuns` and `Admin`; the list and override edits under them are proved for every interleaving.
- IpFilter.ListPointer.Add: a call run alone; retries under interference are in `CasLoop` and `OverlayCas`. The same holds for Remove and Reload.
- RoundRobin.FairWithOutages: speaks of picks before the 64-bit counter wraps; at the wrap the rotation jumps unless n divides 2^64.
- RoundRobin.HealthRefinesHistory: speaks of fewer than 2^31 failures in a row, after which the int32 count is negative.
- The background eviction loop's timer; metrics, log output, access-log entries, request ids, the status recorder, the admin page and its token check; config defaults and the checks that do not concern lists: easy members.
- The content of the inspected body prefix: an input of the model.
