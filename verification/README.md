# NoLag, modelled and proved in Dafny

NoLag carries a player's game packets through a relay when that is faster than the ordinary
path.  This project models the parts of it that decide something, and proves what those
decisions keep:

- `Prefixes`, `Compaction`, `CanonicalForm`, `Profile`: observed addresses become the narrow,
  canonical list of prefixes a client routes.
- `Routes`, `RouteSafety`, `Pick`, `Gamewatch`, `Engine`, `EngineRuns`,
  `EngineChoices`, `UnpinnedRun`: the client engine moves a routing table whose calls may fail
  anywhere.
- `RateLimit`, `Control`, `ControlRuns`, `ControlEffects`: the control plane's limiter and its
  store, one serial transaction at a time.
- `Wgsync`, `Ipset`, `Firewall`, `Agent`, `Protocol`: a relay's reconcile pass, and the store
  and the relay taken together.
- `Verdict`, `VerdictMeaning`: the go/no-go judgement on a measurement campaign.

`Wrappers`, `Sorting`, `Text` and `Api` are shared vocabulary.  `dafny verify dfyconfig.toml`
checks everything.

## How to read the model

Code that changes things step by step is a method with its loops, or a class whose methods
modify its fields; each is tied by its `ensures` to a specification function or predicate, and
the theorems are lemmas about those specifications, over every input and every run.  What the
outside world answers (an operating-system call, a measurement, a process list, a clock
reading) is an input or an oracle, so a statement about every run is a statement about every
way calls can fail.  `State.faulted`, `State.pinLost` and `State.routesLost` in `Engine` are
history bits that the program does not have; they only say what calls have failed.

Teardown counts on the tunnel adapter taking its routes with it when it closes.  That is not
assumed: `World.closing` answers, at every closing, whether it did.  What the teardown's own
commands leave is proved apart from it (`TeardownPlanLeavesNothing`), and a route is lost sight
of exactly when those commands failed and the adapter kept its routes (`DisconnectLeavesNothing`).

An address is a number below 2^32 and a prefix an address with a length.  `Shift` and `Up` are
`>>` and `<<` written one bit at a time.  The limiter's clock, the store's clock and the
engine's clock are integers.  A contributor key stands for its hash, a list of prefixes for its
fingerprint, and a figure in the verdict is a real number.

## What turned out not to hold

Each of these is proved with the exact condition under which the code does meet the property.

- An anycast block is kept as single addresses, whatever is observed and published around it,
  if and only if the block is everything, or the widest width allowed is no wider than the block,
  or the floor is not and a prefix around the block exceeds the cap (`AnycastKeptIff`); with the default options every
  anycast block longer than /20 can be swallowed (`DefaultAnycastKeptIff`).
- A floor beyond 32 can leave observed addresses uncovered behind one invalid prefix
  (`NeverInvalidIff`, `ObservedIsCoveredOrUnverified`).
- A successful application of a plan leaves the wanted routes only if no prefix changes between
  the lobby and the game list, and each recorded one is really there (`SuccessReachesWantIff`).
  Routes whose addition failed are recorded, and the next plan for the same goal does not try
  them again (`FailedAddIsNotRetried`).
- After a failed move between two pins the record names one of them (`RecordCoversPinsIff`).
- A plan holds its pin under every route if and only if the recorded pin is really there, or no
  route is and the plan brings a pin or adds no route (`PinHeldIff`, and `PinHeldInEveryRunIff`
  for every state the engine reaches).  In five turns of the engine a failed pin and failed
  removals leave a game's route without any pin (`FailuresLeaveRouteUnpinned`).
- A peer diff converges on repeated keys only if no key flaps (`DiffConvergesIff`).
- An allowlist sync that reports success leaves its list live if and only if that list was not
  the last one remembered, or the list last swapped in has the same members; a clean-up that
  failed behind the swap parts the two (`SuccessMeansLiveIff`, `HonestyKeptIff`,
  `StaleAfterLateFailure`).
- No firewall pass doubles a rule if and only if no check of a rule that is there fails ahead of
  an addition that does not (`ReassertLeavesEachRuleOnceIff`); one failing check is enough
  (`SpuriousCheckDoubles`), where internal/agent/firewall.go:116 calls every operation idempotent.
- A firewall pass leaves the caps above the permissions if and only if it found them so
  (`OrderKeptIff`).  The installer puts every rule it adds at the top, so on a fresh machine the
  permissions end up above the caps (deploy/relay-v1.sh:342-375, against the comment at 353), no
  pass repairs that, and a session over its cap is accepted (`InstallerLeavesCapsBelow`).

Where comments and code differ the model follows the code: the limiter at its cap drops all
windows and not the oldest (internal/control/ratelimit.go:44-47 against 75-82), one window
length admits at most one less than twice the limit (`BoundIsReached`), a device is bound on
every relay and not only on those its key may use (internal/control/store.go:396-397 against
495), and any sync of a relay that was once reached sets it back to up
(internal/control/store.go:264-267), so `unreachable` is not claimed to stick.

## Model

| member | source | states |
|---|---|---|
| Prefixes.OverlapsMeansShared | internal/profile/build.go:202 | the overlap test answers exactly whether two prefixes share an address |
| Compaction.Compact | internal/profile/build.go:171-192 | the result is canonical (masked, sorted, disjoint, no sibling pair) and covers exactly the addresses of the input, from any walk of the map; it terminates because each changed pass is shorter |
| Compaction.DropCovered | internal/profile/build.go:194-212 | keeps, in order, exactly the entries no strictly wider entry overlaps |
| Compaction.DropCoveredKeepsCover | internal/profile/build.go:194-212 | dropping loses no address: the widest entry around it stays |
| Compaction.DropCoveredIsDisjoint | internal/profile/build.go:194-212 | from a list without repeats what stays shares no address |
| Compaction.MergeSiblings | internal/profile/build.go:214-238 | the left-to-right merge of neighbours of the sorted list, and whether any merged |
| Compaction.MergeIsExactUnlessRepeated | internal/profile/build.go:172-179 | merging neighbours that pass the test keeps exactly their addresses if and only if they are not one prefix twice |
| Compaction.SiblingsAreNeighbours | internal/profile/build.go:214-238 | in a sorted disjoint list a sibling pair is adjacent, so looking at neighbours misses none |
| Compaction.SortedPassFacts | internal/profile/build.go:184-191 | one pass keeps coverage and the absence of repeats, shrinks when it changed, and is canonical when it did not |
| Compaction.CountAddresses | internal/profile/build.go:249-255 | the wrapping 64-bit sum of the sizes |
| CanonicalForm.WholePrefixHasOneEntry | internal/profile/build.go:182-183 | a list without sibling pairs that covers a whole prefix has one entry around all of it |
| CanonicalForm.CanonicalIsUnique | internal/profile/build.go:171-192 | two compacted lists covering the same addresses are the same sequence |
| CanonicalForm.CanonicalIsShortest | internal/profile/build.go:167-170 | no prefix list with the same coverage has fewer entries |
| CanonicalForm.TotalSizeCountsCover | internal/profile/build.go:249-255 | the sizes of a disjoint list add up to the number of addresses it covers |
| CanonicalForm.CountIsExact | internal/profile/build.go:99-101 | on a compacted list the count is the number of distinct addresses, at most 2^32, and never wraps |
| Profile.Build | internal/profile/build.go:75-116 | no sources and an empty width range are the two errors; otherwise the canonical cover at the first allowed width that fits the cap, or at the floor, with its true total and the unmatched addresses, and whether some width made an invalid prefix |
| Profile.MatchAddr | internal/profile/build.go:124-140 | the match of an address, or none |
| Profile.BestSourceIsNarrowest | internal/profile/build.go:125-134 | the narrowest containing source wins, the first among equals; none exactly when none contains |
| Profile.WidenAll | internal/profile/build.go:142-165 | each match widened by the one rule, in order, and whether one left the 32 bits a prefix can have |
| Profile.CoveredIff | internal/profile/build.go:118-165 | a profile covers exactly: each observed address in an anycast source, and around every other matched one the block at the applied width or at the width of its source, whichever is narrower |
| Profile.CoveredIsPublished | internal/profile/build.go:43-52 | every covered address lies in a published source that also holds an observed address |
| Profile.ObservedIsCoveredOrUnverified | internal/profile/build.go:57-60 | unverified are exactly the observed addresses in no source, none of them covered; all other observed addresses are covered if and only if no prefix is invalid |
| Profile.NarrowingShrinks | internal/profile/build.go:94-101 | coverage never grows as the width gets narrower, nor does the total while every prefix is valid |
| Profile.AppliedWidthIsWidestFit | internal/profile/build.go:98-114 | every allowed width fits the cap exactly from the applied one on, or none fits and the floor was applied |
| Profile.TotalMeans | internal/profile/build.go:249-255 | the total is the number of addresses covered, and 2^33 more with an invalid prefix |
| Profile.NeverInvalidIff | internal/profile/build.go:98-114 | no profile of given options holds an invalid prefix if and only if the floor is at most 32, or the widest width is and the cap admits every address |
| Profile.AnycastKeptIff | internal/profile/build.go:150-165 | given the options, every profile covers inside an anycast block only observed addresses and other sources within it, if and only if the widest width is no wider than the block, or the floor is not and a prefix around the block exceeds the cap |
| Profile.DefaultAnycastKeptIff | internal/profile/build.go:31-38 | with the default options exactly the anycast blocks no longer than /20 are always kept |
| RateLimit.Limiter.Allow | internal/control/ratelimit.go:54-69 | the new map and the answer of one call |
| RateLimit.Limiter.EvictExpired | internal/control/ratelimit.go:71-83 | expired windows go; if the map is still full, all go |
| RateLimit.MapIsBounded | internal/control/ratelimit.go:44-49 | over every history the map never exceeds its cap |
| RateLimit.LessThanTwiceTheLimit | internal/control/ratelimit.go:19-22 | over every history any interval one window long admits fewer than twice the limit of a key, plus the limit for each full-map drop inside it |
| RateLimit.BoundIsReached | internal/control/ratelimit.go:19-22 | one less than twice the limit is attained |
| RateLimit.RefusedOnlyAtLimit | internal/control/ratelimit.go:53-69 | an event is refused only when the full limit of its key was admitted within the last window |
| Routes.Plan | internal/client/routes/plan.go:55-68 | the pin moves and the two lists' differences |
| Routes.Diff | internal/client/routes/plan.go:70-94 | both set differences, each sorted and without repeats |
| Routes.Applier.Apply | internal/client/winnet/routes_windows.go:46-68 | runs the plan's commands in order against the table, up to the first that fails |
| Routes.Applier.Do | internal/client/winnet/routes_windows.go:70-131 | one helper: clear what is in the way, then act or fail |
| RouteSafety.PinHeldThroughout | internal/client/winnet/routes_windows.go:39-45 | in every intermediate state, up to any failing call, a route has a pin, a new route has the new pin beside it, and an old route the old one |
| RouteSafety.RecordCoversTunnel | cmd/gnl-service/engine_windows.go:247-254 | whatever fails, the routes in the table are among those recorded |
| RouteSafety.RecordCoversPinsIff | cmd/gnl-service/engine_windows.go:526-535 | after a failure the record covers the pins if and only if it was not a move between two pins whose new pin had gone in |
| RouteSafety.SuccessReachesWantIff | internal/client/routes/plan.go:50-68 | after success the routes are the wanted ones if and only if no prefix changes list and each is held or added |
| RouteSafety.SuccessFromExactTable | internal/client/routes/plan.go:50-68 | from the recorded table, success gives exactly the wanted routes and pin |
| RouteSafety.MovingBetweenListsLosesRoute | internal/client/winnet/routes_windows.go:52-61 | a prefix moved from lobby to game is deleted after it was added |
| RouteSafety.FailedAddIsNotRetried | cmd/gnl-service/engine_windows.go:243-251 | after any failed move the next plan for the same goal adds no route, whatever is missing, and adds the pin again exactly if the move was between two pins |
| RouteSafety.PinHeldIff | internal/client/winnet/routes_windows.go:39-45 | however its calls turn out a plan holds the pin at every moment, if and only if the recorded pin is there, or no route is and the plan moves the pin or adds no route |
| RouteSafety.MergeUnique | cmd/gnl-service/engine_windows.go:537-547 | both lists in order, each entry once |
| RouteSafety.FirstListComesFirst | cmd/gnl-service/engine_windows.go:537-547 | the record begins with what it held, and grows by nothing it held already |
| RouteSafety.LobbyOutlastsGame | internal/client/winnet/routes_windows.go:52-61 | wherever a plan stops, no new game route is in before all new lobby routes and no lobby route out before all old game routes |
| Pick.Best | internal/client/pick/pick.go:50-71 | an error exactly when nobody answered; otherwise all who answered, fastest first, ids breaking ties, with primary and fallback on top |
| Pick.PrimaryIsFastest | internal/client/pick/pick.go:60-66 | the head of the ranking is the measurement the engine goes by, and the figure ranked for the primary is that measurement |
| Pick.ChoiceInFigures | internal/client/pick/pick.go:50-71 | exactly those who answered are ranked, round trips ascending; nobody who answered was faster than the primary, ids break ties, the fallback comes next |
| Pick.FastestInFigures | internal/client/pick/pick.go:60-71 | the measurement gone by is an answer none is faster than; there is none exactly when nobody answered |
| Pick.ChoiceIgnoresOrder | internal/client/pick/pick.go:46-49 | the same measurements in any order give the same choice |
| Pick.RttOf | cmd/gnl-service/engine_windows.go:517-524 | the ranked round trip of a relay, 0 when it is not ranked |
| Pick.NeverReturnsIff | internal/client/pick/pick.go:73-92 | with every measurement within d of the truth, re-ranking never comes back to a relay it left if and only if 2d is below the margin |
| Gamewatch.Watcher.Poll | internal/client/gamewatch/watch.go:47-52 | the state the process list implies, and whether it differs from the last |
| Gamewatch.Watcher.Match | internal/client/gamewatch/watch.go:54-69 | the first configured game and process found among the normalised names |
| Gamewatch.FirstConfiguredGameWins | internal/client/gamewatch/watch.go:59-60 | the first configured game that is up is reported with the first of its processes that runs, whatever else does |
| Gamewatch.NoGameMeansNotRunning | internal/client/gamewatch/watch.go:54-69 | when no configured game is up the state is empty and counts as not running |
| Gamewatch.ProcessIsKnownByName | internal/client/gamewatch/watch.go:71-77 | a process is known by its name whatever its case, the blanks around it and a trailing .exe |
| Engine.Engine.DoConnect | cmd/gnl-service/engine_windows.go:166-210 | the whole new state and outcome of a connect, for every answer along the way |
| Engine.Engine.Activate | cmd/gnl-service/engine_windows.go:214-231 | nothing recorded unless adapter and tunnel accept the relay |
| Engine.Engine.ApplyRoutes | cmd/gnl-service/engine_windows.go:234-256 | the table moved to the goal, or the union recorded |
| Engine.Engine.DoPoll | cmd/gnl-service/engine_windows.go:259-290 | the whole new state after one turn of the watch |
| Engine.Engine.CheckRelay | cmd/gnl-service/engine_windows.go:294-320 | when the fleet is re-measured, and whether by force |
| Engine.Engine.Remeasure | cmd/gnl-service/engine_windows.go:326-373 | stay, move or stand down |
| Engine.Engine.Teardown | cmd/gnl-service/engine_windows.go:380-396 | the plan to nothing applied as far as it gets, the adapter closed with or without its routes, every session field cleared |
| Engine.Engine.ReloadProfile | cmd/gnl-service/engine_windows.go:453-465 | new ranges kept, and put into effect when a relay is active |
| Engine.Engine.FetchProfile | cmd/gnl-service/engine_windows.go:421-450 | usable ranges replace the held ones; a failed fetch passes only on held ones |
| EngineRuns.RecordCoversTableInEveryRun | cmd/gnl-service/engine_windows.go:247-254 | over every run, with calls failing anywhere, routes in the table are recorded unless a failed teardown left some behind, and pins unless one was lost |
| EngineRuns.TeardownPlanLeavesNothing | cmd/gnl-service/engine_windows.go:375-385 | in every reachable state the teardown's own commands, before the adapter closes, leave only recorded routes and the pin when one fails, and neither when none does |
| EngineRuns.DisconnectLeavesNothing | cmd/gnl-service/engine_windows.go:375-396 | after a disconnect no route is left unless a teardown failed and its adapter kept the routes, and no pin unless one was lost |
| EngineRuns.DisconnectIsFreshStartIff | cmd/gnl-service/engine_windows.go:375-396 | after a disconnect the engine is as if just started, whatever failed before, if and only if neither pin nor route was lost |
| EngineRuns.TableIsGoalWhileNothingFails | cmd/gnl-service/engine_windows.go:233-256 | while no call of the session fails, table, record and goal agree after every step, routes and pin |
| EngineRuns.PinHeldInEveryRunIff | internal/client/winnet/routes_windows.go:39-45 | in every reachable state, whatever failed before, a plan holds the pin throughout exactly under the condition of `PinHeldIff` |
| EngineRuns.PinHeldInEveryCleanRun | internal/client/winnet/routes_windows.go:39-45 | while no call of the session has failed every plan holds the pin at every moment, also when its own calls start to fail |
| UnpinnedRun.FailuresLeaveRouteUnpinned | cmd/gnl-service/engine_windows.go:294-373 | a run of five inputs after which a game is routed with no pin in the table, and the record says all is well |
| EngineRuns.RelayStaysDuringGame | cmd/gnl-service/engine_windows.go:314-319 | while a game is seen and the relay answers, the active relay never changes, whatever polls, connects, reloads and game swaps happen |
| EngineChoices.ConnectUsesFastest | cmd/gnl-service/engine_windows.go:166-210 | a connect that gets every answer it needs ends on the fastest relay that answered, holding what it was told, with the table to match |
| EngineChoices.ConnectRefused | cmd/gnl-service/engine_windows.go:119-128 | a connect that lacks any answer leaves no tunnel and no record |
| EngineChoices.SilentRelayIsReplaced | cmd/gnl-service/engine_windows.go:307-357 | a relay silent for more than 150 seconds is left for the fastest that answers, however little is gained |
| EngineChoices.RetryFindsFastest | cmd/gnl-service/engine_windows.go:294-302 | with no relay in use the engine goes to the fastest that answers once 30 seconds have passed |
| EngineChoices.FailedSwitchStandsDown | cmd/gnl-service/engine_windows.go:357-371 | a switch that fails at the adapter, the tunnel or the table ends on no relay |
| EngineChoices.HealthyRelayMovesIff | cmd/gnl-service/engine_windows.go:314-373 | between games and 300 seconds after the last round the engine moves if and only if another relay led by at least 10 ms or the one in use has no figure; otherwise it stays |
| EngineChoices.NobodyAnswers | cmd/gnl-service/engine_windows.go:329-342 | when a round is due and nobody answers the engine ends on no relay, with an empty table if no call failed |
| EngineChoices.PollDoesNothing | cmd/gnl-service/engine_windows.go:259-320 | in all other cases a poll that finds the same game changes nothing at all |
| EngineChoices.GameChangeMovesRoutesOnly | cmd/gnl-service/engine_windows.go:268-290 | a poll that finds another game, or none, moves the routes and keeps the relay |
| EngineChoices.TableInEveryRun | cmd/gnl-service/engine_windows.go:233-256 | while no call of the session fails the tunnel carries exactly the ranges while a relay is in use and a game runs, and the one pin is that relay's |
| EngineChoices.TableInEverySoundRun | cmd/gnl-service/engine_windows.go:233-256 | when no call on the table fails and no tunnel refuses new ranges, that holds after every step of every run, disconnects and failed connects among them |
| EngineChoices.ReloadTakesEffect | cmd/gnl-service/engine_windows.go:421-465 | a reload keeps the relay and takes over the new ranges, in the table too; one that brings none changes nothing |
| EngineChoices.DisconnectForgetsSession | cmd/gnl-service/engine_windows.go:386-396 | a disconnect clears the session and keeps the ranges and what is running |
| EngineRuns.SilentRelayIsLeft | cmd/gnl-service/engine_windows.go:42-47 | a relay silent too long, with nobody else answering, is left and its routes are out |
| EngineRuns.NeverReturnsToARelay | cmd/gnl-service/engine_windows.go:322-373 | in a steady run of the engine a relay that was left is never active again |
| EngineRuns.AtMostOneSwitchPerOtherRelay | cmd/gnl-service/engine_windows.go:322-373 | a fleet of n relays sees at most n - 1 switches in a steady run |
| Control.Store.RegisterRelay | internal/control/store.go:103-230 | each refusal and what it leaves behind; a known relay keeps id and subnet and gets the new token; a new one takes the next subnet |
| Control.Store.ActivateDevice | internal/control/store.go:403-467 | each refusal; a known device consumes nothing, a new one a slot; a full pool undoes the whole |
| Control.Store.BindDeviceToRelays | internal/control/store.go:494-542 | one unheld address of the pool on every relay that had none, kept ones untouched; it fails exactly when some pool is full |
| Control.Store.RecordStatus | internal/control/store.go:253-274 | a sync brings up only a relay once reached |
| Control.Store.RecordReachability | internal/control/store.go:287-319 | only the owner's rows under an active key change; refused exactly when there is none |
| Control.Store.MarkStaleRelaysDown | internal/control/store.go:330-341 | exactly the relays that are up and silent go down |
| Control.Store.DesiredState | internal/control/store.go:353-376 | the peers of active devices on a relay of an active owner, once each, in key order |
| Control.Store.Session | internal/control/store.go:549-603 | an unknown device is refused; otherwise each offer once, of the relays that are up, trusted, bound to the device and of an active key |
| Control.Store.ReleaseDevice | internal/control/store.go:623-633 | the owner's device and its bindings go, or nothing does |
| ControlRuns.HistoryInv | internal/control/schema.sql:19-63 | every reachable state keeps subnets, keys, tokens, slots, relay counts and bindings sound |
| ControlRuns.HostAddressesAreSound | internal/control/store.go:524-530 | the pool lists distinct hosts, never .0.1, never ending in .0 or .255 |
| ControlRuns.SubnetNeverShared | internal/control/store.go:174-187 | relays of any two moments that sit in one /16 are the same relay, even after deletions |
| ControlRuns.AddressesAreSound | internal/control/schema.sql:54-63 | in every reachable state an address lies in its relay's /16 and is nobody else's there |
| ControlRuns.AddressKeptAlong | internal/control/store.go:488-493 | along every history a bound address stays the same until its device is released or its relay removed |
| ControlRuns.OfferedIffServed | internal/control/store.go:549-603 | a session offers a relay exactly when that relay serves the device as a peer, is up and past its trust wait; then it was reached, both keys are active, and the addresses agree |
| ControlRuns.PeersAreDistinct | internal/control/store.go:353-376 | no key and no address occurs twice among a relay's peers, and each is a single address |
| ControlRuns.RevokedStays | internal/control/store.go:343-349 | no operation makes a revoked key active again or gives it a relay or a device |
| ControlRuns.RevocationReachesEverything | internal/control/store.go:343-349 | in every later state of a history a revoked key has no session, no peer anywhere and no new relay or device, and its relays neither serve nor are offered |
| ControlRuns.OthersRelaysUntouched | internal/control/store.go:130-136 | no operation made with a key changes another contributor's relay |
| ControlRuns.RelayIdentityKept | internal/control/store.go:31-34 | owner, key, subnet and trust date are for life, and a new relay waits the whole window |
| ControlRuns.ReachedOnlyByItsOwnersReport | internal/control/store.go:276-286 | along every history only the owner's positive report, under an active key, makes a relay reached |
| ControlEffects.RegisterSucceedsIff | internal/control/store.go:103-230 | a registration succeeds exactly under an active key, for its own relay with a token nobody else has, or for a new one while the key has fewer than 10, a /16 is left, and key, id and token are unused |
| ControlEffects.RegisteredMeans | internal/control/store.go:103-230 | it leaves the row asked for and touches nothing else; a new relay waits 48 hours on the next /16 |
| ControlEffects.NewRelayWaits | internal/control/store.go:195 | along every history a new relay is offered to nobody for 48 hours, whatever it reports |
| ControlEffects.FirstSubnet | internal/control/schema.sql:82 | the first relay of every history sits on 10.77.0.0/16 |
| ControlEffects.ActivateSucceedsIff | internal/control/store.go:403-467 | an activation succeeds exactly under an active key, with an address left on every relay, for its own device or for a new one a slot is left for |
| ControlEffects.ActivatedMeans | internal/control/store.go:488-541 | it leaves the device bound on every relay at the addresses it held, and touches nobody else's |
| ControlEffects.ActivationLeadsToOffers | internal/control/store.go:549-603 | right after it the device is offered exactly the relays that are up, trusted and of an active key, and each serves it |
| ControlEffects.SyncMeans | internal/control/store.go:253-274 | a sync is noted, brings a relay once reached up, and changes nothing else |
| ControlEffects.UpAfterNextSync | internal/control/store.go:253-274 | in every history a relay is up after its sync if and only if it was ever reached |
| ControlEffects.ReportMeans | internal/control/store.go:287-319 | under its own active key a good report makes a relay reached and up, a bad one unreachable; all others stay |
| ControlEffects.StaleMeans | internal/control/store.go:330-341 | a relay that is up goes down exactly when it has not synced for longer than the limit |
| ControlEffects.ReleaseMeans | internal/control/store.go:623-633 | only its owner releases a device; then it and its addresses are gone and no relay serves it |
| ControlEffects.PeersMean | internal/control/store.go:353-376 | a relay's peers are the devices bound to it, while both keys are active |
| ControlEffects.SessionMeans | internal/control/store.go:549-603 | a session is refused without a device of an active key, else offers the bound relays that are up, trusted and of an active key |
| Wgsync.Diff | internal/wgsync/diff.go:28-54 | additions, moves and removals in list order |
| Wgsync.Device.List | internal/wgsync/apply.go:146-157 | every peer once, in any order |
| Wgsync.Device.Apply | internal/wgsync/apply.go:168-184 | additions, then moves, then removals |
| Wgsync.DiffConvergesIff | internal/wgsync/diff.go:23-27 | for all lists, one diff applied gives exactly the desired map if and only if no key flaps |
| Wgsync.PeersAreNotDisturbed | internal/wgsync/diff.go:25-27 | a peer that stays is in no list, one that moved only among the moves, and none is removed and added |
| Wgsync.SecondPassIsEmpty | internal/wgsync/diff.go:28-54 | once the device holds what is desired the diff is empty |
| Ipset.Normalise | internal/ipsetsync/sync.go:36-49 | the sorted listing of the usable trimmed entries, whatever their order and number |
| Ipset.NormaliseMeans | internal/ipsetsync/sync.go:19-49 | exactly the entries that, without the blanks around them, are not empty, read as no option and parse; each once, in order |
| Ipset.NormaliseIdempotent | internal/ipsetsync/sync.go:19-20 | normalising twice is normalising once |
| Ipset.ApplyWithIpset | internal/ipsetsync/sync.go:99-127 | the live set is at every moment the old or the new one; the new one after success, and after failure exactly if what failed is the destroy behind the swap; no other set is touched, and the one built aside is gone |
| Ipset.Syncer.Sync | internal/ipsetsync/sync.go:82-92 | applies unless remembered, remembers only success; a failure counts as behind the swap exactly if the destroy there is what failed |
| Ipset.SuccessMeansLiveIff | internal/ipsetsync/sync.go:78-92 | over every series of syncs, failures anywhere, a success leaves its list live if and only if it was not the list last remembered or the list last swapped in has the same members |
| Ipset.HonestyKeptIff | internal/ipsetsync/sync.go:123-125 | the memory goes wrong exactly when a different list was swapped in before the failure |
| Ipset.NoLateFailureMeansHonest | internal/ipsetsync/sync.go:78-92 | over every series without a failure behind a swap the last list remembered is the last one swapped in, and is live |
| Ipset.StaleAfterLateFailure | internal/ipsetsync/sync.go:78-92 | three syncs after which a success leaves another list live, and how another list repairs it |
| Firewall.Iptables.ReassertFirewall | internal/agent/firewall.go:117-140 | policy first, then each rule checked and added where it belongs, up to the first failure |
| Firewall.RulesAreDifferent | internal/agent/firewall.go:84-103 | the seven managed rules are seven different rules |
| Firewall.ForwardRulesAreNarrow | internal/agent/firewall.go:84-98 | in FORWARD what a player sends is accepted only to the allowlist and what comes back only on a connection; the caps carry the relay's rate and burst, by source up and by destination down |
| Firewall.ReassertRestoresPolicy | internal/agent/firewall.go:105-116 | foreign rules keep their order and nothing is removed wherever a pass stops; success leaves policy DROP and every managed rule present |
| Firewall.OrderKeptIff | internal/agent/firewall.go:68-73 | wherever a pass stops, managed rules that drop stand above managed rules that accept if and only if they did before |
| Firewall.MissingDropGoesOnTop | internal/agent/firewall.go:94-95 | a missing rule that drops stands, after a successful pass, above everything that was in its chain |
| Firewall.PacketsAreJudged | internal/agent/firewall.go:68-73 | after a successful pass a forwarded packet no foreign rule hits is dropped when over a cap, otherwise accepted exactly when a managed rule permits it |
| Firewall.InstallerLeavesCapsBelow | deploy/relay-v1.sh:342-376 | on a freshly installed machine the permissions stand above the caps, no pass changes that, and a packet over a cap is accepted |
| Firewall.ReassertLeavesEachRuleOnceIff | internal/agent/firewall.go:117-140 | from chains without repeats a pass, wherever it stops, leaves such chains, and on success each rule exactly once, if and only if no present rule has its check fail ahead of a successful addition |
| Firewall.SecondReassertAddsNothingIff | internal/agent/firewall.go:116-127 | a second pass over a complete firewall changes nothing if and only if it doubles no rule |
| Firewall.SpuriousCheckDoubles | internal/agent/firewall.go:121-127 | one failing check on complete chains: the pass succeeds and that rule, and no other, is there once more |
| Agent.RelayAgent.RunOnceWithInterval | internal/agent/loop.go:65-143 | without an answer nothing changes; with one, peers, allowlist and firewall are reconciled independently and the interval is the one asked for |
| Agent.SuccessfulPassReconciles | internal/agent/loop.go:98-142 | a successful pass leaves exactly the valid peers, the normalised allowlist and the complete firewall |
| Agent.OnlySingleAddressesReachTheDevice | internal/agent/loop.go:98-127 | after a successful pass exactly the peers named with a key and a single address are held |
| Agent.SecondPassChangesNothing | internal/agent/loop.go:98-142 | after a successful pass the same answer changes no peer and nothing of the allowlist, whatever fails, and no chain exactly unless a failing check doubles a rule |
| Protocol.OffersAreHonoured | internal/control/store.go:343-349 | after a relay's successful pass on the store's answer, every offer of that state names the address the relay holds for that key, and no other key holds it |
| Verdict.Evaluate | internal/analyze/verdict.go:145-333 | each combination measured on both tunnel legs once, judged, best gain first, with the number of records dropped |
| VerdictMeaning.NoReasonsIff | internal/analyze/verdict.go:222-319 | three legs pass if and only if each has enough answered runs, the gain is positive and at least the margin, and no bar is missed too often |
| VerdictMeaning.RereadingChangesNoVerdict | internal/analyze/verdict.go:161-165 | appending records that repeat runs already read changes no candidate |
| VerdictMeaning.RepeatsAreDropped | internal/analyze/verdict.go:169-178 | such records add no run, and those inside the window are counted as dropped |
| VerdictMeaning.LegRunsAreReal | internal/analyze/verdict.go:133-178 | the runs judged on a leg are of that leg, inside the window and no two of one time, and each record of it inside the window stands for one |
| VerdictMeaning.SamplesCount | internal/analyze/verdict.go:91-108 | latency, jitter and tail come from answered runs only, loss from all |
| VerdictMeaning.HourMeans | internal/analyze/verdict.go:113-116 | the hour judged by is that of the clock seven hours ahead |
| VerdictMeaning.JudgedIff | internal/analyze/verdict.go:204-220 | a combination is judged, once, exactly when both legs of its tunnel were measured inside the window |
| VerdictMeaning.BreachPctMeans | internal/analyze/verdict.go:358-372 | the share times the number of runs is a hundred times the number at or over the bar |
| VerdictMeaning.FiguresMean | internal/analyze/verdict.go:222-300 | runs of the weakest leg, medians, gain, worst figures and the worse share of the two tunnel legs |
| VerdictMeaning.ReasonsMean | internal/analyze/verdict.go:243-318 | each reason is given exactly when its bar is missed |
| VerdictMeaning.BestGainFirst | internal/analyze/verdict.go:322-330 | best gain first, candidates without a gain last, equal gains by name |
| VerdictMeaning.PassIff | internal/analyze/verdict.go:237-318 | a candidate passes if and only if all three legs have enough distinct answered runs, the medians gain the margin, and on each tunnel leg at most the allowed share of runs is at or over each bar |
| VerdictMeaning.MedianIsMiddle | internal/analyze/verdict.go:335-343 | the median is a sample with no more than half of the samples below and fewer than half above |

## Left out

- Profile.Build: does not model the dotted text of addresses and the order that text gives the unverified list; the invalid prefix is a flag beside the list and not an entry of it.
- EngineRuns.RecordCoversTableInEveryRun: claims the pin only while `pinLost` is false, because the record has room for one pin, and the routes only while `routesLost` is, because a teardown records nothing.
- Sorting in place and slices shared between callers are modelled on sequences; `sort` itself is taken as any sorted permutation.
- The engine's error text, status answer and adapter settings; WireGuard, Wintun and the tunnel's allowed addresses, which appear as calls that succeed or fail.
- A command on the routing table, the device or the kernel's sets either takes effect or does nothing; an `ipset` entry that names a network already present under another text is an ordinary failure here.
- Resolving relay endpoints and parsing profile ranges: their results are inputs.
- The real WireGuard device's skipping of unparseable keys, and reading statistics.
- `PublishProfile`, observations and candidate addresses of the store, contributor key generation, and human-readable device fields.
- Concurrency inside Postgres: transactions are serial.
- Case folding and trimming beyond ASCII; overflow of nanosecond time stamps; rounding of the verdict's figures.
- HTTP handlers, probes, the user interface and deployment scripts.
- The history that the interface draws and the `Overlaps` report between two games' profiles, which would only add easy members.
