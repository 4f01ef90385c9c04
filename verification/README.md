# The cluster-torture harness, modelled

The harness torments a storage cluster while other work runs on it, and must keep
enough of the cluster standing to be worth testing. This project models the
controllers that carry that promise and proves what they keep over whole runs:

- **OSD thrasher** (`PyLists`, `OsdViews`, `ObjectStores`, `Bookkeeping`, `ActionChoice`,
  `Thrashing`).
  The four lists in/out/live/dead, next to the daemons really running and the OSDs the
  cluster map counts as in. Greenlets switch only while a remote command is in flight, so
  the thrasher records in `seen` every view another greenlet could be given: before and
  after the effect of each command. Whatever is proved of all recorded views holds in every
  interleaving with greenlets that only read the lists. Kills also run the offline
  export/remove/import of a placement group between dead OSDs, with a ledger of the stores
  in which every entry is tied to a view exposed at the time.
- **Manager loops** (`ProgressWaits`, `ScrubWaits`, `Pools`, `MissingObjects`), over
  arbitrary traces of polls, exit statuses and pages.
- **Monitor controllers** (`Quorums`, `MonThrash`, `Seesaw`): rounds that must keep a
  majority, one-at-a-time membership change, the least free port.
- **Smaller machines**: the clock-skew verdict (`ClockSkew`), the benchmark sweep
  (`BenchSweep`), the line splitter (`LogLines`), pool snapshots (`PoolSnaps`).

Random choices are nondeterministic, so every contract holds for every choice. Remote
commands are step effects. In the thrashers, the pool methods, the monitor replacement and the
benchmark sweep any of them may raise, with or without its effect; a method that can then be
left early says so in its result, and what it leaves. A primitive of the OSD thrasher that
raises leaves exactly the view it had just exposed, so coherence holds on every exit and exact
lists on every normal one. The waits of the manager are over traces of polls that were
answered. Loops that run until another greenlet sets `stopping` take the number of rounds, or
the rounds' random draws, as a parameter. Times are real numbers in a trace.

## Where the code and its intent part

The code is modelled as it is; these are the places where it does not do what its
documentation or its evident intent says.

- `test_pool_min_size` calls the one-argument `self.log` with two arguments and so raises
  after `all_up`. `Config.logTakesArgs` says whether the log accepts that; both cases are
  covered (`Thrashing.Thrasher.TestPoolMinSize`).
- The pause lambdas all see the last `key`, so `heartbeat_inject_failure` is never injected
  (`ActionChoice.Offered`).
- `choose_action` returns None exactly when the random value reaches the total weight; the
  thrasher then raises.
- `max_pgs` is a number times a list, and no integer is greater than a list in Python 2: the
  growth bound never applies (`Pools.ListLimitNeverStops`).
- `set_pool_property` takes every status but 11 for success; the cache stays right exactly
  when that status was 0 (`Pools.RunSyncsExactly`), and after a refused growth `pgp_num` can
  overtake `pg_num` (`Pools.RefusedGrowthOvershoots`).
- `maintain_quorum` is documented as always maintaining quorum. Freezes are not counted, so
  it does exactly when freezing is off (`MonThrash.AlwaysQuorumExactly`);
  `MonThrash.DefaultLosesQuorum` is a round of three monitors that loses it. `thrash_many` is
  not consulted, and the default freeze probability is 10, not the documented 0.
- A thrasher primitive that raises can leave its lists inexact, for instance a running daemon
  on the dead list when a revival times out after the restart (`OsdViews.ExactAfterRaise`).
- `create_pool` and `remove_pool` touch the cache on the far side of a remote command; one
  that raises in between leaves cache and cluster apart (`Pools.RunSyncsExactly`).
- `list_pg_missing` fails on an empty page that announces more
  (`MissingObjects.ListPgMissing`).
- `add_snap` and `remove_snap` that raise between two pools leave a snapshot on some pools
  only (`PoolSnaps.SnapThrasher.Torn`).
- `_get_next_port` can return a used port; `Seesaw.NextPort` says exactly when, and
  `Seesaw.MisleadingPorts` gives two lists of used ports.
- `_prepare_mon` tears down only after a normal exit, so a body that raises leaves the
  replacer in the configuration (`Seesaw.MonSeesaw.Task`).

## Model

| member | source | states |
|---|---|---|
| PyLists.SplitsMeaning | tasks/zbkc_manager.py:107-110 | the multiset equation used as the invariant of a pair of lists says exactly that both are duplicate-free, disjoint and together every OSD |
| OsdViews.KillIsSafe | tasks/zbkc_manager.py:194-196 | stopping after the list edit: at both switch points live is within running, at most one entry is in flight, and the lists are exact at the end |
| OsdViews.ReviveIsSafe | tasks/zbkc_manager.py:397-402 | restarting before the list edit keeps the same at every switch point |
| OsdViews.OutIsSafe | tasks/zbkc_manager.py:413-415 | marking out before the list edit: the cluster's in-set stays within in_osds at every switch point |
| OsdViews.InIsSafe | tasks/zbkc_manager.py:427-429 | marking in after the list edit keeps the same |
| OsdViews.ExactAfterRaise | tasks/zbkc_manager.py:194-196 | of the two points where a primitive may raise, which one leaves exact lists: the second of a kill or mark-in, the first of a revival or mark-out |
| OsdViews.KillTrailIsSafe | tasks/zbkc_manager.py:184-200 | all views a kill exposes, with or without mark_down and mark_out, are coherent and list at most one OSD fewer as live |
| OsdViews.TookIsSafe | tasks/zbkc_manager.py:184-430 | wherever among its switch points an operation raises, the state it leaves is coherent and the trace so far stays above its mark |
| OsdViews.EnoughExactly | tasks/zbkc_manager.py:620-621 | the "in until enough" loop can never draw from an empty out list, if and only if the cluster has that many OSDs |
| OsdViews.SignalFindsItsDaemon | tasks/zbkc_manager.py:729-732 | in every interleaving of a thrasher trace with the SIGHUP greenlet, each signal goes to a daemon that is running at that moment |
| OsdViews.SomeoneToSignal | tasks/zbkc_manager.py:730 | in every such interleaving with a low-water mark of at least one, the live list the pick is made from is never empty |
| OsdViews.EveryScheduleIsSafe | tasks/zbkc_manager.py:723-734 | both at once, for every interleaving of a whole trace with the signals |
| ObjectStores.ToolChange | tasks/zbkc_manager.py:257-311 | a move keeps the number of copies of every group, an ignored or stranded import loses exactly one copy of its own group |
| ObjectStores.Conservation | tasks/zbkc_manager.py:201-315 | over any legal ledger, copies at the end are copies at the start, plus what the daemons that ran did in their own stores, minus one per ignored or stranded import |
| ObjectStores.OnlyIgnoredAreLost | tasks/zbkc_manager.py:302-311 | in a run that has not raised the losses are exactly the imports with status 10 or 11 |
| ObjectStores.ObjectStoreTool.Balance | tasks/zbkc_manager.py:201-315 | the stores satisfy that account of their ledger at every moment; which entries a run may put there is what Booked and RunBalance say |
| ObjectStores.ObjectStoreTool.Import | tasks/zbkc_manager.py:299-311 | needs a stopped daemon, the file on the importing machine and no copy there already; adds the copy only on status 0 |
| ObjectStores.ObjectStoreTool.Exercise | tasks/zbkc_manager.py:206-315 | at most one ledger entry, from an older dead OSD when moving and from the one just killed otherwise, to the OSD just killed unless it already had the group; none without a raise only if such a store was empty; moved exactly on status 0, ignored on 10 and 11, raised on any other; no file is left unless it raises, and then a removed copy is still in its file |
| ObjectStores.ObjectStoreTool.Reimport | tasks/zbkc_manager.py:273-315 | the half after the removal: destination, transfer, import and cleanup, each of which may raise; a copy not imported by then is still in its file |
| Bookkeeping.KillIsBooked | tasks/zbkc_manager.py:194-315 | one kill adds the drift of exactly the daemons then running, and at most one change among OSDs dead and stopped |
| Bookkeeping.RunBalance | tasks/zbkc_manager.py:184-315 | over a booked stretch of a run copies change by what daemons did in their own stores, each time exactly the daemons running in an exposed view, minus one per ignored or stranded import |
| Bookkeeping.CutAtView | tasks/zbkc_manager.py:184-315 | a run can be cut at any exposed view, its ledger with it |
| Bookkeeping.StoppedStoresKeep | tasks/zbkc_manager.py:184-315 | over any stretch of a run in none of whose views its daemon runs, the store of an OSD changes exactly by the tool entries that name it, and not at all if none does |
| ActionChoice.PositiveWeightMeansOffered | tasks/zbkc_manager.py:663-700 | an action has an entry of positive weight exactly when its guard holds and its chance is positive |
| ActionChoice.ActionWeights | tasks/zbkc_manager.py:663-700 | the total weight of every action in every state, guard by guard; a pause counts twice, and only under the last key |
| ActionChoice.Select | tasks/zbkc_manager.py:702-708 | entry i is returned if and only if the value lies within its weight of prefix sum i; nothing is returned if and only if the value reaches the total; zero weights are never chosen |
| ActionChoice.ChooseAction | tasks/zbkc_manager.py:645-708 | the action returned is the one whose interval holds the value, and its guard holds; None exactly at the total |
| ActionChoice.PicksSafeExactly | tasks/zbkc_manager.py:663-708 | no offered action ever draws from an empty list, over all settled states at the floors, if and only if the settings satisfy SaneFloors |
| ActionChoice.UnsafePick | tasks/zbkc_manager.py:663-708 | for settings that do not, a cluster at its floors and an offered action that draws from an empty list |
| Thrashing.Thrasher.constructor | tasks/zbkc_manager.py:102-110 | starts with lists that split the OSDs and agree with the cluster |
| Thrashing.Thrasher.KillOsd | tasks/zbkc_manager.py:184-315 | the four lists, the daemons and the in-set afterwards, and the exact views exposed on the way, or, when the stop, the marking or the tool raises, the prefix exposed by then and the state of its last view; the ledger gains the drift of the daemons running and one change among the stopped, none without a raise only if a dead OSD's store is empty |
| Thrashing.Thrasher.ReviveOsd | tasks/zbkc_manager.py:389-402 | the whole new state and the exact views exposed; when the restart or the admin-socket wait raises, the state of the last view exposed |
| Thrashing.Thrasher.OutOsd | tasks/zbkc_manager.py:404-415 | the whole new state and the exact views exposed; when the mark-out raises, the state of the last view exposed |
| Thrashing.Thrasher.InOsd | tasks/zbkc_manager.py:417-430 | a dead OSD is only revived: it stays out, and in_osds, out_osds and the in-set stay as they were; any other goes in; exact views exposed, and on a raise the state of the last of them |
| Thrashing.Thrasher.AllUp | tasks/zbkc_manager.py:474-483 | ends for every sequence of draws; unless a command raises, with dead and out empty, every daemon running and every OSD in |
| Thrashing.Thrasher.TestPoolMinSize | tasks/zbkc_manager.py:522-547 | unless it raises, exposes an empty live list, ends with exactly one OSD dead and out, and is back at the floors if and only if both are below the number of OSDs; raises when the log takes one argument |
| Thrashing.Thrasher.EveryoneDown | tasks/zbkc_manager.py:534-539 | kills and outs the others in order, then the last one; dead and out are then the same list |
| Thrashing.Thrasher.OthersUp | tasks/zbkc_manager.py:541-547 | revives and ins exactly the others, in order |
| Thrashing.Thrasher.InUntil | tasks/zbkc_manager.py:620-621 | ends for every sequence of draws, by the number of dead plus out OSDs, with enough in unless it raises |
| Thrashing.Thrasher.TestMapDiscontinuity | tasks/zbkc_manager.py:610-643 | although it kills without a guard, ends with at least min_in OSDs in, one out, and no fewer live than it found unless it raises, never exposing more than one fewer |
| Thrashing.Thrasher.KillThenRevive | tasks/zbkc_manager.py:636-643 | the OSD it kills ends out, and as many are live as before, unless it raises |
| Thrashing.Thrasher.Perform | tasks/zbkc_manager.py:831 | every chosen action finds every list it draws from non-empty and, unless it raises, has its own effect and keeps the floors |
| Thrashing.Thrasher.Clean | tasks/zbkc_manager.py:813-830 | unless it raises, revives down to max_dead and keeps the floors whether or not the discontinuity test runs; if it runs an OSD is left out; only that test exposes fewer than min_live |
| Thrashing.Thrasher.Round | tasks/zbkc_manager.py:807-832 | given its draws, one turn cleans first if drawn to, then performs the action its value chooses, with that action's effect between its two boundaries; lists exact and floors held at both |
| Thrashing.Thrasher.ActedInRound | tasks/zbkc_manager.py:831 | of a run's trace AllActed says, for each completed round, that between its boundaries lies the effect of the action its draw chooses, one that was offered |
| Thrashing.Thrasher.DoThrash | tasks/zbkc_manager.py:797-833 | over any sequence of draws: every completed round performed the action its draw chooses; lists exact and floors held at every action boundary; every exposed view, and the state left on any exit, coherent; never fewer live than min_live, one less with the discontinuity test, or none with the min-size test; in every interleaving each SIGHUP finds its daemon running and, where that mark is positive, always has one to pick; every entry the run adds to the ledger of the stores is borne out by an exposed view, in order, drift by the daemons running in it and tool changes among OSDs dead and stopped in it; unless it raises, every daemon running and every OSD in at the end |
| ProgressWaits.WaitFor | tasks/zbkc_manager.py:1784-1809 | the outcome is the declared verdict: finished at the first finished poll before any expiry, timed out at the first poll a whole timeout after the last restart |
| ProgressWaits.VerdictUnique | tasks/zbkc_manager.py:1791-1808 | a trace fits only one verdict |
| ProgressWaits.ExpiredExactly | tasks/zbkc_manager.py:1792-1807 | a poll expires if and only if it sees neither completion nor progress and the start, every earlier progress and every earlier change of the count all lie a whole timeout back |
| ProgressWaits.TimeoutMeansSilence | tasks/zbkc_manager.py:1792-1807 | a timeout comes after a whole timeout, from the start or the last progress or changed count, in which no poll saw progress and the count stood still |
| ProgressWaits.TurnsAreBounded | tasks/zbkc_manager.py:1791-1808 | with turns three seconds apart, at most (R+1)*ceil(timeout/3)+1 turns for R restarts |
| ProgressWaits.ResetsCount | tasks/zbkc_manager.py:1795-1806 | R is the number of polls with progress or a changed count |
| ScrubWaits.CountScrubbed | tasks/zbkc.py:1076-1083 | the count is the number of groups scrubbed, and it says whether any is missing |
| ScrubWaits.ImprovesMeans | tasks/zbkc.py:1084-1086 | a poll resets the gap if and only if it finds more groups scrubbed than none and than any poll before it |
| ScrubWaits.AwaitScrubs | tasks/zbkc.py:1070-1094 | ends within (N+1)*(retries+1) polls for every sequence of dumps, at the first poll with every group scrubbed or at the first stall |
| ScrubWaits.StalledMeans | tasks/zbkc.py:1084-1091 | a stall is retries+1 polls in a row none of which beat all before it |
| ScrubWaits.DoPgScrub | tasks/zbkc_manager.py:1587-1605 | returns at the first changed stamp, sends exactly at the multiples of 120 seconds before its time is up, at ten seconds a turn, fails exactly after 37 unchanged checks |
| Pools.DigitsInjective | tasks/zbkc_manager.py:1332 | different pool ids have different decimal names |
| Pools.DigitsRoundTrip | tasks/zbkc_manager.py:1332 | reading the decimal name back gives the id |
| Pools.RunSyncsExactly | tasks/zbkc_manager.py:1323-1510 | cached pg_num equals the cluster's after every operation of a run if and only if no effective growth was silently refused and no effective creation or removal stopped between the two tables |
| Pools.RunSyncs | tasks/zbkc_manager.py:1323-1510 | a run all of whose operations are faithful, effective or not, ends with cache and cluster equal |
| Pools.RunStaysBounded | tasks/zbkc_manager.py:1484-1510 | for non-negative growth and numeric limits, pg_num, cached or real, never exceeds the larger of initial sizes and limits, over any run, refused commands included |
| Pools.PgpStaysBelow | tasks/zbkc_manager.py:1484-1510 | over any run of faithful operations with non-negative growth, pgp_num <= pg_num |
| Pools.FixStaysBelowExactly | tasks/zbkc_manager.py:1501-1510 | one fix keeps that if and only if the cached size does not exceed the real one |
| Pools.RefusedGrowthOvershoots | tasks/zbkc_manager.py:1464-1510 | a growth refused with status 22 and then a fix: pgp_num exceeds pg_num |
| Pools.ListLimitNeverStops | tasks/zbkc_manager.py:125-126 | with the list the thrasher passes, k growth steps grow the pool k times, for every k |
| Pools.UniqueNamesNeverRepeat | tasks/zbkc_manager.py:1323-1340 | over any sequence of operations, removals included, no unique name is handed out twice |
| Pools.PoolManager.CreatePool | tasks/zbkc_manager.py:1361-1383 | refused exactly when the name is cached; otherwise the cluster has the pool and then the cache its size, unless a command between them raises |
| Pools.PoolManager.CreatePoolWithUniqueName | tasks/zbkc_manager.py:1330-1340 | the id is used up even when the creation is refused or raises |
| Pools.PoolManager.RemovePool | tasks/zbkc_manager.py:1404-1416 | refused exactly when the name is not cached; otherwise the cache loses it, and the cluster too unless rmpool raises |
| Pools.PoolManager.Retry | tasks/zbkc_manager.py:1464-1482 | raises if and only if the first 51 attempts all answer 11; otherwise ends at the first other status |
| Pools.PoolManager.ExpandPool | tasks/zbkc_manager.py:1484-1499 | performs exactly one growth step of the run; a raise leaves the cache unchanged |
| Pools.PoolManager.SetPoolPgpNum | tasks/zbkc_manager.py:1501-1510 | sets pgp_num to the cached pg_num, under the same retries |
| MissingObjects.ListPgMissing | tasks/zbkc_manager.py:1512-1533 | against every truthful server, however it pages: fails if and only if a page it reaches is empty with more to come, and otherwise returns exactly the full list; at most one call more than there are objects |
| Quorums.MajoritiesMeet | tasks/mon_thrash.py:50-57 | two majorities of one set share a member |
| MonThrash.MaxKillableExactly | tasks/mon_thrash.py:203-211 | the survivors are a strict majority if and only if no more than max_killable are killed |
| MonThrash.AlwaysQuorumExactly | tasks/mon_thrash.py:237-265 | with maintain_quorum, those answering are a majority in every round that can be drawn if and only if the freeze probability is not positive |
| MonThrash.LosingRound | tasks/mon_thrash.py:241-265 | at any positive probability, for any number of monitors, a round that can be drawn and leaves no majority answering |
| MonThrash.DefaultLosesQuorum | tasks/mon_thrash.py:114 | three monitors at the default probability: one killed and one frozen |
| MonThrash.RoundQuorumExactly | tasks/mon_thrash.py:249-290 | a majority answers at every moment of a round if and only if its killed and frozen together are fewer than half |
| MonThrash.MonitorThrasher.ToFreeze | tasks/mon_thrash.py:241-247 | exactly the monitors not to be killed whose draw is below the probability; none at probability 0 or less, all the others above 100 |
| MonThrash.MonitorThrasher.FreezeAndThaw | tasks/mon_thrash.py:258-265 | everyone else answers throughout and, unless a signal raises, everyone frozen is thawed again and there is a moment when all of them are frozen |
| MonThrash.MonitorThrasher.Round | tasks/mon_thrash.py:229-296 | killed and frozen are disjoint and each quorum wait is for exactly the monitors not killed; unless a wait or command raises, all the victims are down at one moment, both freezes happen within the round, every wait is made, and it ends with all running and none frozen; if one does, only the round's own victims can be left killed or frozen |
| MonThrash.MonitorThrasher.DoThrash | tasks/mon_thrash.py:213-308 | over any number of rounds: every awaited size is the right one and a majority, survivors of any two rounds meet, a majority answers at every moment if every round killed and froze fewer than half, as without freezing, and only then unless the last round was cut short; after a raise all but max_killable still run |
| Seesaw.NextPort | tasks/mon_seesaw.py:22-37 | all ports below the result are used; the result is free if and only if the list is not misleading |
| Seesaw.MisleadingPorts | tasks/mon_seesaw.py:31-36 | a port below 6789 beside it, and 6789 listed twice before 6790, both mislead the search |
| Seesaw.MonSeesaw.PortsExactly | tasks/mon_seesaw.py:24-30 | the ports searched are those of the named monitors on that machine, each as often as it is used there |
| Seesaw.MonSeesaw.SetUp | tasks/mon_seesaw.py:66-72 | adds one configuration entry with the port the search finds; a raise leaves the configuration as it was or with that entry |
| Seesaw.QuorumsCarryOver | tasks/mon_seesaw.py:164-198 | majorities of configurations one member apart share a member |
| Seesaw.MonSeesaw.Replace | tasks/mon_seesaw.py:165-177 | joins the replacer, then removes the victim, one change at a time; the map left by a failing wait or removal, the change made or not |
| Seesaw.MonSeesaw.Revert | tasks/mon_seesaw.py:181-198 | joins the victim, then removes the replacer, one change at a time; the map left by a failing set-up, wait or removal, the change made or not |
| Seesaw.MonSeesaw.Task | tasks/mon_seesaw.py:82-198 | every two majorities of successive monitor maps share a member, on every exit; once the swaps are done the map is put back, body raising or not, if and only if the replacer was new; the configuration on normal exit if and only if its name was new, and never when the body raises; every awaited size is the size of the map; an exit before that touches only victim and replacer |
| ClockSkew.AddChecks | tasks/mon_clock_skew_check.py:182-196 | adds each excess, and fails if and only if one of them carries no warning |
| ClockSkew.TableExactly | tasks/mon_clock_skew_check.py:152-196 | the table names exactly the monitors that exceeded the maximum in some report that was used |
| ClockSkew.TableLatest | tasks/mon_clock_skew_check.py:182-196 | and gives for each the skew and details of its last such check |
| ClockSkew.FirstStopExactly | tasks/mon_clock_skew_check.py:144-147 | the timeout runs from the first turn that found the check told to stop |
| ClockSkew.DoCheck | tasks/mon_clock_skew_check.py:132-226 | the verdict comes at the first turn the loop may leave, so with at_least_once after a qualifying round; it fails if and only if expect_skew equals "no skews" and never_fail is off; it raises only on a failed quorum wait or health command, a bad report or the timeout |
| BenchSweep.ExpectedExactly | tasks/radosbenchsweep.py:110-133 | the filtered product contains exactly the requested combinations, each with its OSDs out |
| BenchSweep.PointsInOrder | tasks/radosbenchsweep.py:110 | the product by position: its length, and where each size, replica count and repetition stands |
| BenchSweep.ExpectedInOrder | tasks/radosbenchsweep.py:110-131 | the runs are those of the wanted cells of the product, each exactly once, in its order |
| BenchSweep.SweepRow | tasks/radosbenchsweep.py:112-133 | one OSD more is taken out per row, before its first run; a raise leaves a prefix of the row and either set of weights |
| BenchSweep.Sweep | tasks/radosbenchsweep.py:65-133 | the runs are exactly the wanted cells of the product, once each and in order, each with precisely OSDs 0 to osds_out-1 at zero weight; invalid settings are refused; the weights left behind; after a raise the runs are a prefix of these and some first OSDs are at zero weight |
| LogLines.JoinSplit | tasks/zbkcfs_test_runner.py:50 | the parts joined with newlines are the text again |
| LogLines.PartsAreLines | tasks/zbkcfs_test_runner.py:50 | no part contains a newline |
| LogLines.SplitContinues | tasks/zbkcfs_test_runner.py:47-53 | appending data only reopens the last part |
| LogLines.LogStream.Write | tasks/zbkcfs_test_runner.py:47-53 | lines logged plus the buffer remain the split of everything written |
| LogLines.LogStream.WriteAll | tasks/zbkcfs_test_runner.py:43-53 | for every chunking, lines and buffer are the split of the whole data |
| PoolSnaps.SnapThrasher.AddSnap | tasks/thrash_pool_snaps.py:41-45 | the snapshot is on every pool and in the list; after a raise it is on the first few pools and not in the list |
| PoolSnaps.SnapThrasher.RemoveSnap | tasks/thrash_pool_snaps.py:34-40 | one listed snapshot leaves every pool and the list; refused exactly when there is none; after a raise it is gone from the first few pools and still in the list |
| PoolSnaps.SnapThrasher.Round | tasks/thrash_pool_snaps.py:48-55 | adds at or below the minimum, removes at or above the maximum, and either appends the round's number or drops one listed snapshot; a raise changes one snapshot on the first few pools only |
| PoolSnaps.SnapThrasher.DoThrash | tasks/thrash_pool_snaps.py:46-56 | every pool has exactly the listed snapshots unless a raise left one of them torn; exactly i after round i up to min_snaps+1, then never below min_snaps, and never above the larger of max_snaps and min_snaps+1 |

## Left out

- Remote execution, power cycling, admin sockets, JSON parsing and shell commands: step effects or observations.
- The clock is assumed monotone; the second reading of the time inside a failing timeout assertion is not modelled.
- Thrashing.Thrasher.constructor: takes it that `get_osd_status` returns lists that split the OSDs and agree with the cluster.
- Power cycling a machine with several OSDs: stopping an OSD stops that daemon only.
- The search for the object-store tool's binary and its arguments; the layout settings applied at the end of a kill are only a place to raise.
- `do_optrack_toggle`, `do_dump_ops` and `do_noscrub_toggle`: readers of the lists or independent flags.
- Probabilities: any outcome a weight or chance permits may happen.
- Seesaw.MonSeesaw.Replace: takes a wait that succeeds to have seen the started monitor join.
- Drift of the stores after the last kill of a run: daemons' own changes are entered at the next kill.
- Cluster commands of the pool methods that raise before either pool table is touched.
- BenchSweep.Sweep: the iterator over the product is written as one loop over rows and one over the points of a row.
- The wait for active and clean groups that precedes the final scrub requests.
- Pools.PoolManager.CreatePool: takes it that creating a pool the cluster already has is accepted and leaves that pool alone.
- `do_sighup` is taken to pick and signal without a switch in between.
- Benchmark output, CSV columns, logging, archiving and scenario scripts: easy or dependent on the system under test.
- `mds_thrash`, rgw, s3tests, qemu, samba and deployment tasks: configuration and client plumbing.
