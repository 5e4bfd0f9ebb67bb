# pispot-ui: verified model

pispot-ui is the status dashboard of a small Wi-Fi router. This project models the parts of it that keep
state over unbounded runs, and the text formats they read, and proves what they promise:

- **Lazy collectors** (hotspot, WAN, admin). `LazyRefresh` is the protocol all three share, as a state
  machine over the steps of any number of threads: two clock checks under a mutex, the pointer store, the
  assignment of `lastAt`, the lock-free load. Its theorems hold for every sequence of actions. `Hotspot`,
  `Wan` and `Admin` are the data machines on top of it: each has a class whose `Refresh` follows the
  original branch by branch, and an independent reference of what should be shown after any history.
- **Throughput sampler** (`Netstats`). Ticks are proved against a batch function of the whole observation
  history, and the rates shown are proved to add up to the bytes counted.
- **Authentication** (`AuthCache`, `Handlers`, `Gateway`). The cache is proved against a scan of its past
  `set`s; requests interleave lookup, helper call, `set` and handler in any order.
- **Parsers** (`StationDump`, `Leases`, `ProcNetDev`, `WanLink`, `IpTool`, `SystemInfo`) and the
  station/lease join (`HotspotJoin`). Every parsing loop is a method proved against a declarative reading of
  its text (the last line for a key, blocks between headers, the shortest sufficient prefix); round trips
  and concatenation laws are proved about that reading.
- **Page scripts** (`Escape`, `WanButtons`). The escaping chain and what reads it back; the two WAN buttons
  under any order of clicks, finished requests and late statistics.

What an operation finally shows, sends or answers is also stated over its inputs alone, in statements that
no method and no other specification uses: `Hotspot.Shows`, `Wan.Shows`, `Admin.Shows`, the published rates
of `Netstats`, `Gateway.Answers`, `Handlers.Asks`, `WanButtons.PendingExactlyWhen`, `SystemInfo.PicksZone`.

`Text`, `LastWins`, `Blocks`, `EarlyExit`, `Seqs`, `Transitions`, `Clock` and `Results` hold what these
share. `dafny verify dfyconfig.toml` checks everything.

Times are integers, in nanoseconds from Go's zero time; `Sub` saturates as `time.Time.Sub` does. Clock
readings, command output, file contents, and the presence of an interface are parameters of the methods and
arbitrary in the theorems. Text is ASCII. Byte counters are 64-bit; wrap-around is written out where the
program multiplies. Rates, loads, temperatures and bit rates are reals.

## Where the code and its documentation differ

- The re-check in `refresh` is documented as collapsing concurrent requests. It does so exactly when its
  clock reading is less than the time to live after the start of the latest refresh
  (`LazyRefresh.RecheckCollapses`); two calls made at the same instant can both refresh
  (`LazyRefresh.SlowRefreshRunsAgain`).
- `selectThermalZone` documents `bcm2712_thermal` before types that mention `cpu`; its loop lets the first of
  either kind win (`SystemInfo.DocumentedExactlyWhen`, `SystemInfo.DocumentedFails`).
- `wanOp` sets its pending operation before the request so that both buttons stay locked while it runs. With
  an operation pending its button is locked if and only if a render has come since the click
  (`WanButtons.LockedExactlyWhen`): from then on nothing is sent (`WanButtons.NothingSentWhilePending`), and
  until then every further click sends the same operation again (`WanButtons.ClicksSendAgain`), as in
  `WanButtons.SameOperationTwice`.
- A failed refresh is documented as keeping the data of the last successful one. An absent interface sets the
  error and blanks the data; in the hotspot a list read without its leases sets the error and replaces the
  data. Exactly when the data shown is still that of the last success is said by `Wan.DocumentedExactlyWhen` and
  `Hotspot.DocumentedExactlyWhen`, with histories on which it is not in `Wan.DocumentedFails` and
  `Hotspot.DocumentedFails`. The admin collector is documented as keeping the previous information; its link
  is new whatever failed (`Admin.RetainedExactlyWhen`, `Admin.RetainedFails`).
- The byte conversion in `parseMeminfo` wraps around from 2^54 kB on (`SystemInfo.MemoryIsExact`); a file whose
  total is 18014398509481984 kB reads as no memory at all (`SystemInfo.TotalWrapsAround`).
- `dataset.ssid` is the network name as stored only if the name has no carriage return and no U+0000: HTML
  parsing replaces both (`Escape.AttributeReadBack`).

## Model

| member | source | states |
|---|---|---|
| `LazyRefresh.CallsReturnFresh` | internal/hotspot/collector.go:109-137 | under every interleaving, a `Snapshot` call returns a snapshot taken less than the TTL before the call was made, and its data is the reference fold of some prefix of the outcome history |
| `LazyRefresh.LoadsNeverGoBack` | internal/hotspot/collector.go:121-214 | the times of snapshots returned by successive lock-free loads, by whichever threads, never decrease |
| `LazyRefresh.RefreshesNeverOverlap` | internal/hotspot/collector.go:127-137 | at most one thread is in the refresh body at any time |
| `LazyRefresh.NeverDeadlocks` | internal/hotspot/collector.go:112-129 | in every reachable state some thread can take its next step |
| `LazyRefresh.PublishedIsFold` | internal/wan/collector.go:129-228 | the current snapshot's data is the fold of all finished outcomes, its time is the start of the refresh that produced it, and at most one refresh is unfinished |
| `LazyRefresh.RefreshesAreSpaced` | internal/hotspot/collector.go:57-59 | starts of consecutive refreshes are at least the TTL apart, and a window of length w holds at most w/TTL + 1 of them |
| `LazyRefresh.RecheckCollapses` | internal/hotspot/collector.go:131-134 | the exact condition under which the re-check spares a waiting call its refresh |
| `LazyRefresh.SlowRefreshRunsAgain` | internal/hotspot/collector.go:131-137 | for every configuration, a run in which two calls made at the same instant both refresh |
| `LazyRefresh.ExecKeepsInv` | internal/admin/eth.go:114-200 | every reachable state satisfies the lock, clock, history and freshness invariants |
| `LazyRefresh.ApplyKeepsInv` | internal/wan/collector.go:115-136 | each step of the protocol keeps those invariants |
| `Hotspot.FoldIsLastGood` | internal/hotspot/collector.go:32-42 | after any history the published fold is the last good client list with the latest error |
| `Hotspot.SnapshotShowsLastGood` | internal/hotspot/collector.go:124-214 | the same for the snapshot of the concurrent protocol, whatever the threads do |
| `Hotspot.DocumentedExactlyWhen` | internal/hotspot/collector.go:36-42 | exactly when the list shown is that of the last successful refresh, as documented: the latest refresh past `iw` succeeded, or shows the same |
| `Hotspot.DocumentedFails` | internal/hotspot/collector.go:141-213 | two histories on which it is not: an absent interface, and leases that cannot be read |
| `Hotspot.FollowsMore` | internal/hotspot/collector.go:146-213 | publishing one more snapshot keeps every recorded value the fold of the outcomes before it |
| `Hotspot.PublishedShows` | internal/hotspot/collector.go:139-213 | what is published: nothing without the interface, the previous clients if `iw` fails, else the stations of the dump by MAC address, each with its lease; a lease file that is missing is no error |
| `Hotspot.PrintedDumpShows` | internal/hotspot/collector.go:177-196 | what is shown of a printed dump are the printed stations |
| `Hotspot.Collector.constructor` | internal/hotspot/collector.go:95-107 | the first snapshot is empty, and nothing was refreshed yet |
| `Hotspot.Collector.NotePresence` | internal/hotspot/collector.go:139-157 | presence is logged only when it changes; the lines alternate, starting with absent |
| `Hotspot.Collector.Collect` | internal/hotspot/collector.go:177-196 | parsing, enriching and sorting in place give the stations of the dump by MAC address, each with the address and name of its lease, in an array of their own |
| `Hotspot.Collector.StoreIwFailure` | internal/hotspot/collector.go:162-175 | a failed `iw` publishes a new snapshot that shares the previous clients |
| `Hotspot.Collector.Refresh` | internal/hotspot/collector.go:127-214 | nothing happens while fresh; otherwise one snapshot is published that shows what the inputs say, every earlier snapshot keeps its value, and the lines logged are those for the change |
| `Hotspot.Collector.GetSnapshot` | internal/hotspot/collector.go:112-122 | a call by itself: unchanged while fresh, and the snapshot returned was taken less than the TTL before the call was made |
| `Hotspot.Collector.AbsenceIsPublished` | internal/hotspot/collector.go:141-157 | the absence flag is set exactly when the published error is the absent error, and absent and present lines alternate |
| `HotspotJoin.Enrich` | internal/hotspot/collector.go:181-190 | the loop in place gives every station the address and name of its lease |
| `HotspotJoin.SortByMac` | internal/hotspot/collector.go:192-196 | sorted by MAC address and a permutation |
| `HotspotJoin.SortedIsUnique` | internal/hotspot/collector.go:192-196 | with distinct MAC addresses there is one sorted order, whatever sort is used |
| `HotspotJoin.JoinMeaning` | internal/hotspot/collector.go:177-190 | address and name come from the last well-formed lease line with the station's MAC address, or stay empty; all other fields are untouched |
| `HotspotJoin.ListShowsLeases` | internal/hotspot/collector.go:181-190 | any permutation of the joined clients has the dump's stations, each with third and fourth field (empty for `*`) of the last lease line for its MAC address in any case, or neither |
| `HotspotJoin.StationsAreBare` | internal/hotspot/clients.go:76-76 | parsed stations have no address and no name before the join |
| `HotspotJoin.JoinForgetsCase` | internal/hotspot/leases.go:26-47 | the joined list does not change with the case of MAC addresses in the dump or the leases |
| `HotspotJoin.PublishedForgetsCase` | internal/hotspot/collector.go:177-196 | nor does the sorted list that is published, whatever sort is used, if the stations have different MAC addresses |
| `StationDump.ParseStationDump` | internal/hotspot/clients.go:45-104 | the loop lists one client per block, each field from the last line of the block for its key |
| `StationDump.HeaderHasMac` | internal/hotspot/clients.go:69-78 | a header always has a MAC address: the guard for one without never fires |
| `StationDump.BlockLaw` | internal/hotspot/clients.go:51-78 | parsing a dump cut before a header is parsing its parts |
| `StationDump.TextBlockLaw` | internal/hotspot/clients.go:58-78 | the same for the bytes of a dump cut after a line feed |
| `StationDump.NoiseIsIgnored` | internal/hotspot/clients.go:29-32 | only lines with one of the four known keys count |
| `StationDump.RoundTrip` | internal/hotspot/clients.go:29-104 | parsing printed stations gives them back, with blank and unknown lines anywhere in their blocks and MAC addresses in any case |
| `StationDump.TextRoundTrip` | internal/hotspot/clients.go:58-104 | the same from bytes |
| `StationDump.UnreadableIsZero` | internal/hotspot/clients.go:120-130 | a value that does not begin with a number that fits reads as 0 |
| `Text.AtoiExactly` | internal/hotspot/clients.go:132-143 | a signed number is digits, with a sign or without, that fit 64 bits; anything else is not read |
| `Text.LineEnds` | internal/hotspot/clients.go:58-61 | a line ends at its line feed, without the carriage return before it, or at the end of the text |
| `Text.LowerIsSpelling` | internal/hotspot/clients.go:76-76 | lower case is the one spelling without capitals that differs at most in case |
| `Text.LessMeaning` | internal/hotspot/collector.go:194-196 | one string comes before another where it ends, or has the smaller character, at the first difference |
| `Leases.ParseLeases` | internal/hotspot/leases.go:26-48 | the loop builds the last-wins table of the well-formed lines |
| `Leases.LookupFindsLastLine` | internal/hotspot/leases.go:22-25 | a lookup finds exactly the last well-formed line with that MAC address |
| `Leases.LookupGetsLease` | internal/hotspot/leases.go:26-47 | the lease found is read off the last line that is no comment, has four fields, and has the MAC address in any case as its second |
| `Leases.LeasesMerge` | internal/hotspot/leases.go:26-47 | a file in two parts parses to the right-biased merge of their tables |
| `LastWins.TableConcat` | internal/hotspot/leases.go:27-47 | tables of concatenated line lists merge, right-biased, for any kind of entry |
| `LastWins.TableIsLast` | internal/hotspot/leases.go:22-25 | a last-wins table maps a key to the value of the last line for it |
| `ProcNetDev.ParseProcNetDev` | internal/netstats/throughput.go:255-282 | the loop builds the last-wins table of lines with both counters |
| `ProcNetDev.CountersMerge` | internal/netstats/throughput.go:255-282 | a file in two parts parses to the right-biased merge of their tables |
| `ProcNetDev.CountsExactlyWhen` | internal/netstats/throughput.go:258-281 | exactly which lines count: a name before the first colon, sixteen columns, digits in the first and the ninth |
| `ProcNetDev.ScanReadsDigits` | internal/netstats/throughput.go:272-280 | a column is read up to its first other character, and not at all if it does not fit 64 bits |
| `ProcNetDev.RoundTrip` | internal/netstats/throughput.go:250-282 | parsing rows of sixteen columns that print a table of counters, after lines that are not counters, gives the table back |
| `ProcNetDev.PrintedTable` | internal/netstats/throughput.go:250-282 | every table with legal names has such rows, so it can be printed and parsed back |
| `ProcNetDev.ParsesExactlyLegalTables` | internal/netstats/throughput.go:255-282 | the tables the parser can give are exactly those whose names are trimmed, not empty, and free of colons and line feeds |
| `WanLink.ParseIwLink` | internal/wan/ssid.go:65-108 | the loop with its early return reads the last line for every field, unless a denial occurs |
| `WanLink.ConnectedExactlyWhen` | internal/wan/ssid.go:74-85 | connected exactly when some line announces a link and none denies it |
| `WanLink.DenialAbsorbs` | internal/wan/ssid.go:74-76 | one "Not connected" line anywhere gives the zero value |
| `WanLink.AnnouncementHasAccessPoint` | internal/wan/ssid.go:77-83 | the length guard for an announcement never fails |
| `WanLink.PrintedLinkReads` | internal/wan/ssid.go:65-108 | printed output, in any order and with any other lines, reads as the printed values, each in its own field: name trimmed, access point in lower case, frequency without its fraction |
| `IpTool.ParseIPAddr` | internal/wan/ssid.go:125-143 | the nested loops return the first usable address of the document |
| `IpTool.ParseIPRoute` | internal/wan/ssid.go:155-170 | the loop returns the first gateway of the interface |
| `IpTool.LocalIsFirst` | internal/admin/eth.go:206-224 | empty exactly when no address is usable, else the first usable one |
| `IpTool.GatewayIsFirst` | internal/admin/eth.go:230-245 | empty exactly when no route leads out of the interface, else the first that does |
| `IpTool.ScansFindFirst` | internal/wan/ssid.go:125-170 | the scans give the first non-empty IPv4 address of the document, interface by interface, and the gateway of the first route out of the interface that has one, or nothing |
| `Wan.FoldIsLastGood` | internal/wan/collector.go:30-37 | after any history the published fold is the information of the latest outcome that did not fail, with the latest error |
| `Wan.SnapshotShowsLastGood` | internal/wan/ssid.go:19-36 | in every run the snapshot is that reference, and a disconnected one shows nothing of an earlier link |
| `Wan.DocumentedExactlyWhen` | internal/wan/collector.go:30-32 | exactly when the information shown is that of the last successful refresh, as documented: no absence came after a success as the latest outcome that is not a failed command |
| `Wan.DocumentedFails` | internal/wan/collector.go:142-151 | two outcomes after which it is not |
| `Wan.FailuresKeepInfo` | internal/wan/collector.go:221-228 | any number of failures changes the error and nothing else |
| `Wan.PublishedShows` | internal/wan/collector.go:142-228 | what is published: nothing but the presence without the interface or an association, the previous information on a failed command, else the values `iw` printed, each in its own field, with the first address and gateway |
| `Wan.Collector.NoteLink` | internal/wan/collector.go:174-190 | link changes are logged only when the link read differs from the one before |
| `Wan.Collector.FetchAddresses` | internal/wan/collector.go:191-214 | filling the fields one by one publishes every link value in its own field with the first address and gateway, or the last good information if a command fails |
| `Wan.Collector.Refresh` | internal/wan/collector.go:129-228 | nothing happens while fresh; otherwise the snapshot shows what the inputs say, the lines logged are those for the change, and the remembered link is the latest one read, published or not |
| `Wan.Collector.GetSnapshot` | internal/wan/collector.go:115-124 | the same call for the WAN collector |
| `Wan.Collector.AbsenceIsPublished` | internal/wan/collector.go:142-158 | flag, published error and alternating lines agree for the WAN collector |
| `Admin.FoldIsLastAddress` | internal/admin/eth.go:5-7 | after any history address and gateway are kept together, and the link is the latest reading, false when absent |
| `Admin.SnapshotShowsLastAddress` | internal/admin/eth.go:124-200 | the same for the snapshot of the concurrent protocol |
| `Admin.RetainedExactlyWhen` | internal/admin/eth.go:5-7 | after any history, exactly when a failed refresh keeps the previous information, as documented |
| `Admin.RetainedFails` | internal/admin/eth.go:161-176 | a failed refresh that shows another link than the one before |
| `Admin.PublishedShows` | internal/admin/eth.go:135-200 | what is published: nothing without the interface; else the link is up exactly when the operstate reads "up", and address and gateway are the first ones, or the previous ones if the address failed |
| `Admin.Collector.Fetch` | internal/admin/eth.go:156-200 | an address failure keeps address and gateway, a route failure blanks the gateway, the link is new in all cases |
| `Admin.Collector.Refresh` | internal/admin/eth.go:124-200 | nothing happens while fresh; otherwise the snapshot shows what the inputs say, and the lines logged are those for the change |
| `Admin.Collector.GetSnapshot` | internal/admin/eth.go:114-122 | the same call for the admin collector |
| `Admin.Collector.AbsenceIsPublished` | internal/admin/eth.go:135-151 | flag, published error and alternating lines agree for the admin collector |
| `Netstats.FilterEmpty` | internal/netstats/throughput.go:284-293 | no empty names, every other name as often as before, in the order of `Kept` |
| `Netstats.KeptConcat` | internal/netstats/throughput.go:284-293 | filtering preserves order: what is kept of two parts is what is kept of each, one after the other |
| `Netstats.OrderIsKept` | internal/netstats/throughput.go:284-293 | two configured names keep their order, whatever stands around them |
| `Netstats.InitialInterfaces` | internal/netstats/throughput.go:298-304 | zero entries for exactly the configured interfaces |
| `Netstats.Collector.Tick` | internal/netstats/throughput.go:163-210 | after every tick the snapshot is the batch function of all observations, the kept samples are those of the last one, and the snapshots published so far are the batch function of every prefix |
| `Netstats.Collector.PublishedRatesAddUp` | internal/netstats/throughput.go:190-238 | over any run, the `rxMbps` of the published snapshots, times the seconds between them, adds up to the increases of the receive counter, and `txMbps` to those of the transmit counter |
| `Netstats.Collector.PublishedFields` | internal/netstats/throughput.go:190-209 | every published snapshot has the counters that its tick read as totals, 0 when absent, and shows an interface as up exactly when its operstate reads "up" |
| `Netstats.Collector.PublishedSign` | internal/netstats/throughput.go:224-238 | a published rate is never negative, and positive exactly when its counter went up between ticks that can be compared |
| `Netstats.RateGivesBytes` | internal/netstats/throughput.go:227-238 | a rate multiplied out is the counter increase it came from, or zero when the samples cannot be compared |
| `Netstats.RatesAddUp` | internal/netstats/throughput.go:190-210 | over any run, with absences, read errors and resets, the rates shown add up to the bytes counted |
| `Netstats.RatesTelescope` | internal/netstats/throughput.go:190-210 | in a run without those they add up to the last counter minus the first |
| `Netstats.RateSign` | internal/netstats/throughput.go:224-238 | rates are never negative, and positive exactly when comparable counters went up |
| `Netstats.SnapshotIsLocal` | internal/netstats/throughput.go:190-209 | the keys are the configured interfaces, and a snapshot depends on the last two observations alone |
| `AuthCache.KeyCollision` | internal/authz/cache.go:33-36 | two credentials share a key exactly when user names and password digests are equal |
| `AuthCache.Cache.Get` | internal/authz/cache.go:39-47 | a lookup answers what a scan of the past `set`s would, within five minutes of the latest |
| `AuthCache.Cache.Set` | internal/authz/cache.go:50-57 | a `set` is added to the history that lookups scan |
| `AuthCache.ScanExactlyWhen` | internal/authz/cache.go:33-57 | a role is found exactly when the latest `set` of the key gave it at most 300 seconds ago |
| `AuthCache.InsertHolds` | internal/authz/cache.go:50-57 | the table after a `set` is the table of the longer history |
| `Gateway.Authenticate` | internal/authz/middleware.go:27-82 | for one request: the verdict and the change of the cache that `VerdictAnswers` spells out |
| `Gateway.VerdictAnswers` | internal/authz/middleware.go:27-82 | without a socket, or for /healthz, a request passes without a role; else no user means 401, a remembered user passes with the role remembered, and one who is not gets what the helper says: 401, 503, or the role, which is then remembered |
| `Gateway.StepsAreAuthenticate` | internal/authz/middleware.go:27-82 | a request's interleaved steps, taken alone, end in that verdict and leave those `set`s |
| `Gateway.RolesAreVouched` | internal/authz/middleware.go:43-80 | in every interleaving a guarded request passed on carries a role the helper gave for its own key, an unguarded one carries none |
| `Gateway.ServedExactlyAs` | internal/authz/middleware.go:38-80 | in every run each request passed on needed no credentials and has no role, or has a user whose own key the helper answered with that role |
| `Gateway.HitsAreRecent` | internal/authz/middleware.go:50-55 | a hit carries the role of the latest `set` of its key before the lookup, at most five minutes old |
| `Gateway.CacheHoldsOnlyAnswers` | internal/authz/middleware.go:57-77 | in every run the cache is the table of its `set`s, and each entry traces to an Ok answer; denials and errors make none |
| `Gateway.OperationsAreAuthorized` | internal/api/handlers.go:139-153 | every operation sent is the one its path, verb and body ask for, and the request was served as "admin" by an answer to itself or by a `set` of its key at most five minutes old that had an answer behind it; none is sent without a socket |
| `Handlers.WifiAdminCheck` | internal/api/handlers.go:139-153 | it passes exactly an admin's request with the right verb and a socket; a refusal is the complete answer of the common rule, with nothing sent, and a pass of a well-formed request is what it takes to send its operation |
| `Handlers.WifiNetworks` | internal/api/handlers.go:170-216 | status and operation are those of the rule common to all handlers |
| `Handlers.WifiNetwork` | internal/api/handlers.go:219-239 | the same for removing a network, with an empty name refused |
| `Handlers.WifiReloadHandler` | internal/api/handlers.go:242-256 | the same for restarting the supplicant |
| `Handlers.WanOp` | internal/api/handlers.go:260-295 | the same for the two WAN operations |
| `Handlers.SendsExactlyWhen` | internal/api/handlers.go:136-295 | exactly which requests send an operation, independently of the answer; success is only reported for one that was sent and done |
| `Handlers.SendsWhatIsAsked` | internal/api/handlers.go:170-295 | each operation is sent exactly for an admin's request, with a socket, whose path, verb and body ask for it |
| `Handlers.AnswersExactly` | internal/api/handlers.go:136-295 | 405, 403, 503 and 400 in this order with nothing sent, else the status that reports the helper's result for the operation |
| `SystemInfo.ParseMeminfo` | internal/system/info.go:238-271 | the early-exit loop returns the last values of the shortest prefix in which both have been read |
| `SystemInfo.MissingExactlyWhen` | internal/system/info.go:260-265 | it fails exactly when one of the values never parses, and names the total first |
| `EarlyExit.StopIsShortest` | internal/system/info.go:242-259 | the prefix read is the shortest one that is enough |
| `SystemInfo.MeminfoRoundTrip` | internal/system/info.go:238-290 | a file with a total line, an available line and any other lines around them reads as those two numbers, whatever follows |
| `SystemInfo.MemoryIsExact` | internal/system/info.go:266-270 | the total is exact exactly below 2^54 kB; then used is at most total and used plus available, clamped, is the total |
| `SystemInfo.TotalWrapsAround` | internal/system/info.go:270-270 | every file with a total of 18014398509481984 kB and nothing available reads as one without memory |
| `SystemInfo.LoadReads` | internal/system/info.go:212-230 | the three loads are the first three fields, in their order |
| `SystemInfo.TempReads` | internal/system/info.go:292-303 | millidegrees read as thousandths of a degree, whatever white space surrounds them |
| `SystemInfo.ThrottledExactlyWhen` | internal/system/info.go:195-201 | throttled exactly from 80000 millidegrees on, and never without a reading |
| `SystemInfo.Collector.Tick` | internal/system/info.go:164-209 | the snapshot has the time its tick began, and every part is shown, or zero and reported, whatever happens to the others |
| `SystemInfo.Collector.Run` | internal/system/info.go:124-153 | the log has one line for each change of the throttled flag after the seed tick, and the last tick is the one published |
| `SystemInfo.ThrottleLogAlternates` | internal/system/info.go:141-151 | those lines alternate, start with throttled, and the last tells the current state |
| `SystemInfo.SelectThermalZone` | internal/system/info.go:314-344 | the loop chooses the first cpu-thermal zone, else the first of the two other kinds |
| `SystemInfo.ChosenPicksZone` | internal/system/info.go:305-344 | the zone chosen is the first of type cpu-thermal wherever it stands, else the first of type bcm2712_thermal or with cpu in any case in its type |
| `SystemInfo.DocumentedExactlyWhen` | internal/system/info.go:305-344 | exactly when that is the documented order |
| `SystemInfo.DocumentedFails` | internal/system/info.go:329-340 | two zones on which it is not |
| `Transitions.RecordAlternates` | internal/hotspot/collector.go:141-157 | recording changes of a flag keeps the recorded values alternating |
| `Escape.ChainIsSinglePass` | internal/web/static/wifi.js:233-239 | the four replacements one after the other are one substitution of each character |
| `Escape.OutputIsSafe` | internal/web/static/wifi.js:233-239 | no raw `<`, `>` or `"` in the output, and every `&` starts one of the four references |
| `Escape.DecodeUndoesEscape` | internal/web/static/wifi.js:233-243 | decoding character references gives the text back |
| `Escape.NormalizeEscaped` | internal/web/static/wifi.js:233-243 | the parser's newline normalization of an escaped text is the escaped form of the normalized text |
| `Escape.AttributeReadBack` | internal/web/static/wifi.js:116-125 | the attribute value ends where the escaped name ends, and reads back as the name with newlines normalized and U+0000 replaced: as the name itself if and only if it has no carriage return and no U+0000 |
| `Escape.EscapeIsInjective` | internal/web/static/wifi.js:113-116 | different names have different escaped forms |
| `WanButtons.Dashboard.RenderWAN` | internal/web/static/app.js:145-241 | the branches set the buttons and the pending operation as the event model says |
| `WanButtons.Dashboard.WanOpStart` | internal/web/static/app.js:356-364 | a click that the browser lets through makes its operation pending and sends it |
| `WanButtons.Dashboard.WanOpEnd` | internal/web/static/app.js:364-378 | a failed request clears the pending operation and enables the button that fits the last seen state alone, a successful one leaves both as they were |
| `WanButtons.Dashboard.RestoreWanButtons` | internal/web/static/app.js:346-354 | the buttons follow the last seen supplicant state |
| `WanButtons.ButtonsMatchState` | internal/web/static/app.js:195-241 | in every reachable state: hidden means nothing pending, never both enabled, the opposite button disabled while pending, else exactly the one that fits the last seen state enabled |
| `WanButtons.EndOfRequest` | internal/web/static/app.js:364-378 | the same for every reachable state and every request in flight |
| `WanButtons.PendingExactlyWhen` | internal/web/static/app.js:195-378 | an operation is pending exactly when some click sent it that was followed by no failed end, no render that hides the buttons, and no render of the state it aims for |
| `WanButtons.PageFollowsStats` | internal/web/static/app.js:145-204 | the buttons are shown, and the last seen state is, what the latest statistics say |
| `WanButtons.ClickSendsExactlyWhen` | internal/web/static/app.js:346-364 | a click sends exactly when the buttons are shown, the last seen state calls for the operation, and none is pending that a render has shown |
| `WanButtons.SentFitsState` | internal/web/static/app.js:331-341 | every operation sent is the one the last seen state calls for |
| `WanButtons.NothingSentWhilePending` | internal/web/static/app.js:331-335 | once a render has shown an operation pending, none is sent until the pending state clears, whatever happens meanwhile |
| `WanButtons.LockedExactlyWhen` | internal/web/static/app.js:356-361 | in every reachable state with an operation pending, its button is locked if and only if a render has come since the click |
| `WanButtons.ClicksSendAgain` | internal/web/static/app.js:356-364 | any number of further clicks sends the operation that often again without such a render, and never with one |
| `WanButtons.SameOperationTwice` | internal/web/static/app.js:356-361 | the shortest run in which the same operation is sent twice |

## Left out

- Process start-up, TLS, signals, request logging, static files, configuration and build information: plumbing.
- The socket transport and JSON encoding of the helper, and JSON decoding of requests and of `ip -j` output: the model starts from decoded values.
- Running commands, reading files, contexts and time-outs: each refresh takes their results as parameters.
- SHA-256: any function with digests of one length stands for it. Decoding of the Basic header is Go library code.
- Unicode white space and case folding, and lines beyond the scanner's limits: text is ASCII and lines are read whole.
- Floating-point rounding, infinities and not-a-number: reals are used, and parsing a number is a parameter.
- WanLink.ParseIwLink: a frequency outside the range of an integer is truncated exactly, where the conversion in Go is up to the platform.
- HotspotJoin.SortByMac: the sorting algorithm of the library is not modelled, only what it promises; it is written with a sort on values.
- Netstats.Collector.Tick: duplicate interface names read the operstate once per tick in the model.
- SystemInfo.Collector.Tick: the composite error is the list of failed parts, not its text.
- Handlers.WifiNetworks: response bodies are not modelled, only statuses and operations.
- Escape.DecodeUndoesEscape: the decoder knows the four references the program writes, not the whole table of the HTML standard; U+0000 in text outside attributes is not modelled.
- The restart button of the Wi-Fi page, the dashboard's formatting and colours, and the copying of snapshots into JSON structures: they would add only easy members.
