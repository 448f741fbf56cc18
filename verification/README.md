# Traefik mesh companion: a verified model

The companion watches Docker containers behind Traefik and keeps five remote stores in line with their labels: DNS zones
at Cloudflare or NetBird, endpoints at a Gatus bridge, and monitors, tags and status pages in Uptime Kuma. Each
reconciler holds local caches that have to agree with its store. This project models those reconcilers in Dafny and
proves what they keep over whole runs, under call failures, for every map iteration order and every interleaving of
goroutines. Where the code does not do what it is meant to do, a lemma gives the input and another one the exact
condition under which it does.

`dafny verify dfyconfig.toml` checks everything.

## Layout

| files | what they model |
|---|---|
| `Text` | the operations of Go's `strings` package that are used, over ASCII |
| `RuleParser`, `RulePrinter` | the router-rule scanner, its regular-expression meaning, and the printer of rule trees that it inverts |
| `MeshHosts` | labels to routers to active and ignored hosts, for both DNS clients |
| `DnsZones`, `DnsRecords`, `DnsClient`, `DnsRuns` | zone bucketing; one zone's sync; the client and the provider as objects; whole runs |
| `PageLayout`, `PageLabels`, `PageStore`, `PageViews`, `StatusPages` | one attach request on a list of groups; the pages a container asks for; pages with their cache as values; what a page and its cache stand for through every failure, monitors in order of arrival; the manager as an object that shares backing arrays between page and cache |
| `Coordinator`, `CoordinatorRuns` | the bounded attach queue and its drain loop; every interleaving around it |
| `KumaMonitors`, `KumaRuns`, `KumaClient` | monitor deduplication; the connection state machine with restarts; the client as an object |
| `TagDefs`, `AutoColor`, `Tags`, `TagManager` | the tags label; the colour hash; the tag caches as values and as an object |
| `GatusQuery`, `Gatus`, `GatusClient` | what a bridge reads from a delete's query; the tracked set and the bridge as values and as an object |

Code that changes things step by step is modelled by classes and loops, and each method's contract equates the new state
with a function of the old one; the theorems are about those functions and about runs made of them. A class for a remote
store (`KumaServer`, `DnsServer`, `TagServer`, `Server`) stands for the API: a call succeeds, or fails and changes
nothing, by an arbitrary choice; where a contract says which calls are sent, the class logs them, failed ones included.

## What is assumed

- Text is ASCII. Case folding of group names is an arbitrary function `fold`; two names are the same group when they
  fold alike.
- Nobody else writes to the stores, and a fetch returns what was stored.
- Zone names are not dotted suffixes of one another and zone ids are distinct where that is required (`NotNested`,
  `DistinctIds`); `DnsZones.AlwaysBucketedIff` says what is lost otherwise. Record ids are unique, records lie in
  their zone, and the provider lists a new record last.
- What labels ask for is stated for labels without the two keys whose prefix and suffix overlap (`MeshHosts.PlainLabels`)
  and a filter label with at most one star; `MeshHosts.TableRows` and `CaptureFills` cover the others.
- Whether the Cloudflare target is an IP address (`net.ParseIP`) is an input.
- `DnsClient.Client` is both DNS clients: they differ in the extractor, in whether an update compares the record type
  and in the type they write, and these three are its parameters. `Init` has succeeded and filled the zone map.
- Status pages are those of the server node. Any call for a page may fail (`PageStore.Fate`). That the last
  writer wins is stated for the pages on which no save of an attach fails; what such a failure does to a page is in `PageViews`.
- One manager writes to the pages. After a reconnect the coordinator of the old connection, its drain loop and its HTTP
  handler may still run, with the old manager; `PageStore.OtherManagerCoherence` says when a write by one of two
  managers breaks the cache of the other.
- The Gatus bridge reads a query as section 5.1 of the WHATWG URL Standard says, with ASCII names and groups free of
  control characters. A blank in them goes out unescaped too; a bridge that refuses such a request is one whose call
  failed.
- The Uptime Kuma client has one caller: `SyncState` returns before the first `Process`.
- Resolved URLs and names of monitors and endpoints are inputs. A monitor that is not an HTTP monitor counts as one
  without a URL.
- A duplicate error from Uptime Kuma, and the tags it lists for a monitor, are true where `Honest` is required.
- Dry run is off.

## Where code and documentation differ

The model follows the code.

- `internal/traefik/parser.go` says its matchers safely extract anything inside the parentheses. They also match inside
  another matcher's argument: ``Host(`path(x`)`` yields the path `x` (`RulePrinter.LeakExample`), and
  `RulePrinter.ParseInvertsPrint` gives the exact condition for a rule to be recovered.
- `ensureDomainMapping` looks for the domain as given and appends it without its scheme, so a domain given with a
  scheme is appended and saved again by every bind (`PageStore.BindTwice`, `PageStore.BindGrows`).
- A save that fails can leave the cache ahead of the page. The same request, repeated next, has something to save if and
  only if the page was not cached or lacked the group (`PageStore.FailedSaveIsForgotten`). The failed edit is published
  by the next save of anything else on that page, and if the page was cached and lacked the group, that save takes the
  monitor off the page (`PageViews.FailedThenSaved`, `PageViews.MonitorLostIff`).
- NetBird updates a record by content alone but cleans up by content and type, so its reconciliation is not exact
  (`DnsRuns.NetBirdLeavesOtherTypes`, `DnsRuns.ExactReconciliation`).
- The DNS clients mean to forget the extracted hosts when `Sync` reports an error, but it never reports one, so a DNS
  write that failed is not sent again until the hosts change (`DnsRuns.FailedWritesStay`, `DnsRuns.NeverSettled`).
- Labels of different routers can collide when the filter label has several stars or a key's prefix and suffix overlap;
  then map order decides (`MeshHosts.OrderIrrelevantIffConsistent`, `MeshHosts.OrderDecides`).
- The monitor key is URL and name joined without a separator, so two monitors can share one and the second is never
  created (`KumaMonitors.KeysCollide`, `KumaMonitors.CollisionExample`); `KumaMonitors.FaultFreeOwns` says which routers
  get the monitor they want. With `allow_duplicates` each cycle creates another
  monitor (`KumaMonitors.DuplicatesAreCreatedAgain`).
- A Gatus group with a slash in its name is split in the wrong place, and a group or name with an ampersand, a number
  sign, a plus or an escape is misread by the bridge, because the delete's query is built unescaped. Such orphans are
  forgotten but not deleted (`Gatus.UnclearLeaks`), and a misread delete can remove an active endpoint
  (`Gatus.MisreadExample`). `Gatus.StaysInSyncIff` and `Gatus.FaultFreeConverges` give the exact condition.
- `getAutoColor` is meant to give every tag a colour; a tag whose hash is the smallest 64-bit integer makes it panic
  (`AutoColor.ColorExists`, `AutoColor.ColorlessTag`).

## Model

| member | source | states |
|---|---|---|
| RuleParser.ScanIsTheEngine | internal/traefik/parser.go:9-13 | a list of spans is what a leftmost, non-overlapping, lazy, case-insensitive engine reports if and only if the scanner goes through it |
| RuleParser.ScanIsLeftmostLazy | internal/traefik/parser.go:36 | from any position the scanner's spans satisfy the reference meaning of the regular expression |
| RuleParser.LeftmostLazyUnique | internal/traefik/parser.go:36 | the reference meaning admits one list of matches only |
| RuleParser.ScanCaptures | internal/traefik/parser.go:38-41 | the captured texts are those of the scanner's spans, in order |
| RuleParser.MatchAt | internal/traefik/parser.go:10-12 | from a given start the match taken is the shortest possible, and none is taken only when none exists |
| RuleParser.FindAllSubmatch | internal/traefik/parser.go:36 | the loop over the rule captures what the scanner's definition says, for any rule |
| RuleParser.FindClosing | internal/traefik/parser.go:10-12 | the end of a capture is the first closing parenthesis, unless a newline comes first |
| RuleParser.ExtractValues | internal/traefik/parser.go:34-53 | the nested loops gather, in order, every non-empty part of every capture, trimmed of blanks and then of quotes |
| RuleParser.ParseRule | internal/traefik/parser.go:18-31 | hosts are the Host values; paths are the PathPrefix values followed by the Path values; an empty rule has neither |
| RulePrinter.FindAllConcat | internal/traefik/parser.go:36 | scanning distributes over concatenation when whatever could begin a match in the left text also ends there |
| RulePrinter.ValuesConcat | internal/traefik/parser.go:34-53 | so does value extraction |
| RulePrinter.PrintedMatcher | internal/traefik/parser.go:34-53 | a printed matcher with clean arguments yields exactly its argument values, whatever quotes, blanks and letter case it was printed with, and no match can straddle its end |
| RulePrinter.ArgsScanned | internal/traefik/parser.go:34-53 | the scanner of a kind finds a value in a printed argument list if and only if some argument spells its name and parenthesis and more than blanks follow there, or another argument does |
| RulePrinter.MatcherLeaks | internal/traefik/parser.go:34-53 | so whether a printed matcher yields a value to another kind's scanner is decided by its arguments' text alone |
| RulePrinter.PrintedRule | internal/traefik/parser.go:34-53 | for a whole rule tree one scanner finds exactly the arguments of its kind, or strictly more when another matcher leaks into it |
| RulePrinter.ParseInvertsPrint | internal/traefik/parser.go:18-53 | parsing inverts printing of every clean Boolean rule tree if and only if no matcher's arguments spell the name of another kind of matcher with its parenthesis and more than blanks behind it |
| RulePrinter.PlainArgsNeverLeak | internal/traefik/parser.go:10-12 | no matcher leaks when no argument holds an opening parenthesis |
| RulePrinter.ParsePlainRule | internal/traefik/parser.go:18-53 | every clean rule tree whose arguments hold no opening parenthesis is recovered in full: Host arguments left to right, then PathPrefix and Path arguments |
| RulePrinter.OneHost | internal/traefik/parser.go:10 | the text Host(`h`) yields the host h, for any h without quotes at its ends, commas, closing parentheses or newlines |
| RulePrinter.OnePath | internal/traefik/parser.go:11-12 | the texts PathPrefix(`p`) and Path(`p`) yield the path p and no host, where moreover p has no opening parenthesis |
| RulePrinter.LeakExample | internal/traefik/parser.go:12 | a clean rule with one Host matcher and no path matcher that yields a path |
| MeshHosts.MatchFilter | internal/dns/cloudflare/client.go:274-282 | true if and only if some non-blank comma-separated part of the filter occurs in the label's value |
| Text.ContainsMeans | internal/dns/cloudflare/client.go:277 | containing a text means having it with some text before and some after it |
| Text.LowerMeans | internal/dns/cloudflare/client.go:234 | lowering turns each capital into its small letter and leaves every other character alone |
| Text.SpacesAre | internal/traefik/parser.go:44-45 | the blanks trimmed are space and tab to carriage return, the quotes trimmed are backquote, apostrophe and quotation mark |
| MeshHosts.TableRows | internal/dns/cloudflare/client.go:227-241 | after the labels have been visited in any order, a router exists when some label names it, and each field says what the last label for it said |
| MeshHosts.OrderIrrelevantIffConsistent | internal/dns/cloudflare/client.go:227-241 | the routers are the same for every map order if and only if no two labels give the same field of the same router different values |
| MeshHosts.RuleKey | internal/dns/cloudflare/client.go:228-231 | a rule label other than the overlapping one is determined by the router it names |
| MeshHosts.ManagedKey | internal/dns/cloudflare/client.go:232-235 | likewise for the managed label |
| MeshHosts.OneStarKey | internal/dns/cloudflare/client.go:50-54 | with one star, the filter label's text around the captured name makes up the whole key |
| MeshHosts.CaptureIff | internal/dns/cloudflare/client.go:50-54 | a filter label left*right captures a name from a key if and only if the key is left, name, right, and the name is not empty and has no dot |
| MeshHosts.CaptureFills | internal/dns/cloudflare/client.go:50-54 | with any number of stars, what a filter label captures is the first star's text in some way of filling its stars, with non-empty texts without dots, that gives the whole key |
| MeshHosts.CaptureIsGreedy | internal/dns/cloudflare/client.go:50-54 | and no such way gives the first star a longer text; if there is one at all, something is captured |
| MeshHosts.PlainLabelsConsistent | internal/dns/cloudflare/client.go:227-241 | with at most one star in the filter label and neither overlapping key the routers do not depend on map order |
| MeshHosts.VisitLabel | internal/dns/cloudflare/client.go:227-241 | one label sets up to three fields, of up to three routers, creating them as needed; which ones is what `CaptureIff` and `RouterRead` say |
| MeshHosts.ReadRouters | internal/dns/cloudflare/client.go:218-241 | the label loop visits every label once, in some order, and yields the table for that order |
| MeshHosts.RouterRead | internal/dns/cloudflare/client.go:227-241 | for plain labels and a filter label of one star: a router has a rule exactly if its rule label is there and not empty, and its rule, its managed flag in small letters (true if unset) and its filter value are those of its three labels |
| MeshHosts.CollectRouter | internal/dns/cloudflare/client.go:243-269 | a router's hosts: none without a rule or when the filter rejects it, the container's own when the rule names none |
| MeshHosts.CollectHosts | internal/dns/cloudflare/client.go:243-269 | the router loop sorts hosts into active and ignored independently of the order in which routers come up |
| MeshHosts.ExtractMeshHosts | internal/dns/cloudflare/client.go:208-272 | the two host sets are those gathered service by service for some order of each label map; for consistent labels they are fixed by the services alone |
| MeshHosts.HostsAsked | internal/dns/cloudflare/client.go:243-269 | a container's active (ignored) hosts are exactly those that some router asks for by its labels: rule not empty, managed not false (false), filter label with a wanted text in it, and the host in the rule or, where the rule names none, the container's own |
| MeshHosts.GatherAsked | internal/dns/cloudflare/client.go:208-272 | so for any list of containers and any map orders, for both clients |
| MeshHosts.StarlessFilter | internal/dns/cloudflare/client.go:50-54 | a filter label without a star lets no router through once a filter value is set |
| MeshHosts.ExtractPlainService | internal/dns/netbird/client.go:113-156 | NetBird's loops over one container give its hosts, for some order of its label map |
| MeshHosts.ExtractPlainHosts | internal/dns/netbird/client.go:109-158 | the same for NetBird's extraction; for consistent labels its sets are Cloudflare's without a filter |
| MeshHosts.ExtractionIsOrderFree | internal/dns/cloudflare/client.go:208-272 | for consistent labels the host sets are the same whatever order labels, routers and hosts come up in |
| MeshHosts.OrderDecides | internal/dns/cloudflare/client.go:227-271 | a container with two labels for which two map orders give different active hosts |
| MeshHosts.ExtractionDistributes | internal/dns/cloudflare/client.go:208-272 | both host sets distribute over concatenation of service lists |
| MeshHosts.TablesAgree | internal/dns/netbird/client.go:127-136 | NetBird's routers agree with Cloudflare's in rule and managed flag; Cloudflare's others are blank but for a filter value |
| MeshHosts.GatherRefines | internal/dns/netbird/client.go:109-158 | for the same map orders Cloudflare's sets are within NetBird's, and equal to them without a filter, for any labels |
| MeshHosts.FilterRefines | internal/dns/cloudflare/client.go:248-253 | for any two map orders and consistent labels Cloudflare's sets are subsets of NetBird's, and equal to them without a filter |
| DnsZones.BucketHosts | internal/dns/cloudflare/client.go:119-137 | every host that lies in some zone is put under one zone it lies in, no other host is, and no bucket is empty; with zones that are not nested each zone gets exactly its hosts |
| DnsZones.PickZone | internal/dns/cloudflare/client.go:122-132 | finds a zone the host lies in, if there is one |
| DnsZones.AtMostOneZone | internal/dns/cloudflare/client.go:123 | with zones that are not nested a host lies in at most one |
| DnsZones.InZoneMeans | internal/dns/cloudflare/client.go:123 | a host lies in a zone if and only if it is the zone's name, or ends in a dot and the zone's name |
| DnsZones.BucketedByName | internal/dns/cloudflare/client.go:119-137 | with zones that are not nested, exactly those hosts are put under a zone |
| DnsZones.BucketsAreForced | internal/dns/cloudflare/client.go:119-140 | so every run of the bucketing gives each zone exactly the hosts that lie in it |
| DnsZones.AlwaysBucketedIff | internal/dns/cloudflare/client.go:119-137 | a host is put under a given zone for every map order if and only if all zones it lies in have that zone's id |
| DnsRecords.SyncSettles | internal/dns/cloudflare/client.go:161-200 | after a zone sync without failures every active host has a record, its first record has the target's content and, where types are compared, its type, and with cleanup no record has the target's content and type under a name neither active nor ignored |
| DnsRecords.SettledIsFixed | internal/dns/cloudflare/client.go:161-200 | in a settled zone a sync has one possible outcome, the zone unchanged, even if calls would fail |
| DnsRecords.SyncKeepsIdsUnique | internal/dns/cloudflare/client.go:161-200 | record ids stay unique, and new names are active hosts |
| DnsRecords.OwnersAfter | internal/dns/cloudflare/client.go:161-200 | exactly which names own a record with the target's content and type after a zone sync without failures |
| DnsRecords.TargetLock | internal/dns/cloudflare/client.go:190-200 | whatever fails, a record that vanished was stale, and every other record of a name that is not active is unchanged |
| DnsRecords.OnlyFirstChanges | internal/dns/cloudflare/client.go:164-176 | whatever fails, of an active name only the first record may change, and only if its content, or type where types are compared, is not the target's; it keeps id and name and gets the target's content and type |
| DnsRecords.NewRecords | internal/dns/cloudflare/client.go:179-187 | whatever fails, a new record has the target's content and type and is the only one of an active name that had none |
| DnsClient.Client.UpdateFirst | internal/dns/cloudflare/client.go:164-176 | of a host the first record alone is updated, and one update call for it is sent exactly when its content, or its type where types are compared, is not the target's |
| DnsClient.Client.CreateMissing | internal/dns/cloudflare/client.go:179-187 | for a host without a record one create call is sent, and it gets a record unless the call fails |
| DnsClient.Client.SyncHost | internal/dns/cloudflare/client.go:161-188 | the one call that a host needs is sent, if it needs one: a create without a record, an update where the first record has other content than the target, or another type where types are compared |
| DnsClient.Client.SyncHosts | internal/dns/netbird/client.go:223-237 | after the loop over active hosts, in any order, the zone is the snapshot with first records corrected and missing ones appended, as far as calls succeeded; whichever fail, every call that a host needs has been sent, and no other |
| DnsClient.Client.CleanupZone | internal/dns/cloudflare/client.go:190-200 | the records deleted are among the stale ones of the snapshot, all of them when no call fails; whichever fail, a delete is sent for every stale record, and for no other |
| DnsClient.Client.FinishZone | internal/dns/netbird/client.go:239-250 | with the cleanup, a zone ends in an outcome of the zone sync, and the deletes sent are those due |
| DnsClient.Client.SyncZone | internal/dns/cloudflare/client.go:152-203 | a zone sync has an outcome of the specification and leaves other zones alone; it lists the zone once, and sends exactly the writes that are due, whichever of them fail, or none if the zone cannot be listed; so none at all where the zone was settled |
| DnsClient.Client.PlanZones | internal/dns/cloudflare/client.go:109-140 | the zones to visit are those with a host and, when cleaning up, all |
| DnsClient.Client.Sync | internal/dns/cloudflare/client.go:103-150 | every zone with hosts, or every zone when cleaning up, is listed and synced in some order, whatever fails in another; each gets exactly the writes due to it, or none if it could not be listed; the others are untouched, and nothing is sent when all were settled |
| DnsClient.Client.Process | internal/dns/cloudflare/client.go:82-101 | the hosts of the services are extracted, and synced, zone by zone, unless both sets are those remembered; both are remembered afterwards |
| DnsRuns.SyncIsOrderFree | internal/dns/cloudflare/client.go:103-150 | with zones that are not nested, what a sync may do for one bucketing is exactly what an order-free step may do |
| DnsRuns.StepSettles | internal/dns/cloudflare/client.go:103-150 | a sync without failures leaves its input settled |
| DnsRuns.EveryHostServed | internal/dns/cloudflare/client.go:103-203 | after a fault-free sync of all zones every active host has a record in its zone whose first record has the target's content, and type where types are compared; with cleanup no other name but an ignored one has a record with that content and type |
| DnsRuns.CloudflareServes | internal/dns/cloudflare/client.go:164-187 | for Cloudflare that first record is an A record where the target is an address and a CNAME otherwise |
| DnsRuns.NetBirdServes | internal/dns/netbird/client.go:223-237 | for NetBird, whatever fails, new records are A records with the target as content, of active hosts |
| DnsRuns.SettledStep | internal/dns/cloudflare/client.go:103-150 | a sync for a settled input may do one thing only: nothing |
| DnsRuns.MemoIsSimple | internal/dns/cloudflare/client.go:82-101 | for every sequence of inputs without failures, the histories of remote records with skipping are exactly those without |
| DnsRuns.SyncTwice | internal/dns/netbird/client.go:160-201 | a second sync right after a fault-free one for the same input leaves every zone as it is, and that is all it can do |
| DnsRuns.SyncAndSettle | internal/dns/cloudflare/client.go:103-150 | the client's own sync on a reliable provider is the order-free step and settles its input |
| DnsRuns.Resync | internal/dns/cloudflare/client.go:161-200 | for a settled input the client sends no create, update or delete, even where several records share a name |
| DnsRuns.StepKeepsGood | internal/dns/cloudflare/client.go:103-203 | unique ids and names inside their zone survive every sync, whatever fails |
| DnsRuns.StepLock | internal/dns/cloudflare/client.go:190-200 | in one sync of all zones a record vanishes only if cleanup is on, its name is in neither host set and its content and type are the target's |
| DnsRuns.TargetLockOverRuns | internal/dns/cloudflare/client.go:190-200 | the same in every cycle of every run, with any calls failing |
| DnsRuns.ExactReconciliation | internal/dns/netbird/client.go:160-250 | after a fault-free sync with cleanup the owners are the active hosts with a zone and the ignored former owners, if and only if types are compared or every active host whose first record has the target's content had a record with its content and type |
| DnsRuns.CloudflareIsExact | internal/dns/cloudflare/client.go:103-203 | for Cloudflare, which compares types, that always holds, whether the target is an address or a name |
| DnsRuns.NetBirdLeavesOtherTypes | internal/dns/netbird/client.go:225-233 | for NetBird it can fail: a record of another type with the target's content counts as settled |
| DnsRuns.RunCycle | internal/dns/cloudflare/client.go:82-101 | one `Process` on a reliable provider, whatever the labels say, is one cycle of the memoised run for the input it extracted |
| DnsRuns.RunCycles | internal/dns/cloudflare/client.go:82-101 | a fresh client over any sequence of service lists leaves after each cycle what syncing in every cycle would, for the inputs extracted |
| DnsRuns.ConsistentInput | internal/dns/cloudflare/client.go:208-272 | for consistent labels the input a cycle extracts is fixed by the services alone |
| DnsRuns.InputAsked | internal/dns/cloudflare/client.go:208-272 | for plain labels and a filter label of one star, or none, the active and ignored hosts of a cycle of either client are exactly those that the containers' labels ask for |
| DnsRuns.RunFaultyCycle | internal/dns/cloudflare/client.go:82-101 | one `Process`, with any calls failing and whatever the labels say, leaves the records alone if it extracted the hosts it remembers, and else is one faulty step for them; it remembers them either way |
| DnsRuns.RunFaultyCycles | internal/dns/cloudflare/client.go:82-101 | so a client with any calls failing goes through a run to which the target lock applies, and a fresh one through a run in which failed writes stay failed |
| DnsRuns.FailedWritesStay | internal/dns/cloudflare/client.go:82-101 | in a run with any calls failing, records that a cycle left unsettled stay as they are for as long as the extracted hosts stay the same, whatever would succeed |
| DnsRuns.NeverSettled | internal/dns/cloudflare/client.go:92-98 | and a cycle may leave any records as they were, so there are runs of every length that never settle them |
| PageLayout.AttachIsAttached | internal/monitor/kuma/status_page.go:130-171 | position by position what an attach does to a list of groups; `AttachGroups` and `AttachCuts` say what that comes to |
| PageLayout.AttachGroups | internal/monitor/kuma/status_page.go:130-171 | on any page: the last group of that name gets the monitor at the end of its list unless it lists it; a missing group is created at the end with just this monitor; any other group of that name, or that does not list the monitor, is left alone |
| PageLayout.AttachCuts | internal/monitor/kuma/status_page.go:139-146 | a group of another name loses the monitor's first occurrence and nothing else |
| PageLayout.AttachKeepsOthers | internal/monitor/kuma/status_page.go:130-171 | on any page, well-formed or not, groups keep place, name and weight and every other monitor its group and relative order; a group is added only at the end and only when missing |
| PageLayout.AttachMoves | internal/monitor/kuma/status_page.go:122-181 | on a page with distinct group names and no monitor twice an attach keeps both facts, and every group goes on listing its monitors in the order in which they came: the monitor stays where it is if it is in the group, and comes last otherwise |
| PageLayout.ChangesIffDifferent | internal/monitor/kuma/status_page.go:127-173 | `changed` is set exactly when the layout differs afterwards |
| PageLayout.AttachTwice | internal/monitor/kuma/status_page.go:122-181 | repeating an attach has nothing to save |
| PageLabels.GetPagesFromLabels | internal/monitor/kuma/status_page.go:183-219 | the loop computes the map from page to group: the global page first, later entries over earlier ones |
| PageLabels.ReadEntry | internal/monitor/kuma/status_page.go:200-215 | one written entry, with any blanks, is read back as its slug and its group or the default |
| PageLabels.PagesLabelRoundTrip | internal/monitor/kuma/status_page.go:183-219 | entries written into the pages label are read back, each slug with the group of its last entry |
| PageLabels.DefaultGroupMeans | internal/monitor/kuma/status_page.go:186-190 | the group of a page that names none is Services without a group label or with an empty one, and else the label without the blanks around it |
| PageLabels.PageAsked | internal/monitor/kuma/status_page.go:197-217 | a written label asks for the page of each of its entries, an empty slug or group after a colon included, and the slug's last entry decides the group |
| PageLabels.PageNotNamed | internal/monitor/kuma/status_page.go:192-195 | a page without an entry is asked for if and only if it is the global one and not empty or none, in the default group |
| PageLabels.BlankPart | internal/monitor/kuma/status_page.go:200-202 | a blank part of the label asks for nothing |
| PageStore.LastRequestWins | internal/monitor/kuma/status_page.go:122-181 | last writer wins means: a monitor is in the group that the last request for it on that page named, or where it was before, and in no other |
| PageStore.StepRefines | internal/monitor/kuma/status_page.go:122-181 | on a page that agrees with its cache an attach that goes through moves that one monitor, to the end of its new group's list, or nothing if it is there; a bind, an attach to a page out of reach, or anything on another page is none |
| PageStore.StepKeepsCoherence | internal/monitor/kuma/status_page.go:84-181 | a page and its cached groups go on agreeing through every step, unless the save of an attach to this page fails |
| PageStore.RunRefinesLastWrites | internal/monitor/kuma/status_page.go:122-181 | over any run in which no save of an attach to this page fails, whatever fails on other pages and in binds, the page agrees with its cache, and its groups list the monitors that last writer wins puts there, in order of arrival |
| PageStore.ArrivalsInOrder | internal/monitor/kuma/status_page.go:160-171 | the list that last writer wins gives is in order of arrival: by the request that brought each monitor to the group it is in, with those no request moved first, as they were |
| PageStore.ListedByArrival | internal/monitor/kuma/status_page.go:160-171 | so over such a run each group of the page lists its monitors in the order in which requests brought them |
| PageStore.AttachedPage | internal/monitor/kuma/status_page.go:122-181 | what an attach leaves stored and cached where page and cache agree: the monitor at the end of its group, the same domains, every other page as it was, and the groups in the cache if they changed |
| PageStore.EnsureThenAttach | internal/monitor/kuma/status_page.go:71-82 | creating the missing page first makes no difference to the attach, whether or not its save fails |
| PageStore.BindKeepsGroups | internal/monitor/kuma/status_page.go:97-109 | binding changes no cached page and no page's groups, and creates at most that page |
| PageStore.CleanHostMeans | internal/monitor/kuma/status_page.go:86 | a domain keeps its bare form, and http:// or https:// in front of it is cut off; of both, https:// is cut first and then http://, never the other way |
| PageStore.BindLists | internal/monitor/kuma/status_page.go:84-110 | a bind lists the bare domain at the end of the page's domains unless the page lists the very spelling given, and changes no other page and no cache |
| PageStore.SyncBinds | internal/monitor/kuma/status_page.go:58-64 | a sync that reaches the global page binds the configured domain to it in that way |
| PageStore.SyncIsCoherent | internal/monitor/kuma/status_page.go:44-69 | after the initial sync the cache is coherent if and only if every cached page exists and was fetched or already agreed |
| PageStore.BindTwice | internal/monitor/kuma/status_page.go:84-98 | a second bind of a domain saves again if and only if it has a scheme and was not listed in that spelling |
| PageStore.BindGrows | internal/monitor/kuma/status_page.go:84-99 | such a domain is listed once more after every bind |
| PageStore.FailedSaveCoherence | internal/monitor/kuma/status_page.go:122-178 | after a failed save the cache still agrees if and only if no group shared with it was edited |
| PageStore.FailedSaveIsForgotten | internal/monitor/kuma/status_page.go:122-178 | a request whose save failed finds something to save when it is repeated next if and only if the page was not cached or lacked the group |
| PageStore.NextBindPublishes | internal/monitor/kuma/status_page.go:97-106 | the next bind that is saved publishes what a failed attach left in the cache: the edit or, where the group was missing, the page without the monitor |
| PageViews.AttachShows | internal/monitor/kuma/status_page.go:122-181 | on a well-formed page an attach is one write to the view, and there is something to save exactly when the monitor is not in that group |
| PageViews.AheadShows | internal/monitor/kuma/status_page.go:122-178 | a failed save leaves the cached view with the write if the group was there, and without the monitor if it was not |
| PageViews.StepDepicts | internal/monitor/kuma/status_page.go:84-181 | every step, whatever fails, does to a page and its cache entry what the step on its two views does, the one shown and the one stored, each the monitors in their groups in order of arrival |
| PageViews.RunDepicts | internal/monitor/kuma/status_page.go:84-181 | so does every run, with any calls failing |
| PageViews.RunKeepsWell | internal/monitor/kuma/status_page.go:122-181 | whatever fails, group names stay distinct up to case and no monitor is twice on a page, stored or cached |
| PageViews.FailedThenSaved | internal/monitor/kuma/status_page.go:122-178 | after a failed save the next save of something else moves the monitor if the page was cached and had the group, removes it if it was cached and lacked the group, and leaves it alone if it was not cached |
| PageViews.MonitorLostIff | internal/monitor/kuma/status_page.go:130-147 | a monitor on the page is lost that way if and only if the page was cached and lacked the group |
| PageStore.OtherManagerCoherence | internal/monitor/kuma/coordinator.go:25-49 | a write by one of two managers leaves the other's cache in agreement if and only if nothing was saved or the other has not cached that page |
| PageStore.AnyPageOrder | internal/monitor/kuma/status_page.go:33-40 | attaching a payload to its pages in any order, whatever fails, has the page-by-page result |
| PageStore.OrderedRun | internal/monitor/kuma/status_page.go:33-40 | the page-by-page result is the one result of the run in any given order |
| PageStore.PageOrderIrrelevant | internal/monitor/kuma/status_page.go:33-40 | any two orders of a payload's pages give the same store, whatever fails |
| StatusPages.PruneMonitors | internal/monitor/kuma/status_page.go:140-146 | the loop cuts out exactly the first occurrence of the monitor |
| StatusPages.Append | internal/monitor/kuma/status_page.go:151-154 | appending a group leaves what the shorter slice shows unchanged, in place or not |
| StatusPages.PruneOthers | internal/monitor/kuma/status_page.go:127-147 | in place, every group but those answering to the name loses the monitor; the target is the last that answers |
| StatusPages.AddIfAbsent | internal/monitor/kuma/status_page.go:160-171 | the monitor is appended at the end of the target group's list unless it is in it, and that is reported |
| StatusPages.EditGroups | internal/monitor/kuma/status_page.go:127-171 | the whole edit: what the page's list shows afterwards, and what the cache sharing its array shows |
| StatusPages.StatusPageManager.EnsurePage | internal/monitor/kuma/status_page.go:71-82 | a missing page is created blank, also when it then cannot be fetched; the page handed out says what is stored and shares nothing with the cache |
| StatusPages.StatusPageManager.EditPage | internal/monitor/kuma/status_page.go:122-171 | the edit starts from the cached groups when there are any, and shows in the cache before anything is saved |
| StatusPages.StatusPageManager.SaveEdited | internal/monitor/kuma/status_page.go:173-180 | a save that succeeds stores page and reply; one that fails changes neither |
| StatusPages.StatusPageManager.AttachToGroup | internal/monitor/kuma/status_page.go:122-181 | one attach, with its save succeeding or failing, is the corresponding step on pages and cache; a save is sent exactly when something changes |
| StatusPages.StatusPageManager.EnsureDomainMapping | internal/monitor/kuma/status_page.go:84-110 | one bind on a fetched page is the corresponding step; a save is sent exactly when that spelling is not listed |
| StatusPages.StatusPageManager.HydratePage | internal/monitor/kuma/status_page.go:52-65 | one fetched page enters the cache, and the global domain is enforced on the global page unless that save fails |
| StatusPages.StatusPageManager.SyncState | internal/monitor/kuma/status_page.go:44-69 | the loop over pages in any listing order, some out of reach, with the domain's save failing or not, has the result of the order-free sync; without a listing nothing changes |
| StatusPages.StatusPageManager.BindDomain | internal/monitor/kuma/status_page.go:113-120 | a bind, however its calls turn out, is the corresponding step and never touches the cache |
| StatusPages.StatusPageManager.AttachToPage | internal/monitor/kuma/status_page.go:33-40 | one attach, however its calls turn out, is the corresponding step on pages and cache |
| StatusPages.StatusPageManager.ProcessStatusPages | internal/monitor/kuma/status_page.go:27-41 | a payload is attached to every page it names as far as calls succeed, in any order, and to no other; a hidden one to none |
| StatusPages.RequestedPages | internal/monitor/kuma/status_page.go:27-33 | a container with hide_status true in any case asks for no page, and one without a pages label for the global page alone, if there is one |
| StatusPages.AttachOutcome | internal/monitor/kuma/status_page.go:122-181 | how edit, save and cache update add up to the step on pages and cache |
| Coordinator.Coordinator.RequestAttach | internal/monitor/kuma/coordinator.go:77-82 | a request is accepted at the end of the queue exactly when it holds fewer than a hundred |
| Coordinator.Coordinator.ProcessNext | internal/monitor/kuma/coordinator.go:43-45 | one round takes the oldest request and attaches it to its pages as far as calls succeed |
| Coordinator.Coordinator.ProcessQueue | internal/monitor/kuma/coordinator.go:42-49 | draining deals with the queued requests in order of arrival; whatever fails, every page and cache entry show what the requests do to their two views and stay well-formed, and each page on which no save failed lists, in order of arrival, what the requests that got through to it put there |
| Coordinator.AttachedStaysCoherent | internal/monitor/kuma/coordinator.go:42-49 | one payload keeps a page in agreement with its cache unless the save on that very page fails |
| Coordinator.AttachedRefines | internal/monitor/kuma/coordinator.go:42-49 | and moves that one monitor on each page it gets through to, whatever fails on the others |
| Coordinator.DrainRefines | internal/monitor/kuma/coordinator.go:42-49 | a drain without failing saves on a page, whatever fails on others, refines last writer wins over the requests that got through to that page |
| Coordinator.AttachedDepicts | internal/monitor/kuma/coordinator.go:42-49 | one payload does to each page's two views what its attach does, whatever fails |
| Coordinator.DrainDepicts | internal/monitor/kuma/coordinator.go:42-49 | so does a whole drain |
| Coordinator.DrainFacts | internal/monitor/kuma/coordinator.go:42-49 | after a drain all pages are still well-formed, show what the requests do to their two views and, saves on them permitting, list what the requests put there |
| CoordinatorRuns.StepKeepsInv | internal/monitor/kuma/coordinator.go:42-67 | no step of producers, drain loop or binds breaks the invariant tying queue, request in hand and store to history |
| CoordinatorRuns.QueueIsFair | internal/monitor/kuma/coordinator.go:42-67 | at every moment of every interleaving the accepted requests are those processed, then the one in hand, then the queue, in order, and the queue holds at most a hundred |
| CoordinatorRuns.HistoryGrows | internal/monitor/kuma/coordinator.go:42-49 | what was accepted or processed stays so in its place; so no request is processed twice |
| CoordinatorRuns.PagesFollowRequests | internal/monitor/kuma/coordinator.go:42-49 | at every moment of a run in which no save of an attach to this page fails, whatever else fails and with binds interleaved anywhere, the page agrees with its cache, and its groups list, in order of arrival, the monitors that the requests which got through to it put there, the last request for a monitor winning |
| CoordinatorRuns.GroupsListArrivals | internal/monitor/kuma/coordinator.go:42-49 | at every such moment each group of the page lists its monitors in the order of the attaches that brought them |
| CoordinatorRuns.PagesStayWell | internal/monitor/kuma/coordinator.go:42-49 | at every moment of every run, whatever fails, every page is well-formed and shows what the steps so far do to its two views |
| CoordinatorRuns.RoundIsRun | internal/monitor/kuma/coordinator.go:43-45 | one round of the coordinator object's drain loop is a run of these steps, whatever fails |
| CoordinatorRuns.DrainIsRun | internal/monitor/kuma/coordinator.go:42-49 | so is all that draining its queue does, and it processes the queued requests in order |
| KumaMonitors.LearnAllKnows | internal/monitor/kuma/client.go:118-131 | after a sync both maps know exactly what they knew and the keys Uptime Kuma has |
| KumaMonitors.LearnAllIds | internal/monitor/kuma/client.go:118-124 | each key is remembered, in both maps, with the id of the last monitor listed that has it |
| KumaMonitors.LearnAllKeepsSound | internal/monitor/kuma/client.go:118-131 | a sync keeps `tracked` a submap of `trackedURLs` and every remembered id that of a monitor with the same key |
| KumaMonitors.CycleMapIsRedundant | internal/monitor/kuma/client.go:202-207 | the lookup in the cycle's own map never finds what `trackedURLs` missed |
| KumaMonitors.VisitKeepsMaps | internal/monitor/kuma/client.go:195-237 | one router keeps the maps nested and every id remembered or handed on true, even with duplicates allowed |
| KumaMonitors.VisitHandsOn | internal/monitor/kuma/client.go:181-236 | one router, in terms of the two maps: without a URL it is passed over; with its key remembered in the map that counts for it, it is handed on with that id; otherwise a create call goes out and it is handed on with the id that comes back; 0 is never handed on |
| KumaMonitors.VisitCreatesOnce | internal/monitor/kuma/client.go:195-223 | a client that knows what Uptime Kuma has goes on knowing it, and repeats a key only where duplicates are allowed |
| KumaMonitors.SentIffMissing | internal/monitor/kuma/client.go:200-219 | without duplicates a create call is sent exactly when Uptime Kuma has no monitor with that key |
| KumaMonitors.DuplicatesAreCreatedAgain | internal/monitor/kuma/client.go:200-219 | with duplicates, n visits create n monitors unless the last sync saw the key |
| KumaMonitors.FaultFreeCovers | internal/monitor/kuma/client.go:165-239 | a cycle whose creations succeed leaves a monitor with the key of every router that wants one |
| KumaMonitors.FaultFreeHandsOn | internal/monitor/kuma/client.go:165-239 | a cycle whose create calls succeed, without ids of 0, hands each of its routers that has a URL on to tags and status pages, once and in order, with the id of a monitor that has its key |
| KumaMonitors.FaultFreeKeys | internal/monitor/kuma/client.go:165-239 | it leaves exactly the keys that were there and those of its routers, and a client that knows them |
| KumaMonitors.VisitOwns | internal/monitor/kuma/client.go:195-223 | a successful visit gives a monitor to the router visited, and to no other, exactly when the lookup finds none |
| KumaMonitors.FaultFreeOwns | internal/monitor/kuma/client.go:165-239 | after such a cycle the very monitor a router wants is there if and only if it was before, or some router wanting it has a key that no monitor and no earlier router has (or allows duplicates of a key the last sync did not see) |
| KumaMonitors.KnownIsQuiet | internal/monitor/kuma/client.go:165-239 | a cycle sends no create call when the last sync saw every wanted monitor, duplicates or not |
| KumaMonitors.RestartIsQuiet | internal/monitor/kuma/client.go:118-226 | after a cycle whose creations all succeeded, a restart and a sync, the same routers cause no create call, whatever the answers would be |
| KumaMonitors.KeysCollide | internal/monitor/kuma/client.go:198 | two monitors share a key if and only if the longer URL goes on into what the other has as name |
| KumaMonitors.CollisionExample | internal/monitor/kuma/client.go:198-226 | two different monitors, with names as the builder makes them, of which the first keeps the second from being created |
| KumaRuns.StepKeepsLinked | internal/monitor/kuma/client.go:52-98 | no step of caller, background or restart breaks the connection invariant, and none changes the client during a call |
| KumaRuns.StepKeepsRemembers | internal/monitor/kuma/client.go:110-239 | nor the invariant that a synced client knows every monitor |
| KumaRuns.ConnectionSafety | internal/monitor/kuma/client.go:52-98 | over all interleavings: at most one attempt, exactly while `connecting` holds; then no client; client and managers together; `synced` only for the present client; no caller past `ensureConnected` finds the client missing |
| KumaRuns.OneConnectionPerCall | internal/monitor/kuma/client.go:149-163 | a call works on one connection from beginning to end |
| KumaRuns.CyclesGoOn | internal/monitor/kuma/client.go:165-239 | a cycle goes on from router to router whatever comes of a create call, and ends only after its last router or with a restart |
| KumaRuns.SyncGetsThrough | internal/monitor/kuma/client.go:110-147 | a sync whose fetch succeeds and that is not stopped ends synced, with every monitor learned in order into both maps, and the cycle that it was for goes on to its routers |
| KumaRuns.CallsReconnect | internal/monitor/kuma/client.go:52-98 | a call that finds no client leaves one attempt under way, only an attempt that succeeds brings a client, and a fetch that fails drops client, managers and flag |
| KumaRuns.SyncsWhenDue | internal/monitor/kuma/client.go:154-163 | a cycle fetches the monitors only on a connection not yet synced, and otherwise goes straight to its routers |
| KumaRuns.MemoryLasts | internal/monitor/kuma/client.go:90-98 | the keys remembered outlive resets and reconnects; only a restart forgets them |
| KumaRuns.CreatesExactlyTheMissing | internal/monitor/kuma/client.go:165-226 | in every reachable state a create call is sent, and succeeds, exactly for a router whose key is missing, and only on a connection that has been synced |
| KumaRuns.HandsOnExactly | internal/monitor/kuma/client.go:181-236 | in every reachable state, with any calls failing, working on a router hands it on exactly if it has a URL and a monitor with an id other than 0 is remembered or created for it, and nothing else hands on anything |
| KumaRuns.NeverCreatedTwice | internal/monitor/kuma/client.go:165-226 | over a whole run with restarts and reconnects no key is created twice without `allow_duplicates`, and every id handed to tags and status pages is that of a monitor with the router's key |
| KumaRuns.CycleMapNeverHelps | internal/monitor/kuma/client.go:118-123 | in every reachable state `tracked` is a submap of `trackedURLs` and `cycleURLs` is redundant |
| KumaRuns.CycleIsVisitAll | internal/monitor/kuma/client.go:165-239 | the steps of a cycle add up to visiting its routers in order |
| KumaRuns.FaultFreeCycleCovers | internal/monitor/kuma/client.go:165-239 | in any run, a cycle whose create calls all succeed ends with a monitor with the key of each of its routers, and with the very monitor a router wants exactly under the condition above |
| KumaRuns.FaultFreeCycleHandsOn | internal/monitor/kuma/client.go:165-239 | and in any run it has handed on each of its routers that has a URL, once and in order, with the id of a monitor that has its key |
| KumaRuns.SettledForGood | internal/monitor/kuma/client.go:165-226 | after such a cycle no create call is ever sent again for its routers without `allow_duplicates`, through any later restarts, reconnects and failures |
| KumaClient.Client.constructor | internal/monitor/kuma/client.go:34-50 | a client started when the logs begin is the initial state, with its first connection attempt under way |
| KumaClient.Client.Restarted | internal/monitor/kuma/client.go:34-50 | a client started after another was stopped, at any point, goes on with that one's run by a restart and remembers nothing |
| KumaClient.Client.Background | internal/monitor/kuma/client.go:67-85 | the goroutine may finish at any point, and changes nothing under a caller that holds a client |
| KumaClient.Client.EnsureConnected | internal/monitor/kuma/client.go:52-88 | takes one step of the protocol; lets the caller through exactly when there is a client |
| KumaClient.Client.Fetch | internal/monitor/kuma/client.go:112-116 | a fetch on a live client; a failure drops client, managers and the synced flag together |
| KumaClient.Client.LearnMonitor | internal/monitor/kuma/client.go:118-131 | takes one learning step of the protocol |
| KumaClient.Client.DoSync | internal/monitor/kuma/client.go:110-147 | runs the protocol from a connected caller to a synced client, or to a dropped connection |
| KumaClient.Client.FindMonitor | internal/monitor/kuma/client.go:195-207 | finds the id that the protocol's lookup gives |
| KumaClient.Client.CreateMissing | internal/monitor/kuma/client.go:209-223 | one creation is one step of the protocol: one call is sent, and on success the monitor is remembered and handed on |
| KumaClient.Client.HandOnFound | internal/monitor/kuma/client.go:228-236 | a monitor that was found is handed on, unless its id is 0 |
| KumaClient.Client.VisitRouter | internal/monitor/kuma/client.go:181-237 | one router is one step of the protocol: passed over without a URL; handed on with the id its key is remembered with; or created by one call and handed on with its id |
| KumaClient.Client.VisitRouters | internal/monitor/kuma/client.go:165-239 | the loop hands on monitors for its routers only and, where no call fails and no id is 0, for each with a URL, once and in order |
| KumaClient.Client.SyncState | internal/monitor/kuma/client.go:102-108 | is a run of the protocol with this as its one call, back to idle |
| KumaClient.Client.Process | internal/monitor/kuma/client.go:149-240 | is a run of the protocol with this as its one call, back to idle, wherever the background attempt ends; it hands on monitors for its routers only and, with a client on a reliable server without ids of 0, for each router with a URL, once and in order |
| KumaClient.Client.ServerHasNoRepeats | internal/monitor/kuma/client.go:149-240 | so behind any chain of clients, each restarted after the one before, Uptime Kuma has had no key created twice without `allow_duplicates` |
| TagDefs.BuildTagDefs | internal/monitor/kuma/tag_manager.go:148-192 | the closure with its tracker computes the tag list of default tags followed by the label's |
| TagDefs.FirstNameWins | internal/monitor/kuma/tag_manager.go:152-179 | the tags have distinct names, exactly those that occur, and each is what the first raw tag of its name says |
| TagDefs.BuildGrows | internal/monitor/kuma/tag_manager.go:181-191 | further raw tags only append, so tags come in order of first occurrence |
| TagDefs.PanicsIff | internal/monitor/kuma/tag_manager.go:167-178 | building panics if and only if the first tag with some name has no colour and a name with the smallest hash |
| TagDefs.PlainTagBuilt | internal/monitor/kuma/tag_manager.go:152-175 | a tag without a colon, or with nothing behind it, is built under its own name, without blanks around it, with the colour that its hash picks |
| TagDefs.BlankTag | internal/monitor/kuma/tag_manager.go:152-155 | a blank tag builds nothing |
| TagDefs.ParseInvertsPrint | internal/monitor/kuma/tag_manager.go:152-165 | a tag written as name, colon, colour is read back |
| TagDefs.TagsLabelRoundTrip | internal/monitor/kuma/tag_manager.go:181-191 | distinct coloured tags written into the label are the tags built |
| AutoColor.GetAutoColor | internal/monitor/kuma/tag_manager.go:195-213 | the loop gives the colour of the tag's hash, or panics |
| AutoColor.HashIsPolynomial | internal/monitor/kuma/tag_manager.go:205-208 | the wrapping loop computes the start value times a power of 33 plus the text's number, wrapped once |
| AutoColor.WeightedConcat | internal/monitor/kuma/tag_manager.go:206-208 | the text's number of a concatenation is the left one shifted by the right length plus the right one |
| AutoColor.HashConcat | internal/monitor/kuma/tag_manager.go:206-208 | hashing a concatenation goes on from the hash of the first part |
| AutoColor.ColorExists | internal/monitor/kuma/tag_manager.go:209-212 | a tag has one of the 34 colours, that at its absolute hash modulo 34, if and only if its hash is not the smallest 64-bit integer, which gives index -26 |
| AutoColor.ColorlessTag | internal/monitor/kuma/tag_manager.go:205-212 | a tag of fourteen characters with that hash |
| Tags.AttachKeepsSound | internal/monitor/kuma/tag_manager.go:116-143 | the attached cache stays within what is attached if and only if no call was made or the answer was truthful |
| Tags.TagSends | internal/monitor/kuma/tag_manager.go:100-145 | one desired tag: its id is the cached one or the one its create call returns, which is then cached; the pair is sent unless it is cached or the id is 0; success, or an error that speaks of a duplicate, caches it |
| Tags.DuplicateMeans | internal/monitor/kuma/tag_manager.go:128-131 | an error counts as a duplicate if and only if it says unique constraint, or already, in any case |
| Tags.LearnTagsLast | internal/monitor/kuma/tag_manager.go:47-49 | a sync gives each listed name the last id listed for it |
| Tags.LearnTagsOthers | internal/monitor/kuma/tag_manager.go:47-49 | and leaves other names alone |
| Tags.CacheIsSound | internal/monitor/kuma/tag_manager.go:56-145 | over a manager's lifetime every cached pair is attached, given a truthful seed and truthful duplicate errors |
| Tags.NeverSentAgain | internal/monitor/kuma/tag_manager.go:116-143 | a pair once cached stays cached and is never sent again |
| Tags.SeededNeverSent | internal/monitor/kuma/tag_manager.go:56-67 | in any run a tag listed for a monitor is cached from then on and never sent for it |
| Tags.AnsweredNeverSentAgain | internal/monitor/kuma/tag_manager.go:124-143 | nor is a pair once it was answered for with success or as a duplicate |
| Tags.NoNameCreatedTwice | internal/monitor/kuma/tag_manager.go:70-97 | a manager creates no tag name twice |
| Tags.ListedNeverCreated | internal/monitor/kuma/tag_manager.go:37-52 | a tag that a sync has listed is never created |
| Tags.AttachesOnlyDesired | internal/monitor/kuma/tag_manager.go:100-145 | whatever fails, processing attaches to that monitor only, and only desired tags, and loses nothing |
| Tags.FaultFreeAttachesAll | internal/monitor/kuma/tag_manager.go:100-145 | when no call fails every desired tag with a non-zero id is attached afterwards |
| Tags.FaultFreeTagged | internal/monitor/kuma/tag_manager.go:100-145 | where moreover no tag has the id 0, the monitor has every desired tag, by the id of its name |
| TagManager.TagManager.SyncState | internal/monitor/kuma/tag_manager.go:37-52 | learns every listed tag, the last of a name winning, or nothing; a step of the manager's run |
| TagManager.TagManager.constructor | internal/monitor/kuma/tag_manager.go:27-34 | a new manager has empty caches and an empty history |
| TagManager.TagManager.HistoryFacts | internal/monitor/kuma/tag_manager.go:56-145 | so any manager, at any time, has created no tag name twice, has sent no pair again once cached, and caches only attached pairs if Uptime Kuma told the truth |
| TagManager.TagManager.SeedMonitorTags | internal/monitor/kuma/tag_manager.go:56-67 | adds exactly the monitor's listed pairs to the nested cache; a step of the manager's run, truthful where the pairs are attached |
| TagManager.TagManager.EnsureTag | internal/monitor/kuma/tag_manager.go:70-97 | creates a tag only when its name is unknown, and returns the cached id |
| TagManager.TagManager.AttachTag | internal/monitor/kuma/tag_manager.go:116-143 | sends a pair only when it is not cached; caches it on success or on a duplicate error |
| TagManager.TagManager.ProcessTag | internal/monitor/kuma/tag_manager.go:110-144 | one desired tag is one step of the manager's run, truthful on an honest server |
| TagManager.TagManager.ProcessTags | internal/monitor/kuma/tag_manager.go:100-145 | one call handles the tags built from its labels, in order, as steps of the manager's run; if building panics, none; whichever calls fail, each of the tags is known at the end or its creation was asked for |
| Gatus.SplitInvertsKey | internal/monitor/gatus/client.go:125-127 | splitting a key at its first slash gives back its endpoint if and only if the group has no slash |
| Gatus.ReachedIffClear | internal/monitor/gatus/client.go:125-128 | the delete for an endpoint's key reaches that endpoint if and only if its group has no slash and a query changes neither group nor name |
| GatusQuery.ReadAsMeant | internal/monitor/gatus/client.go:256 | the bridge reads from the query the endpoint meant if and only if group and name hold no ampersand, number sign, plus or escape |
| GatusQuery.ReadShrinks | internal/monitor/gatus/client.go:256 | what the bridge reads is the endpoint meant or one of smaller weight, where a plus weighs two and any other character one |
| GatusQuery.AmpersandExample | internal/monitor/gatus/client.go:256 | the group R&D is read as the group R |
| Gatus.ActiveIsKept | internal/monitor/gatus/client.go:123-133 | where every orphan's group and name mean themselves in a query, no active endpoint is removed, whatever fails |
| Gatus.ActiveIsKeptIff | internal/monitor/gatus/client.go:123-133 | an endpoint survives the cleanup for every combination of failures if and only if no orphan's delete reaches it; no active key is ever dropped |
| Gatus.RoundStaysInSync | internal/monitor/gatus/client.go:83-136 | one cycle with any failures keeps the tracked set equal to the bridge's keys where every inactive endpoint is one whose delete reaches it |
| Gatus.AddsByUrl | internal/monitor/gatus/client.go:101-120 | where calls succeed a cycle adds exactly the endpoint of each router with a URL whose key is neither tracked nor that of an earlier router with a URL |
| Gatus.TracksByUrl | internal/monitor/gatus/client.go:83-136 | whatever fails, a key tracked after a cycle was tracked before or is group/name of a router with a URL; where nothing fails these are all |
| Gatus.FaultFreeRemote | internal/monitor/gatus/client.go:83-136 | after a fault-free cycle the bridge has exactly what it had and what the cycle adds, without what a delete for a tracked key that no router with a URL wants reaches |
| Gatus.StaysInSyncIff | internal/monitor/gatus/client.go:83-136 | a client in sync is sure to stay so, for all failures and orders, if and only if every inactive endpoint has no slash in its group and nothing in group or name that a query changes |
| Gatus.CacheEqualsRemote | internal/monitor/gatus/client.go:74-136 | after a sync the tracked set equals the bridge's keys after every cycle of every run, whichever calls fail, where every endpoint that is there or becomes wanted with a URL can be deleted or stays active |
| Gatus.DropAllFacts | internal/monitor/gatus/client.go:123-133 | cleanup drops no active key and removes only endpoints that an orphan's delete reaches; when nothing fails, all tracked orphans go and all endpoints reached |
| Gatus.FaultFreeConverges | internal/monitor/gatus/client.go:83-136 | a fault-free cycle tracks exactly the active keys, and the bridge has exactly those if and only if every inactive endpoint it had was one whose delete reaches it |
| Gatus.CleanupOrderIrrelevant | internal/monitor/gatus/client.go:123-133 | the order in which the map yields tracked keys makes no difference to a fault-free cleanup |
| Gatus.UnclearLeaks | internal/monitor/gatus/client.go:123-133 | an orphan whose delete does not reach it is forgotten but stays on the bridge |
| Gatus.UnclearExamples | internal/monitor/gatus/client.go:125-128 | a group with a slash and a group with an ampersand are such cases |
| Gatus.MisreadExample | internal/monitor/gatus/client.go:252-280 | the delete for an orphan of the group R&D removes an active endpoint of the group R, which stays tracked |
| GatusClient.Client.SyncState | internal/monitor/gatus/client.go:43-81 | adds the keys of all listed endpoints, or nothing on failure |
| GatusClient.Client.AddWanted | internal/monitor/gatus/client.go:89-120 | the add phase computes the active keys and asks the bridge to add what is wanted and untracked, router after router, whichever calls fail |
| GatusClient.Client.AddRouter | internal/monitor/gatus/client.go:105-119 | one router gets a call exactly if it has a URL and its key is not tracked; the key is tracked if the call succeeds |
| GatusClient.Client.CleanUp | internal/monitor/gatus/client.go:123-133 | the cleanup meets every tracked key in some order, asks for a delete for each orphan with a slash, whichever fail, and drops those whose deletion is acknowledged, whatever it reached |
| GatusClient.Client.DropKey | internal/monitor/gatus/client.go:124-132 | one tracked key gets a call exactly if it is not active and has a slash, for the group before the first slash and the name behind it; it is dropped if the call succeeds |
| GatusClient.Client.Process | internal/monitor/gatus/client.go:83-136 | one cycle stays in sync whatever fails where every inactive endpoint can be deleted; on a reliable bridge it ends with exactly the active endpoints if and only if that is so; whatever fails, each router with a URL is tracked at the end or was asked for, and deletes were asked for exactly for the tracked keys with a slash that no router with a URL wants |

## Left out

- HTTP, socket.io, JSON and the Cloudflare, Docker and Kuma libraries; only stores, success and failure remain.
- Environment loading, logging, the health server, `main`, and the watcher's select loop.
- `buildHTTPMonitor`, `buildPayload`, `resolveMonitorURL`, `getMeshLabel`, `isEnabled`, `formatTitleFromSlug` and the
  routers they read: one-branch facts about labels; their results are inputs of the model.
- Dry run: tags and status pages do not go through the executor, so no statement about the whole holds.
- The coordinator's client node, its HTTP endpoint and the pause between requests; a client node binds domains from its
  own cache, which nothing keeps up to date.
- Data races on memory: `pageGroupsCache` is modelled at the granularity of one attach or bind.
- Nested zones: `DnsZones.AlwaysBucketedIff` says which hosts are placed by map order; runs are stated for zones that are
  not nested.
- Monitor lists inside a group are sequences that an edit replaces; sharing of their backing arrays is not modelled,
  while that of the lists of groups is.
- `DnsClient.Client.Process`: cycles are atomic; a provider that changes between listing a zone and writing to it is not
  modelled.
- `KumaClient.Client.Process`: binding domains per router is a step of `CoordinatorRuns`, not of this protocol.
