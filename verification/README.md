# Verified model of the AmneziaWG panel core

This project models, in Dafny, the parts of the panel that keep state across goroutines and device failures or that
transform structured data, and proves what they promise:

- **Session tables and the event bus.** `RelayTable`, `EgressTable`, `ForwardTable` and `EventBus` are transition
  systems. A step is one critical section or one action between two critical sections; a run is any interleaving.
  `EventBusProgress` adds what the bus can always still do, `EventBusLosses` where it can lose an event.
- **Reconcile managers.** `InboundManager`, `OutboundManager`, `AwgManager` and `PortForward` are classes. Device calls
  are recorded in a ghost trace, and the outcome of every call that can fail is an argument, so each contract holds for
  every pattern of failures. `Devices` says what a trace amounts to; `PeerIndex` is the address lookup the manager
  refreshes.
- **The server configuration file.** `ConfRender`, `ConfParse`, `ConfStrip` and `ConfFingerprint` share one list of keys
  (`ConfModel`); `ConfRoundTrip` relates the printer to the parser, `ConfReadBack` spells out what is read field by
  field, `ConfStripExact` relates the stripper to both, and `ConfForeign` covers lines only other tools write. Values
  are strings of code points over small verified versions of Go's `strings` and `strconv` (`Text`).
- **Wire formats and parameters.** `Socks5` pairs each encoder with the other file's decoder; `Obfuscation` pairs the
  generator with its validator.
- **Accounting, ports, names, rewrites.** `Traffic`, `TrafficOverlap`, `Ports`, `PortTokens`, `Names`, `DnsRules`,
  `RateLimiter`, `TunnelRepair`, `Catalog`.

`dafny verify dfyconfig.toml` checks everything.

Ten statements one might expect are false of the code as it is written. Each has a lemma that says exactly when it
fails, and a run or an input that reaches the failure:

- After `Close` has swapped its table out, a pump of the UDP forward listener can delete a session that is not its own
  (`ForwardTable.CloseLetsPumpEvictIff`, `ForwardTable.ClosedListenerEvicts`).
- A session can be published after `UDPRelay.Close` without any new packet (`RelayTable.CloseIsFinalIff`,
  `RelayTable.ClosedTableRefills`).
- A session can be opened after a SOCKS5 UDP association was torn down (`EgressTable.CloseAllIsFinalIff`,
  `EgressTable.ResolvedTooLate`).
- Two collections that overlap bill the same bytes twice (`TrafficOverlap.BillsDrift`,
  `TrafficOverlap.OverlapExcessIff`, `TrafficOverlap.OverlapOverbills`); they can overlap because
  internal/web/web.go:352 starts the first tick outside the chain at internal/web/web.go:581 that skips a job still
  running.
- A change of peers can leave the peer fingerprint as it was, for a list of two or more peers whatever their fields hold
  (`ConfFingerprint.PeerFingerprintCollidesIff`).
- Stripping can leave an address, an MTU or a DNS server where the parser finds it (`ConfStripExact.StripLeavesIff`,
  `ConfStripExact.DoubledBracketLeaks`); a file the panel rendered never shows this.
- A set whose rekey time is white space only is accepted although sessions may be rejected before they are renewed
  (`Obfuscation.AcceptedRenewsIff`, `Obfuscation.BlankRekeyAccepted`): a comment at
  internal/amneziawg/params.go:217-218 says a blank side means the default, but the comparison reads it as zero.
- A 1.5 instance with a header range reads back as version 2 (`ConfRoundTrip.DetectedVersionNotAbove`,
  `ConfRoundTrip.RangeRaisesVersion`).
- Sweeping a key does change a later answer of the rate limiter when requests reach the lock out of order of time
  (`RateLimiter.AllAgreeIff`, `RateLimiter.OutOfOrderDiffers`), against the comment at
  internal/eventbus/filter.go:38-39.
- An AWG interface can stay up without being managed, because a failed Stop is ignored (`AwgManager.UpIsManagedIff`,
  `AwgManager.FailedStopLeaks`).

## Model

| member | source | states |
|---|---|---|
| RelayTable.EveryRun | internal/amneziawgnet/relay.go:401-467 | over every interleaving of Handle, pumps and Close: published sessions are open, no two sources share one, and every open session is published, held by the one Handle call that made it, or held by its own retired pump |
| RelayTable.RetireOnlyOwn | internal/amneziawgnet/relay.go:434-444 | a retiring pump unpublishes its own session everywhere and no other session anywhere |
| RelayTable.QuiescentIsEmpty | internal/amneziawgnet/relay.go:401-467 | with no Handle call and no pump left, nothing is open and nothing is published |
| RelayTable.CloseIsFinalIff | internal/amneziawgnet/relay.go:401-467 | after Close a session can appear again without a new packet exactly when a Handle call that has not published yet is in flight |
| RelayTable.ClosedTableRefills | internal/amneziawgnet/relay.go:401-467 | it happens: a packet arrives, Close runs, and its Handle call publishes afterwards |
| RelayTable.CloseClosesAll | internal/amneziawgnet/relay.go:458-467 | with no Handle call in flight or later, Close leaves open only sessions whose pump already retired, and none once the pumps are gone |
| RelayTable.SendsPublished | internal/amneziawgnet/relay.go:401-433 | a packet is only ever sent on a session that was published for its own source at some point of the run, never on the loser of a race |
| RelayTable.PublishedIsReused | internal/amneziawgnet/relay.go:401-433 | while a session stays published for a source, a packet of that source goes to it and no other session is made for it, whatever else runs |
| EgressTable.RetireRemovesOwn | internal/amneziawgnet/egress.go:520-573 | because check, dial and publish are one critical section, the pump's delete by key removes exactly its own session |
| EgressTable.NoLeak | internal/amneziawgnet/egress.go:520-573 | every open session has its pump, so no pump left means nothing open and nothing in the table; until teardown every session in the table is open |
| EgressTable.CloseAllCloses | internal/amneziawgnet/egress.go:542-548 | from every reachable state teardown closes every session of the table; what stays open has a pump that had already retired it |
| EgressTable.CloseAllIsFinalIff | internal/amneziawgnet/egress.go:460-563 | after teardown a session can be opened without reading a further datagram exactly when some datagram is still being delivered |
| EgressTable.ResolvedTooLate | internal/amneziawgnet/egress.go:474-484 | it happens: a name is still being resolved when the control connection closes |
| ForwardTable.RetireRemovesOwn | internal/amneziawgnet/portfwd_udp.go:60-124 | until Close swaps the table, the pump's delete by key removes exactly its own session |
| ForwardTable.PublishNeverOverwrites | internal/amneziawgnet/portfwd_udp.go:72-92 | the single reader never replaces a session in the table, before Close or after |
| ForwardTable.QuiescentIsEmpty | internal/amneziawgnet/portfwd_udp.go:60-136 | with the reader at rest and no pump left, nothing is open and nothing is in the table |
| ForwardTable.CloseLetsPumpEvictIff | internal/amneziawgnet/portfwd_udp.go:106-136 | after the swap some continuation lets a pump evict a foreign session exactly when the table was not empty at the swap and the reader had not stopped |
| ForwardTable.ClosedListenerEvicts | internal/amneziawgnet/portfwd_udp.go:60-136 | it happens: one packet from any source before Close is enough |
| ForwardTable.CloseClosesSwept | internal/amneziawgnet/portfwd_udp.go:126-136 | whatever runs between and after the halves of Close, every session the swap took out of the table is closed for good |
| EventBus.EveryRun | internal/eventbus/bus.go:41-175 | for every run: queues and channel within bounds, ids unique, each subscriber's handled + in progress + queued events an in-order subsequence of those offered, offered = handled + in progress + queued + dropped, quit closed at most once, the wait group counts the running goroutines |
| EventBus.CurrentSubscriberMissesNothing | internal/eventbus/bus.go:115-152 | between fan-outs a current subscriber was offered everything dispatched since it joined, and its four counts add up to it |
| EventBus.PublicationOrder | internal/eventbus/bus.go:97-136 | what leaves the bus is a subsequence of what was published: nothing is reordered, repeated or made up |
| EventBus.NoWorkerAfterStop | internal/eventbus/bus.go:58-63 | once Stop has set its flag no worker is ever added |
| EventBus.MailboxIsProjection | internal/eventbus/bus.go:115-152 | a subscriber's queue, deliveries and drops are determined by the actions on that subscriber alone |
| EventBus.DropsDependOnOwnQueue | internal/eventbus/bus.go:108-136 | two runs that treat one subscriber alike leave it with the same drops, whatever the others do |
| EventBusLosses.LostOnlyToFullChannel | internal/eventbus/bus.go:97-106 | over every run, what got into the channel is exactly the events whose Publish found room, in order; the others are as many as the publishes that met a full channel |
| EventBusLosses.PublishedAccount | internal/eventbus/bus.go:97-121 | published = dispatched + in hand + buffered + lost; while no Publish met a full channel the first three, in order, are exactly what was published |
| EventBusLosses.DroppedOnlyByFullQueue | internal/eventbus/bus.go:123-136 | over every run a subscriber gets exactly the events offered while its queue had fewer than 64, in order, and drops exactly those that met a full queue |
| EventBusLosses.SubscribeTakesEffect | internal/eventbus/bus.go:58-81 | before Stop, subscribing makes one new current subscriber of the id that starts with the next event, in place of the old one; all others stay |
| EventBusLosses.UnsubscribeTakesEffect | internal/eventbus/bus.go:84-93 | exactly the subscriber of that id leaves |
| EventBusProgress.DispatcherNeverStalls | internal/eventbus/bus.go:108-136 | whatever the queues hold, a dispatcher that is handing out an event can go on |
| EventBusProgress.FanEnds | internal/eventbus/bus.go:123-131 | the hand-out ends by itself after one offer to each subscriber left |
| EventBusProgress.StopReturns | internal/eventbus/bus.go:164-175 | once done is closed, from every reachable state the goroutines can end by themselves and the wait group reaches zero |
| Devices.WorldMeans | internal/amneziawgnet/device.go:120-165 | the state replayed from a trace says exactly which devices were created, closed, attached, and what each last accepted, indexed and forwarded |
| Devices.OrderlyMeans | internal/amneziawgnet/manager.go:208-233 | in an orderly trace every call fitted the calls before it: handlers before the first IpcSet, relays swept after their device closed |
| InboundManager.Manager.Close | internal/amneziawgnet/manager.go:73-79 | port forwards, device and relay are closed in this order, and the inbound is forgotten |
| InboundManager.Manager.Configure | internal/amneziawgnet/device.go:150-165 | success exactly if the configuration renders, is accepted and the device comes up, by exactly those calls; any failure gives the calls up to it and a close, and leaves no live device |
| InboundManager.Manager.Prepare | internal/amneziawgnet/manager.go:192-223 | a new device gets its peer index and its handlers before it is configured |
| InboundManager.Manager.Build | internal/amneziawgnet/manager.go:188-247 | a rebuild enters the map exactly if every device call succeeds, and otherwise leaves nothing behind |
| InboundManager.Manager.Refresh | internal/amneziawgnet/manager.go:163-176 | a no-op tick stores the peer index and reconciles the port forwards, and nothing else |
| InboundManager.Manager.Install | internal/amneziawgnet/manager.go:240-246 | a configured device enters the map and its port forwards open |
| InboundManager.Manager.Reset | internal/amneziawgnet/manager.go:177-185 | the recorded configuration moves exactly with an accepted IpcSet |
| InboundManager.Manager.EnsureLocked | internal/amneziawgnet/manager.go:133-247 | succeeds exactly when the needed device calls do; success means the desired interface runs; an unchanged one sees no IpcSet; the same address and MTU never cost the device; no other inbound is touched |
| InboundManager.Manager.Update | internal/amneziawgnet/manager.go:151-186 | in place: no IpcSet when the text is unchanged, one otherwise; success refreshes index and forwards |
| InboundManager.Manager.CloseUnwanted | internal/amneziawgnet/manager.go:279-287 | exactly the interfaces outside the set are closed |
| InboundManager.Manager.Reconcile | internal/amneziawgnet/manager.go:271-293 | nothing outside the desired list survives; failures are each inbound's own; everything not failed runs as desired; repeating an applied list issues only the refreshes |
| InboundManager.Manager.Remove | internal/amneziawgnet/manager.go:299-310 | the inbound, and only it, is gone |
| InboundManager.Manager.StopAll | internal/amneziawgnet/manager.go:313-321 | no interface and no live device remains |
| InboundManager.Manager.RunAll | internal/amneziawgnet/manager.go:108-321 | any sequence of operations with any outcomes keeps the manager consistent |
| InboundManager.ValidMeans | internal/amneziawgnet/manager.go:73-321 | consistency over the trace: live devices are exactly those in the map, each brought up and running the last configuration it accepted, with the peer index and port forwards of the interface last asked for; handlers precede every IpcSet; relays are swept after their device; a closed device has relay and forwards closed |
| OutboundManager.Registry.SetStack | internal/amneziawgnet/egress.go:78-97 | the tag's device and resolver are replaced, nothing else |
| OutboundManager.Registry.DeleteStack | internal/amneziawgnet/egress.go:100-106 | the tag loses device and resolver, nothing else |
| OutboundManager.Manager.Close | internal/amneziawgnet/outbound_manager.go:127-132 | device closed, registration dropped, tag forgotten together |
| OutboundManager.Manager.Make | internal/amneziawgnet/client_device.go:125-140 | the exact calls: created, configured, brought up; a device that is refused or does not come up is closed again; one that is returned is up and runs the configuration |
| OutboundManager.Manager.Build | internal/amneziawgnet/outbound_manager.go:133-143 | a fresh device is managed and registered exactly if every call succeeds |
| OutboundManager.Manager.Update | internal/amneziawgnet/outbound_manager.go:114-125 | in place: no device call when the text is unchanged, one IpcSet otherwise, registration refreshed on success |
| OutboundManager.Manager.Rebuild | internal/amneziawgnet/outbound_manager.go:127-143 | a failed rebuild leaves the tag neither managed nor registered |
| OutboundManager.Manager.EnsureLocked | internal/amneziawgnet/outbound_manager.go:101-144 | succeeds exactly when the needed calls do; success means running and resolving as desired; a configuration that does not render changes nothing; an unchanged outbound sees no device call |
| OutboundManager.Manager.Reconcile | internal/amneziawgnet/outbound_manager.go:57-97 | no tag outside the list survives, failures are each outbound's own, an applied list costs no device call, the empty list frees the listener |
| OutboundManager.Manager.Remove | internal/amneziawgnet/outbound_manager.go:147-158 | the tag, and only it, is gone |
| OutboundManager.Manager.StopAll | internal/amneziawgnet/outbound_manager.go:162-171 | no tag, no registration, no live device, no listener remains |
| OutboundManager.Manager.RunAll | internal/amneziawgnet/outbound_manager.go:57-171 | the registry matches the managed tags after any sequence of operations with any outcomes |
| OutboundManager.RegistryServesOpenDevices | internal/amneziawgnet/outbound_manager.go:57-171 | whenever the lock is free: a tag is registered exactly when managed, with its own open device that was brought up and runs the recorded configuration, and no open device lacks a tag |
| AwgManager.Manager.EnsureLocked | internal/awg/manager.go:105-155 | an interface that stays sees at most a sync, and only if its peers changed; one that is down or changed is stopped, then started; a failed sync stays due; the traffic baseline is blanked exactly when something moved |
| AwgManager.Manager.Refresh | internal/awg/manager.go:116-130 | the running branch: what it records and when it syncs |
| AwgManager.Manager.Forget | internal/awg/manager.go:131-132 | the entry goes whether or not the interface does |
| AwgManager.Manager.Restart | internal/awg/manager.go:131-155 | the restart branch: a start that fails leaves the inbound without an entry |
| AwgManager.Manager.Launch | internal/awg/manager.go:134-155 | the interface is managed exactly if its file was written and it started |
| AwgManager.Manager.EditPeers | internal/awg/manager.go:105-130 | a peer edit on a running interface never stops or starts it; over fields without a bar the peers are synced exactly when they changed |
| AwgManager.Manager.Remove | internal/awg/manager.go:165-172 | the inbound, and only it, is no longer managed |
| AwgManager.Manager.ForgetUnwanted | internal/awg/manager.go:201-215 | exactly the interfaces outside the set are forgotten |
| AwgManager.Manager.Reconcile | internal/awg/manager.go:190-243 | nothing outside the desired list stays managed; with distinct ids each entry fails, and is managed afterwards, exactly as its own outcomes decide, and what did not fail has its own tag, device section and peers; an applied and running list costs no call |
| AwgManager.Manager.EnsureAll | internal/awg/manager.go:233-242 | the loop over the list goes on after a failure and settles every entry by its own outcomes |
| AwgManager.Manager.StopAll | internal/awg/manager.go:390-403 | nothing stays managed |
| AwgManager.Manager.RunAll | internal/awg/manager.go:73-403 | any sequence of operations with any outcomes keeps the account of interfaces that are up |
| AwgManager.UpIsManagedOrLeaked | internal/awg/manager.go:105-403 | after any run, an interface started and not stopped since is managed, or a Stop of it failed and nothing about it succeeded since |
| AwgManager.UpIsManagedIff | internal/awg/manager.go:105-403 | the interfaces that are up are exactly the managed ones if and only if no Stop was in vain |
| AwgManager.FailedStopLeaks | internal/awg/manager.go:165-172 | a failed Stop does leave an interface up that is not managed |
| ConfRender.RenderInterface | internal/awg/manager.go:915-1026 | the text is, line for line, what each field of the instance calls for under its own name and condition, in this order |
| ConfRender.OrderInFile | internal/awg/manager.go:922-1026 | the order of the lines |
| ConfRender.RenderPeer | internal/awg/manager.go:1027-1043 | one peer block; an absent key or address is left out |
| ConfRender.RenderServerConf | internal/awg/manager.go:915-1045 | those lines, then one block per peer |
| ConfRender.NlaBytesMeans | internal/awg/cps_budget.go:40-42 | header, text and terminator rounded up to whole words, never by a word too many |
| ConfRender.ConfValue | internal/awg/instance.go:68-75 | what is kept holds no line break and adds no character |
| ConfParse.ParseServerConf | internal/awg/import_parse.go:76-162 | the line loop computes the parse as a function of the text |
| ConfModel.KeyOfName | internal/awg/import_parse.go:164-231 | every key the parser knows is read from its own printed name, and the three awg-quick keys are not |
| ConfRoundTrip.RoundTrip | internal/awg/manager.go:915-1045 | for every instance, parsing the rendered file gives the written value or zero for each field, the first address, the peers in order |
| ConfReadBack.ReadBack | internal/awg/manager.go:915-1045 | for every instance and host, each key read from the rendered file has the value of the instance's own field, S3 and S4 from version 2 on, timers, key and flags where version and module allow them, I1 to I5 exactly when the version is not 1.5 and together they fit |
| ConfReadBack.TextReadBack | internal/awg/import_parse.go:76-162 | a trimmed text without line breaks comes back as it is |
| ConfReadBack.RoundTripClean | internal/awg/import_parse.go:76-257 | with trimmed values and non-blank public keys every peer comes back as it was, in order, next to every field |
| ConfReadBack.FileLinesExpected | internal/awg/manager.go:915-1045 | the lines of the file are the marker, the section, the line of each key word for word, and the peers |
| ConfReadBack.PaddingsInFile | internal/awg/manager.go:937-938 | S1 and S2 stand in the file under their own names |
| ConfReadBack.LatePaddingsInFile | internal/awg/manager.go:942-945 | and so do S3 and S4 from version 2 on |
| ConfForeign.CommentLine | internal/awg/import_parse.go:106-129 | a comment in a peer block sets expiry, original addresses or, if it is the first other one, the name |
| ConfForeign.ExpiryLine | internal/awg/import_parse.go:114-119 | a printed expiry time is read back |
| ConfForeign.EndpointLine | internal/awg/import_parse.go:139-148 | an endpoint line sets the endpoint of the open peer and nothing else |
| ConfForeign.KeepaliveLine | internal/awg/import_parse.go:139-150 | a keepalive line sets the keepalive of the open peer and nothing else |
| ConfForeign.ContainsMeans | internal/awg/import_parse.go:87-89 | the search behind the suspended mark finds the address anywhere in the list |
| ConfForeign.FirstEntryKept | internal/awg/import_parse.go:174-180 | of a list of resolvers or addresses the first entry is kept |
| ConfForeign.MarksRaise | internal/awg/import_parse.go:242-257 | each mark of a version raises the detected version at least to it |
| ConfForeign.TimersRaise | internal/awg/import_parse.go:242-257 | any timer that is set raises it at least to 3 |
| ConfForeign.TextsRaise | internal/awg/import_parse.go:242-257 | any signature packet and any header range raises it at least to 2 |
| ConfRoundTrip.DetectedVersionNotAbove | internal/awg/import_parse.go:242-257 | the detected version is not above the instance's exactly unless a 1.5 instance carries a header range |
| ConfRoundTrip.RangeRaisesVersion | internal/awg/import_parse.go:242-257 | any instance declared as 1.5 with the header range 1-2 reads back as version 2 |
| ConfRoundTrip.ValidHeadersNotAbove | internal/awg/instance.go:409-428 | with headers that pass validation the version never rises |
| ConfStrip.StripAwgQuick | internal/awg/manager.go:1053-1078 | for every text, what is left is every line in order but the awg-quick keys under an Interface header |
| ConfStrip.StripIsRemaining | internal/awg/manager.go:1047-1078 | the loop's flag removes exactly the lines the last header before them says |
| ConfStrip.StripIdempotent | internal/awg/manager.go:1053-1078 | stripping a stripped text changes nothing, for every text |
| ConfStrip.StripPreserves | internal/awg/manager.go:1047-1078 | for every text, peers, version and all interface fields but address, MTU and DNS parse the same after stripping |
| ConfStripExact.StrippedRendering | internal/awg/manager.go:1047-1078 | for every instance and host, the stripped file is the rendered one without the lines of Address, MTU, Table, PostUp and PostDown, all others in order |
| ConfStripExact.StrippedRenderingParses | internal/awg/manager.go:1047-1078 | it reads back with address, MTU and DNS zero, and every other field and all peers as written |
| ConfStripExact.StripLeavesIff | internal/awg/manager.go:1053-1078 | for every text, the parser still finds one of the three keys exactly when a line assigns it under a header the parser takes for Interface and the stripper does not |
| ConfStripExact.DoubledBracketLeaks | internal/awg/manager.go:1065-1066 | a header with doubled brackets is such a header, for every key and value |
| ConfFingerprint.FingerprintIsDevice | internal/awg/instance.go:174-177 | the device fingerprint of a rendered file is its interface half |
| ConfFingerprint.PeersDoNotMoveFingerprint | internal/awg/instance.go:174-177 | instances that differ only in peers share a device fingerprint |
| ConfFingerprint.ComputePeerFingerprint | internal/awg/instance.go:179-185 | the loop computes the joined fields |
| ConfFingerprint.PeerFingerprintInjective | internal/awg/instance.go:179-185 | over fields without a bar, equal peer fingerprints mean equal peers and equal sections |
| ConfFingerprint.PeerFingerprintCollidesIff | internal/awg/instance.go:179-185 | another list of peers shares the fingerprint exactly when there are two or more peers or some field holds a bar |
| Traffic.CollectInterface | internal/awg/manager.go:468-516 | the new baseline is what was scraped, each client is reported exactly its delta, and the inbound total is the sum of its clients |
| Traffic.BillPeer | internal/awg/manager.go:478-493 | the clamped differences; a peer without a baseline bills nothing |
| Traffic.NeverOverbilled | internal/awg/manager.go:427-519 | over every run with one collection at a time, whatever resets, restarts and failures fall between snapshot, scrape and store, no peer is billed more than it transferred, in either direction |
| Traffic.BillsTelescope | internal/awg/manager.go:427-519 | without resets, what is billed is last baseline minus first, and the rest is still in the counter |
| TrafficOverlap.BillsDrift | internal/awg/manager.go:427-519 | over every run without resets, with any number of collections in flight, what is billed is last baseline minus first plus what the baseline moved under each call that stored |
| TrafficOverlap.OverlapExcessIff | internal/awg/manager.go:427-519 | two calls that took their snapshots before either stored bill the delta of the first to store on top, so the bills telescope if and only if that delta is zero |
| TrafficOverlap.OverlapOverbills | internal/awg/manager.go:427-519 | a run from the start of the panel that bills n bytes as 2 * n |
| Traffic.BaselinesConsistent | internal/awg/manager.go:115-152 | a baseline never stored is empty and both directions know the same peers, in every reachable state |
| Traffic.SameDelta | internal/mtproto/manager.go:429-452 | mtproto's one map without a flag gives the same deltas |
| Obfuscation.ValidateHeadersApart | internal/amneziawg/params.go:428-445 | accepted exactly when the header intervals are pairwise apart after blank defaults |
| Obfuscation.ValidateChain | internal/amneziawg/params.go:243-266 | accepted exactly when blank, or every tag is closed and known |
| Obfuscation.OneTag | internal/amneziawg/params.go:234-266 | a single tag with a value is accepted exactly when it is b, t, r, rc, rd, d, ds or dz |
| Obfuscation.Validate | internal/amneziawg/params.go:151-232 | the validator accepts exactly the sets that meet every stated bound |
| Obfuscation.AcceptedHeadersDisjoint | internal/amneziawg/params.go:426-445 | an accepted set gives four uint32 header intervals no value lies in two of |
| Obfuscation.RefusedHeadersMeet | internal/amneziawg/params.go:426-445 | well-formed headers are refused exactly when two intervals share a value |
| Obfuscation.HandshakesDiffer | internal/amneziawg/params.go:137-182 | padded initiation and response never have the same length, and each fits the smallest buffer |
| Obfuscation.AcceptedRenewsIff | internal/amneziawg/params.go:217-230 | every possible rekey precedes every possible reject, unless the rekey time is white space only and the reject time can fall to the default rekey time |
| Obfuscation.AcceptedTimers | internal/amneziawg/params.go:190-216 | every timer of an accepted set that is not blank is a window from at least one second |
| Obfuscation.BlankRekeyAccepted | internal/amneziawg/params.go:217-230 | such a set is accepted |
| Obfuscation.PrintedRange | internal/amneziawg/params.go:449-467 | a printed low-high range parses back to its bounds |
| Obfuscation.PrintedNumber | internal/amneziawg/params.go:449-467 | a printed number parses back to itself |
| Obfuscation.RandInt | internal/amneziawg/params.go:25-34 | a draw lies within its bounds, and is the minimum when the source fails |
| Obfuscation.GenerateHeaders | internal/amneziawg/params.go:125-135 | four valid headers, one per band, pairwise apart |
| Obfuscation.DrawS2 | internal/amneziawg/params.go:59-64 | the retry loop yields an S2 that avoids S1 + 56 |
| Obfuscation.Timers | internal/amneziawg/params.go:84-92 | every reject time exceeds every rekey time by at least 30 |
| Obfuscation.Generate | internal/amneziawg/params.go:51-111 | whatever the random source yields, the validator accepts the generated set and its sessions renew in time; it carries the key, both flags and one random signature packet |
| Names.Probe | internal/sub/clash_service.go:458-464 | probing ends within one more try than names taken, at the first free candidate |
| Names.Fallback | internal/sub/clash_service.go:483-490 | a fallback name is never empty |
| Names.EnsureUniqueNames | internal/sub/clash_service.go:451-468 | names end up non-empty and pairwise distinct, each the first free one for its base, and nothing else changes |
| Names.RenamedIsUnique | internal/sub/clash_service.go:447-468 | renaming makes names non-empty and distinct |
| Names.RenamedOne | internal/sub/clash_service.go:451-468 | the result is determined by the input |
| Names.UniqueNamesKept | internal/sub/clash_service.go:451-468 | names already unique and non-empty stay, so renaming twice is renaming once |
| Names.SlugEmail | internal/awg/import_parse.go:335-350 | only allowed characters, no punctuation at either end |
| Names.SanitizeEmail | internal/awg/import_parse.go:312-333 | a lower-case, non-empty, unused email, the first free one for its base |
| Names.CleanNameKept | internal/awg/import_parse.go:312-350 | a name that is a slug already is not changed but for its case |
| Names.AllocateEmails | internal/awg/import_build.go:30-71 | imported emails are pairwise distinct and differ from every reserved one, however capitalised |
| Ports.ParseForwardedPorts | internal/amneziawg/portfwd.go:20-46 | the valid tokens' specs, each once: remembering printed keys is remembering specs |
| Ports.SpecKeyInjective | internal/amneziawg/portfwd.go:38-42 | two specs with one printed key are one spec |
| PortTokens.TokenMeans | internal/amneziawg/portfwd.go:48-70 | a token is accepted exactly when it is a decimal port, or two with the first not above the second, and as exactly those ports |
| PortTokens.DecimalIsDigits | internal/amneziawg/portfwd.go:65-71 | a decimal port is digits of that value, after a plus sign or none |
| PortTokens.PrintedPort | internal/amneziawg/portfwd.go:57-70 | a printed port is read as itself |
| PortTokens.PrintedRange | internal/amneziawg/portfwd.go:48-56 | a printed range is read as itself, with or without white space around its ends |
| PortTokens.ListMeans | internal/amneziawg/portfwd.go:20-92 | a list joined by commas and semicolons includes a port exactly when one of its tokens names it |
| Ports.Includes | internal/amneziawg/portfwd.go:85-92 | true exactly when some spec covers the port |
| Ports.ExpandSpecs | internal/amneziawg/portfwd.go:124-142 | stopping at the limit gives what full expansion cut at the limit gives |
| Ports.Expand | internal/amneziawg/portfwd.go:108-110 | the same with the cap of 100 |
| Ports.ExpandedMeans | internal/amneziawg/portfwd.go:102-142 | strictly increasing, only covered ports, as many as are covered or the limit, all of them below the limit |
| Ports.ExceedsCap | internal/amneziawg/portfwd.go:117-119 | true exactly when more than 100 ports are covered |
| PortForward.DesiredTargets | internal/amneziawgnet/portfwd.go:115-135 | the last resolvable peer of an email gives its target |
| PortForward.TargetsMean | internal/amneziawgnet/portfwd.go:115-135 | an email has a target exactly when some peer of that email resolves |
| PortForward.ForwardingPeers | internal/amneziawgnet/portfwd.go:139-152 | exactly the peers with an email, a port spec and a target |
| PortForward.DesiredKeys | internal/amneziawgnet/portfwd.go:156-165 | exactly the keys of those peers' ports, on both protocols |
| PortForward.ForwardedPortOwner | internal/amneziawgnet/portfwd.go:169-178 | an owner exactly when a listener is wanted on the port, and one whose TCP and UDP keys are both wanted |
| PortForward.WantedPortsAreIncluded | internal/amneziawg/portfwd.go:72-110 | listeners are wanted only on included ports, at most 100 per peer, and on all of them below the cap |
| PortForward.PortForwardSet.CloseUnwanted | internal/amneziawgnet/portfwd.go:193-215 | exactly the listeners outside the set are closed |
| PortForward.PortForwardSet.OpenMissing | internal/amneziawgnet/portfwd.go:201-224 | exactly the missing keys that can be bound are opened, and open ones are not touched |
| PortForward.PortForwardSet.Reconcile | internal/amneziawgnet/portfwd.go:186-225 | open afterwards: wanted and open before or bindable now; kept listeners untouched; every listener opened is tracked or closed |
| PortForward.PortForwardSet.Close | internal/amneziawgnet/portfwd.go:241-249 | every listener ever opened is closed |
| PeerIndex.PeerIndex.constructor | internal/amneziawgnet/identity.go:29-41 | the entries that parse, in order |
| PeerIndex.PeerIndex.Lookup | internal/amneziawgnet/identity.go:48-62 | the longest matching prefix, the first among equals; nothing exactly when nothing matches |
| PeerIndex.MatchesNest | internal/amneziawgnet/identity.go:43-47 | of two matching prefixes the longer lies inside the shorter |
| Socks5.EncodeDatagram | internal/amneziawgnet/relay.go:304-322 | either side that reads the datagram recovers payload, port and address without zone, and the reserved bytes are zero |
| Socks5.SendToIsRead | internal/amneziawgnet/egress.go:460-499 | the egress reader recovers address, port and payload; the address exactly when it had no zone |
| Socks5.PumpIsReceived | internal/amneziawgnet/relay.go:327-375 | the relay recovers what the egress pump sent, exactly when the address had no zone |
| Socks5.ReadIsEncoded | internal/amneziawgnet/egress.go:631-653 | whatever the reader accepts for an address is the encoding of what it forwards, reserved bytes aside |
| Socks5.NamedIsRead | internal/amneziawgnet/egress.go:605-617 | a domain datagram is read back for every non-empty name, and an empty name is dropped |
| Socks5.NameReadIsEncoded | internal/amneziawgnet/egress.go:605-617 | nothing else is read as a name |
| Socks5.EncodeAuth | internal/amneziawgnet/relay.go:208-213 | whatever follows on the connection, the server reads back exactly these credentials if and only if both fit in 255 bytes |
| Socks5.AuthRoundTripIff | internal/amneziawgnet/egress.go:210-233 | the server reads back exactly the credentials sent, if and only if both fit in 255 bytes |
| Catalog.EveryRun | internal/pia/catalog.go:26-77 | over every interleaving: at most one fetch, refreshing set exactly while one caller fetches, each channel closed at most once, every result the parse of a signature-verified snapshot |
| Catalog.NobodyWaitsInVain | internal/pia/catalog.go:35-43 | a waiter's channel is closed, or one caller is fetching that will close it |
| Catalog.CacheAnswersAreFresh | internal/pia/catalog.go:28-34 | a cached answer was published less than the time to live ago |
| Catalog.CacheHitIff | internal/pia/catalog.go:28-34 | a call is answered from the cache exactly while there is a verified, non-empty listing of the right age |
| Catalog.FetcherAnswers | internal/pia/catalog.go:52-77 | the fetcher publishes and returns what its verified snapshot parses to |
| Catalog.PublishedIsServed | internal/pia/catalog.go:26-77 | whatever other callers do short of publishing, a call within the time to live after a publication gets that listing |
| Catalog.CloneRegions | internal/pia/catalog.go:79-86 | the same listing in fresh memory |
| Catalog.AnswersAfterTampering | internal/pia/catalog.go:26-86 | whatever callers write into the listings they were given, every later answer is the cached listing |
| DnsRules.BlockTypes | internal/database/db.go:1934-1950 | exactly the query types between 0 and 65535 that some item lists |
| DnsRules.ModeSpelled | internal/database/db.go:1923-1930 | drop and skip are read in any case and with any white space around them, and nothing else is |
| DnsRules.ComputeQTypeValue | internal/database/db.go:1978-1987 | the loop computes the stored value |
| DnsRules.LegacyRules | internal/database/db.go:1954-1974 | the built list answers every query as the legacy policy |
| DnsRules.Migrate | internal/database/db.go:1895-1950 | from the two legacy settings as saved, the built rules answer every query type as the legacy policy read from them |
| DnsRules.SameAnswer | internal/database/db.go:1952-1987 | for every mode, block list and query type the first matching rule gives the legacy answer |
| DnsRules.RewriteRules | internal/database/db.go:2037-2043 | in place: every numeric zero becomes text, changed reported exactly when something did |
| DnsRules.Rewrite | internal/database/db.go:2020-2053 | dns outbounds are repaired, no other is touched |
| DnsRules.DnsFolded | internal/database/db.go:2032-2032 | on ASCII names the outbounds taken for dns are those whose lower-case name is dns |
| DnsRules.FixIdempotent | internal/database/db.go:2018-2053 | the rewrite is idempotent |
| DnsRules.GeneratedNeedNoFix | internal/database/db.go:1976-1987 | the rewrite leaves generated lists alone |
| DnsRules.FixedRuleMeansItsNumber | internal/database/db.go:2018-2043 | after the rewrite a lone query type matches exactly itself, zero included |
| DnsRules.StoredBeforeIff | internal/database/db.go:1989-1990 | a lone query type stored as a number meant the legacy policy exactly when it was not zero |
| DnsRules.FixRestoresPolicy | internal/database/db.go:1989-2053 | the rewrite turns that list into one that means the legacy policy, for every block list |
| RateLimiter.RateLimiter.Prune | internal/eventbus/filter.go:42-52 | at most one sweep per cooldown, of exactly the expired keys |
| RateLimiter.RateLimiter.Allow | internal/eventbus/filter.go:25-36 | the answer and the new state as functions of the old state and the request |
| RateLimiter.SameAnswers | internal/eventbus/filter.go:25-52 | for requests in order of time, the answers are those of a limiter that never forgets |
| RateLimiter.KeepsNothingOld | internal/eventbus/filter.go:38-52 | nothing kept is older than twice the cooldown |
| RateLimiter.DiffersIff | internal/eventbus/filter.go:25-52 | while all answers agreed, the next one differs exactly when the request falls inside the cooldown of a key that a sweep with a later instant has overtaken |
| RateLimiter.AllAgreeIff | internal/eventbus/filter.go:25-52 | over every run in any order, all answers are those of the limiter that never forgets if and only if no request is too late in that sense |
| RateLimiter.OutOfOrderDiffers | internal/eventbus/filter.go:25-52 | a run in which an answer differs |
| RateLimiter.KeysDiffer | internal/eventbus/filter.go:26-26 | event types without a colon never share a key |
| TunnelRepair.TunnelTruth | internal/database/repair_tunnel_fields.go:164-198 | the first non-empty entry is the truth, and a conflict is flagged on a field exactly when two entries disagree on it |
| TunnelRepair.DisagreeIffDiffers | internal/database/repair_tunnel_fields.go:176-194 | comparing with the first entry finds every disagreement |
| TunnelRepair.KeylessCopies | internal/database/repair_tunnel_fields.go:200-215 | the non-empty keyless entries of each email, in order |
| TunnelRepair.RepairField | internal/database/repair_tunnel_fields.go:222-233 | a field becomes the wanted value exactly when that is non-empty, undisputed, and the old value is a keyless copy |
| TunnelRepair.RestoreTunnelFields | internal/database/repair_tunnel_fields.go:220-239 | each field restored exactly when it was overwritten; the count is positive exactly when the record changed |
| TunnelRepair.RepairRecords | internal/database/repair_tunnel_fields.go:63-83 | in place, every record is restored that way |
| TunnelRepair.ChangesOnlyToTruth | internal/database/repair_tunnel_fields.go:217-239 | a field changes only from a keyless copy and only to a non-empty value every tunnel entry holds |
| TunnelRepair.RepairIdempotent | internal/database/repair_tunnel_fields.go:217-239 | repairing twice is repairing once |

## Left out

- Processes, iptables, `ip`, awg-quick, sysfs probes, sockets, the netstack and timeouts: their outcomes are arguments
  or steps of the models.
- The session tables, the bus and the region cache are transition systems on values, because what matters about them is
  the interleaving of goroutines; in-place update of the Go maps and channels is a step of the model.
- Payload delivery in the session tables (the send after a lookup, the replies of a pump): only which sessions exist and
  are open is modelled.
- IPv6 host aliases (internal/amneziawgnet/v6alias.go), the DNS cache flush of the egress registry and logging.
- The text that buildUAPIConfig and buildClientUAPIConfig render and the two address fingerprints: functions given to
  the managers, so the results hold for any rendering.
- InboundManager.Manager.Reconcile: says which interfaces run only for desired lists with distinct ids; the other
  clauses hold for every list.
- AwgManager.Manager.Reconcile: says which interfaces are managed only for desired lists with distinct ids; the other
  clauses hold for every list.
- PortForward.PortForwardSet.Reconcile: is one uninterrupted call, as the manager's lock makes it; closing real sockets
  outside the set's own lock is not modelled.
- AwgManager leaves out adoption of foreign interfaces, and the routing, NAT, configuration files and orphan sweeps
  around its operations, which are foreign effects.
- EventBusProgress.StopReturns: says the goroutines can end, given that handlers return; it says nothing about a handler
  that never does.
- ConfRender.RenderServerConf: the routing hooks are given lines assumed to hold no line break, and the module probes
  are given flags.
- ConfParse.ParseServerConf: white space and letters are compared as code points; bytes that are no valid UTF-8 are not
  modelled, and case folding covers the letters that can fold to an ASCII word.
- Names.SanitizeEmail: takes the first eight characters of a key, where the code takes eight bytes, and lowers the
  letters whose lower case is ASCII.
- Obfuscation.Generate: covers the runs in which the S2 retry loop ends; base64 is a given decoder, and the generated
  header protection key is assumed to decode to 32 bytes or to be empty when the random source fails.
- Traffic follows one interface through the collector's loop; counters are unbounded integers, and the online list of
  CollectTraffic is not modelled.
- DnsRules starts from decoded outbounds and printed items; JSON decoding is not modelled, and how the core reads a
  query type follows the comments beside the code.
- TunnelRepair.RepairRecords: starts from entries as tunnelFieldsOf returns them; the database transaction and the
  second pass that drains keyless inbounds are not modelled.
- Socks5 leaves out the request and reply exchange over TCP and the invalid zero address.
- Catalog leaves out HTTP, RSA and JSON; the parser is a given function.
- PIA accounts, subscriptions beyond proxy names, the web service, the frontend and the installer add no state of this
  kind.
